/** Character classes and string shapes used by the routes and the
    registration form: JavaScript's whitespace class, String.prototype.trim,
    the e-mail, name and phone patterns, and the decimal rendering of
    account numbers. */
module Text {

  /** JavaScript's WhiteSpace and LineTerminator characters: what the regular
      expression class \s matches and what String.prototype.trim removes. */
  predicate IsSpace(c: char) {
    || c == ' ' || c == '\t' || c == '\n' || c == '\r'
    || c == '\U{000B}' || c == '\U{000C}' || c == '\U{00A0}' || c == '\U{1680}'
    || ('\U{2000}' <= c <= '\U{200A}')
    || c == '\U{2028}' || c == '\U{2029}' || c == '\U{202F}' || c == '\U{205F}'
    || c == '\U{3000}' || c == '\U{FEFF}'
  }

  /** The class [a-zA-Z]. */
  predicate IsLetter(c: char) {
    ('a' <= c <= 'z') || ('A' <= c <= 'Z')
  }

  /** The class \d (ASCII digits only in JavaScript). */
  predicate IsDigit(c: char) {
    '0' <= c <= '9'
  }

  predicate IsDigits(s: string) {
    forall k :: 0 <= k < |s| ==> IsDigit(s[k])
  }

  // ---------------------------------------------------------------- trim

  /** The number of whitespace characters s starts with. */
  function LeadingSpaces(s: string): (n: nat)
    ensures n <= |s|
    ensures forall k :: 0 <= k < n ==> IsSpace(s[k])
    ensures n < |s| ==> !IsSpace(s[n])
    decreases |s|
  {
    if s == [] || !IsSpace(s[0]) then 0 else 1 + LeadingSpaces(s[1..])
  }

  /** The number of whitespace characters s ends with. */
  function TrailingSpaces(s: string): (n: nat)
    ensures n <= |s|
    ensures forall k :: |s| - n <= k < |s| ==> IsSpace(s[k])
    ensures n < |s| ==> !IsSpace(s[|s| - n - 1])
    decreases |s|
  {
    if s == [] || !IsSpace(s[|s| - 1]) then 0 else 1 + TrailingSpaces(s[..|s| - 1])
  }

  /** String.prototype.trim: s without its leading and trailing whitespace. */
  function Trim(s: string): (r: string)
    ensures |r| <= |s|
    ensures r != [] ==> !IsSpace(r[0]) && !IsSpace(r[|r| - 1])
  {
    var t := s[LeadingSpaces(s)..];
    t[..|t| - TrailingSpaces(t)]
  }

  /** Trim leaves exactly the stretch of s from its first to its last
      non-whitespace character: s = lead + Trim(s) + trail, with lead and
      trail all whitespace. */
  lemma TrimBounds(s: string) returns (p: nat, q: nat)
    ensures p <= q <= |s| && Trim(s) == s[p..q]
    ensures forall k :: 0 <= k < p ==> IsSpace(s[k])
    ensures forall k :: q <= k < |s| ==> IsSpace(s[k])
    ensures p < q ==> !IsSpace(s[p]) && !IsSpace(s[q - 1])
  {
    p := LeadingSpaces(s);
    var t := s[p..];
    var m := TrailingSpaces(t);
    q := p + |t| - m;
    assert t[..|t| - m] == s[p..q];
    forall k | q <= k < |s| ensures IsSpace(s[k]) {
      assert s[k] == t[k - p];
    }
    if p < q {
      assert s[q - 1] == t[|t| - m - 1];
    }
  }

  // ---------------------------------------------------------- full name

  /** The register page's fullName rule: `value.trim().length >= 2` and
      `/^[a-zA-Z\s]+$/`. */
  predicate NameShape(s: string)
    ensures NameShape(s) ==> |s| >= 2
  {
    && |Trim(s)| >= 2
    && |s| > 0
    && (forall k :: 0 <= k < |s| ==> IsLetter(s[k]) || IsSpace(s[k]))
  }

  /** A name is valid exactly when it is made of letters and whitespace and
      holds at least two letters. */
  lemma NameShapeIff(s: string)
    ensures NameShape(s) <==>
      && (forall k :: 0 <= k < |s| ==> IsLetter(s[k]) || IsSpace(s[k]))
      && (exists i, j :: 0 <= i < j < |s| && IsLetter(s[i]) && IsLetter(s[j]))
  {
    var p, q := TrimBounds(s);
    if (forall k :: 0 <= k < |s| ==> IsLetter(s[k]) || IsSpace(s[k])) {
      if |Trim(s)| >= 2 {
        assert IsLetter(s[p]) && IsLetter(s[q - 1]);
      }
      if exists i, j :: 0 <= i < j < |s| && IsLetter(s[i]) && IsLetter(s[j]) {
        var i, j :| 0 <= i < j < |s| && IsLetter(s[i]) && IsLetter(s[j]);
        assert !IsSpace(s[i]) && !IsSpace(s[j]);
        assert p <= i && j < q;
      }
    }
  }

  // -------------------------------------------------------------- e-mail

  /** The class [^\s@]. */
  predicate PlainChar(c: char) {
    !IsSpace(c) && c != '@'
  }

  /** [^\s@]+ */
  predicate Plain(t: string) {
    |t| > 0 && forall k :: 0 <= k < |t| ==> PlainChar(t[k])
  }

  /** The e-mail pattern `/^[^\s@]+@[^\s@]+\.[^\s@]+$/` of both the register
      route and the register page: local part, '@', a domain part, '.', and
      a last part, each a non-empty run free of whitespace and '@'. */
  predicate EmailShape(s: string)
    // the shortest address the pattern takes is one like "a@b.c"
    ensures EmailShape(s) ==> |s| >= 5
  {
    exists i, j :: 0 <= i < j < |s| && s[i] == '@' && s[j] == '.'
      && Plain(s[..i]) && Plain(s[i + 1..j]) && Plain(s[j + 1..])
  }

  /** Whitespace-free, with a single '@', not in first position, followed
      later by a '.' that has at least one character on each side. */
  predicate EmailLayout(s: string) {
    && (forall k :: 0 <= k < |s| ==> !IsSpace(s[k]))
    && (exists i :: 0 < i < |s| && s[i] == '@'
          && (forall k :: 0 <= k < |s| && k != i ==> s[k] != '@')
          && (exists j :: i + 1 < j < |s| - 1 && s[j] == '.'))
  }

  lemma EmailShapeHasLayout(s: string)
    requires EmailShape(s)
    ensures EmailLayout(s)
  {
    var i, j :| 0 <= i < j < |s| && s[i] == '@' && s[j] == '.'
      && Plain(s[..i]) && Plain(s[i + 1..j]) && Plain(s[j + 1..]);
    forall k | 0 <= k < |s| && k != i ensures !IsSpace(s[k]) && s[k] != '@' {
      if k < i {
        assert s[k] == s[..i][k];
      } else if k < j {
        assert s[k] == s[i + 1..j][k - i - 1];
      } else if k > j {
        assert s[k] == s[j + 1..][k - j - 1];
      }
    }
    assert i + 1 < j < |s| - 1;
  }

  lemma LayoutHasEmailShape(s: string)
    requires EmailLayout(s)
    ensures EmailShape(s)
  {
    var i :| 0 < i < |s| && s[i] == '@'
      && (forall k :: 0 <= k < |s| && k != i ==> s[k] != '@')
      && (exists j :: i + 1 < j < |s| - 1 && s[j] == '.');
    var j :| i + 1 < j < |s| - 1 && s[j] == '.';
    var local, domain, last := s[..i], s[i + 1..j], s[j + 1..];
    assert Plain(local) by {
      forall k | 0 <= k < |local| ensures PlainChar(local[k]) { assert local[k] == s[k]; }
    }
    assert Plain(domain) by {
      forall k | 0 <= k < |domain| ensures PlainChar(domain[k]) { assert domain[k] == s[i + 1 + k]; }
    }
    assert Plain(last) by {
      forall k | 0 <= k < |last| ensures PlainChar(last[k]) { assert last[k] == s[j + 1 + k]; }
    }
  }

  /** The pattern accepts exactly the strings of that layout. */
  lemma EmailShapeIff(s: string)
    ensures EmailShape(s) <==> EmailLayout(s)
  {
    if EmailShape(s) {
      EmailShapeHasLayout(s);
    }
    if EmailLayout(s) {
      LayoutHasEmailShape(s);
    }
  }

  // --------------------------------------------------------------- phone

  /** The class of `/^\+?[\d\s\-$$$$]{10,}$/` as written: a digit,
      whitespace, '-' or '$'. */
  predicate PhoneChar(c: char) {
    IsDigit(c) || IsSpace(c) || c == '-' || c == '$'
  }

  /** [\d\s\-$$$$]{10,} */
  predicate PhoneBody(t: string) {
    |t| >= 10 && forall k :: 0 <= k < |t| ==> PhoneChar(t[k])
  }

  /** The register page's phone pattern: an optional '+' and then at least ten
      characters of the class. A leading '+' can only be the optional one,
      since '+' is not in the class. */
  predicate PhoneShape(s: string)
    ensures PhoneShape(s) ==> |s| >= 10
  {
    if |s| > 0 && s[0] == '+' then PhoneBody(s[1..]) else PhoneBody(s)
  }

  /** Position by position: every character is in the class, except that the
      first may be '+', and there are at least ten class characters. */
  lemma PhoneShapeIff(s: string)
    ensures PhoneShape(s) <==>
      && |s| >= (if |s| > 0 && s[0] == '+' then 11 else 10)
      && (forall k :: 0 <= k < |s| ==> PhoneChar(s[k]) || (k == 0 && s[k] == '+'))
  {
    var plus := |s| > 0 && s[0] == '+';
    var body := if plus then s[1..] else s;
    var shift := if plus then 1 else 0;
    assert forall k :: 0 <= k < |body| ==> body[k] == s[k + shift];
    if PhoneShape(s) {
      forall k | 0 <= k < |s| ensures PhoneChar(s[k]) || (k == 0 && s[k] == '+') {
        if k >= shift { assert s[k] == body[k - shift];  }
      }
    }
    if && |s| >= (if plus then 11 else 10)
       && (forall k :: 0 <= k < |s| ==> PhoneChar(s[k]) || (k == 0 && s[k] == '+'))
    {
      forall k | 0 <= k < |body| ensures PhoneChar(body[k]) {
        assert body[k] == s[k + shift];
      }
      assert PhoneShape(s);
    }
  }

  // ------------------------------------------------------------- decimal

  function DigitChar(d: nat): (c: char)
    requires d < 10
    ensures IsDigit(c) && (c as int) - ('0' as int) == d
  {
    (('0' as int) + d) as char
  }

  function DigitValue(c: char): nat
    requires IsDigit(c)
  {
    (c as int) - ('0' as int)
  }

  /** Number.prototype.toString for a non-negative integer. */
  function NatToDecimal(n: nat): (s: string)
    ensures |s| >= 1 && IsDigits(s)
    ensures n >= 1 ==> s[0] != '0'
    decreases n
  {
    if n < 10 then [DigitChar(n)] else NatToDecimal(n / 10) + [DigitChar(n % 10)]
  }

  /** The value of a string of decimal digits. */
  function DecimalValue(s: string): nat
    requires IsDigits(s)
    decreases |s|
  {
    if s == [] then 0 else 10 * DecimalValue(s[..|s| - 1]) + DigitValue(s[|s| - 1])
  }

  function Pow10(k: nat): (p: nat)
    ensures p >= 1
  {
    if k == 0 then 1 else 10 * Pow10(k - 1)
  }

  lemma Pow10Values()
    ensures Pow10(8) == 100000000 && Pow10(9) == 1000000000
  {
    assert Pow10(1) == 10;
    assert Pow10(2) == 100;
    assert Pow10(3) == 1000;
    assert Pow10(4) == 10000;
    assert Pow10(5) == 100000;
    assert Pow10(6) == 1000000;
    assert Pow10(7) == 10000000;
  }

  /** Reading back the decimal rendering gives the number. */
  lemma {:induction false} DecimalRoundTrip(n: nat)
    ensures DecimalValue(NatToDecimal(n)) == n
    decreases n
  {
    var s := NatToDecimal(n);
    if n >= 10 {
      DecimalRoundTrip(n / 10);
      assert s[..|s| - 1] == NatToDecimal(n / 10);
    }
  }

  /** A number with k digits renders as k characters. */
  lemma {:induction false} DecimalLength(n: nat, k: nat)
    requires k >= 1 && Pow10(k - 1) <= n < Pow10(k)
    ensures |NatToDecimal(n)| == k
    decreases k
  {
    if n >= 10 {
      assert k >= 2;
      DecimalLength(n / 10, k - 1);
    }
  }
}
