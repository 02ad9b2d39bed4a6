/** The registration page's client-side checks: validateField for the six
    form fields, the five-criterion password strength score, the strength
    bar's colour and label, and the all-fields-valid gate of handleSubmit.
    Number.parseFloat is the parameter `parse` (None for NaN, otherwise the
    number in cents). */
module RegisterForm {
  import opened Ledger
  import opened Text
  import Registration

  /** One entry of the ValidationState object. */
  datatype FieldCheck = FieldCheck(isValid: bool, message: string)

  /** The `{ isValid: false, message: "" }` every field starts with. */
  const Unchecked: FieldCheck := FieldCheck(false, "")

  /** The six inputs of the form, named fullName, email, phone, password,
      confirmPassword and initialDeposit; the keys of formData and of the
      ValidationState object. */
  datatype Field = FullName | Email | Phone | Password | ConfirmPassword | InitialDeposit

  const Fields: set<Field> := {FullName, Email, Phone, Password, ConfirmPassword, InitialDeposit}

  /** A map with an entry for each of the six fields, as the formData and
      ValidationState objects have. */
  predicate Complete<T>(m: map<Field, T>) {
    forall f: Field :: f in m
  }

  /** The tick that starts every message of a valid field. */
  const Tick: char := '\U{2713}'

  // ------------------------------------------------------------ password

  predicate IsUpper(c: char) { 'A' <= c <= 'Z' }
  predicate IsLower(c: char) { 'a' <= c <= 'z' }

  /** The class [!@#$%^&*(),.?":{}|<>]. */
  predicate IsSpecial(c: char) {
    c in "!@#$%^&*(),.?\":{}|<>"
  }

  predicate HasUpper(s: string) { exists k :: 0 <= k < |s| && IsUpper(s[k]) }
  predicate HasLower(s: string) { exists k :: 0 <= k < |s| && IsLower(s[k]) }
  predicate HasDigit(s: string) { exists k :: 0 <= k < |s| && IsDigit(s[k]) }
  predicate HasSpecial(s: string) { exists k :: 0 <= k < |s| && IsSpecial(s[k]) }

  /** hasLength, hasUpper, hasLower, hasNumber and hasSpecial, in that order. */
  function Criteria(pw: string): (cs: seq<bool>)
    ensures |cs| == 5
  {
    [|pw| >= 8, HasUpper(pw), HasLower(pw), HasDigit(pw), HasSpecial(pw)]
  }

  /** The number of criteria that hold. */
  function Satisfied(cs: seq<bool>): (n: nat)
    ensures n <= |cs|
    ensures n == |cs| <==> forall i :: 0 <= i < |cs| ==> cs[i]
    decreases |cs|
  {
    if cs == [] then 0 else (if cs[0] then 1 else 0) + Satisfied(cs[1..])
  }

  /** The strength score: 20 points per satisfied criterion. */
  function Strength(pw: string): (s: nat)
    ensures s <= 100 && s % 20 == 0
  {
    20 * Satisfied(Criteria(pw))
  }

  /** Satisfied over five flags, written out. */
  lemma SatisfiedOfFive(a: bool, b: bool, c: bool, d: bool, e: bool)
    ensures Satisfied([a, b, c, d, e]) ==
      (if a then 1 else 0) + (if b then 1 else 0) + (if c then 1 else 0) + (if d then 1 else 0) + (if e then 1 else 0)
  {
    assert [e][1..] == [];
    assert [d, e][1..] == [e];
    assert Satisfied([d, e]) == (if d then 1 else 0) + (if e then 1 else 0);
    assert [c, d, e][1..] == [d, e];
    assert Satisfied([c, d, e]) == (if c then 1 else 0) + Satisfied([d, e]);
    assert [b, c, d, e][1..] == [c, d, e];
    assert Satisfied([b, c, d, e]) == (if b then 1 else 0) + Satisfied([c, d, e]);
    assert [a, b, c, d, e][1..] == [b, c, d, e];
  }

  /** At most one of five flags is false. */
  predicate AtLeastFour(a: bool, b: bool, c: bool, d: bool, e: bool) {
    (a && b && c && d) || (a && b && c && e) || (a && b && d && e) || (a && c && d && e) || (b && c && d && e)
  }

  /** A password is accepted (strength at least 80) exactly when at most one
      of the five criteria fails. */
  lemma StrongIffAtLeastFour(pw: string)
    ensures Strength(pw) >= 80 <==> AtLeastFour(|pw| >= 8, HasUpper(pw), HasLower(pw), HasDigit(pw), HasSpecial(pw))
  {
    SatisfiedOfFive(|pw| >= 8, HasUpper(pw), HasLower(pw), HasDigit(pw), HasSpecial(pw));
  }

  /** The bar's colour for a strength: red below 40, yellow below 80, the
      bank's blue otherwise. */
  function StrengthColor(strength: int): (c: string)
    ensures c == "bg-red-500" <==> strength < 40
    ensures c == "bg-yellow-500" <==> 40 <= strength < 80
    ensures c == "bg-[#00366F]" <==> strength >= 80
  {
    if strength < 40 then "bg-red-500"
    else if strength < 80 then "bg-yellow-500"
    else "bg-[#00366F]"
  }

  /** The label under the bar, on the same thresholds. */
  function StrengthText(strength: int): (t: string)
    ensures t == "Weak" <==> strength < 40
    ensures t == "Medium" <==> 40 <= strength < 80
    ensures t == "Strong" <==> strength >= 80
  {
    if strength < 40 then "Weak"
    else if strength < 80 then "Medium"
    else "Strong"
  }

  /** The password field's message for a strength below 80. */
  function StrengthMessage(strength: int): (m: string)
    ensures |m| > 0 && m[0] != Tick
  {
    if strength < 40 then "Weak password" else "Medium strength password"
  }

  /** A field's check: the tick and the valid text, or the error text. */
  function Verdict(ok: bool, valid: string, invalid: string): (r: FieldCheck)
    requires |invalid| > 0 && invalid[0] != Tick
    ensures r.isValid == ok && |r.message| > 0 && (r.message[0] == Tick <==> ok)
  {
    FieldCheck(ok, if ok then [Tick, ' '] + valid else invalid)
  }

  // ---------------------------------------------------------- the fields

  /** validateField's switch: the check of one field's new value. password is
      the form's current password (read by confirmPassword), parse is
      Number.parseFloat (read by initialDeposit). */
  function CheckField(name: Field, value: string, password: string, parse: string -> Option<int>): (r: FieldCheck)
    // a message starts with the tick exactly when the field is valid
    ensures |r.message| > 0 && (r.message[0] == Tick <==> r.isValid)
  {
    match name
    case FullName =>
      Verdict(NameShape(value), "Valid name", "Name must be at least 2 characters" + " and contain only letters")
    case Email =>
      Verdict(EmailShape(value), "Valid email", "Please enter a valid email address")
    case Phone =>
      Verdict(PhoneShape(value), "Valid phone number", "Please enter a valid phone number")
    case Password =>
      var strength := Strength(value);
      Verdict(strength >= 80, "Strong password", StrengthMessage(strength))
    case ConfirmPassword =>
      Verdict(value == password && |value| > 0, "Passwords match", "Passwords do not match")
    case InitialDeposit =>
      var amount := parse(value);
      Verdict(amount.Some? && amount.value >= Registration.MinDeposit, "Valid deposit amount", "Minimum deposit is $10")
  }

  /** The rule of each field: the name, e-mail and phone patterns, at least
      four password criteria, a non-empty confirmation equal to the password,
      and a deposit that reads as a number of at least $10. */
  lemma CheckFieldRules(name: Field, value: string, password: string, parse: string -> Option<int>)
    ensures var r := CheckField(name, value, password, parse);
      && (name == FullName ==> (r.isValid <==> NameShape(value)))
      && (name == Email ==> (r.isValid <==> EmailShape(value)))
      && (name == Phone ==> (r.isValid <==> PhoneShape(value)))
      && (name == Password ==>
            (r.isValid <==> AtLeastFour(|value| >= 8, HasUpper(value), HasLower(value), HasDigit(value), HasSpecial(value))))
      && (name == ConfirmPassword ==> (r.isValid <==> value != "" && value == password))
      && (name == InitialDeposit ==> (r.isValid <==> parse(value).Some? && parse(value).value >= Registration.MinDeposit))
  {
    StrongIffAtLeastFour(value);
  }

  /** The label reads "Strong" exactly when the password field is valid, and
      "Weak" exactly when its message says so. */
  lemma StrengthTextAgrees(pw: string, confirm: string, parse: string -> Option<int>)
    ensures StrengthText(Strength(pw)) == "Strong" <==> CheckField(Password, pw, confirm, parse).isValid
    ensures StrengthText(Strength(pw)) == "Weak" <==> CheckField(Password, pw, confirm, parse).message == "Weak password"
    ensures StrengthText(Strength(pw)) == "Medium" <==>
      CheckField(Password, pw, confirm, parse).message == "Medium strength password"
  {
  }

  /** The page and the register route disagree on passwords: "Aa1!" meets four
      criteria and is accepted by the page, but a request that is valid in
      every other respect is refused by the route as too short. */
  lemma ShortPasswordPassesPage(parse: string -> Option<int>, req: Registration.Request)
    requires req.password == "Aa1!" && req.fullName != "" && req.phone != "" && EmailShape(req.email)
    requires req.initialDeposit.Cents? && req.initialDeposit.cents >= Registration.MinDeposit
    ensures CheckField(Password, "Aa1!", "", parse).isValid
    ensures Registration.Validate(req) == Some(Registration.PasswordTooShort)
  {
    assert IsUpper("Aa1!"[0]) && IsLower("Aa1!"[1]) && IsDigit("Aa1!"[2]) && IsSpecial("Aa1!"[3]);
    StrongIffAtLeastFour("Aa1!");
  }

  // ------------------------------------------------------------ the form

  /** Every field other than confirmPassword is unchecked or shows the check
      of its value; a valid confirmPassword is non-empty. */
  ghost predicate ChecksShown(formData: map<Field, string>, validation: map<Field, FieldCheck>, parse: string -> Option<int>)
    requires Complete(formData) && Complete(validation)
  {
    && (forall f :: f in validation && f != ConfirmPassword ==>
          validation[f] == Unchecked || validation[f] == CheckField(f, formData[f], "", parse))
    && (validation[ConfirmPassword].isValid ==> formData[ConfirmPassword] != "")
  }

  /** Recording a value together with its check keeps the checks shown;
      only the confirmation reads the password. */
  lemma ChangeKeepsChecks(
    formData: map<Field, string>, validation: map<Field, FieldCheck>, parse: string -> Option<int>,
    name: Field, value: string, password: string)
    requires Complete(formData) && Complete(validation)
    requires ChecksShown(formData, validation, parse)
    ensures ChecksShown(formData[name := value], validation[name := CheckField(name, value, password, parse)], parse)
  {
  }

  /** The component's state: formData, validation and passwordStrength, plus
      the message and isLoading flags handleSubmit sets. */
  class Form {
    var formData: map<Field, string>
    var validation: map<Field, FieldCheck>
    var passwordStrength: nat
    var message: string
    var isLoading: bool
    const parse: string -> Option<int>

    /** The form's current password. */
    function CurrentPassword(): string
      reads this`formData
    {
      if Password in formData then formData[Password] else ""
    }

    /** Both objects hold the six fields; every field other than
        confirmPassword is unchecked or shows the check of its current value;
        the bar shows the strength of the current password. confirmPassword is
        checked only when it is typed in, so its flag may be stale with
        respect to the password; a valid flag still means it is non-empty. */
    ghost predicate Valid()
      reads this
    {
      && Complete(formData)
      && Complete(validation)
      && ChecksShown(formData, validation, parse)
      && passwordStrength == Strength(CurrentPassword())
    }

    /** handleSubmit's `Object.values(validation).every((field) =>
        field.isValid)`, field by field. A field still unchecked fails it. */
    function AllValid(): (b: bool)
      reads this`validation
      ensures b ==> forall f :: f in validation ==> validation[f] != Unchecked
    {
      forall f :: f in validation ==> validation[f].isValid
    }

    /** The submit button's `disabled` expression, over the values of the
        validation object. The button is disabled while loading or while
        some field is unchecked. */
    function SubmitDisabled(): (d: bool)
      reads this`isLoading, this`validation
      ensures isLoading ==> d
      ensures (exists f :: f in validation && validation[f] == Unchecked) ==> d
    {
      isLoading || !(forall c :: c in validation.Values ==> c.isValid)
    }

    constructor (parse: string -> Option<int>)
      ensures Valid() && this.parse == parse
      ensures formData == map f | f in Fields :: ""
      ensures validation == map f | f in Fields :: Unchecked
      ensures passwordStrength == 0 && message == "" && !isLoading
    {
      formData := map f | f in Fields :: "";
      validation := map f | f in Fields :: Unchecked;
      passwordStrength := 0;
      message := "";
      isLoading := false;
      this.parse := parse;
      forall f: Field ensures f in Fields {
        match f
        case FullName =>
        case Email =>
        case Phone =>
        case Password =>
        case ConfirmPassword =>
        case InitialDeposit =>
      }
      assert Criteria("") == [false, false, false, false, false];
      SatisfiedOfFive(false, false, false, false, false);
    }

    /** The `strength += 20` block of the password case. */
    static method PasswordStrength(value: string) returns (strength: nat)
      ensures strength == Strength(value)
    {
      SatisfiedOfFive(|value| >= 8, HasUpper(value), HasLower(value), HasDigit(value), HasSpecial(value));
      strength := 0;
      if |value| >= 8 { strength := strength + 20; }
      if HasUpper(value) { strength := strength + 20; }
      if HasLower(value) { strength := strength + 20; }
      if HasDigit(value) { strength := strength + 20; }
      if HasSpecial(value) { strength := strength + 20; }
    }

    /** validateField(name, value): store the field's check under its name,
        and for the password the new strength. Nothing else changes. */
    method ValidateField(name: Field, value: string)
      modifies this
      ensures validation == old(validation)[name := CheckField(name, value, old(CurrentPassword()), parse)]
      ensures passwordStrength == if name == Password then Strength(value) else old(passwordStrength)
      ensures formData == old(formData) && message == old(message) && isLoading == old(isLoading)
    {
      if name == Password {
        var strength := PasswordStrength(value);
        passwordStrength := strength;
      }
      validation := validation[name := CheckField(name, value, CurrentPassword(), parse)];
    }

    /** handleChange: record the value and check it. validateField reads the
        formData of the current render, before setFormData takes effect;
        only confirmPassword reads it, and it reads the password. */
    method HandleChange(name: Field, value: string)
      requires Valid()
      modifies this
      ensures Valid()
      ensures formData == old(formData)[name := value]
      ensures validation == old(validation)[name := CheckField(name, value, old(CurrentPassword()), parse)]
      ensures message == old(message) && isLoading == old(isLoading)
    {
      ChangeKeepsChecks(formData, validation, parse, name, value, CurrentPassword());
      ValidateField(name, value);
      formData := formData[name := value];
    }

    /** The final validation of handleSubmit: the form is sent only when all
        six fields are valid; otherwise the error message is shown. The
        request itself and its response are not part of this model. */
    method HandleSubmit() returns (body: Option<map<Field, string>>)
      modifies this
      ensures body.Some? <==> old(AllValid())
      ensures body.Some? ==> body.value == formData && message == "" && isLoading
      ensures body.None? ==> message == "Please fix all validation errors before submitting" && !isLoading
      ensures formData == old(formData) && validation == old(validation) && passwordStrength == old(passwordStrength)
    {
      isLoading := true;
      message := "";
      if !AllValid() {
        message := "Please fix all validation errors before submitting";
        isLoading := false;
        return None;
      }
      body := Some(formData);
    }
  }

  /** What passing the gate guarantees about the values sent: every field
      other than confirmPassword meets its rule as it stands, and
      confirmPassword is non-empty. */
  lemma SubmitGate(form: Form)
    requires form.Valid() && form.AllValid()
    ensures NameShape(form.formData[FullName])
    ensures EmailShape(form.formData[Email])
    ensures PhoneShape(form.formData[Phone])
    ensures form.passwordStrength >= 80 && Strength(form.formData[Password]) >= 80
    ensures form.parse(form.formData[InitialDeposit]).Some?
      && form.parse(form.formData[InitialDeposit]).value >= Registration.MinDeposit
    ensures form.formData[ConfirmPassword] != ""
  {
    var d, v, parse := form.formData, form.validation, form.parse;
    forall f | f != ConfirmPassword
      ensures v[f] == CheckField(f, d[f], "", parse) && CheckField(f, d[f], "", parse).isValid
    {
      assert v[f].isValid;
    }
    CheckFieldRules(FullName, d[FullName], "", parse);
    CheckFieldRules(Email, d[Email], "", parse);
    CheckFieldRules(Phone, d[Phone], "", parse);
    CheckFieldRules(InitialDeposit, d[InitialDeposit], "", parse);
    CheckFieldRules(Password, d[Password], "", parse);
    StrongIffAtLeastFour(d[Password]);
  }

  /** The button is enabled exactly when nothing is loading and the gate of
      handleSubmit would pass. */
  lemma ButtonMatchesGate(form: Form)
    ensures !form.SubmitDisabled() <==> !form.isLoading && form.AllValid()
  {
    var v := form.validation;
    if form.AllValid() {
      forall c | c in v.Values ensures c.isValid {
        var f :| f in v && v[f] == c;
      }
    }
    if forall c :: c in v.Values ==> c.isValid {
      forall f | f in v ensures v[f].isValid {
        assert v[f] in v.Values;
      }
    }
  }
}
