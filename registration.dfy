/** Account creation in the register route: the validation chain, the e-mail
    uniqueness check, the bounded retry loop that picks a fresh account
    number, and the atomic insert of the account with its "Initial deposit"
    entry. This module holds the reference definition (Register) and what it
    guarantees; Bank.Bank.Register is the step-by-step implementation. */
module Registration {
  import opened Ledger
  import opened Text

  /** The initialDeposit field: absent or empty, text that parseFloat reads
      as NaN, or a number of cents. */
  datatype DepositInput = Absent | NotANumber | Cents(cents: int)

  /** The JSON body; a missing string field is "". */
  datatype Request = Request(fullName: string, email: string, phone: string, password: string, initialDeposit: DepositInput)

  datatype Outcome =
    | Registered(accountNumber: AccountNo)
    | FieldsRequired      // 400 "All fields are required"
    | DepositTooSmall     // 400 "Minimum initial deposit is $10"
    | InvalidEmail        // 400 "Please enter a valid email address"
    | PasswordTooShort    // 400 "Password must be at least 6 characters long"
    | ConnectionFailed    // 500 "Database connection failed. ..."
    | EmailTaken          // 400 "Email already registered"
    | OperationFailed     // 500 "Database operation failed. Please try again."

  datatype Result = Result(outcome: Outcome, store: Store)

  /** $10 in cents. */
  const MinDeposit: int := 1000
  const MinPasswordLength: nat := 6
  /** The loop gives up once `attempts > 10`. */
  const MaxAttempts: nat := 10
  const AccountNumberBase: nat := 100000000
  const AccountNumberSpan: nat := 900000000
  const InitialDepositText: string := "Initial deposit"

  // ----------------------------------------------------- account numbers

  /** generateAccountNumber, with u = Math.floor(Math.random() * 900000000):
      the decimal rendering of 100000000 + u, a nine-digit string without a
      leading zero that reads back as 100000000 + u. */
  function GenerateAccountNumber(u: nat): (s: AccountNo)
    requires u < AccountNumberSpan
    ensures |s| == 9 && IsDigits(s) && s[0] != '0'
    ensures DecimalValue(s) == AccountNumberBase + u
  {
    Pow10Values();
    DecimalLength(AccountNumberBase + u, 9);
    DecimalRoundTrip(AccountNumberBase + u);
    NatToDecimal(AccountNumberBase + u)
  }

  /** Distinct draws give distinct account numbers. */
  lemma GenerateInjective(u: nat, v: nat)
    requires u < AccountNumberSpan && v < AccountNumberSpan && u != v
    ensures GenerateAccountNumber(u) != GenerateAccountNumber(v)
  {
  }

  /** The random draws the loop will consume: at least one more than the
      attempts it accepts, each in the generator's range. */
  predicate ValidDraws(draws: seq<nat>) {
    |draws| > MaxAttempts && forall i :: 0 <= i < |draws| ==> draws[i] < AccountNumberSpan
  }

  function Candidate(draws: seq<nat>, i: nat): AccountNo
    requires ValidDraws(draws) && i < |draws|
  {
    GenerateAccountNumber(draws[i])
  }

  /** The retry loop from attempt k on: the index of the first of the
      candidates k .. MaxAttempts - 1 that is not taken, if there is one. */
  function PickFrom(taken: set<AccountNo>, draws: seq<nat>, k: nat): (r: Option<nat>)
    requires ValidDraws(draws) && k <= MaxAttempts
    ensures r.Some? ==> k <= r.value < MaxAttempts && Candidate(draws, r.value) !in taken
    ensures forall i :: k <= i < (if r.Some? then r.value else MaxAttempts) ==> Candidate(draws, i) in taken
    decreases MaxAttempts - k
  {
    if k == MaxAttempts then None
    else if Candidate(draws, k) !in taken then Some(k)
    else PickFrom(taken, draws, k + 1)
  }

  /** The whole retry loop: the first of the first ten candidates that is not
      already an account number, or None when all ten are taken. */
  function PickAccountNumber(taken: set<AccountNo>, draws: seq<nat>): (r: Option<nat>)
    requires ValidDraws(draws)
    ensures r.Some? ==> r.value < MaxAttempts && Candidate(draws, r.value) !in taken
    ensures forall i :: 0 <= i < (if r.Some? then r.value else MaxAttempts) ==> Candidate(draws, i) in taken
  {
    PickFrom(taken, draws, 0)
  }

  // ---------------------------------------------------------- validation

  /** `!fullName || !email || !phone || !password || !initialDeposit` */
  predicate MissingField(req: Request) {
    req.fullName == "" || req.email == "" || req.phone == "" || req.password == "" || req.initialDeposit.Absent?
  }

  /** `isNaN(depositAmount) || depositAmount < 10` */
  predicate DepositBelowMinimum(d: DepositInput) {
    d.NotANumber? || (d.Cents? && d.cents < MinDeposit)
  }

  /** The checks made before the database is opened. The first failing one
      decides the error. */
  function Validate(req: Request): (r: Option<Outcome>)
    ensures r == Some(FieldsRequired) <==> MissingField(req)
    ensures r == Some(DepositTooSmall) <==> !MissingField(req) && DepositBelowMinimum(req.initialDeposit)
    ensures r == Some(InvalidEmail) <==>
      !MissingField(req) && !DepositBelowMinimum(req.initialDeposit) && !EmailShape(req.email)
    ensures r == Some(PasswordTooShort) <==>
      !MissingField(req) && !DepositBelowMinimum(req.initialDeposit) && EmailShape(req.email)
      && |req.password| < MinPasswordLength
    ensures r.None? ==>
      && req.initialDeposit.Cents? && req.initialDeposit.cents >= MinDeposit
      && req.fullName != "" && req.phone != ""
      && EmailShape(req.email) && |req.password| >= MinPasswordLength
  {
    if MissingField(req) then Some(FieldsRequired)
    else if DepositBelowMinimum(req.initialDeposit) then Some(DepositTooSmall)
    else if !EmailShape(req.email) then Some(InvalidEmail)
    else if |req.password| < MinPasswordLength then Some(PasswordTooShort)
    else None
  }

  /** `SELECT id FROM accounts WHERE email = ?` finds a row. */
  predicate EmailRegistered(profiles: map<AccountNo, Profile>, email: string) {
    exists a :: a in profiles && profiles[a].email == email
  }

  // ------------------------------------------------------------ the call

  /** What one call of the route does, given the bcrypt hash of the password
      and the random draws. Only Registered changes the store, and then by
      exactly one account and its one initial entry. */
  function Register(st: Store, req: Request, hashed: string, draws: seq<nat>, fault: Fault): (res: Result)
    requires ValidDraws(draws)
    // all-or-nothing
    ensures !res.outcome.Registered? ==> res.store == st
    // the outcomes, in the order the route reaches them
    ensures Validate(req).Some? ==> res.outcome == Validate(req).value
    ensures res.outcome == ConnectionFailed <==> Validate(req).None? && fault == ConnectFails
    ensures res.outcome == EmailTaken <==>
      Validate(req).None? && fault != ConnectFails && EmailRegistered(st.profiles, req.email)
    ensures res.outcome == OperationFailed <==>
      && Validate(req).None? && fault != ConnectFails && !EmailRegistered(st.profiles, req.email)
      && (PickAccountNumber(st.balances.Keys, draws).None? || fault != NoFault)
    ensures res.outcome.Registered? <==>
      && Validate(req).None? && fault == NoFault && !EmailRegistered(st.profiles, req.email)
      && PickAccountNumber(st.balances.Keys, draws).Some?
    // a success
    ensures res.outcome.Registered? ==>
      var n := res.outcome.accountNumber;
      var d := req.initialDeposit.cents;
      && n == Candidate(draws, PickAccountNumber(st.balances.Keys, draws).value)
      && |n| == 9 && IsDigits(n) && n !in st.balances
      && res.store.profiles == st.profiles[n := Profile(req.fullName, req.email, req.phone, hashed)]
      && res.store.balances == st.balances[n := d]
      && res.store.entries == st.entries + [Entry(n, Credit, d, InitialDepositText)]
  {
    if Validate(req).Some? then Result(Validate(req).value, st)
    else if fault == ConnectFails then Result(ConnectionFailed, st)
    else if EmailRegistered(st.profiles, req.email) then Result(EmailTaken, st)
    else
      match PickAccountNumber(st.balances.Keys, draws)
      case None => Result(OperationFailed, st)
      case Some(k) =>
        if fault != NoFault then Result(OperationFailed, st)
        else
          var n := Candidate(draws, k);
          var d := req.initialDeposit.cents;
          Result(Registered(n), Store(st.profiles[n := Profile(req.fullName, req.email, req.phone, hashed)],
                                      st.balances[n := d],
                                      st.entries + [Entry(n, Credit, d, InitialDepositText)]))
  }

  /** Adding a fresh account with a positive opening balance, a new e-mail
      address and its one opening credit keeps the store consistent: the new
      balance is the signed sum of its one entry, the other accounts' sums
      are untouched, and e-mail addresses stay unique. */
  lemma AddAccountKeepsConsistency(st: Store, n: AccountNo, p: Profile, d: int)
    requires Consistent(st) && n !in st.balances && d > 0 && !EmailRegistered(st.profiles, p.email)
    ensures Consistent(Store(st.profiles[n := p], st.balances[n := d],
                             st.entries + [Entry(n, Credit, d, InitialDepositText)]))
  {
    var e := Entry(n, Credit, d, InitialDepositText);
    var st' := Store(st.profiles[n := p], st.balances[n := d], st.entries + [e]);
    NetOfOthers(st.entries, n);
    forall b | b in st'.balances
      ensures st'.balances[b] >= 0 && st'.balances[b] == Net(st'.entries, b)
    {
      NetAppend(st.entries, e, b);
    }
    assert forall i :: 0 <= i < |st.entries| ==> st'.entries[i] == st.entries[i];
    forall a, b | a in st'.profiles && b in st'.profiles && a != b
      ensures st'.profiles[a].email != st'.profiles[b].email
    {
      if a == n {
        assert !(b in st.profiles && st.profiles[b].email == p.email);
      } else if b == n {
        assert !(a in st.profiles && st.profiles[a].email == p.email);
      }
    }
  }

  /** A registration keeps the store consistent. */
  lemma RegisterPreservesConsistency(st: Store, req: Request, hashed: string, draws: seq<nat>, fault: Fault)
    requires ValidDraws(draws) && Consistent(st)
    ensures Consistent(Register(st, req, hashed, draws, fault).store)
  {
    var res := Register(st, req, hashed, draws, fault);
    if res.outcome.Registered? {
      AddAccountKeepsConsistency(st, res.outcome.accountNumber,
        Profile(req.fullName, req.email, req.phone, hashed), req.initialDeposit.cents);
    }
  }

  /** Reading a new account back (round trip): its balance is the deposit and
      its history is exactly the one "Initial deposit" credit. */
  lemma RegisteredHistory(st: Store, req: Request, hashed: string, draws: seq<nat>, fault: Fault)
    requires ValidDraws(draws) && Consistent(st)
    requires Register(st, req, hashed, draws, fault).outcome.Registered?
    ensures var res := Register(st, req, hashed, draws, fault);
      var n := res.outcome.accountNumber;
      && res.store.balances[n] == req.initialDeposit.cents
      && EntriesFor(res.store.entries, n) == [Entry(n, Credit, req.initialDeposit.cents, InitialDepositText)]
      && Net(res.store.entries, n) == req.initialDeposit.cents
  {
    var res := Register(st, req, hashed, draws, fault);
    var n := res.outcome.accountNumber;
    var e := Entry(n, Credit, req.initialDeposit.cents, InitialDepositText);
    NetOfOthers(st.entries, n);
    NetAppend(st.entries, e, n);
    assert (st.entries + [e])[..|st.entries|] == st.entries;
  }

  /** When all ten accepted candidates are taken the call fails and creates
      nothing, even though an eleventh number is drawn. */
  lemma ExhaustedCreatesNothing(st: Store, req: Request, hashed: string, draws: seq<nat>, fault: Fault)
    requires ValidDraws(draws) && Validate(req).None? && fault != ConnectFails
    requires !EmailRegistered(st.profiles, req.email)
    requires forall i :: 0 <= i < MaxAttempts ==> Candidate(draws, i) in st.balances
    ensures Register(st, req, hashed, draws, fault) == Result(OperationFailed, st)
  {
  }
}
