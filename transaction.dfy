/** The ledger mutation of the transaction route: validate the request, lock
    and read the account's balance, refuse a debit that exceeds it, write the
    new balance and append one entry, all inside one commit/rollback unit.
    This module holds the reference definition of one call (Apply) and what
    it guarantees; Bank.Bank.Transact is the step-by-step implementation. */
module Transaction {
  import opened Ledger

  /** The JSON body. A missing or empty string field is "", a missing, null
      or NaN amount is None; the amount is in cents. */
  datatype Request = Request(accountNumber: string, kind: string, amount: Option<int>, description: string)

  datatype Outcome =
    | Ok(newBalance: int)
    | InvalidData      // 400 "Invalid transaction data"
    | InvalidType      // 400 "Invalid transaction type"
    | NotFound         // 404 "Account not found"
    | Insufficient     // 400 "Insufficient balance"
    | ServerError      // 500 "Internal server error"

  /** The outcome of one call and the store it leaves behind. */
  datatype Result = Result(outcome: Outcome, store: Store)

  /** The text of the JSON answer. A refusal for an overdraft reads the
      same as the dashboard's own guard message. */
  function Message(r: Outcome): (m: string)
    ensures m != ""
    ensures m == "Insufficient balance" <==> r == Insufficient
    ensures m == "Transaction successful" <==> r.Ok?
  {
    match r
    case Ok(_) => "Transaction successful"
    case InvalidData => "Invalid transaction data"
    case InvalidType => "Invalid transaction type"
    case NotFound => "Account not found"
    case Insufficient => "Insufficient balance"
    case ServerError => "Internal server error"
  }

  /** The HTTP status of the answer. */
  function Status(r: Outcome): (code: int)
    ensures code == 200 <==> r.Ok?
    ensures code == 400 <==> r == InvalidData || r == InvalidType || r == Insufficient
    ensures code == 404 <==> r == NotFound
    ensures code == 500 <==> r == ServerError
  {
    match r
    case Ok(_) => 200
    case NotFound => 404
    case ServerError => 500
    case _ => 400
  }

  function ParseKind(s: string): (k: Option<Kind>)
    ensures k.Some? <==> s == "credit" || s == "debit"
    ensures k.Some? ==> KindName(k.value) == s
  {
    if s == "credit" then Some(Credit) else if s == "debit" then Some(Debit) else None
  }

  /** `!accountNumber || !type || !amount || amount <= 0` */
  predicate MissingData(req: Request) {
    req.accountNumber == "" || req.kind == "" || req.amount.None? || req.amount.value <= 0
  }

  /** A request that passes both checks made before the database is touched. */
  predicate WellFormed(req: Request) {
    !MissingData(req) && ParseKind(req.kind).Some?
  }

  /** The two checks made before the database is touched, in source order. */
  function Validate(req: Request): (r: Option<Outcome>)
    ensures r.None? <==> WellFormed(req)
    ensures r.Some? ==> r.value == (if MissingData(req) then InvalidData else InvalidType)
  {
    if MissingData(req) then Some(InvalidData)
    else if ParseKind(req.kind).None? then Some(InvalidType)
    else None
  }

  /** A well-formed debit for more than the current balance. The comparison
      is the source's strict `currentBalance < amount`. */
  predicate Overdraws(st: Store, req: Request)
    requires WellFormed(req) && req.accountNumber in st.balances
  {
    ParseKind(req.kind) == Some(Debit) && st.balances[req.accountNumber] < req.amount.value
  }

  /** The balance a well-formed request leaves on its account. */
  function NewBalance(st: Store, req: Request): int
    requires WellFormed(req) && req.accountNumber in st.balances
  {
    var current := st.balances[req.accountNumber];
    if ParseKind(req.kind) == Some(Credit) then current + req.amount.value else current - req.amount.value
  }

  /** The entry a successful request appends. */
  function EntryOf(req: Request): Entry
    requires WellFormed(req)
  {
    Entry(req.accountNumber, ParseKind(req.kind).value, req.amount.value, req.description)
  }

  /** What one call of the route does to the store. Every outcome other than
      Ok leaves the store exactly as it was; Ok changes the one balance and
      appends the one entry. */
  function Apply(st: Store, req: Request, fault: Fault): (res: Result)
    // all-or-nothing
    ensures !res.outcome.Ok? ==> res.store == st
    // the error cases, in the order the route checks them
    ensures res.outcome == InvalidData <==> MissingData(req)
    ensures res.outcome == InvalidType <==> !MissingData(req) && req.kind != "credit" && req.kind != "debit"
    ensures res.outcome == NotFound <==>
      WellFormed(req) && fault != ConnectFails && req.accountNumber !in st.balances
    ensures res.outcome == Insufficient <==>
      WellFormed(req) && fault != ConnectFails && req.accountNumber in st.balances && Overdraws(st, req)
    ensures res.outcome.Ok? <==>
      WellFormed(req) && fault == NoFault && req.accountNumber in st.balances && !Overdraws(st, req)
    // a success
    ensures res.outcome.Ok? ==>
      var a := req.accountNumber;
      && a in st.balances
      && res.store.balances.Keys == st.balances.Keys
      && res.outcome.newBalance == res.store.balances[a]
      && res.outcome.newBalance ==
           (if req.kind == "credit" then st.balances[a] + req.amount.value else st.balances[a] - req.amount.value)
      && (forall b :: b in st.balances && b != a ==> res.store.balances[b] == st.balances[b])
      && res.store.entries == st.entries + [Entry(a, ParseKind(req.kind).value, req.amount.value, req.description)]
      && res.store.profiles == st.profiles
  {
    if Validate(req).Some? then Result(Validate(req).value, st)
    else if fault == ConnectFails then Result(ServerError, st)
    else if req.accountNumber !in st.balances then Result(NotFound, st)
    else if Overdraws(st, req) then Result(Insufficient, st)
    else if fault != NoFault then Result(ServerError, st)
    else
      var nb := NewBalance(st, req);
      Result(Ok(nb), Store(st.profiles, st.balances[req.accountNumber := nb], st.entries + [EntryOf(req)]))
  }

  /** A call keeps the store consistent: no balance goes negative, the new
      entry belongs to an existing account, and every balance is still the
      signed sum of its account's entries. */
  lemma ApplyPreservesConsistency(st: Store, req: Request, fault: Fault)
    requires Consistent(st)
    ensures Consistent(Apply(st, req, fault).store)
  {
    var res := Apply(st, req, fault);
    if res.outcome.Ok? {
      var a := req.accountNumber;
      var e := EntryOf(req);
      var st' := res.store;
      forall b | b in st'.balances
        ensures st'.balances[b] >= 0 && st'.balances[b] == Net(st'.entries, b)
      {
        NetAppend(st.entries, e, b);
      }
      assert forall i :: 0 <= i < |st.entries| ==> st'.entries[i] == st.entries[i];
    }
  }

  /** A debit of exactly the balance succeeds and leaves zero. */
  lemma DebitOfWholeBalance(st: Store, a: AccountNo, amount: int, description: string)
    requires a in st.balances && amount > 0 && st.balances[a] == amount && a != ""
    ensures Apply(st, Request(a, "debit", Some(amount), description), NoFault).outcome == Ok(0)
  {
  }

  // ------------------------------------------------------------ sequences

  /** One call of the route with the storage behaviour it meets. */
  datatype Call = Call(req: Request, fault: Fault)

  /** The store after a sequence of calls, one after another. */
  function Run(st: Store, calls: seq<Call>): Store
    decreases |calls|
  {
    if calls == [] then st else Run(Apply(st, calls[0].req, calls[0].fault).store, calls[1..])
  }

  /** No lost updates: after any sequence of calls, each account's balance is
      its starting balance plus the signed sum of the entries appended for
      it, the old entries are untouched and the set of accounts is the same.
      This holds whatever the outcomes were. */
  lemma {:induction false} RunConserves(st: Store, calls: seq<Call>, a: AccountNo)
    requires a in st.balances
    ensures var st' := Run(st, calls);
      && st'.balances.Keys == st.balances.Keys
      && st.entries <= st'.entries
      && st'.balances[a] == st.balances[a] + Net(st'.entries[|st.entries|..], a)
    decreases |calls|
  {
    var st' := Run(st, calls);
    if calls == [] {
      assert st'.entries[|st.entries|..] == [];
    } else {
      var mid := Apply(st, calls[0].req, calls[0].fault).store;
      RunConserves(mid, calls[1..], a);
      assert st' == Run(mid, calls[1..]);
      var added := st'.entries[|mid.entries|..];
      if mid == st {
        assert st'.entries[|st.entries|..] == added;
      } else {
        var e := EntryOf(calls[0].req);
        assert mid.entries == st.entries + [e];
        assert st'.entries[|st.entries|..] == [e] + added;
        NetConcat([e], added, a);
        assert Net([e], a) == Contribution(e, a) by {
          assert [e][..0] == [];
        }
      }
    }
  }

  /** A credit followed by a debit of the same amount, both accepted, returns
      the account to its balance. */
  lemma CreditThenDebitCancel(st: Store, a: AccountNo, x: int, d1: string, d2: string)
    requires a in st.balances && st.balances[a] >= 0 && a != "" && x > 0
    ensures var r1 := Apply(st, Request(a, "credit", Some(x), d1), NoFault);
      var r2 := Apply(r1.store, Request(a, "debit", Some(x), d2), NoFault);
      && r1.outcome.Ok? && r2.outcome.Ok?
      && r2.store.balances == st.balances
      && |r2.store.entries| == |st.entries| + 2
  {
    var b := st.balances[a];
    var r1 := Apply(st, Request(a, "credit", Some(x), d1), NoFault);
    assert r1.store.balances == st.balances[a := b + x];
    var r2 := Apply(r1.store, Request(a, "debit", Some(x), d2), NoFault);
    assert r2.outcome == Ok(b);
    assert r2.store.balances == st.balances[a := b + x][a := b];
    assert st.balances[a := b + x][a := b] == st.balances;
  }

  /** A debit within the balance followed by a credit of the same amount,
      both accepted, returns the account to its balance as well. */
  lemma DebitThenCreditCancel(st: Store, a: AccountNo, x: int, d1: string, d2: string)
    requires a in st.balances && a != "" && 0 < x <= st.balances[a]
    ensures var r1 := Apply(st, Request(a, "debit", Some(x), d1), NoFault);
      var r2 := Apply(r1.store, Request(a, "credit", Some(x), d2), NoFault);
      && r1.outcome.Ok? && r2.outcome.Ok?
      && r2.store.balances == st.balances
      && |r2.store.entries| == |st.entries| + 2
  {
    var b := st.balances[a];
    var r1 := Apply(st, Request(a, "debit", Some(x), d1), NoFault);
    assert r1.store.balances == st.balances[a := b - x];
    var r2 := Apply(r1.store, Request(a, "credit", Some(x), d2), NoFault);
    assert r2.outcome == Ok(b);
    assert r2.store.balances == st.balances[a := b - x][a := b];
    assert st.balances[a := b - x][a := b] == st.balances;
  }

  /** Two debits that each fit the balance but together overdraw it: the
      first is applied and the second is refused with nothing changed, so
      the balance never goes negative. */
  lemma JointOverdraftRefused(st: Store, a: AccountNo, x: int, y: int, d1: string, d2: string)
    requires a in st.balances && a != "" && 0 < x <= st.balances[a] && 0 < y <= st.balances[a]
    requires x + y > st.balances[a]
    ensures var r1 := Apply(st, Request(a, "debit", Some(x), d1), NoFault);
      var r2 := Apply(r1.store, Request(a, "debit", Some(y), d2), NoFault);
      && r1.outcome == Ok(st.balances[a] - x)
      && r2.outcome == Insufficient
      && r2.store == r1.store
  {
  }
}
