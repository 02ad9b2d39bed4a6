/** The database as the routes use it: one store object holding the accounts
    and transactions tables, mutated by exactly two operations, the
    transaction route's ledger mutation and the register route's account
    creation. Each method follows its route step by step (checks, locked
    read, writes, commit, and a rollback that restores the snapshot taken at
    beginTransaction) and is proved to do what Transaction.Apply and
    Registration.Register define. */
module Bank {
  import opened Ledger
  import Transaction
  import Registration
  import Auth

  class Bank {
    var profiles: map<AccountNo, Profile>
    var balances: map<AccountNo, int>
    var entries: seq<Entry>

    function State(): Store
      reads this
    {
      Store(profiles, balances, entries)
    }

    ghost predicate Valid()
      reads this
    {
      Consistent(State())
    }

    /** An empty database. */
    constructor ()
      ensures Valid()
      ensures State() == Store(map[], map[], [])
    {
      profiles, balances, entries := map[], map[], [];
      EmptyStoreConsistent();
    }

    /** `connection.rollback()`: undo every write since the snapshot. */
    method Rollback(saved: Store)
      modifies this
      ensures State() == saved
    {
      profiles, balances, entries := saved.profiles, saved.balances, saved.entries;
    }

    /** POST /api/transaction. */
    method Transact(req: Transaction.Request, fault: Fault) returns (r: Transaction.Outcome)
      requires Valid()
      modifies this
      ensures Valid()
      ensures Transaction.Result(r, State()) == Transaction.Apply(old(State()), req, fault)
    {
      ghost var spec := Transaction.Apply(State(), req, fault);
      Transaction.ApplyPreservesConsistency(State(), req, fault);
      var invalid := Transaction.Validate(req);
      if invalid.Some? {
        return invalid.value;
      }
      if fault == ConnectFails {
        return Transaction.ServerError;
      }
      var saved := State();  // beginTransaction
      var a := req.accountNumber;
      if a !in balances {
        Rollback(saved);
        return Transaction.NotFound;
      }
      var currentBalance := balances[a];
      var kind := Transaction.ParseKind(req.kind).value;
      var amount := req.amount.value;
      if kind == Debit && currentBalance < amount {
        Rollback(saved);
        return Transaction.Insufficient;
      }
      var newBalance := if kind == Credit then currentBalance + amount else currentBalance - amount;
      assert !Transaction.Overdraws(saved, req) && newBalance == Transaction.NewBalance(saved, req);
      if fault == FirstWriteFails {
        Rollback(saved);
        return Transaction.ServerError;
      }
      balances := balances[a := newBalance];  // UPDATE accounts SET balance
      if fault == SecondWriteFails {
        Rollback(saved);
        return Transaction.ServerError;
      }
      entries := entries + [Entry(a, kind, amount, req.description)];  // INSERT INTO transactions
      if fault == CommitFails {
        Rollback(saved);
        return Transaction.ServerError;
      }
      r := Transaction.Ok(newBalance);
      assert Transaction.EntryOf(req) == Entry(a, kind, amount, req.description);
      assert spec == Transaction.Result(r, State());
    }

    /** The `SELECT id FROM accounts WHERE email = ?` query, as a scan of the
        accounts table that stops at the first row with that address. */
    method EmailInUse(email: string) returns (found: bool)
      ensures found == Registration.EmailRegistered(profiles, email)
    {
      var unseen := profiles.Keys;
      found := false;
      while unseen != {} && !found
        invariant unseen <= profiles.Keys
        invariant found ==> Registration.EmailRegistered(profiles, email)
        invariant !found ==> forall a :: a in profiles && a !in unseen ==> profiles[a].email != email
        decreases |unseen|
      {
        var a :| a in unseen;
        found := profiles[a].email == email;
        unseen := unseen - {a};
      }
    }

    /** The `do { ... } while (!isUnique)` loop of the register route: draw a
        candidate, look it up, and give up with an error once more than ten
        attempts were made. It returns the number Registration picks. */
    method NewAccountNumber(draws: seq<nat>) returns (picked: Option<AccountNo>)
      requires Registration.ValidDraws(draws)
      ensures var k := Registration.PickAccountNumber(balances.Keys, draws);
        && (picked.Some? <==> k.Some?)
        && (picked.Some? ==> picked.value == Registration.Candidate(draws, k.value))
    {
      var accountNumber: AccountNo := "";
      var isUnique := false;
      var attempts: nat := 0;
      while !isUnique
        invariant attempts <= Registration.MaxAttempts
        invariant Registration.PickFrom(balances.Keys, draws, 0) ==
          if isUnique then Some(attempts - 1) else Registration.PickFrom(balances.Keys, draws, attempts)
        invariant isUnique ==> attempts >= 1 && accountNumber == Registration.Candidate(draws, attempts - 1)
        decreases Registration.MaxAttempts - attempts, !isUnique
      {
        accountNumber := Registration.GenerateAccountNumber(draws[attempts]);
        isUnique := accountNumber !in balances;
        attempts := attempts + 1;
        if attempts > Registration.MaxAttempts {
          return None;  // throw new Error(...)
        }
      }
      return Some(accountNumber);
    }

    /** POST /api/register, given bcrypt's hash of the password and the
        random numbers generateAccountNumber will draw. */
    method Register(req: Registration.Request, hashed: string, draws: seq<nat>, fault: Fault)
      returns (r: Registration.Outcome)
      requires Valid() && Registration.ValidDraws(draws)
      modifies this
      ensures Valid()
      ensures Registration.Result(r, State()) == Registration.Register(old(State()), req, hashed, draws, fault)
    {
      ghost var spec := Registration.Register(State(), req, hashed, draws, fault);
      Registration.RegisterPreservesConsistency(State(), req, hashed, draws, fault);
      var invalid := Registration.Validate(req);
      if invalid.Some? {
        return invalid.value;
      }
      if fault == ConnectFails {
        return Registration.ConnectionFailed;
      }
      var taken := EmailInUse(req.email);
      if taken {
        return Registration.EmailTaken;
      }
      var picked := NewAccountNumber(draws);
      if picked.None? {
        return Registration.OperationFailed;  // thrown, caught as a query error
      }
      var accountNumber := picked.value;
      var saved := State();  // beginTransaction
      var deposit := req.initialDeposit.cents;
      if fault == FirstWriteFails {
        Rollback(saved);
        return Registration.OperationFailed;
      }
      profiles := profiles[accountNumber := Profile(req.fullName, req.email, req.phone, hashed)];
      balances := balances[accountNumber := deposit];  // INSERT INTO accounts
      if fault == SecondWriteFails {
        Rollback(saved);
        return Registration.OperationFailed;
      }
      entries := entries + [Entry(accountNumber, Credit, deposit, Registration.InitialDepositText)];  // INSERT INTO transactions
      if fault == CommitFails {
        Rollback(saved);
        return Registration.OperationFailed;
      }
      r := Registration.Registered(accountNumber);
      assert spec == Registration.Result(r, State());
    }
  }

  // ------------------------------------------------ across the routes

  /** Registering and then logging in with the same password (for a hash that
      verify accepts) succeeds and returns the new number and the name. */
  lemma RegisterThenLogin(
    st: Store, req: Registration.Request, hashed: string, draws: seq<nat>, verify: (string, string) -> bool)
    requires Registration.ValidDraws(draws) && verify(req.password, hashed)
    requires Registration.Register(st, req, hashed, draws, NoFault).outcome.Registered?
    ensures var res := Registration.Register(st, req, hashed, draws, NoFault);
      var n := res.outcome.accountNumber;
      Auth.Login(res.store.profiles, Auth.Request(n, req.password), verify, NoFault) == Auth.LoggedIn(n, req.fullName)
  {
    var res := Registration.Register(st, req, hashed, draws, NoFault);
    var n := res.outcome.accountNumber;
    assert n != "" && req.password != "";
    assert res.store.profiles[n].passwordHash == hashed;
  }

  /** Neither money operation touches credentials: a login gives the same
      answer before and after any transaction call. */
  lemma TransactionKeepsLogins(
    st: Store, t: Transaction.Request, fault: Fault, req: Auth.Request, verify: (string, string) -> bool, f: Fault)
    ensures Auth.Login(Transaction.Apply(st, t, fault).store.profiles, req, verify, f) == Auth.Login(st.profiles, req, verify, f)
  {
  }
}
