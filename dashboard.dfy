/** The dashboard's arithmetic and its pre-submit guards: the five most recent
    transactions, the credit and debit totals, and the checks handleTransaction
    makes before it posts a request to the transaction route.
    Number.parseFloat is the parameter `parse` (None for NaN, otherwise the
    number in cents). */
module Dashboard {
  import opened Ledger
  import Transaction

  /** The Account interface as the account route returns it. */
  datatype Account = Account(accountNumber: AccountNo, fullName: string, email: string, balance: int)

  /** The Transaction interface; the date column is not modelled. */
  datatype Tx = Tx(id: int, kind: Kind, amount: int, description: string)

  const RecentLimit: nat := 5

  /** `transactions.slice(0, 5)`: the first five transactions (all of them
      when there are fewer), in the same order. */
  function Recent(txs: seq<Tx>): (r: seq<Tx>)
    ensures |r| == if |txs| < RecentLimit then |txs| else RecentLimit
    ensures r <= txs
  {
    if |txs| < RecentLimit then txs else txs[..RecentLimit]
  }

  /** `transactions.filter((t) => t.type === k)`, in order: every
      transaction of the kind is kept as often as it occurs, and no other. */
  function OfKind(txs: seq<Tx>, k: Kind): (r: seq<Tx>)
    ensures |r| <= |txs|
    ensures forall i :: 0 <= i < |r| ==> r[i].kind == k
    ensures forall t :: t in txs && t.kind == k <==> t in r
    ensures forall t {:trigger multiset(r)[t]} :: multiset(r)[t] == if t.kind == k then multiset(txs)[t] else 0
    decreases |txs|
  {
    if txs == [] then []
    else
      var init, last := txs[..|txs| - 1], txs[|txs| - 1];
      assert txs == init + [last];
      OfKind(init, k) + (if last.kind == k then [last] else [])
  }

  /** The filter splits over concatenation. */
  lemma {:induction false} OfKindAppend(xs: seq<Tx>, ys: seq<Tx>, k: Kind)
    ensures OfKind(xs + ys, k) == OfKind(xs, k) + OfKind(ys, k)
    decreases |ys|
  {
    if ys == [] {
      assert xs + ys == xs;
    } else {
      var init, y := ys[..|ys| - 1], ys[|ys| - 1];
      var tail := if y.kind == k then [y] else [];
      OfKindAppend(xs, init, k);
      assert (xs + ys)[..|xs + ys| - 1] == xs + init;
      assert (xs + ys)[|xs + ys| - 1] == y;
      assert OfKind(xs + ys, k) == OfKind(xs + init, k) + tail;
      assert OfKind(ys, k) == OfKind(init, k) + tail;
      var front, middle := OfKind(xs, k), OfKind(init, k);
      assert (front + middle) + tail == front + (middle + tail);
    }
  }

  /** `reduce((sum, t) => sum + t.amount, 0)` */
  function Sum(txs: seq<Tx>): (s: int)
    ensures (forall i :: 0 <= i < |txs| ==> txs[i].amount >= 0) ==> s >= 0
    decreases |txs|
  {
    if txs == [] then 0 else Sum(txs[..|txs| - 1]) + txs[|txs| - 1].amount
  }

  /** getTotalCredits: the credits' amounts added up. It is never negative
      when no amount is, and 0 when there is no credit. */
  function TotalCredits(txs: seq<Tx>): (c: int)
    ensures (forall i :: 0 <= i < |txs| ==> txs[i].amount >= 0) ==> c >= 0
    ensures (forall i :: 0 <= i < |txs| ==> txs[i].kind != Credit) ==> c == 0
  {
    var r := OfKind(txs, Credit);
    assert forall i :: 0 <= i < |r| ==> r[i] in txs;
    assert (forall i :: 0 <= i < |txs| ==> txs[i].kind != Credit) ==> r == [] by {
      if r != [] { assert r[0] in txs; }
    }
    Sum(r)
  }

  /** getTotalDebits, likewise for the debits. */
  function TotalDebits(txs: seq<Tx>): (d: int)
    ensures (forall i :: 0 <= i < |txs| ==> txs[i].amount >= 0) ==> d >= 0
    ensures (forall i :: 0 <= i < |txs| ==> txs[i].kind != Debit) ==> d == 0
  {
    var r := OfKind(txs, Debit);
    assert forall i :: 0 <= i < |r| ==> r[i] in txs;
    assert (forall i :: 0 <= i < |txs| ==> txs[i].kind != Debit) ==> r == [] by {
      if r != [] { assert r[0] in txs; }
    }
    Sum(r)
  }

  /** Every transaction is a credit or a debit, so the two totals together
      are the sum of all amounts; both are 0 for an empty list. */
  lemma {:induction false} TotalsPartition(txs: seq<Tx>)
    ensures TotalCredits(txs) + TotalDebits(txs) == Sum(txs)
    ensures txs == [] ==> TotalCredits(txs) == 0 && TotalDebits(txs) == 0
    decreases |txs|
  {
    if txs != [] {
      var init, t := txs[..|txs| - 1], txs[|txs| - 1];
      TotalsPartition(init);
      SumAppend(OfKind(init, Credit), if t.kind == Credit then [t] else []);
      SumAppend(OfKind(init, Debit), if t.kind == Debit then [t] else []);
    }
  }

  lemma {:induction false} SumAppend(xs: seq<Tx>, ys: seq<Tx>)
    ensures Sum(xs + ys) == Sum(xs) + Sum(ys)
    decreases |ys|
  {
    if ys == [] {
      assert xs + ys == xs;
    } else {
      var init := ys[..|ys| - 1];
      SumAppend(xs, init);
      assert (xs + ys)[..|xs + ys| - 1] == xs + init;
      assert (xs + ys)[|xs + ys| - 1] == ys[|ys| - 1];
    }
  }

  /** An account's history as rows, in ledger order. A row's id is its
      position in that history. */
  function Rows(es: seq<Entry>): (r: seq<Tx>)
    ensures |r| == |es|
    ensures forall i :: 0 <= i < |es| ==> r[i] == Tx(i, es[i].kind, es[i].amount, es[i].description)
    decreases |es|
  {
    if es == [] then [] else Rows(es[..|es| - 1]) + [Tx(|es| - 1, es[|es| - 1].kind, es[|es| - 1].amount, es[|es| - 1].description)]
  }

  /** Shown over an account's whole history, credits minus debits is that
      account's signed ledger sum, which the store keeps equal to its
      balance. */
  lemma {:induction false} TotalsMatchLedger(es: seq<Entry>, a: AccountNo)
    requires forall i :: 0 <= i < |es| ==> es[i].account == a
    ensures TotalCredits(Rows(es)) - TotalDebits(Rows(es)) == Net(es, a)
    decreases |es|
  {
    if es != [] {
      var init := es[..|es| - 1];
      var e := es[|es| - 1];
      var t := Tx(|es| - 1, e.kind, e.amount, e.description);
      TotalsMatchLedger(init, a);
      assert Rows(es) == Rows(init) + [t] by {
        assert Rows(es)[..|es| - 1] == Rows(init);
      }
      SumAppend(OfKind(Rows(init), Credit), if t.kind == Credit then [t] else []);
      SumAppend(OfKind(Rows(init), Debit), if t.kind == Debit then [t] else []);
    }
  }

  /** The rows in the opposite order. */
  function Reversed(xs: seq<Tx>): (r: seq<Tx>)
    ensures |r| == |xs|
    ensures forall i :: 0 <= i < |xs| ==> r[i] == xs[|xs| - 1 - i]
    decreases |xs|
  {
    if xs == [] then [] else [xs[|xs| - 1]] + Reversed(xs[..|xs| - 1])
  }

  /** Reversing the rows changes neither total. */
  lemma {:induction false} TotalsOfReversed(xs: seq<Tx>, k: Kind)
    ensures Sum(OfKind(Reversed(xs), k)) == Sum(OfKind(xs, k))
    decreases |xs|
  {
    if xs != [] {
      var init, x := xs[..|xs| - 1], xs[|xs| - 1];
      TotalsOfReversed(init, k);
      OfKindAppend([x], Reversed(init), k);
      SumAppend(OfKind([x], k), OfKind(Reversed(init), k));
      SumAppend(OfKind(init, k), OfKind([x], k));
      assert OfKind([x], k) == (if x.kind == k then [x] else []) by {
        assert [x][..0] == [];
      }
    }
  }

  /** The transactions route's page size. */
  const FetchLimit: nat := 50

  /** What the transactions route returns for an account's history
      (`ORDER BY created_at DESC LIMIT 50`): the newest entry first, at most
      fifty rows. Entries are created in ledger order, so the newest is the
      last one appended. */
  function Fetched(history: seq<Entry>): (r: seq<Tx>)
    ensures |r| == if |history| < FetchLimit then |history| else FetchLimit
    ensures forall i :: 0 <= i < |r| ==>
      var e := history[|history| - 1 - i];
      r[i] == Tx(|history| - 1 - i, e.kind, e.amount, e.description)
  {
    var newest := Reversed(Rows(history));
    if |newest| < FetchLimit then newest else newest[..FetchLimit]
  }

  /** For an account of a consistent store with at most fifty entries, the
      credit and debit totals the dashboard shows, over the rows the route
      returns, differ by exactly its balance. With more entries the totals
      cover only the newest fifty. */
  lemma TotalsMatchBalance(st: Store, a: AccountNo)
    requires Consistent(st) && a in st.balances
    requires |EntriesFor(st.entries, a)| <= FetchLimit
    ensures var rows := Fetched(EntriesFor(st.entries, a));
      TotalCredits(rows) - TotalDebits(rows) == st.balances[a]
  {
    var history := EntriesFor(st.entries, a);
    var rows := Rows(history);
    assert Fetched(history) == Reversed(rows);
    TotalsOfReversed(rows, Credit);
    TotalsOfReversed(rows, Debit);
    TotalsMatchLedger(history, a);
    NetIsHistorySum(st.entries, a);
  }

  // ------------------------------------------------------------- guards

  /** The two checks of handleTransaction before anything is sent, as the
      message they show, or None when the request goes out. A text that
      parseFloat reads as NaN passes both, since NaN compares false. */
  function Guard(kind: Kind, amount: string, parsed: Option<int>, account: Option<Account>): (r: Option<string>)
    ensures r == Some("Please enter a valid amount") <==> amount == "" || (parsed.Some? && parsed.value <= 0)
    ensures r == Some("Insufficient balance") <==>
      && amount != "" && (parsed.None? || parsed.value > 0)
      && kind == Debit && account.Some? && parsed.Some? && parsed.value > account.value.balance
    ensures r.None? || r == Some("Please enter a valid amount") || r == Some("Insufficient balance")
  {
    if amount == "" || (parsed.Some? && parsed.value <= 0) then Some("Please enter a valid amount")
    else if kind == Debit && account.Some? && parsed.Some? && parsed.value > account.value.balance then
      Some("Insufficient balance")
    else None
  }

  /** `description || "Credit transaction"` (or "Debit transaction"). */
  function DefaultDescription(kind: Kind, description: string): (d: string)
    ensures d != ""
    ensures description != "" ==> d == description
    ensures description == "" ==> d == (if kind == Credit then "Credit" else "Debit") + " transaction"
  {
    if description != "" then description
    else (if kind == Credit then "Credit" else "Debit") + " transaction"
  }

  /** The body handleTransaction posts. An absent account sends no number,
      which the route receives as missing. */
  function RequestOf(kind: Kind, parsed: Option<int>, description: string, account: Option<Account>): (r: Transaction.Request)
    ensures Transaction.ParseKind(r.kind) == Some(kind)
    ensures r.amount == parsed && r.description != ""
    ensures Transaction.WellFormed(r) <==>
      account.Some? && account.value.accountNumber != "" && parsed.Some? && parsed.value > 0
  {
    Transaction.Request(if account.Some? then account.value.accountNumber else "",
                        KindName(kind), parsed, DefaultDescription(kind, description))
  }

  /** The page's guard and the route agree on what a well-formed amount may
      spend: against the balance the page shows, the page refuses a debit
      exactly when the route would answer Insufficient. A debit of the whole
      balance passes both. */
  lemma GuardMirrorsServer(st: Store, kind: Kind, amount: string, x: int, description: string, acct: Account)
    requires amount != "" && x > 0 && acct.accountNumber in st.balances && acct.accountNumber != ""
    requires st.balances[acct.accountNumber] == acct.balance
    ensures var req := RequestOf(kind, Some(x), description, Some(acct));
      && Transaction.WellFormed(req)
      && (Guard(kind, amount, Some(x), Some(acct)) == Some("Insufficient balance") <==> Transaction.Overdraws(st, req))
      && (Guard(kind, amount, Some(x), Some(acct)).None? <==>
            Transaction.Apply(st, req, NoFault).outcome.Ok?)
  {
  }

  /** A text parseFloat cannot read, such as "abc", passes the page's
      guards; the amount is sent as null and the route rejects the request
      as invalid data without touching the store. */
  lemma NaNReachesServer(st: Store, kind: Kind, amount: string, description: string, acct: Option<Account>, fault: Fault)
    requires amount != ""
    ensures Guard(kind, amount, None, acct).None?
    ensures Transaction.Apply(st, RequestOf(kind, None, description, acct), fault) ==
      Transaction.Result(Transaction.InvalidData, st)
  {
  }

  // ---------------------------------------------------------- the page

  /** The component's state. */
  class Page {
    var account: Option<Account>
    var transactions: seq<Tx>
    var amount: string
    var description: string
    var message: string
    var isLoading: bool
    const parse: string -> Option<int>

    constructor (parse: string -> Option<int>)
      ensures account.None? && transactions == [] && amount == "" && description == ""
      ensures message == "" && !isLoading && this.parse == parse
    {
      account, transactions, amount, description := None, [], "", "";
      message, isLoading := "", false;
      this.parse := parse;
    }

    /** handleTransaction up to the fetch: either show the guard's message
        and send nothing, or clear the message, start loading and return the
        request body. Nothing else changes. */
    method HandleTransaction(kind: Kind) returns (req: Option<Transaction.Request>)
      modifies this
      ensures var g := Guard(kind, old(amount), parse(old(amount)), old(account));
        && (g.Some? ==> req.None? && message == g.value && isLoading == old(isLoading))
        && (g.None? ==> req == Some(RequestOf(kind, parse(amount), description, account)) && message == "" && isLoading)
      ensures account == old(account) && transactions == old(transactions)
      ensures amount == old(amount) && description == old(description)
    {
      if amount == "" || (parse(amount).Some? && parse(amount).value <= 0) {
        message := "Please enter a valid amount";
        return None;
      }
      if kind == Debit && account.Some? && parse(amount).Some? && parse(amount).value > account.value.balance {
        message := "Insufficient balance";
        return None;
      }
      isLoading := true;
      message := "";
      var accountNumber := if account.Some? then account.value.accountNumber else "";
      var text := if description != "" then description
                  else (if kind == Credit then "Credit" else "Debit") + " transaction";
      req := Some(Transaction.Request(accountNumber, KindName(kind), parse(amount), text));
    }

    /** The rest of handleTransaction once the response arrives (None: the
        fetch threw). On success the inputs are cleared; the refetch of the
        account and its transactions is not part of this model. */
    method CompleteTransaction(kind: Kind, response: Option<Transaction.Outcome>)
      modifies this
      ensures response.None? ==> message == "An error occurred during transaction"
      ensures response.Some? && response.value.Ok? ==>
        message == (if kind == Credit then "Credit" else "Debit") + " successful!" && amount == "" && description == ""
      ensures response.Some? && !response.value.Ok? ==>
        message == Transaction.Message(response.value) && amount == old(amount) && description == old(description)
      ensures response.None? ==> amount == old(amount) && description == old(description)
      ensures !isLoading && account == old(account) && transactions == old(transactions)
    {
      if response.None? {
        message := "An error occurred during transaction";
      } else if response.value.Ok? {
        message := (if kind == Credit then "Credit" else "Debit") + " successful!";
        amount := "";
        description := "";
      } else {
        message := Transaction.Message(response.value);
      }
      isLoading := false;
    }
  }
}
