/** The persisted state shared by every route: the accounts table (profile and
    balance of each account number) and the append-only transactions table.
    Amounts and balances are integer cents. */
module Ledger {

  datatype Option<T> = None | Some(value: T)

  /** An account number as the routes pass it around: a string. */
  type AccountNo = string

  datatype Kind = Credit | Debit

  /** One row of the transactions table. The auto-incremented id is not a
      field, ledger order stands for it; created_at is not modelled. */
  datatype Entry = Entry(account: AccountNo, kind: Kind, amount: int, description: string)

  /** The non-balance columns of one row of the accounts table. */
  datatype Profile = Profile(fullName: string, email: string, phone: string, passwordHash: string)

  /** Both tables: profiles and balances are keyed by account number. */
  datatype Store = Store(profiles: map<AccountNo, Profile>, balances: map<AccountNo, int>, entries: seq<Entry>)

  /** Where a database unit of work fails, if it does: opening the connection,
      the first or second write of the unit, or the commit. */
  datatype Fault = NoFault | ConnectFails | FirstWriteFails | SecondWriteFails | CommitFails

  /** The value of the `type` column. */
  function KindName(k: Kind): string {
    match k
    case Credit => "credit"
    case Debit => "debit"
  }

  /** An entry's effect on its account: credits count positive, debits negative. */
  function Signed(e: Entry): int {
    if e.kind == Credit then e.amount else -e.amount
  }

  function Contribution(e: Entry, a: AccountNo): int {
    if e.account == a then Signed(e) else 0
  }

  /** The signed sum of the entries of account a, in ledger order. */
  function Net(es: seq<Entry>, a: AccountNo): int
    decreases |es|
  {
    if es == [] then 0 else Net(es[..|es| - 1], a) + Contribution(es[|es| - 1], a)
  }

  /** The entries of account a, in ledger order. */
  function EntriesFor(es: seq<Entry>, a: AccountNo): (r: seq<Entry>)
    decreases |es|
    ensures |r| <= |es|
    ensures forall i :: 0 <= i < |r| ==> r[i].account == a
  {
    if es == [] then []
    else EntriesFor(es[..|es| - 1], a) + (if es[|es| - 1].account == a then [es[|es| - 1]] else [])
  }

  /** No two accounts share an email address. */
  ghost predicate EmailsUnique(profiles: map<AccountNo, Profile>) {
    forall a, b :: a in profiles && b in profiles && a != b ==> profiles[a].email != profiles[b].email
  }

  /** The consistency the routes keep between the two tables: every account
      has a profile and a non-negative balance, every entry belongs to an
      existing account and carries a positive amount, and each balance is
      the signed sum of its account's entries (the first of which is the
      initial deposit). */
  ghost predicate Consistent(st: Store) {
    && st.profiles.Keys == st.balances.Keys
    && (forall a :: a in st.balances ==> st.balances[a] >= 0 && st.balances[a] == Net(st.entries, a))
    && (forall i :: 0 <= i < |st.entries| ==> st.entries[i].account in st.balances && st.entries[i].amount > 0)
    && EmailsUnique(st.profiles)
  }

  /** Appending one entry adds exactly its contribution. */
  lemma NetAppend(es: seq<Entry>, e: Entry, a: AccountNo)
    ensures Net(es + [e], a) == Net(es, a) + Contribution(e, a)
  {
    assert (es + [e])[..|es|] == es;
  }

  /** The signed sum splits over concatenation. */
  lemma {:induction false} NetConcat(es: seq<Entry>, fs: seq<Entry>, a: AccountNo)
    ensures Net(es + fs, a) == Net(es, a) + Net(fs, a)
    decreases |fs|
  {
    if fs == [] {
      assert es + fs == es;
    } else {
      var init := fs[..|fs| - 1];
      var last := fs[|fs| - 1];
      assert fs == init + [last];
      assert es + fs == (es + init) + [last];
      NetAppend(es + init, last, a);
      NetConcat(es, init, a);
      NetAppend(init, last, a);
    }
  }

  /** Entries of other accounts do not move a's signed sum. */
  lemma {:induction false} NetOfOthers(es: seq<Entry>, a: AccountNo)
    requires forall i :: 0 <= i < |es| ==> es[i].account != a
    ensures Net(es, a) == 0
    ensures EntriesFor(es, a) == []
    decreases |es|
  {
    if es != [] {
      NetOfOthers(es[..|es| - 1], a);
    }
  }

  /** The signed sum of a's entries is the signed sum over a's own history. */
  lemma {:induction false} NetIsHistorySum(es: seq<Entry>, a: AccountNo)
    ensures Net(es, a) == Net(EntriesFor(es, a), a)
    decreases |es|
  {
    if es != [] {
      var init := es[..|es| - 1];
      var last := es[|es| - 1];
      NetIsHistorySum(init, a);
      if last.account == a {
        NetAppend(EntriesFor(init, a), last, a);
      } else {
        assert EntriesFor(es, a) == EntriesFor(init, a);
      }
    }
  }

  /** The empty store (before the first registration) is consistent. */
  lemma EmptyStoreConsistent()
    ensures Consistent(Store(map[], map[], []))
  {
  }
}
