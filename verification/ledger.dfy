/** The slice of ledger state the ticket-creation transactor reads and writes:
    account roots, ticket entries and owner directories, together with the
    ledger-wide context (parent close time, fee schedule) a view exposes. */
module Ledger {
  import opened Results

  type AccountId = nat

  /** Unsigned 32-bit ledger fields (sequence numbers, expiration and close times). */
  type U32 = x: int | 0 <= x < 0x1_0000_0000

  /** Keys of ledger entries. The ledger derives ticket keys by hashing the
      owner and sequence (getTicketIndex); the model takes that derivation to
      be injective, which a datatype constructor is by construction.
      `OtherIndex` stands for the keys of any other owned object (offers,
      trust lines, ...) an owner directory may already list. */
  datatype Key = TicketIndex(owner: AccountId, sequence: U32) | OtherIndex(id: nat)

  /** The reserve part of the fee schedule, in drops of the native currency. */
  datatype Fees = Fees(reserveBase: nat, reserveIncrement: nat)

  /** The minimum balance of an account that owns `ownerCount` objects:
      a base reserve plus one increment per owned object. */
  function AccountReserve(fees: Fees, ownerCount: nat): nat
  {
    fees.reserveBase + ownerCount * fees.reserveIncrement
  }

  /** Owning more objects never lowers the reserve, and each extra object
      raises it by exactly one increment. */
  lemma AccountReserveGrowth(fees: Fees, n: nat, m: nat)
    requires n <= m
    ensures AccountReserve(fees, n) <= AccountReserve(fees, m)
    ensures AccountReserve(fees, n + 1) == AccountReserve(fees, n) + fees.reserveIncrement
  {
  }

  datatype AccountRoot = AccountRoot(balance: nat, ownerCount: nat)

  /** A ticket entry. `target` and `ownerNode` are optional fields that the
      transactor fills in after constructing the entry. */
  datatype Ticket = Ticket(
    account: AccountId,
    sequence: U32,
    expiration: Option<U32>,
    target: Option<AccountId>,
    ownerNode: Option<nat>)

  /** A view of the ledger: a key-to-entry map per entry kind, plus the
      context a transactor reads from the view. */
  datatype View = View(
    accounts: map<AccountId, AccountRoot>,
    tickets: map<Key, Ticket>,
    ownerDirs: map<AccountId, seq<Key>>,
    parentCloseTime: U32,
    fees: Fees)

  /** The keys listed in an account's owner directory; a missing directory is empty. */
  function OwnerDir(v: View, a: AccountId): seq<Key>
  {
    if a in v.ownerDirs then v.ownerDirs[a] else []
  }

  /** Directory pages hold at most this many keys each. */
  const DirNodeMaxEntries: nat := 32

  /** Page numbers are 64-bit; adding a page past the last one fails. */
  const DirMaxPages: nat := 0x1_0000_0000_0000_0000

  datatype DirAddResult = DirAdded(hint: nat, dir: seq<Key>) | DirAddFailed(ter: Ter)

  /** Appends `item` to a directory laid out in pages of DirNodeMaxEntries
      keys, returning the page that received it as the hint; fails with
      tecDIR_FULL once every page number is in use. */
  function DirAdd(dir: seq<Key>, item: Key): (r: DirAddResult)
    ensures r.DirAdded? ==> |r.dir| == |dir| + 1 && r.dir[..|dir|] == dir && r.dir[|dir|] == item
    ensures r.DirAdded? ==> r.hint * DirNodeMaxEntries <= |dir| < (r.hint + 1) * DirNodeMaxEntries
    ensures r.DirAdded? ==> r.hint < DirMaxPages
    ensures r.DirAddFailed? ==> r.ter != tesSUCCESS
    ensures r.DirAddFailed? <==> |dir| >= DirNodeMaxEntries * DirMaxPages
  {
    if |dir| >= DirNodeMaxEntries * DirMaxPages then DirAddFailed(tecDIR_FULL)
    else DirAdded(|dir| / DirNodeMaxEntries, dir + [item])
  }

  predicate NoDuplicates(s: seq<Key>)
  {
    forall i, j :: 0 <= i < j < |s| ==> s[i] != s[j]
  }

  /** Ownership bookkeeping is consistent: every ticket sits at the key derived
      from its owner and sequence and is listed in its owner's directory; every
      ticket key listed in a directory names an existing ticket of that owner;
      and each account's owner count equals the number of (distinct) keys in
      its directory. */
  predicate OwnershipConsistent(v: View)
  {
    && (forall k :: k in v.tickets ==>
          && k == TicketIndex(v.tickets[k].account, v.tickets[k].sequence)
          && v.tickets[k].account in v.accounts
          && k in OwnerDir(v, v.tickets[k].account))
    && (forall a :: a in v.ownerDirs ==> a in v.accounts)
    && (forall a :: a in v.accounts ==>
          && v.accounts[a].ownerCount == |OwnerDir(v, a)|
          && NoDuplicates(OwnerDir(v, a))
          && (forall i :: 0 <= i < |OwnerDir(v, a)| && OwnerDir(v, a)[i].TicketIndex? ==>
                OwnerDir(v, a)[i] in v.tickets && v.tickets[OwnerDir(v, a)[i]].account == a))
  }
}
