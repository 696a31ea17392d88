/** The TicketCreate transactor: its static check (preCheck), the reserve it
    quotes (getAccountReserve) and its effect on a ledger view (doApply). */
module CreateTicketTransactor {
  import opened Results
  import opened Ledger

  /** The fields of a TicketCreate transaction that the transactor reads. */
  datatype TicketTx = TicketTx(
    account: AccountId,
    sequence: U32,
    expiration: Option<U32>,
    target: Option<AccountId>)

  /** Result of doApply: the TER and the view as the transactor left it. */
  datatype Applied = Applied(ter: Ter, view: View)

  /** The static check. `ticketsEnabled` is the RIPPLE_ENABLE_TICKETS build
      switch, `enableTesting` the tapENABLE_TESTING apply flag of the view, and
      `basePreCheck` the verdict of the generic transactor check the method
      ends with. */
  function PreCheck(tx: TicketTx, ticketsEnabled: bool, enableTesting: bool, basePreCheck: Ter): (r: Ter)
    ensures !ticketsEnabled && !enableTesting ==> r == temDISABLED
    ensures (ticketsEnabled || enableTesting) && tx.expiration == Some(0) ==> r == temBAD_EXPIRATION
    ensures (ticketsEnabled || enableTesting) && tx.expiration != Some(0) ==> r == basePreCheck
  {
    if !ticketsEnabled && !enableTesting then temDISABLED
    else if tx.expiration.Some? && tx.expiration.value == 0 then temBAD_EXPIRATION
    else basePreCheck
  }

  /** A transaction passes the static check exactly when tickets are switched
      on, its expiration (if any) is non-zero and the generic check passes. */
  lemma PreCheckAccepts(tx: TicketTx, ticketsEnabled: bool, enableTesting: bool, basePreCheck: Ter)
    ensures PreCheck(tx, ticketsEnabled, enableTesting, basePreCheck) == tesSUCCESS
        <==> (ticketsEnabled || enableTesting)
             && (tx.expiration.None? || tx.expiration.value > 0)
             && basePreCheck == tesSUCCESS
  {
  }

  /** The balance an account needs to own one more object than it does now. */
  function GetAccountReserve(v: View, account: AccountId): (r: nat)
    requires account in v.accounts
    ensures r == AccountReserve(v.fees, v.accounts[account].ownerCount) + v.fees.reserveIncrement
    ensures r >= AccountReserve(v.fees, v.accounts[account].ownerCount)
  {
    AccountReserveGrowth(v.fees, v.accounts[account].ownerCount, v.accounts[account].ownerCount);
    AccountReserve(v.fees, v.accounts[account].ownerCount + 1)
  }

  /** The key the ticket of `tx` lives at. */
  function TicketKey(tx: TicketTx): Key
  {
    TicketIndex(tx.account, tx.sequence)
  }

  /** The ticket has already expired when the parent ledger closed at or after
      its expiration time. */
  predicate AlreadyExpired(v: View, tx: TicketTx)
  {
    tx.expiration.Some? && v.parentCloseTime >= tx.expiration.value
  }

  /** The ticket as first inserted into the view: owner, sequence, and the
      expiration only when it is non-zero. */
  function NewTicket(tx: TicketTx): Ticket
  {
    var expiration := if tx.expiration.Some? then tx.expiration.value else 0;
    Ticket(tx.account, tx.sequence, if expiration != 0 then Some(expiration) else None, None, None)
  }

  /** The transactor's effect on the view. `priorBalance` is the submitting
      account's balance before the fee was charged. */
  function DoApply(v: View, tx: TicketTx, priorBalance: nat): (r: Applied)
    requires tx.account in v.accounts
    requires TicketKey(tx) !in v.tickets
    // The reserve rule, against the starting balance; a failure touches nothing.
    ensures r.ter == tecINSUFFICIENT_RESERVE <==> priorBalance < GetAccountReserve(v, tx.account)
    ensures r.ter == tecINSUFFICIENT_RESERVE ==> r.view == v
    // An already expired ticket is a success that changes nothing.
    ensures priorBalance >= GetAccountReserve(v, tx.account) && AlreadyExpired(v, tx) ==>
              r == Applied(tesSUCCESS, v)
    // A ticket is inserted exactly when the reserve holds and it has not expired.
    ensures TicketKey(tx) in r.view.tickets <==>
              priorBalance >= GetAccountReserve(v, tx.account) && !AlreadyExpired(v, tx)
    ensures TicketKey(tx) in r.view.tickets ==>
              var t := r.view.tickets[TicketKey(tx)];
              && t.account == tx.account
              && t.sequence == tx.sequence
              && (t.expiration.Some? <==> tx.expiration.Some? && tx.expiration.value != 0)
              && (t.expiration.Some? ==> t.expiration == tx.expiration)
    // A named target that does not exist is rejected after the insertion.
    ensures r.ter == tecNO_TARGET <==>
              && priorBalance >= GetAccountReserve(v, tx.account) && !AlreadyExpired(v, tx)
              && tx.target.Some? && tx.target.value !in v.accounts
    // The target is recorded only when it exists and differs from the submitter.
    ensures TicketKey(tx) in r.view.tickets ==>
              r.view.tickets[TicketKey(tx)].target
                == if tx.target.Some? && tx.target.value in v.accounts && tx.target.value != tx.account
                   then tx.target else None
    // The owner count rises by one on full success and stays put otherwise.
    ensures tx.account in r.view.accounts
    ensures r.view.accounts[tx.account].ownerCount
              == v.accounts[tx.account].ownerCount
                 + if r.ter == tesSUCCESS && TicketKey(tx) in r.view.tickets then 1 else 0
    // Full success, with the ticket inserted, happens exactly when every check passes.
    ensures r.ter == tesSUCCESS && TicketKey(tx) in r.view.tickets <==>
              && priorBalance >= GetAccountReserve(v, tx.account) && !AlreadyExpired(v, tx)
              && !(tx.target.Some? && tx.target.value !in v.accounts)
              && DirAdd(OwnerDir(v, tx.account), TicketKey(tx)).DirAdded?
    // On full success the ticket is linked into the owner directory and keeps the page hint.
    ensures r.ter == tesSUCCESS && TicketKey(tx) in r.view.tickets ==>
              && DirAdd(OwnerDir(v, tx.account), TicketKey(tx)).DirAdded?
              && OwnerDir(r.view, tx.account) == OwnerDir(v, tx.account) + [TicketKey(tx)]
              && r.view.tickets[TicketKey(tx)].ownerNode
                   == Some(DirAdd(OwnerDir(v, tx.account), TicketKey(tx)).hint)
    // Every other outcome leaves the directory alone and the ticket without an owner node.
    ensures !(r.ter == tesSUCCESS && TicketKey(tx) in r.view.tickets) ==>
              && OwnerDir(r.view, tx.account) == OwnerDir(v, tx.account)
              && (TicketKey(tx) in r.view.tickets ==> r.view.tickets[TicketKey(tx)].ownerNode.None?)
    // A failing directory insertion's result is passed back unchanged.
    ensures (&& priorBalance >= GetAccountReserve(v, tx.account) && !AlreadyExpired(v, tx)
             && !(tx.target.Some? && tx.target.value !in v.accounts)
             && DirAdd(OwnerDir(v, tx.account), TicketKey(tx)).DirAddFailed?) ==>
              r.ter == DirAdd(OwnerDir(v, tx.account), TicketKey(tx)).ter
    // Nothing else changes.
    ensures r.view.parentCloseTime == v.parentCloseTime && r.view.fees == v.fees
    ensures r.view.accounts.Keys == v.accounts.Keys
    ensures forall a :: a in v.accounts ==> r.view.accounts[a].balance == v.accounts[a].balance
    ensures forall a :: a in v.accounts && a != tx.account ==> r.view.accounts[a] == v.accounts[a]
    ensures r.view.tickets.Keys <= v.tickets.Keys + {TicketKey(tx)}
    ensures forall k :: k in v.tickets ==> k in r.view.tickets && r.view.tickets[k] == v.tickets[k]
    ensures forall a :: a != tx.account ==> OwnerDir(r.view, a) == OwnerDir(v, a)
  {
    if priorBalance < AccountReserve(v.fees, v.accounts[tx.account].ownerCount + 1) then
      Applied(tecINSUFFICIENT_RESERVE, v)
    else if tx.expiration.Some? && v.parentCloseTime >= tx.expiration.value then
      Applied(tesSUCCESS, v)
    else
      var key := TicketIndex(tx.account, tx.sequence);
      var ticket := NewTicket(tx);
      if tx.target.Some? && tx.target.value !in v.accounts then
        Applied(tecNO_TARGET, v.(tickets := v.tickets[key := ticket]))
      else
        var ticket := if tx.target.Some? && tx.target.value != tx.account
                      then ticket.(target := tx.target) else ticket;
        match DirAdd(OwnerDir(v, tx.account), key)
        case DirAddFailed(ter) =>
          Applied(ter, v.(tickets := v.tickets[key := ticket]))
        case DirAdded(hint, dir) =>
          var root := v.accounts[tx.account];
          Applied(tesSUCCESS, v.(
            tickets := v.tickets[key := ticket.(ownerNode := Some(hint))],
            ownerDirs := v.ownerDirs[tx.account := dir],
            accounts := v.accounts[tx.account := root.(ownerCount := root.ownerCount + 1)]))
  }

  /** The reserve quoted by GetAccountReserve is the very threshold doApply
      enforces, and whenever a ticket ends up counted against the owner, the
      starting balance covered the reserve for the new owner count. */
  lemma ReserveCoversNewTicket(v: View, tx: TicketTx, priorBalance: nat)
    requires tx.account in v.accounts
    requires TicketKey(tx) !in v.tickets
    ensures var r := DoApply(v, tx, priorBalance);
            r.view.accounts[tx.account].ownerCount > v.accounts[tx.account].ownerCount ==>
              priorBalance >= AccountReserve(r.view.fees, r.view.accounts[tx.account].ownerCount)
  {
  }

  /** The owner count changes only on full success, and then by exactly one. */
  lemma OwnerCountChangesOnlyOnSuccess(v: View, tx: TicketTx, priorBalance: nat)
    requires tx.account in v.accounts
    requires TicketKey(tx) !in v.tickets
    ensures var r := DoApply(v, tx, priorBalance);
            r.view.accounts[tx.account].ownerCount != v.accounts[tx.account].ownerCount ==>
              && r.ter == tesSUCCESS
              && r.view.accounts[tx.account].ownerCount == v.accounts[tx.account].ownerCount + 1
  {
  }

  /** Inserting a fresh ticket, appending its key to its owner's directory and
      raising the owner's count by one keeps the bookkeeping consistent. */
  lemma LinkFreshTicket(v: View, t: Ticket, ownerNode: Option<nat>)
    requires OwnershipConsistent(v)
    requires t.account in v.accounts
    requires TicketIndex(t.account, t.sequence) !in v.tickets
    ensures var a := t.account;
            var key := TicketIndex(a, t.sequence);
            OwnershipConsistent(v.(
              tickets := v.tickets[key := t],
              ownerDirs := v.ownerDirs[a := OwnerDir(v, a) + [key]],
              accounts := v.accounts[a := v.accounts[a].(ownerCount := v.accounts[a].ownerCount + 1)]))
  {
  }

  /** The outcomes that leave no unlinked ticket behind (full success, or the
      reserve failure that changes nothing) preserve consistent ownership
      bookkeeping. */
  lemma {:induction false} DoApplyPreservesOwnership(v: View, tx: TicketTx, priorBalance: nat)
    requires tx.account in v.accounts
    requires TicketKey(tx) !in v.tickets
    requires OwnershipConsistent(v)
    ensures var r := DoApply(v, tx, priorBalance);
            (r.ter == tesSUCCESS || r.ter == tecINSUFFICIENT_RESERVE) ==> OwnershipConsistent(r.view)
  {
    var r := DoApply(v, tx, priorBalance);
    var key := TicketKey(tx);
    if r.ter == tesSUCCESS && key in r.view.tickets {
      var t := r.view.tickets[key];
      var a := tx.account;
      var v' := v.(tickets := v.tickets[key := t],
                   ownerDirs := v.ownerDirs[a := OwnerDir(v, a) + [key]],
                   accounts := v.accounts[a := v.accounts[a].(ownerCount := v.accounts[a].ownerCount + 1)]);
      assert r.view == v';
      LinkFreshTicket(v, t, t.ownerNode);
    }
  }

  /** As written, a missing target is reported after the ticket was inserted
      but before it was linked: the view doApply leaves behind holds a ticket
      no directory lists. The surrounding apply context must discard views of
      `tec` results for the bookkeeping to stay consistent. */
  lemma NoTargetLeavesUnlinkedTicket(v: View, tx: TicketTx, priorBalance: nat)
    requires tx.account in v.accounts
    requires TicketKey(tx) !in v.tickets
    requires OwnershipConsistent(v)
    ensures var r := DoApply(v, tx, priorBalance);
            r.ter == tecNO_TARGET ==> TicketKey(tx) in r.view.tickets && !OwnershipConsistent(r.view)
  {
  }
}
