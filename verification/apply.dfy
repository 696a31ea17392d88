/** The transaction dispatch boundary: `invoke` maps a transaction type to the
    handler that processes it, and `apply` turns any failure escaping a handler
    into a fixed "not applied" outcome. */
module TxApply {
  import opened Results

  /** Transaction types. `ttOther` stands for every other value of the
      type field (retired or invalid types), none of which has a handler. */
  datatype TxType =
    | ttACCOUNT_SET
    | ttOFFER_CANCEL
    | ttOFFER_CREATE
    | ttPAYMENT
    | ttREGULAR_KEY_SET
    | ttSIGNER_LIST_SET
    | ttTICKET_CANCEL
    | ttTICKET_CREATE
    | ttTRUST_SET
    | ttAMENDMENT
    | ttFEE
    | ttOther

  /** The transactor classes that process transactions. */
  datatype Handler =
    | SetAccount
    | CancelOffer
    | CreateOffer
    | Payment
    | SetRegularKey
    | SetSignerList
    | CancelTicket
    | CreateTicket
    | SetTrust
    | Change

  /** The (TER, applied) pair every path reports to the ledger builder. */
  datatype Outcome = Outcome(ter: Ter, applied: bool)

  /** What escapes a handler when it throws: a standard exception with its
      message, or anything else. */
  datatype Failure = StdException(what: string) | UnknownException

  /** Running a handler either returns an outcome or throws. */
  datatype Run = Returned(outcome: Outcome) | Threw(failure: Failure)

  /** The switch of `invoke`: the handler for each listed type, none otherwise. */
  function Dispatch(t: TxType): Option<Handler>
  {
    match t
    case ttACCOUNT_SET => Some(SetAccount)
    case ttOFFER_CANCEL => Some(CancelOffer)
    case ttOFFER_CREATE => Some(CreateOffer)
    case ttPAYMENT => Some(Payment)
    case ttREGULAR_KEY_SET => Some(SetRegularKey)
    case ttSIGNER_LIST_SET => Some(SetSignerList)
    case ttTICKET_CANCEL => Some(CancelTicket)
    case ttTICKET_CREATE => Some(CreateTicket)
    case ttTRUST_SET => Some(SetTrust)
    case ttAMENDMENT => Some(Change)
    case ttFEE => Some(Change)
    case ttOther => None
  }

  /** The transaction types each handler serves, read from the handler side. */
  function ServedTypes(h: Handler): set<TxType>
  {
    match h
    case SetAccount => {ttACCOUNT_SET}
    case CancelOffer => {ttOFFER_CANCEL}
    case CreateOffer => {ttOFFER_CREATE}
    case Payment => {ttPAYMENT}
    case SetRegularKey => {ttREGULAR_KEY_SET}
    case SetSignerList => {ttSIGNER_LIST_SET}
    case CancelTicket => {ttTICKET_CANCEL}
    case CreateTicket => {ttTICKET_CREATE}
    case SetTrust => {ttTRUST_SET}
    case Change => {ttAMENDMENT, ttFEE}
  }

  /** The dispatch table and the per-handler table agree: a type is sent to a
      handler exactly when that handler serves it, and every handler is
      reachable. */
  lemma DispatchMatchesServedTypes(t: TxType, h: Handler)
    ensures Dispatch(t) == Some(h) <==> t in ServedTypes(h)
    ensures exists u :: Dispatch(u) == Some(h)
  {
    match h
    case SetAccount => assert Dispatch(ttACCOUNT_SET) == Some(h);
    case CancelOffer => assert Dispatch(ttOFFER_CANCEL) == Some(h);
    case CreateOffer => assert Dispatch(ttOFFER_CREATE) == Some(h);
    case Payment => assert Dispatch(ttPAYMENT) == Some(h);
    case SetRegularKey => assert Dispatch(ttREGULAR_KEY_SET) == Some(h);
    case SetSignerList => assert Dispatch(ttSIGNER_LIST_SET) == Some(h);
    case CancelTicket => assert Dispatch(ttTICKET_CANCEL) == Some(h);
    case CreateTicket => assert Dispatch(ttTICKET_CREATE) == Some(h);
    case SetTrust => assert Dispatch(ttTRUST_SET) == Some(h);
    case Change => assert Dispatch(ttFEE) == Some(h);
  }

  /** Only the two pseudo-transaction types share a handler: any two distinct
      types with the same handler are ttAMENDMENT and ttFEE, sent to Change. */
  lemma OnlyChangeIsShared(t: TxType, u: TxType)
    requires t != u && Dispatch(t).Some? && Dispatch(t) == Dispatch(u)
    ensures {t, u} == {ttAMENDMENT, ttFEE} && Dispatch(t) == Some(Change)
  {
  }

  /** `invoke`: run the handler for the type, or report temUNKNOWN, not
      applied, without running any handler. */
  function Invoke(t: TxType, run: Handler -> Run): (r: Run)
    ensures t.ttOther? ==> r == Returned(Outcome(temUNKNOWN, false))
    ensures !t.ttOther? ==> exists h :: h in ServedTypesInverse(t) && r == run(h)
  {
    match Dispatch(t)
    case Some(h) => run(h)
    case None => Returned(Outcome(temUNKNOWN, false))
  }

  /** The handlers that serve `t`, from the per-handler table. */
  function ServedTypesInverse(t: TxType): set<Handler>
  {
    set h: Handler | t in ServedTypes(h)
  }

  /** The outcome of an unlisted type does not depend on what the handlers do. */
  lemma UnlistedRunsNoHandler(run1: Handler -> Run, run2: Handler -> Run)
    ensures Invoke(ttOther, run1) == Invoke(ttOther, run2)
  {
  }

  /** `apply`: the outcome of `invoke`, except that anything thrown becomes
      tefEXCEPTION, not applied. */
  function Apply(t: TxType, run: Handler -> Run): (r: Outcome)
    ensures Invoke(t, run).Threw? ==> r == Outcome(tefEXCEPTION, false)
    ensures Invoke(t, run).Returned? ==> r == Invoke(t, run).outcome
  {
    match Invoke(t, run)
    case Returned(outcome) => outcome
    case Threw(_) => Outcome(tefEXCEPTION, false)
  }

  /** Whatever the handlers do, a transaction is reported applied only when
      its type has a handler and that handler returned normally with the
      applied flag set; unlisted types report temUNKNOWN and throwing handlers
      tefEXCEPTION. */
  lemma ApplyBoundary(t: TxType, run: Handler -> Run)
    ensures Apply(t, run).applied ==>
              Dispatch(t).Some? && run(Dispatch(t).value) == Returned(Apply(t, run))
    ensures Dispatch(t).None? ==> Apply(t, run) == Outcome(temUNKNOWN, false)
    ensures Dispatch(t).Some? && run(Dispatch(t).value).Threw? ==> Apply(t, run) == Outcome(tefEXCEPTION, false)
    ensures Dispatch(t).Some? && run(Dispatch(t).value).Returned? ==>
              Apply(t, run) == run(Dispatch(t).value).outcome
  {
  }
}
