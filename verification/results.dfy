/** Result codes of the transaction engine (TER) and the optional-value
    wrapper shared by the rest of the model. */
module Results {

  /** An optional value: a JSON member or transaction field that may be absent,
      a ledger entry that may not exist. */
  datatype Option<+T> = None | Some(value: T)

  /** The transaction engine result codes the modelled code paths produce.
      `OtherTer` stands for every code not listed here, which only handlers
      outside this model produce; it carries no number, so no code has two
      names.
      The prefix is the class: `tes` success, `tem` malformed, `tec` claimed
      fee only, `tef` failure to apply. */
  datatype Ter =
    | tesSUCCESS
    | temDISABLED
    | temBAD_EXPIRATION
    | temUNKNOWN
    | tecDIR_FULL
    | tecINSUFFICIENT_RESERVE
    | tecNO_TARGET
    | tefEXCEPTION
    | OtherTer
}
