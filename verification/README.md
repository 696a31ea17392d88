# Ticket creation, ledger paging and transaction dispatch in rippled

A Dafny model of three small, sequential pieces of the rippled ledger node:

- **TicketCreate transactor** (`CreateTicket::preCheck`, `getAccountReserve`,
  `doApply`). This is a pure function from a ledger view to a result code and
  a new view. The view holds account roots (balance, owner count), ticket
  entries keyed by ticket index, and owner directories. The static check gates
  on the tickets build switch and rejects a zero expiration. `doApply` works
  in this order:
  1. Enforces the reserve for one more owned object against the starting balance.
  2. Succeeds without effect when the ticket has already expired.
  3. Inserts the ticket.
  4. Rejects a target account that does not exist.
  5. Links the ticket into the owner directory.
  6. Raises the owner count by one.

  Besides each path's outcome and footprint, the model proves two facts about
  ownership bookkeeping (owner count equals directory size; every ticket is
  listed in its owner's directory):
  - the outcomes that leave no unlinked ticket (full success, and the reserve
    failure that changes nothing) preserve that bookkeeping;
  - the `tecNO_TARGET` view breaks it. That view must be discarded.
- **`ledger_data` handler** (`doLedgerData`). This is a pure function from the
  ledger's key-ordered state entries and the request parameters to a response:
  - a field error for a bad `marker` or `limit`;
  - the limit clamped by role and format (2048 binary, 256 JSON);
  - a `state` array that is a prefix of the entries;
  - a resume marker equal to the first unreturned key minus one, with 256-bit
    wrap-around.

  The forEachSLE callback loop is a method proved equal to the functional page.
- **Dispatch boundary** (`invoke`, `apply`). Transaction types map to
  handlers. `ttAMENDMENT` and `ttFEE` share `Change`. Unlisted types get
  `(temUNKNOWN, false)`. Handlers are an opaque function parameter that either
  returns a `(TER, applied)` pair or throws, and anything thrown becomes
  `(tefEXCEPTION, false)`.

Modules: `Results` (TER codes, `Option`), `Ledger` (view state, reserve,
directory insertion, the ownership invariant), `CreateTicketTransactor`,
`Uint256` (wrapping decrement, hex text form of keys), `LedgerDataHandler`,
`TxApply`.

Modelling assumptions:
- Ticket keys are datatype constructors (`Ledger.Key.TicketIndex`), which makes
  the hashed `getTicketIndex` injective by construction. Account roots and
  owner directories are keyed directly by the account identifier, standing in
  for `keylet::account` and `getOwnerDirIndex`.
- `Fees::accountReserve(n)` is `base + n * increment` over naturals.
- `dirAdd` is an append to the owner directory. Its hint is the page that
  receives the key, with pages of 32 keys. It fails with `tecDIR_FULL` once all
  2^64 page numbers are used.
- `SetHex` accepts a string exactly when every character is a hex digit, and
  reads it modulo 2^256.
- Balances are natural numbers of drops.
- External inputs are parameters: `doApply`'s starting balance, and
  `preCheck`'s tickets build switch, `tapENABLE_TESTING` flag and the verdict
  of the generic `Transactor::preCheck`.

## Model

| member | source | states |
|---|---|---|
| `CreateTicketTransactor.PreCheck` | src/ripple/app/tx/impl/CreateTicket.cpp:28-47 | With tickets compiled out and no testing flag the result is temDISABLED before any other check; otherwise an expiration present and equal to 0 gives temBAD_EXPIRATION; otherwise the generic check's verdict is returned |
| `CreateTicketTransactor.PreCheckAccepts` | src/ripple/app/tx/impl/CreateTicket.cpp:28-47 | The static check passes exactly when tickets are enabled (build switch or testing flag), any expiration is non-zero and the generic check passes |
| `CreateTicketTransactor.GetAccountReserve` | src/ripple/app/tx/impl/CreateTicket.cpp:49-54 | The quoted reserve is the reserve at the current owner count plus one increment, so never below the current reserve |
| `CreateTicketTransactor.DoApply` | src/ripple/app/tx/impl/CreateTicket.cpp:56-127 | tecINSUFFICIENT_RESERVE iff the starting balance is below GetAccountReserve, with the view untouched; an expired ticket is tesSUCCESS with the view untouched; a ticket is inserted iff the reserve holds and it has not expired, at getTicketIndex(account, sequence), with Account, Sequence, and Expiration stored iff non-zero; tecNO_TARGET iff the named target does not exist; Target stored only when it exists and differs from the submitter; full success (tesSUCCESS with the ticket inserted) happens iff the reserve holds, the ticket has not expired, any named target exists and dirAdd succeeds; owner count rises by exactly 1 on full success and is unchanged otherwise; on success the directory gains exactly the ticket key and OwnerNode is the dirAdd hint; a failing dirAdd result is returned unchanged; balances, other accounts, other tickets and other directories are unchanged |
| `CreateTicketTransactor.ReserveCoversNewTicket` | src/ripple/app/tx/impl/CreateTicket.cpp:59-124 | Whenever the owner count rises, the starting balance covers the reserve at the new owner count |
| `CreateTicketTransactor.OwnerCountChangesOnlyOnSuccess` | src/ripple/app/tx/impl/CreateTicket.cpp:117-126 | A changed owner count implies tesSUCCESS and an increase of exactly one |
| `CreateTicketTransactor.LinkFreshTicket` | src/ripple/app/tx/impl/CreateTicket.cpp:100-124 | Inserting a fresh ticket, appending its key to the owner directory and adding one to the owner count keeps ownership bookkeeping consistent |
| `CreateTicketTransactor.DoApplyPreservesOwnership` | src/ripple/app/tx/impl/CreateTicket.cpp:56-127 | From a consistent view, the outcomes that leave no unlinked ticket (tesSUCCESS and tecINSUFFICIENT_RESERVE) leave a consistent view (owner count equals directory size, every ticket listed by its owner, no duplicates) |
| `CreateTicketTransactor.NoTargetLeavesUnlinkedTicket` | src/ripple/app/tx/impl/CreateTicket.cpp:76-92 | Because the ticket is inserted before the target check, the tecNO_TARGET view holds a ticket no directory lists, so that view is inconsistent and must be discarded |
| `Ledger.DirAdd` | src/ripple/app/tx/impl/CreateTicket.cpp:100-118 | On success the directory is the old one with the item appended and the hint names the page holding it; failure carries a non-success code |
| `Ledger.AccountReserveGrowth` | src/ripple/app/tx/impl/CreateTicket.cpp:49-54 | The reserve is monotone in the owner count and one more object costs exactly one increment |
| `Uint256.DecrementIncrement` | src/ripple/rpc/handlers/LedgerData.cpp:84-87 | The 256-bit decrement used for the marker (`Uint256.Decrement`, one less, wrapping from zero to 2^256 - 1) is undone by increment for every key, including the wrap from zero to the largest key |
| `Uint256.SetHexToHex` | src/ripple/rpc/handlers/LedgerData.cpp:53-87 | Every marker printed with to_string is accepted by SetHex and read back as the same 256-bit value |
| `Uint256.HexDigitsValue` | src/ripple/rpc/handlers/LedgerData.cpp:84-87 | Reading back the n hex digits written for a value below 16^n yields that value |
| `LedgerDataHandler.ClampLimit` | src/ripple/rpc/handlers/LedgerData.cpp:63-76 | The effective limit is non-negative; an absent or negative limit becomes the maximum; non-admins are capped at the maximum; an admin's non-negative limit is kept |
| `LedgerDataHandler.CollectState` | src/ripple/rpc/handlers/LedgerData.cpp:83-104 | The callback loop with its post-decremented limit produces exactly the first min(limit, n) entries (none for a non-positive limit) and, when entries remain, the marker "first unreturned key minus one", stopping there |
| `LedgerDataHandler.DoLedgerData` | src/ripple/rpc/handlers/LedgerData.cpp:41-107 | A missing ledger, an invalid marker (checked first) or a non-integral limit yield errors and no entries; otherwise the page holds at most the 2048 (binary) or 256 (JSON) cap for non-admins, is exactly the first min(limit, n) entries in order each tagged with its own key as index, and carries a marker iff more than limit entries exist, equal to the wrapped decrement of the first unreturned key |
| `LedgerDataHandler.MarkerIgnored` | src/ripple/rpc/handlers/LedgerData.cpp:53-83 | Two requests differing only in their accepted markers get the same response: the parsed resume point never reaches the iteration |
| `LedgerDataHandler.FollowingMarkerRepeatsFirstPage` | src/ripple/rpc/handlers/LedgerData.cpp:53-89 | For entries with keys 1 and 2 and limit 1, the first page is entry 1 with marker 1, and resending that marker returns the first page again |
| `LedgerDataHandler.FirstAfter` | src/ripple/rpc/handlers/LedgerData.cpp:53-59 | The index returned separates the entries at or before the resume point from the first entry after it |
| `LedgerDataHandler.DoLedgerDataResumed` | src/ripple/rpc/handlers/LedgerData.cpp:41-107 | The corrected handler has the same errors and caps, answers with a page exactly when the ledger exists and the marker and limit are acceptable, and returns the min(limit, remaining) entries after the resume point, with a marker iff entries remain; without a marker it agrees with DoLedgerData |
| `LedgerDataHandler.ResumeContinues` | src/ripple/rpc/handlers/LedgerData.cpp:84-89 | With the corrected handler and a positive limit, resending the marker of a page resumes exactly at the first entry that page did not return |
| `LedgerDataHandler.FollowMarkersCollectsAll` | src/ripple/rpc/handlers/LedgerData.cpp:83-104 | With the corrected handler and a positive limit, following markers from the start delivers every entry exactly once, in key order |
| `TxApply.DispatchMatchesServedTypes` | src/ripple/app/tx/impl/apply.cpp:55-73 | The switch `TxApply.Dispatch` sends each listed type to exactly the handler that serves it, per an independent per-handler table, and every handler is reachable |
| `TxApply.OnlyChangeIsShared` | src/ripple/app/tx/impl/apply.cpp:67-69 | The only distinct types sharing a handler are ttAMENDMENT and ttFEE, both sent to Change |
| `TxApply.Invoke` | src/ripple/app/tx/impl/apply.cpp:49-74 | An unlisted type yields (temUNKNOWN, false); a listed type yields whatever the handler chosen by the switch (`TxApply.Dispatch`) does, which is the one handler whose served types include it |
| `TxApply.UnlistedRunsNoHandler` | src/ripple/app/tx/impl/apply.cpp:70-73 | The outcome of an unlisted type does not depend on any handler's behaviour |
| `TxApply.Apply` | src/ripple/app/tx/impl/apply.cpp:76-99 | Anything thrown becomes (tefEXCEPTION, false); a returned pair passes through unchanged |
| `TxApply.ApplyBoundary` | src/ripple/app/tx/impl/apply.cpp:37-99 | A transaction is reported applied only when its type has a handler that returned normally with applied set; unlisted types give (temUNKNOWN, false) and throwing handlers (tefEXCEPTION, false) |

## Left out

- src/ripple/app/tx/impl/CreateOffer.h and offer crossing: the header declares the crossing engine, but its bodies are not part of this model.
- `Transactor::preCheck`, fee charging, and the apply context's policy of keeping or discarding the view on `tec` results are not part of this model. `DoApply` returns the TER and the view as the transactor left it. On the `tecNO_TARGET` and failed-`dirAdd` paths, that view still holds the ticket inserted at line 82.
- Ledger.DirAdd: the page-splitting internals of `dirAdd` (page linkage, root page bookkeeping, describer callbacks) are abstracted to an append with a page-number hint.
- CreateTicketTransactor.GetAccountReserve: the owner count is unbounded, so `ownerCount + 1` never wraps. In the source the 32-bit unsigned sum wraps to 0 at owner count 0xFFFFFFFF, and the quoted reserve then falls below the current one; "never below the current reserve" holds only below that count.
- CreateTicketTransactor.DoApply: the owner count is unbounded. The 32-bit owner-count field and `adjustOwnerCount`'s overflow handling are not modelled.
- CreateTicketTransactor.DoApply: the ticket key must not already be in the view. Inserting an existing key is a logic error in the view layer, which is not part of this model. Consumed sequence numbers make the key fresh in practice.
- `STAmount` arithmetic: the native balance is a natural number of drops.
- Hashing behind `getTicketIndex` is replaced by the injective datatype key `TicketIndex(account, sequence)`. Account roots and owner directories are keyed directly by the account identifier instead of the hashes of `keylet::account` and `getOwnerDirIndex`.
- Uint256.SetHex: leading whitespace and a `0x` prefix, which `base_uint::SetHex` may skip, are not modelled, because the source of `base_uint::SetHex` is not among the modelled files. As a result `DoLedgerData` reports `FieldError("marker")` for markers such as `" 0x1"` that the source may accept.
- `RPC::lookupLedger` is an optional ledger. The response's `ledger_hash` and `ledger_index`, JSON and hex rendering (`getJson`, `serializeHex`) and the RPC context are left out; the role is reduced to an admin flag.
- LedgerDataHandler.DoLedgerData: the `limit` value is a 32-bit integer. An integral value outside what `asInt` reads is not modelled.
- Logging (`j_.warning`, `j_.trace`, `JLOG`) is left out; it has no effect on results.
- The C++ exception mechanism is replaced by a `Threw` variant of a handler's result. Handler bodies are an opaque function parameter.

## Findings

| source | as written | input that shows it | evidently intended | confidence | as-written member | corrected member |
|---|---|---|---|---|---|---|
| src/ripple/rpc/handlers/LedgerData.cpp:53-89 | A valid `marker` is parsed into `resumePoint`, but iteration always starts at the first entry | Ledger with keys 1 and 2 and `limit` 1: the first response returns key 1 with marker 1, and resending marker 1 returns key 1 again, so key 2 is never reached | Iteration resumes at the first key after the resume point, so following markers enumerates every entry once, in key order (`LedgerDataHandler.FollowMarkersCollectsAll`) | medium, not executed | `LedgerDataHandler.FollowingMarkerRepeatsFirstPage` | `LedgerDataHandler.DoLedgerDataResumed` |
