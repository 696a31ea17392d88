/** The ledger_data query handler: validates the `marker` and `limit`
    parameters, clamps the page length by role and output format, and returns
    a page of state entries in key order with a resume marker when more remain. */
module LedgerDataHandler {
  import opened Results
  import opened Uint256

  /** Page lengths for binary and JSON output. */
  const BinaryPageLength: nat := 2048
  const JsonPageLength: nat := 256

  /** A state entry: its key and its serialized contents. */
  datatype Sle = Sle(key: U256, payload: seq<bv8>)

  /** The ledger's state entries are visited in strictly increasing key order. */
  predicate KeyOrdered(entries: seq<Sle>)
  {
    forall i, j :: 0 <= i < j < |entries| ==> entries[i].key < entries[j].key
  }

  type Int32 = x: int | -0x8000_0000 <= x < 0x8000_0000

  /** A request parameter as the JSON layer presents it: missing, an integral
      value in the range asInt reads, a string, or anything else. */
  datatype JsonParam = Absent | JsonInt(n: Int32) | JsonString(s: string) | JsonOther

  /** The request: `marker` and `limit` parameters, the `binary` flag (absent
      reads as false) and whether the caller has the admin role. */
  datatype Request = Request(marker: JsonParam, limit: JsonParam, binary: bool, admin: bool)

  /** One element of the `state` array: the entry in the chosen format,
      tagged with its key as `index`. */
  datatype Node = Node(index: U256, sle: Sle, binary: bool)

  datatype Response =
    | LedgerNotFound
    | FieldError(field: string, expected: string)
    | State(nodes: seq<Node>, marker: Option<U256>)

  function MaxLimit(binary: bool): nat
  {
    if binary then BinaryPageLength else JsonPageLength
  }

  /** The page length actually used: a missing or negative request becomes the
      maximum, a larger one is cut to the maximum unless the caller is an admin. */
  function ClampLimit(requested: int, maxLimit: nat, admin: bool): (r: int)
    ensures r >= 0
    ensures requested < 0 ==> r == maxLimit
    ensures !admin ==> r <= maxLimit
    ensures requested >= 0 && (admin || requested <= maxLimit) ==> r == requested
    ensures !admin && requested > maxLimit ==> r == maxLimit
  {
    if requested < 0 || (requested > maxLimit && !admin) then maxLimit else requested
  }

  /** A `marker` parameter is accepted when it is a string SetHex accepts. */
  predicate MarkerValid(p: JsonParam)
  {
    p.JsonString? && SetHex(p.s).Some?
  }

  /** The `limit` parameter before clamping: -1 when absent. */
  function RequestedLimit(req: Request): int
  {
    if req.limit.JsonInt? then req.limit.n else -1
  }

  function EffectiveLimit(req: Request): (r: nat)
  {
    ClampLimit(RequestedLimit(req), MaxLimit(req.binary), req.admin)
  }

  function Render(e: Sle, binary: bool): Node
  {
    Node(e.key, e, binary)
  }

  /** How many entries the callback accepts before it emits a marker. */
  function PageLength(n: nat, limit: int): (r: nat)
    ensures r <= n
  {
    if limit <= 0 then 0 else if limit < n then limit else n
  }

  /** Reference definition of the `state` array: the first entries in order. */
  function PageNodes(entries: seq<Sle>, limit: int, binary: bool): (r: seq<Node>)
    ensures |r| == PageLength(|entries|, limit)
  {
    seq(PageLength(|entries|, limit), i requires 0 <= i < PageLength(|entries|, limit) =>
      Render(entries[i], binary))
  }

  /** Reference definition of the resume marker: the key of the first entry
      not returned, minus one, when there is such an entry. */
  function PageMarker(entries: seq<Sle>, limit: int): Option<U256>
  {
    var n := PageLength(|entries|, limit);
    if n < |entries| then Some(Decrement(entries[n].key)) else None
  }

  /** The forEachSLE callback loop: every visited entry decrements the
      remaining limit; one visited when the limit is used up yields the marker
      and stops the iteration, any other is appended to the page. */
  method CollectState(entries: seq<Sle>, limit: int, binary: bool) returns (nodes: seq<Node>, marker: Option<U256>)
    ensures nodes == PageNodes(entries, limit, binary)
    ensures marker == PageMarker(entries, limit)
  {
    nodes := [];
    marker := None;
    var remaining := limit;
    var i := 0;
    while i < |entries|
      invariant 0 <= i <= |entries|
      invariant remaining == limit - i
      invariant i == 0 || i <= limit
      invariant nodes == PageNodes(entries[..i], limit, binary)
      invariant forall j :: 0 <= j < i ==> nodes[j] == Render(entries[j], binary)
    {
      var visited := remaining;
      remaining := remaining - 1;
      if visited <= 0 {
        marker := Some(Decrement(entries[i].key));
        assert PageLength(|entries|, limit) == i;
        return;
      }
      nodes := nodes + [Render(entries[i], binary)];
      i := i + 1;
    }
  }

  /** The handler in the source. The marker, when valid, is read into a resume
      point that the iteration never consults. */
  function DoLedgerData(ledger: Option<seq<Sle>>, req: Request): (r: Response)
    ensures ledger.None? ==> r == LedgerNotFound
    ensures ledger.Some? && req.marker != Absent && !MarkerValid(req.marker) ==>
              r == FieldError("marker", "valid")
    ensures ledger.Some? && (req.marker == Absent || MarkerValid(req.marker))
            && req.limit != Absent && !req.limit.JsonInt? ==>
              r == FieldError("limit", "integer")
    ensures r.State? <==>
              && ledger.Some?
              && (req.marker == Absent || MarkerValid(req.marker))
              && (req.limit == Absent || req.limit.JsonInt?)
    ensures r.State? ==> |r.nodes| <= |ledger.value|
    ensures r.State? && !req.admin ==> |r.nodes| <= MaxLimit(req.binary)
    ensures r.State? ==> |r.nodes| == PageLength(|ledger.value|, EffectiveLimit(req))
    ensures r.State? ==>
              forall i :: 0 <= i < |r.nodes| ==>
                r.nodes[i].sle == ledger.value[i] && r.nodes[i].index == ledger.value[i].key
                && r.nodes[i].binary == req.binary
    ensures r.State? ==> (r.marker.Some? <==> |ledger.value| > EffectiveLimit(req))
    ensures r.State? && r.marker.Some? ==> r.marker.value == Decrement(ledger.value[|r.nodes|].key)
  {
    if ledger.None? then LedgerNotFound
    else if req.marker != Absent && !MarkerValid(req.marker) then FieldError("marker", "valid")
    else if req.limit != Absent && !req.limit.JsonInt? then FieldError("limit", "integer")
    else
      var limit := EffectiveLimit(req);
      State(PageNodes(ledger.value, limit, req.binary), PageMarker(ledger.value, limit))
  }

  /** As written, the page does not depend on the marker: two requests that
      differ only in their (accepted) markers get the same response. */
  lemma MarkerIgnored(ledger: Option<seq<Sle>>, req: Request, marker: JsonParam)
    requires marker == Absent || MarkerValid(marker)
    requires req.marker == Absent || MarkerValid(req.marker)
    ensures DoLedgerData(ledger, req.(marker := marker)) == DoLedgerData(ledger, req)
  {
  }

  /** A concrete run of the handler in the source: with two entries and a page of
      one, sending back the marker of the first page yields the first page
      again, so a client following markers never reaches the second entry. */
  lemma FollowingMarkerRepeatsFirstPage()
    ensures var entries := [Sle(1, []), Sle(2, [])];
            var req := Request(Absent, JsonInt(1), false, false);
            var first := DoLedgerData(Some(entries), req);
            && first == State([Node(1, Sle(1, []), false)], Some(1))
            && DoLedgerData(Some(entries), req.(marker := JsonString(ToHex(1)))) == first
  {
  }

  /** The index of the first entry whose key lies after `m` (upper_bound). */
  function FirstAfter(entries: seq<Sle>, m: U256): (i: nat)
    ensures i <= |entries|
    ensures forall j :: 0 <= j < i ==> entries[j].key <= m
    ensures i < |entries| ==> entries[i].key > m
  {
    if |entries| == 0 then 0
    else if entries[0].key > m then 0
    else 1 + FirstAfter(entries[1..], m)
  }

  /** In a key-ordered ledger, every entry from FirstAfter on lies after `m`. */
  lemma FirstAfterSplits(entries: seq<Sle>, m: U256)
    requires KeyOrdered(entries)
    ensures forall j :: FirstAfter(entries, m) <= j < |entries| ==> entries[j].key > m
  {
  }

  /** Where the corrected handler starts: after the resume point when a marker
      was given, at the first entry otherwise. */
  function ResumeIndex(entries: seq<Sle>, req: Request): (i: nat)
    ensures i <= |entries|
  {
    if MarkerValid(req.marker) then FirstAfter(entries, SetHex(req.marker.s).value) else 0
  }

  /** The corrected handler: iteration resumes after the resume
      point parsed from the marker. */
  function DoLedgerDataResumed(ledger: Option<seq<Sle>>, req: Request): (r: Response)
    ensures ledger.None? ==> r == LedgerNotFound
    ensures ledger.Some? && req.marker != Absent && !MarkerValid(req.marker) ==>
              r == FieldError("marker", "valid")
    ensures ledger.Some? && (req.marker == Absent || MarkerValid(req.marker))
            && req.limit != Absent && !req.limit.JsonInt? ==>
              r == FieldError("limit", "integer")
    ensures r.State? <==>
              && ledger.Some?
              && (req.marker == Absent || MarkerValid(req.marker))
              && (req.limit == Absent || req.limit.JsonInt?)
    ensures r.State? ==> |r.nodes| <= |ledger.value|
    ensures r.State? && !req.admin ==> |r.nodes| <= MaxLimit(req.binary)
    ensures r.State? ==>
              var s := ResumeIndex(ledger.value, req);
              && s + |r.nodes| <= |ledger.value|
              && |r.nodes| == PageLength(|ledger.value| - s, EffectiveLimit(req))
              && r.nodes == RenderAll(ledger.value[s..s + |r.nodes|], req.binary)
              && (r.marker.Some? <==> s + |r.nodes| < |ledger.value|)
              && (r.marker.Some? ==> r.marker.value == Decrement(ledger.value[s + |r.nodes|].key))
    ensures r.State? && req.marker == Absent ==> r == DoLedgerData(ledger, req)
  {
    if ledger.None? then LedgerNotFound
    else if req.marker != Absent && !MarkerValid(req.marker) then FieldError("marker", "valid")
    else if req.limit != Absent && !req.limit.JsonInt? then FieldError("limit", "integer")
    else
      var limit := EffectiveLimit(req);
      var rest := ledger.value[ResumeIndex(ledger.value, req)..];
      State(PageNodes(rest, limit, req.binary), PageMarker(rest, limit))
  }

  /** With the corrected handler, sending back the marker of a non-empty page
      continues exactly where that page stopped. */
  lemma {:induction false} ResumeContinues(entries: seq<Sle>, req: Request)
    requires KeyOrdered(entries)
    requires EffectiveLimit(req) > 0
    requires DoLedgerDataResumed(Some(entries), req).State?
    requires DoLedgerDataResumed(Some(entries), req).marker.Some?
    ensures var first := DoLedgerDataResumed(Some(entries), req);
            var next := req.(marker := JsonString(ToHex(first.marker.value)));
            && DoLedgerDataResumed(Some(entries), next).State?
            && ResumeIndex(entries, next) == ResumeIndex(entries, req) + |first.nodes|
  {
    var first := DoLedgerDataResumed(Some(entries), req);
    var s := ResumeIndex(entries, req);
    var n := s + |first.nodes|;
    var m := first.marker.value;
    var next := req.(marker := JsonString(ToHex(m)));
    SetHexToHex(m);
    assert MarkerValid(next.marker);
    assert n > 0;
    assert entries[n].key > entries[n - 1].key >= 0;
    assert m == entries[n].key - 1;
    FirstAfterSplits(entries, m);
  }

  /** Every entry of `es`, in order, in the requested format. */
  function RenderAll(es: seq<Sle>, binary: bool): (r: seq<Node>)
    ensures |r| == |es|
  {
    seq(|es|, i requires 0 <= i < |es| => Render(es[i], binary))
  }

  /** The `state` arrays a client collects with the corrected handler by
      sending each marker back until no marker is returned. */
  function FollowMarkers(entries: seq<Sle>, req: Request): seq<Node>
    requires KeyOrdered(entries)
    requires EffectiveLimit(req) > 0
    requires DoLedgerDataResumed(Some(entries), req).State?
    decreases |entries| - ResumeIndex(entries, req)
  {
    var page := DoLedgerDataResumed(Some(entries), req);
    if page.marker.None? then page.nodes
    else
      var next := req.(marker := JsonString(ToHex(page.marker.value)));
      ResumeContinues(entries, req);
      page.nodes + FollowMarkers(entries, next)
  }

  /** With the corrected handler, a client that follows the markers receives
      every remaining entry exactly once and in key order; starting without a
      marker, it receives the whole ledger. */
  lemma {:induction false} FollowMarkersCollectsAll(entries: seq<Sle>, req: Request)
    requires KeyOrdered(entries)
    requires EffectiveLimit(req) > 0
    requires DoLedgerDataResumed(Some(entries), req).State?
    ensures FollowMarkers(entries, req) == RenderAll(entries[ResumeIndex(entries, req)..], req.binary)
    ensures req.marker == Absent ==> FollowMarkers(entries, req) == RenderAll(entries, req.binary)
    decreases |entries| - ResumeIndex(entries, req)
  {
    var page := DoLedgerDataResumed(Some(entries), req);
    var s := ResumeIndex(entries, req);
    var n := |page.nodes|;
    if page.marker.Some? {
      var next := req.(marker := JsonString(ToHex(page.marker.value)));
      ResumeContinues(entries, req);
      FollowMarkersCollectsAll(entries, next);
      assert FollowMarkers(entries, req) == page.nodes + FollowMarkers(entries, next);
      JoinPages(entries, s, n, req.binary, page.nodes, FollowMarkers(entries, next));
    } else {
      assert s + n == |entries|;
      assert entries[s..s + n] == entries[s..];
    }
  }

  /** A page of the entries from `s` followed by the rendering of everything
      after it is the rendering of everything from `s`. */
  lemma JoinPages(entries: seq<Sle>, s: nat, n: nat, binary: bool, page: seq<Node>, rest: seq<Node>)
    requires s + n <= |entries|
    requires page == RenderAll(entries[s..s + n], binary)
    requires rest == RenderAll(entries[s + n..], binary)
    ensures page + rest == RenderAll(entries[s..], binary)
  {
  }
}
