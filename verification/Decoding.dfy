/**
 * How encoding/json reads a JSON-RPC batch into a slice that was used before: element i goes into cell i, and a
 * field the element leaves out keeps the value it finds there (evm-ingestion/rpc/fetcher.go, types.go).
 */
module Decoding {
  import opened Prelude

  // JSONRPCResponse as the callers read it: raw JSON, and the message of an error.
  datatype Response = Response(id: int, result: Bytes, error: Option<string>)

  // An element on the wire: any field may be left out, and the error may be null.
  datatype WireError = Absent | Null | Object(message: Option<string>)
  datatype WireResponse = WireResponse(id: Option<int>, result: Option<Bytes>, error: WireError)

  const ZERO: Response := Response(0, [], None)

  /** The cells of the slice's backing array that have been written; all others are zero. */
  type Cells = seq<Response>

  function CellAt(cells: Cells, i: nat): Response {
    if i < |cells| then cells[i] else ZERO
  }

  /** Decoding one element into a cell. A null error clears it; an error object is read into a stale one. */
  function Overlay(cell: Response, wire: WireResponse): Response {
    Response(
      if wire.id.Some? then wire.id.value else cell.id,
      if wire.result.Some? then wire.result.value else cell.result,
      match wire.error
      case Absent => cell.error
      case Null => None
      case Object(Some(message)) => Some(message)
      case Object(None) => Some(if cell.error.Some? then cell.error.value else ""))
  }

  /** What an element says when nothing is in its cell. */
  function Meaning(wire: WireResponse): Response {
    Overlay(ZERO, wire)
  }

  function Meanings(list: seq<WireResponse>): (r: seq<Response>)
    ensures |r| == |list| && forall i :: 0 <= i < |r| ==> r[i] == Meaning(list[i])
  {
    Map((wire: WireResponse) => Meaning(wire), list)
  }

  /** Decoding a whole array. Cells beyond its length survive; an empty array replaces the slice. */
  function Decode(cells: Cells, list: seq<WireResponse>): (r: Cells)
    ensures |r| >= |list|
    ensures forall i :: 0 <= i < |list| ==> r[i] == Overlay(CellAt(cells, i), list[i])
    ensures forall i :: |list| <= i < |r| ==> r[i] in cells
  {
    if list == [] then []
    else
      seq(Max(|cells|, |list|), i requires 0 <= i < Max(|cells|, |list|) =>
        if i < |list| then Overlay(CellAt(cells, i), list[i]) else cells[i])
  }

  // ----- when the stale values do not show -----

  /** No field the element leaves out meets a value in the cell. */
  predicate Unaffected(cell: Response, wire: WireResponse) {
    && (wire.id.None? ==> cell.id == 0)
    && (wire.result.None? ==> cell.result == [])
    && (wire.error.Absent? ==> cell.error.None?)
    && (wire.error == Object(None) ==> cell.error.None? || cell.error.value == "")
  }

  /** What is decoded is what the wire says if and only if no field left out meets a stale value in its cell. */
  lemma DecodeExactly(cells: Cells, list: seq<WireResponse>)
    ensures Decode(cells, list)[..|list|] == Meanings(list) <==>
            forall i :: 0 <= i < |list| ==> Unaffected(CellAt(cells, i), list[i])
  {
    var read := Decode(cells, list)[..|list|];
    forall i | 0 <= i < |list| ensures read[i] == Meanings(list)[i] <==> Unaffected(CellAt(cells, i), list[i]) {
      assert read[i] == Overlay(CellAt(cells, i), list[i]);
    }
  }

  // ----- nodes that follow section 5 of the JSON-RPC 2.0 Specification -----

  /** A response carries its id, and a result or else an error with a message. */
  predicate Compliant(wire: WireResponse) {
    && wire.id.Some?
    && (wire.error.Object? ==> wire.error.message.Some?)
    && (wire.error.Object? || wire.result.Some?)
  }

  /** r says what the element said: same id, and the same error or else the same result. */
  predicate Genuine(r: Response, wire: WireResponse) {
    && wire.id == Some(r.id)
    && if r.error.Some? then wire.error == Object(r.error) else !wire.error.Object? && wire.result == Some(r.result)
  }

  /** Such an element can only be falsified by a stale error, and only when it leaves the error out. */
  lemma OverlayGenuine(cell: Response, wire: WireResponse)
    requires Compliant(wire)
    ensures Genuine(Overlay(cell, wire), wire) <==> (wire.error.Absent? ==> cell.error.None?)
    ensures Overlay(cell, wire).error.None? ==> Genuine(Overlay(cell, wire), wire)
  {
  }

  predicate AllCompliant(list: seq<WireResponse>) {
    forall w :: w in list ==> Compliant(w)
  }

  predicate NoStaleError(cells: Cells) {
    forall i :: 0 <= i < |cells| ==> cells[i].error.None?
  }

  predicate AllGenuine(rs: seq<Response>, list: seq<WireResponse>)
    requires |rs| >= |list|
  {
    forall i :: 0 <= i < |list| ==> Genuine(rs[i], list[i])
  }

  /** Every array of n such elements is read as it was sent if and only if the first n cells hold no error. */
  lemma CompliantExactly(cells: Cells, n: nat)
    ensures (forall list :: |list| == n && AllCompliant(list) ==> AllGenuine(Decode(cells, list), list)) <==>
            NoStaleError(cells[..Min(n, |cells|)])
  {
    if NoStaleError(cells[..Min(n, |cells|)]) {
      forall list | |list| == n && AllCompliant(list) ensures AllGenuine(Decode(cells, list), list) {
        forall i | 0 <= i < n ensures Genuine(Decode(cells, list)[i], list[i]) {
          assert list[i] in list;
          assert i < |cells| ==> cells[..Min(n, |cells|)][i] == cells[i];
          OverlayGenuine(CellAt(cells, i), list[i]);
        }
      }
    } else {
      var i :| 0 <= i < Min(n, |cells|) && cells[i].error.Some?;
      var list := seq(n, k => WireResponse(Some(k), Some([]), Absent));
      OverlayGenuine(cells[i], list[i]);
      assert AllCompliant(list) && !AllGenuine(Decode(cells, list), list);
    }
  }

  /** Errors get into the cells only from error objects on the wire. */
  lemma DecodeKeepsClean(cells: Cells, list: seq<WireResponse>)
    requires NoStaleError(cells) && forall w :: w in list ==> !w.error.Object?
    ensures NoStaleError(Decode(cells, list))
  {
    var read := Decode(cells, list);
    forall i | 0 <= i < |read| ensures read[i].error.None? {
      if i < |list| {
        assert list[i] in list;
      } else {
        assert read[i] in cells;
      }
    }
  }
}
