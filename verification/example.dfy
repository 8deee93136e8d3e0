/**
 * One hexahedral zone followed through the script: the `Z` line `Z B8 7 1 2 3 4 5 6 7 8`,
 * the element line `1 5 2 0 0 1 2 3 4 5 6 7 8` the writer makes of it, and the line
 * `1 5 2 0 0 3 5 8 6 1 2 7 4` the corrector makes of that.
 */
module Example {
  import opened Results
  import opened Text
  import opened Shapes
  import opened GridReader
  import opened MeshWriter
  import opened NodeOrder
  import opened Pipeline

  /** The integers of the `Z` line: zone 7, then grid points 1 to 8. */
  const ZoneTail: seq<int> := [7, 1, 2, 3, 4, 5, 6, 7, 8]

  /** A brick's `Z` line on the integers `ns`: `Z B8` and then `ns` printed. */
  function BrickLine(ns: seq<int>): string {
    Spaced("Z", Spaced("B8", Join(ShowAll(ns))))
  }

  const GridPoints: seq<int> := [1, 2, 3, 4, 5, 6, 7, 8]
  const GmshOrder: seq<int> := [3, 5, 8, 6, 1, 2, 7, 4]

  /** The kind and the printed integers are the fields of the line. */
  lemma BrickLineFields(ns: seq<int>)
    ensures Split(BrickLine(ns)) == ["Z", "B8"] + ShowAll(ns)
  {
    assert IsToken("Z") && IsToken("B8");
    var nums := ShowAll(ns);
    SplitFirst("Z", Spaced("B8", Join(nums)));
    SplitFirst("B8", Join(nums));
    SplitJoin(nums);
  }

  /** The line starts with `Z`. */
  lemma BrickLineStart(ns: seq<int>)
    ensures Strip(BrickLine(ns)) != [] && Strip(BrickLine(ns))[0] == 'Z'
  {
    var line := BrickLine(ns);
    assert line[0] == 'Z';
    StripKeepsFirst(line);
  }

  /** The reader turns the line into a brick zone on the printed integers, each minus one. */
  lemma BrickLineRead<F>(ns: seq<int>, nodeGuard: nat, parse: string -> Option<F>)
    requires ns != []
    ensures ParseLine(BrickLine(ns), nodeGuard, parse) == Ok(Zone("B8", ZoneIndices(ShowAll(ns))))
  {
    BrickLineStart(ns);
    BrickLineFields(ns);
    SplitStrip(BrickLine(ns));
    var nums := ShowAll(ns);
    var parts := ["Z", "B8"] + nums;
    assert parts[1] == "B8" && parts[2..] == nums;
    assert ParseInt(parts[2]) == Some(ns[0]);
  }

  /** The zone id is dropped, and the reader's minus one and the writer's plus one cancel. */
  lemma BrickWrittenIds(ns: seq<int>)
    requires ns != []
    ensures WrittenIds(ZoneIndices(ShowAll(ns))) == ns[1..]
  {
    var nums := ShowAll(ns);
    assert forall i :: 0 <= i < |nums| ==> ParseInt(nums[i]) == Some(ns[i]);
    assert [] + [nums[0]] + nums[1..] == nums;
    ZoneNodeIdsWritten([], nums[0], nums[1..]);
  }

  /** The brick table, spelled out on any eight nodes. */
  lemma BrickGather(nodes: seq<int>)
    requires |nodes| == 8
    ensures ReorderFor(5, nodes) == [nodes[2], nodes[4], nodes[7], nodes[5], nodes[0], nodes[1], nodes[6], nodes[3]]
  {
    ReorderRoundTrip(Hexahedron, nodes);
  }

  /** The corrector rewrites an element line of the writer with its nodes reordered. */
  lemma LineRewrittenAs(id: int, code: int, ids: seq<int>, reordered: seq<int>, at: nat)
    requires ids != [] && ReorderFor(code, ids) == reordered
    ensures RewriteLine(ElementLine(id, code, ids), at) == Ok(ElementLine(id, code, reordered))
  {
    ElementLineRewritten(id, code, ids, at);
    var line := ElementLine(id, code, reordered);
    assert CorrectedLine(id, code, ids) == line + Pad(ids);
    assert Pad(ids) == [];
    assert line + [] == line;
  }

  /** The worked example end to end: the zone line `Z B8 7 1 2 3 4 5 6 7 8` reads as a brick;
      the writer makes element 1 of type 5 on grid points 1 to 8 of it, the line
      `1 5 2 0 0 1 2 3 4 5 6 7 8`; and the corrector rewrites that line, at whatever position it
      sits, as element 1 of type 5 on grid points 3 5 8 6 1 2 7 4, the line
      `1 5 2 0 0 3 5 8 6 1 2 7 4`. */
  lemma BrickThroughBothStages<F>(nodeGuard: nat, parse: string -> Option<F>, at: nat)
    ensures var ids := ZoneIndices(ShowAll(ZoneTail));
            && ParseLine(BrickLine(ZoneTail), nodeGuard, parse) == Ok(Zone("B8", ids))
            && TypeCode("B8") == 5 && WrittenIds(ids) == GridPoints
    ensures RewriteLine(ElementLine(1, 5, GridPoints), at) == Ok(ElementLine(1, 5, GmshOrder))
  {
    BrickLineRead(ZoneTail, nodeGuard, parse);
    BrickWrittenIds(ZoneTail);
    assert ZoneTail[1..] == GridPoints;
    BrickGather(GridPoints);
    LineRewrittenAs(1, 5, GridPoints, GmshOrder, at);
  }
}
