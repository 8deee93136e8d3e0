/**
 * The script's two stages run one after the other: `f3grid_2_msh` reads the FLAC3D grid and
 * writes it as MSH 2.2 text, then `convert_msh_node_order` reads that text back and puts every
 * element's nodes into Gmsh corner order. The lemmas here follow an element from its `Z` line
 * through both stages.
 */
module Pipeline {
  import opened Results
  import opened Text
  import opened Shapes
  import opened GridReader
  import opened MeshWriter
  import opened NodeOrder

  /** The record the corrector reads from an element line the writer wrote. */
  function WrittenRecord(id: int, code: int, ids: seq<int>): ElementRecord {
    ElementRecord(id, code, 2, ["0", "0"], ids)
  }

  /** The corrector always writes the separator before the node list, so an element without
      nodes gains a trailing space. */
  function Pad(ids: seq<int>): string {
    if ids == [] then " " else ""
  }

  /** The writer's `" {id}"` per node is a space and then the space-joined ids. */
  lemma {:induction false} TrailJoin(ids: seq<int>)
    ensures Trail(ids) + Pad(ids) == " " + Join(ShowAll(ids))
    decreases |ids|
  {
    if ids != [] {
      var shows := ShowAll(ids);
      var head := ShowInt(ids[0]);
      if |ids| == 1 {
        assert Trail(ids) == " " + head + "";
        assert Join(shows) == head;
      } else {
        TrailJoin(ids[1..]);
        var rest := Join(ShowAll(ids[1..]));
        assert shows[1..] == ShowAll(ids[1..]);
        assert Join(shows) == head + " " + rest;
        assert Trail(ids[1..]) == " " + rest;
        Regroup(" ", head, " ", rest);
      }
    }
  }

  /** `a + b + (c + d)` regrouped. */
  lemma Regroup<T>(a: seq<T>, b: seq<T>, c: seq<T>, d: seq<T>)
    ensures a + b + (c + d) == a + (b + c + d)
  {
  }

  lemma FixedTags(j: string)
    ensures Spaced(ShowInt(2), Spaced(Join(["0", "0"]), j)) == "2 0 0" + (" " + j)
  {
    assert ShowInt(2) == "2";
  }

  /** `a b x` followed by `y` is `a b xy`. */
  lemma SpacedTwiceAppend(a: string, b: string, x: string, y: string)
    ensures Spaced(a, Spaced(b, x)) + y == Spaced(a, Spaced(b, x + y))
  {
  }

  /** The corrector's rendering of a written record is the writer's element line again, up to
      the trailing space of an element without nodes. */
  lemma ElementLineRendered(id: int, code: int, ids: seq<int>)
    ensures Render(WrittenRecord(id, code, ids)) == ElementLine(id, code, ids) + Pad(ids)
  {
    var j := Join(ShowAll(ids));
    FixedTags(j);
    TrailJoin(ids);
    SpacedTwiceAppend(ShowInt(id), ShowInt(code), "2 0 0", Trail(ids));
    SpacedTwiceAppend(ShowInt(id), ShowInt(code), "2 0 0" + Trail(ids), Pad(ids));
    assert "2 0 0" + Trail(ids) + Pad(ids) == "2 0 0" + (" " + j);
  }

  /** Splitting ignores the padding. */
  lemma SplitPad(line: string, ids: seq<int>)
    ensures Split(line + Pad(ids)) == Split(line)
  {
    if ids == [] {
      SplitTrailingSpace(line);
    } else {
      assert line + Pad(ids) == line;
    }
  }

  /** The corrector reads an element line of the writer as id, type code, the two zero tags and
      the written node ids. */
  lemma ElementLineParses(id: int, code: int, ids: seq<int>, at: nat)
    ensures ParseRecord(ElementLine(id, code, ids), at) == Ok(WrittenRecord(id, code, ids))
  {
    var rec := WrittenRecord(id, code, ids);
    DigitNotSpace('0');
    assert AllTokens(rec.tags);
    RenderFields(rec);
    ElementLineRendered(id, code, ids);
    SplitPad(ElementLine(id, code, ids), ids);
    SplitStrip(ElementLine(id, code, ids));
    SplitStrip(Render(rec));
    FieldsParse(rec, at);
  }

  /** Every line of the writer's element block reads back, through the corrector's own parser, as
      the zone it came from: id `i + 1`, the code of its kind, tags `0 0`, and the zone's indices
      after the first, each plus one. */
  lemma ElementLinesParse(cells: seq<seq<int>>, types: seq<string>, i: nat, at: nat)
    requires i < |cells| && i < |types|
    ensures |ElementLines(cells, types)| == if |cells| <= |types| then |cells| else |types|
    ensures var rec := ParseRecord(ElementLines(cells, types)[i], at);
            && rec == Ok(WrittenRecord(i + 1, TypeCode(types[i]), WrittenIds(cells[i])))
            && rec.value.id == i + 1 && rec.value.code == TypeCode(types[i])
            && rec.value.ntags == 2 && rec.value.tags == ["0", "0"]
            && |rec.value.nodes| == (if cells[i] == [] then 0 else |cells[i]| - 1)
            && forall j :: 0 <= j < |rec.value.nodes| ==> rec.value.nodes[j] == cells[i][j + 1] + 1
  {
    ElementLineParses(i + 1, TypeCode(types[i]), WrittenIds(cells[i]), at);
  }

  /** What the corrector writes for an element line of the writer. */
  function CorrectedLine(id: int, code: int, ids: seq<int>): string {
    ElementLine(id, code, ReorderFor(code, ids)) + Pad(ids)
  }

  /** Rewriting a written element line writes it again with its nodes in Gmsh order. */
  lemma ElementLineRewritten(id: int, code: int, ids: seq<int>, at: nat)
    ensures RewriteLine(ElementLine(id, code, ids), at) == Ok(CorrectedLine(id, code, ids))
  {
    ElementLineParses(id, code, ids, at);
    var reordered := ReorderFor(code, ids);
    assert Correct(WrittenRecord(id, code, ids)) == WrittenRecord(id, code, reordered);
    ElementLineRendered(id, code, reordered);
  }

  /** The element block the corrector writes for the writer's element block. */
  function CorrectedLines(cells: seq<seq<int>>, types: seq<string>): (r: seq<string>)
    ensures |r| == if |cells| <= |types| then |cells| else |types|
  {
    var n := if |cells| <= |types| then |cells| else |types|;
    seq(n, i requires 0 <= i < n => CorrectedLine(i + 1, TypeCode(types[i]), WrittenIds(cells[i])))
  }

  /** Element `i` of the corrected block is the corrected line of zone `i`. */
  lemma CorrectedLineAt(cells: seq<seq<int>>, types: seq<string>, i: nat)
    requires i < |CorrectedLines(cells, types)|
    ensures CorrectedLines(cells, types)[i] == CorrectedLine(i + 1, TypeCode(types[i]), WrittenIds(cells[i]))
  {
  }

  /** A line that starts with a digit does not open an element block. */
  lemma DigitLineIsPlain(line: string)
    requires line != [] && IsDigit(line[0])
    ensures !ElementsMarker()(line)
  {
    DigitNotSpace(line[0]);
    StripKeepsFirst(line);
    assert ElementsHeading[0] == '$';
  }

  /** Neither does a line without whitespace at either end, other than `$Elements`. */
  lemma EdgesArePlain(line: string)
    requires line != [] && !IsSpace(line[0]) && !IsSpace(line[|line| - 1])
    requires line != ElementsHeading
    ensures !ElementsMarker()(line)
  {
    assert DropLeading(line) == line;
    assert DropTrailing(line) == line;
  }

  lemma EmptyIsPlain()
    ensures !ElementsMarker()("")
  {
    assert Strip("") == "";
  }

  /** `$Elements` itself does. */
  lemma MarkerOpens()
    ensures ElementsMarker()(ElementsStart)
  {
    var m := ElementsStart;
    assert !IsSpace(m[0]) && !IsSpace(m[|m| - 1]);
    assert DropLeading(m) == m;
    assert DropTrailing(m) == m;
  }

  /** `$EndElements` does not. */
  lemma ClosingIsPlain()
    ensures !ElementsMarker()(ElementsEnd)
  {
    EdgesArePlain(ElementsEnd);
  }

  lemma ShowNatLeadingDigit(n: nat)
    ensures IsDigit(ShowInt(n)[0])
  {
    assert ShowInt(n) == ShowNat(n);
  }

  /** No line of `lines` satisfies `opens`. */
  predicate NoneOpens(lines: seq<string>, opens: string -> bool) {
    forall i :: 0 <= i < |lines| ==> !opens(lines[i])
  }

  /** No line of `lines` opens an element block. */
  predicate AllPlain(lines: seq<string>) {
    NoneOpens(lines, ElementsMarker())
  }

  lemma AllPlainConcat(a: seq<string>, b: seq<string>)
    requires AllPlain(a) && AllPlain(b)
    ensures AllPlain(a + b)
  {
    var opens := ElementsMarker();
    forall i | 0 <= i < |a + b|
      ensures !opens((a + b)[i])
    {
      if i < |a| {
        assert (a + b)[i] == a[i];
      } else {
        assert (a + b)[i] == b[i - |a|];
      }
    }
  }

  lemma PreambleIsPlain()
    ensures AllPlain(Preamble)
  {
    forall i | 0 <= i < |Preamble|
      ensures !ElementsMarker()(Preamble[i])
    {
      var line := Preamble[i];
      if line == "" {
        EmptyIsPlain();
      } else {
        EdgesArePlain(line);
      }
    }
  }

  /** Node lines start with the node number. */
  lemma NodeLinesArePlain<F>(vs: seq<Vertex<F>>, show: F -> string)
    ensures AllPlain(NodeLines(vs, show))
  {
    forall i | 0 <= i < |vs|
      ensures !ElementsMarker()(NodeLines(vs, show)[i])
    {
      ShowNatLeadingDigit(i + 1);
      DigitLineIsPlain(NodeLine(i, vs[i], show));
    }
  }

  lemma PairIsPlain(a: string, b: string)
    requires !ElementsMarker()(a) && !ElementsMarker()(b)
    ensures AllPlain([a, b])
  {
  }

  lemma NodesHeadingIsPlain()
    ensures !ElementsMarker()("$Nodes")
  {
    EdgesArePlain("$Nodes");
  }

  lemma NodesEndIsPlain()
    ensures !ElementsMarker()("$EndNodes")
  {
    EdgesArePlain("$EndNodes");
  }

  lemma NodesOpeningIsPlain(nv: nat)
    ensures AllPlain(["$Nodes", ShowInt(nv)])
  {
    NodesHeadingIsPlain();
    ShowNatLeadingDigit(nv);
    DigitLineIsPlain(ShowInt(nv));
    PairIsPlain("$Nodes", ShowInt(nv));
  }

  lemma NodesClosingIsPlain()
    ensures AllPlain(["$EndNodes", ""])
  {
    NodesEndIsPlain();
    EmptyIsPlain();
    PairIsPlain("$EndNodes", "");
  }

  /** No line before the element block opens one: the corrector copies the header unchanged. */
  lemma HeaderIsPlain<F>(g: Grid<F>, show: F -> string)
    ensures AllPlain(Header(g, show))
  {
    var opening := ["$Nodes", ShowInt(|g.vertices|)];
    var nodes := NodeLines(g.vertices, show);
    PreambleIsPlain();
    NodesOpeningIsPlain(|g.vertices|);
    NodeLinesArePlain(g.vertices, show);
    NodesClosingIsPlain();
    AllPlainConcat(Preamble, opening);
    AllPlainConcat(Preamble + opening, nodes);
    AllPlainConcat(Preamble + opening + nodes, ["$EndNodes", ""]);
  }

  /** `rewrite` turns each line of `body`, at its position from `start` on, into the line of
      `out` at the same index. */
  predicate RewritesTo(body: seq<string>, start: nat, out: seq<string>, rewrite: LineRewriting) {
    && |out| == |body|
    && forall i :: 0 <= i < |body| ==> rewrite(body[i], start + i) == Ok(out[i])
  }

  /** Where the parts of `h + [m, c] + body + [e]` sit. */
  lemma ShapeLayout<T>(h: seq<T>, m: T, c: T, body: seq<T>, e: T)
    ensures var lines, k := h + [m, c] + body + [e], |h|;
            && |lines| == k + 3 + |body|
            && lines[0..k] == h && lines[k] == m && lines[k + 1] == c
            && lines[k + 2 + |body|..] == [e]
            && h + ([m, c] + body + [e]) == lines
  {
  }

  /** The element lines sit after the header and the two opening lines. */
  lemma ShapeBody<T>(h: seq<T>, m: T, c: T, body: seq<T>, e: T, p: nat)
    requires |h| + 2 <= p < |h| + 2 + |body|
    ensures (h + [m, c] + body + [e])[p] == body[p - (|h| + 2)]
  {
  }

  /** An element block that reaches up to the last line, which opens nothing. */
  lemma BlockAtEnd(lines: seq<string>, k: nat, out: seq<string>, opens: string -> bool, count: CountReading, rewrite: LineRewriting)
    requires k + 3 + |out| == |lines|
    requires opens(lines[k]) && !opens(lines[k + 2 + |out|])
    requires count(lines[k + 1], k + 1) == Ok(|out|)
    requires Rewritten(lines, k + 2, out, rewrite)
    ensures CorrectFrom(lines, k, opens, count, rewrite) == Ok([lines[k], lines[k + 1]] + out + lines[k + 2 + |out|..])
  {
    var last := k + 2 + |out|;
    RewriteAll(lines, k + 2, out, rewrite);
    OpenBlock(lines, k, |out|, out, opens, count, rewrite);
    NoBlockNoChange(lines, last, opens, count, rewrite);
  }

  /** The shape of a written file as the corrector sees it: plain header lines, the opening
      line, a count equal to the number of element lines, the element lines, and a closing line
      that opens nothing. Each element line is rewritten in place and everything else copied. */
  lemma ConvertShape(h: seq<string>, m: string, c: string, body: seq<string>, e: string,
                     out: seq<string>, opens: string -> bool, count: CountReading, rewrite: LineRewriting)
    requires NoneOpens(h, opens)
    requires opens(m) && !opens(e)
    requires count(c, |h| + 1) == Ok(|body|)
    requires RewritesTo(body, |h| + 2, out, rewrite)
    ensures CorrectFrom(h + [m, c] + body + [e], 0, opens, count, rewrite) == Ok(h + [m, c] + out + [e])
  {
    var lines := h + [m, c] + body + [e];
    var k := |h|;
    ShapeLayout(h, m, c, body, e);
    assert Rewritten(lines, k + 2, out, rewrite) by {
      forall p | k + 2 <= p < k + 2 + |out|
        ensures rewrite(lines[p], p) == Ok(out[p - (k + 2)])
      {
        ShapeBody(h, m, c, body, e, p);
      }
    }
    BlockAtEnd(lines, k, out, opens, count, rewrite);
    var tail := [m, c] + out + [e];
    assert [lines[k], lines[k + 1]] + out + lines[k + 2 + |out|..] == tail;
    CopyPlainLines(lines, 0, k, opens, count, rewrite);
    assert CorrectFrom(lines, 0, opens, count, rewrite) == Prepend(h, Ok(tail));
    ShapeLayout(h, m, c, out, e);
  }

  /** The corrector reads the count the writer put on the line after `$Elements`. */
  lemma CountReadsBack(n: int, at: nat)
    ensures CountField(ShowInt(n), at) == Ok(n)
  {
    StripToken(ShowInt(n));
  }

  /** Every element line of the writer is rewritten into its corrected line. */
  lemma ElementLinesRewritten(cells: seq<seq<int>>, types: seq<string>, start: nat)
    ensures RewritesTo(ElementLines(cells, types), start, CorrectedLines(cells, types), LineRewriter())
  {
    var body, out := ElementLines(cells, types), CorrectedLines(cells, types);
    forall i | 0 <= i < |body|
      ensures LineRewriter()(body[i], start + i) == Ok(out[i])
    {
      ElementLineRewritten(i + 1, TypeCode(types[i]), WrittenIds(cells[i]), start + i);
      CorrectedLineAt(cells, types, i);
    }
  }

  /** The count after `$Elements` reads back as the number of element lines. */
  lemma ElementCountReadsBack(cells: seq<seq<int>>, types: seq<string>, at: nat)
    requires |cells| == |types|
    ensures CountReader()(ShowInt(|cells|), at) == Ok(|ElementLines(cells, types)|)
  {
    CountReadsBack(|cells|, at);
  }

  /** After any header without an opening line, the writer's element block is converted line
      by line into the corrected one, for any `opens` that holds on `$Elements` and not on
      `$EndElements`. */
  lemma ConvertElementBlock(h: seq<string>, cells: seq<seq<int>>, types: seq<string>, opens: string -> bool)
    requires NoneOpens(h, opens) && opens(ElementsStart) && !opens(ElementsEnd)
    requires |cells| == |types|
    ensures var count := ShowInt(|cells|);
            CorrectFrom(h + [ElementsStart, count] + ElementLines(cells, types) + [ElementsEnd], 0, opens, CountReader(), LineRewriter())
            == Ok(h + [ElementsStart, count] + CorrectedLines(cells, types) + [ElementsEnd])
  {
    ElementCountReadsBack(cells, types, |h| + 1);
    ElementLinesRewritten(cells, types, |h| + 2);
    var body, out := ElementLines(cells, types), CorrectedLines(cells, types);
    ConvertShape(h, ElementsStart, ShowInt(|cells|), body, ElementsEnd, out, opens, CountReader(), LineRewriter());
  }

  /** End to end on a grid the reader produces: converting the written file leaves every line
      outside the element block as written and replaces each element line by the same element
      with its nodes in Gmsh corner order. */
  lemma ConvertWrittenMesh<F>(g: Grid<F>, show: F -> string)
    requires Aligned(g)
    ensures ConvertNodeOrder(WriteMesh(g, show)) == Ok(Mesh(g, show, CorrectedLines(g.cells, g.cellTypes)))
  {
    HeaderIsPlain(g, show);
    MarkerOpens();
    ClosingIsPlain();
    ConvertElementBlock(Header(g, show), g.cells, g.cellTypes, ElementsMarker());
  }

  /** Why the whole conversion stopped: the reader or the corrector raised. */
  datatype ConvertError = ReadFailed(read: ReadError) | CorrectFailed(correct: CorrectError)

  /** The script's `__main__`: read the grid, write it as MSH, correct the node order. The
      reader is the one with the `G` guard its indexing needs. */
  function Convert<F>(lines: seq<string>, parse: string -> Option<F>, show: F -> string): (r: Result<seq<string>, ConvertError>)
    ensures r.Err? <==> ReadGridIntended(lines, parse).Err?
    ensures r.Err? ==> r.error == ReadFailed(ReadGridIntended(lines, parse).error)
    ensures r.Ok? ==> var g := ReadGridIntended(lines, parse).value;
                      r.value == Mesh(g, show, CorrectedLines(g.cells, g.cellTypes))
  {
    match ReadGridIntended(lines, parse)
    case Err(e) => Err(ReadFailed(e))
    case Ok(g) =>
      ConvertWrittenMesh(g, show);
      match ConvertNodeOrder(WriteMesh(g, show))
      case Err(e) => Err(CorrectFailed(e))
      case Ok(out) => Ok(out)
  }

  /** Wherever the script's own reader gets through the file, the converted file is the one the
      script writes. */
  lemma ConvertAgreesWithScript<F>(lines: seq<string>, parse: string -> Option<F>, show: F -> string)
    requires ReadGrid(lines, parse).Ok?
    ensures var g := ReadGrid(lines, parse).value;
            && ConvertNodeOrder(WriteMesh(g, show)).Ok?
            && Convert(lines, parse, show) == Ok(ConvertNodeOrder(WriteMesh(g, show)).value)
  {
    IntendedAgreesWhereWrittenSucceeds(lines, parse);
    ConvertWrittenMesh(ReadGrid(lines, parse).value, show);
  }

  /** A zone's written node ids are the integers of its `Z` line after the first one, the zone
      id: tokens `int()` rejects are skipped wherever they stand, `cell[1:]` drops the first
      integer, and the reader's minus one and the writer's plus one cancel. A tail with no
      integer at all gives no zone (`ZoneRecord`); any other tail is `a + [t] + b` with `t` its
      first integer. */
  lemma ZoneNodeIdsWritten(a: seq<string>, t: string, b: seq<string>)
    requires NoIntegers(a) && ParseInt(t).Some?
    ensures var w, rest := WrittenIds(ZoneIndices(a + [t] + b)), ZoneIndices(b);
            && |w| == |rest|
            && (forall i :: 0 <= i < |w| ==> w[i] == rest[i] + 1)
    ensures AllIntegers(b) ==>
              var w := WrittenIds(ZoneIndices(a + [t] + b));
              |w| == |b| && forall i :: 0 <= i < |b| ==> w[i] == ParseInt(b[i]).value
  {
    var cell, rest := ZoneIndices(a + [t] + b), ZoneIndices(b);
    assert cell == [ParseInt(t).value - 1] + rest by {
      ZoneIndicesFirstInteger(a, t, b);
    }
    assert forall i :: 0 <= i < |rest| ==> cell[i + 1] == rest[i];
  }
}
