/**
 * The FLAC3D grid reader (`read_flac3d`): a line-by-line dispatcher on the first
 * character of each stripped line. `G` lines give a vertex, `Z` lines give a zone
 * (kind tag plus every integer tail token minus one), everything else is ignored.
 *
 * Coordinates are opaque: `parse` stands for Python's `float(token)` and its
 * failure (`None`) for the `ValueError` that ends the run.
 */
module GridReader {
  import opened Results
  import opened Text

  datatype Vertex<F> = Vertex(x: F, y: F, z: F)

  /** `vertices`, `cells` and `cell_types` as the reader returns them: two parallel zone lists. */
  datatype Grid<F> = Grid(vertices: seq<Vertex<F>>, cells: seq<seq<int>>, cellTypes: seq<string>)

  /** The exceptions the reader's `try` catches before it exits: a coordinate that `float()`
      rejects, or a `G` line too short for `parts[4]`. */
  datatype ReadError = NotANumber(token: string) | MissingCoordinate

  /** What a single line contributes. */
  datatype Record<F> = Node(v: Vertex<F>) | Zone(kind: string, indices: seq<int>) | Ignored

  /** The `G` guard as written, `len(parts) >= 4`, and the guard its `parts[4]` needs. */
  const AsWrittenNodeGuard: nat := 4
  const IntendedNodeGuard: nat := 5

  /** `int()` rejects every token. */
  predicate NoIntegers(tokens: seq<string>) {
    forall i :: 0 <= i < |tokens| ==> ParseInt(tokens[i]).None?
  }

  /** `int()` accepts every token. */
  predicate AllIntegers(tokens: seq<string>) {
    forall i :: 0 <= i < |tokens| ==> ParseInt(tokens[i]).Some?
  }

  /** What one tail token gives: its value minus one when `int()` accepts it, nothing otherwise. */
  function Contribution(token: string): seq<int> {
    match ParseInt(token)
    case Some(n) => [n - 1]
    case None => []
  }

  /** Every tail token that `int()` accepts, minus one, in order; the others are skipped. */
  function ZoneIndices(tail: seq<string>): (r: seq<int>)
    ensures |r| <= |tail|
    ensures r == [] <==> NoIntegers(tail)
    ensures AllIntegers(tail) ==>
      |r| == |tail| && forall i :: 0 <= i < |tail| ==> r[i] == ParseInt(tail[i]).value - 1
    decreases |tail|
  {
    if tail == [] then []
    else
      assert forall i :: 1 <= i < |tail| ==> tail[i] == tail[1..][i - 1];
      Contribution(tail[0]) + ZoneIndices(tail[1..])
  }

  /** A single token contributes its value minus one when `int()` accepts it, and nothing otherwise. */
  lemma ZoneIndicesSingle(t: string)
    ensures ZoneIndices([t]) == (if ParseInt(t).Some? then [ParseInt(t).value - 1] else [])
  {
    assert [t][1..] == [];
    assert Contribution(t) + [] == Contribution(t);
  }

  /** The contributions of `tokens` under `f`, one after another. */
  function FlatMap(tokens: seq<string>, f: string -> seq<int>): seq<int>
    decreases |tokens|
  {
    if tokens == [] then [] else f(tokens[0]) + FlatMap(tokens[1..], f)
  }

  /** Contributions of consecutive runs of tokens are consecutive. */
  lemma {:induction false} FlatMapConcat(a: seq<string>, b: seq<string>, f: string -> seq<int>)
    ensures FlatMap(a + b, f) == FlatMap(a, f) + FlatMap(b, f)
    decreases |a|
  {
    if a == [] {
      assert a + b == b;
    } else {
      assert (a + b)[0] == a[0] && (a + b)[1..] == a[1..] + b;
      FlatMapConcat(a[1..], b, f);
    }
  }

  /** The indices are the tokens' contributions, one after another. */
  lemma {:induction false} ZoneIndicesFlatMap(tail: seq<string>)
    ensures ZoneIndices(tail) == FlatMap(tail, Contribution)
    decreases |tail|
  {
    if tail != [] {
      ZoneIndicesFlatMap(tail[1..]);
    }
  }

  /** The tokens are read independently: the indices of consecutive runs of tokens are consecutive. */
  lemma ZoneIndicesConcat(a: seq<string>, b: seq<string>)
    ensures ZoneIndices(a + b) == ZoneIndices(a) + ZoneIndices(b)
  {
    ZoneIndicesFlatMap(a + b);
    ZoneIndicesFlatMap(a);
    ZoneIndicesFlatMap(b);
    FlatMapConcat(a, b, Contribution);
  }

  /** Tokens before the first integer `t` contribute nothing, so the indices start with `t`'s. */
  lemma ZoneIndicesFirstInteger(a: seq<string>, t: string, b: seq<string>)
    requires NoIntegers(a) && ParseInt(t).Some?
    ensures ZoneIndices(a + [t] + b) == [ParseInt(t).value - 1] + ZoneIndices(b)
  {
    assert a + [t] + b == a + ([t] + b);
    assert ZoneIndices(a) == [];
    ZoneIndicesConcat(a, [t] + b);
    ZoneIndicesConcat([t], b);
    ZoneIndicesSingle(t);
  }

  /** Coordinate `parts[k]`: `IndexError` when missing, `ValueError` when not a number. */
  function Coordinate<F>(parts: seq<string>, k: nat, parse: string -> Option<F>): Result<F, ReadError> {
    if k >= |parts| then Err(MissingCoordinate)
    else match parse(parts[k])
      case Some(c) => Ok(c)
      case None => Err(NotANumber(parts[k]))
  }

  /** The fields of a `G` line: ignored when fewer than `nodeGuard`, otherwise the vertex at
      `parts[2..5]`, failing on the first coordinate that is missing or not a number. */
  function NodeRecord<F>(parts: seq<string>, nodeGuard: nat, parse: string -> Option<F>): (r: Result<Record<F>, ReadError>)
    ensures |parts| < nodeGuard ==> r == Ok(Ignored)
    ensures |parts| >= nodeGuard ==>
      (r.Ok? <==> |parts| >= 5 && parse(parts[2]).Some? && parse(parts[3]).Some? && parse(parts[4]).Some?)
    ensures |parts| >= nodeGuard && r.Ok? ==>
      r.value == Node(Vertex(parse(parts[2]).value, parse(parts[3]).value, parse(parts[4]).value))
    ensures r.Err? ==> (r.error == MissingCoordinate <==> |parts| < 5 && forall k :: 2 <= k < |parts| ==> parse(parts[k]).Some?)
  {
    if |parts| < nodeGuard then Ok(Ignored)
    else
      var x :- Coordinate(parts, 2, parse);
      var y :- Coordinate(parts, 3, parse);
      var z :- Coordinate(parts, 4, parse);
      Ok(Node(Vertex(x, y, z)))
  }

  /** The fields of a `Z` line: a zone of kind `parts[1]` when at least one tail field is an
      integer, otherwise nothing. */
  function ZoneRecord<F>(parts: seq<string>): (r: Record<F>)
    ensures !r.Node?
    ensures r.Zone? <==> |parts| >= 3 && exists k :: 2 <= k < |parts| && ParseInt(parts[k]).Some?
    ensures r.Zone? ==> r.kind == parts[1] && r.indices == ZoneIndices(parts[2..]) && r.indices != []
  {
    if |parts| < 3 then Ignored
    else
      var indices := ZoneIndices(parts[2..]);
      assert forall k :: 2 <= k < |parts| ==> parts[k] == parts[2..][k - 2];
      if indices == [] then Ignored else Zone(parts[1], indices)
  }

  /** One line of the grid file, with the `G` guard `len(parts) >= nodeGuard`. */
  function ParseLine<F>(line: string, nodeGuard: nat, parse: string -> Option<F>): (r: Result<Record<F>, ReadError>)
    ensures r.Ok? && r.value.Zone? ==> r.value.indices != []
  {
    var s := Strip(line);
    if s == [] then Ok(Ignored)
    else if s[0] == 'G' then NodeRecord(Split(s), nodeGuard, parse)
    else if s[0] == 'Z' then Ok(ZoneRecord(Split(s)))
    else Ok(Ignored)
  }

  /** The dispatch on the stripped line: a blank line, or one starting with neither `G` nor `Z`,
      contributes nothing; a `G` line is read by its fields and a `Z` line likewise, the fields
      being those of the line as given (stripping does not change them). */
  lemma ParseLineCases<F>(line: string, nodeGuard: nat, parse: string -> Option<F>)
    ensures var s, r := Strip(line), ParseLine(line, nodeGuard, parse);
            && (s == [] || (s[0] != 'G' && s[0] != 'Z') ==> r == Ok(Ignored))
            && (s != [] && s[0] == 'G' ==> r == NodeRecord(Split(line), nodeGuard, parse))
            && (s != [] && s[0] == 'Z' ==> r == Ok(ZoneRecord(Split(line))))
  {
    SplitStrip(line);
  }

  /** Adds one line's contribution; zones go to both parallel lists at once. */
  function Add<F>(g: Grid<F>, rec: Record<F>): Grid<F> {
    match rec
    case Node(v) => g.(vertices := g.vertices + [v])
    case Zone(kind, indices) => g.(cells := g.cells + [indices], cellTypes := g.cellTypes + [kind])
    case Ignored => g
  }

  /** The zone lists are the same length, and no recorded zone is empty. */
  predicate Aligned<F>(g: Grid<F>) {
    && |g.cells| == |g.cellTypes|
    && forall i :: 0 <= i < |g.cells| ==> g.cells[i] != []
  }

  /** Each line's outcome under the line reader `classify`, in file order. */
  function Records<F>(lines: seq<string>, classify: string -> Result<Record<F>, ReadError>): (recs: seq<Result<Record<F>, ReadError>>)
    ensures |recs| == |lines|
    ensures forall i :: 0 <= i < |lines| ==> recs[i] == classify(lines[i])
  {
    seq(|lines|, i requires 0 <= i < |lines| => classify(lines[i]))
  }

  /** Outcomes of consecutive runs of lines are consecutive. */
  lemma RecordsConcat<F>(a: seq<string>, b: seq<string>, classify: string -> Result<Record<F>, ReadError>)
    ensures Records(a + b, classify) == Records(a, classify) + Records(b, classify)
  {
    var rab, ra, rb := Records(a + b, classify), Records(a, classify), Records(b, classify);
    forall i | 0 <= i < |a + b|
      ensures rab[i] == (ra + rb)[i]
    {
      if i < |a| {
        assert (a + b)[i] == a[i];
      } else {
        assert (a + b)[i] == b[i - |a|];
      }
    }
  }

  /** `ParseLine` with the guard and the coordinate parser fixed. */
  function LineReader<F>(nodeGuard: nat, parse: string -> Option<F>): string -> Result<Record<F>, ReadError> {
    line => ParseLine(line, nodeGuard, parse)
  }

  /** Every zone among the outcomes has at least one index. */
  predicate ZonesNonEmpty<F>(recs: seq<Result<Record<F>, ReadError>>) {
    forall i :: 0 <= i < |recs| && recs[i].Ok? && recs[i].value.Zone? ==> recs[i].value.indices != []
  }

  /** Outcome `i` is the first failure, and it fails with `e`. */
  predicate FirstFailure<F>(recs: seq<Result<Record<F>, ReadError>>, e: ReadError) {
    exists i :: 0 <= i < |recs| && recs[i] == Err(e) && forall j :: 0 <= j < i ==> recs[j].Ok?
  }

  /** Adds one more line's outcome to `acc`, unless reading already failed. */
  function Step<F>(acc: Result<Grid<F>, ReadError>, line: Result<Record<F>, ReadError>): Result<Grid<F>, ReadError> {
    var g :- acc;
    var rec :- line;
    Ok(Add(g, rec))
  }

  /** Folds the outcomes in order; the first failing line decides the error. */
  function Collect<F>(recs: seq<Result<Record<F>, ReadError>>): (r: Result<Grid<F>, ReadError>)
    ensures r.Ok? <==> forall i :: 0 <= i < |recs| ==> recs[i].Ok?
    ensures r.Ok? ==> |r.value.cells| == |r.value.cellTypes|
    ensures r.Ok? && ZonesNonEmpty(recs) ==> Aligned(r.value)
    ensures r.Ok? ==> |r.value.vertices| + |r.value.cells| <= |recs|
    ensures r.Err? ==> FirstFailure(recs, r.error)
    decreases |recs|
  {
    if recs == [] then Ok(Grid([], [], []))
    else
      var prefix := recs[..|recs| - 1];
      assert forall i :: 0 <= i < |prefix| ==> prefix[i] == recs[i];
      Step(Collect(prefix), recs[|recs| - 1])
  }

  /** A whole file under the line reader `classify`. */
  function ReadLines<F>(lines: seq<string>, classify: string -> Result<Record<F>, ReadError>): (r: Result<Grid<F>, ReadError>)
    ensures r.Ok? <==> forall i :: 0 <= i < |lines| ==> classify(lines[i]).Ok?
    ensures r.Ok? ==> |r.value.cells| == |r.value.cellTypes|
    ensures r.Ok? ==> |r.value.vertices| + |r.value.cells| <= |lines|
    ensures r.Err? ==> exists i :: 0 <= i < |lines| && classify(lines[i]) == Err(r.error)
                                  && forall j :: 0 <= j < i ==> classify(lines[j]).Ok?
  {
    Collect(Records(lines, classify))
  }

  /** The whole file with the `G` guard `nodeGuard`: the zone lists come out aligned. */
  function ReadGridWith<F>(lines: seq<string>, nodeGuard: nat, parse: string -> Option<F>): (r: Result<Grid<F>, ReadError>)
    ensures r.Ok? ==> Aligned(r.value)
  {
    var recs := Records(lines, LineReader(nodeGuard, parse));
    assert ZonesNonEmpty(recs);
    ReadLines(lines, LineReader(nodeGuard, parse))
  }

  /** `read_flac3d` as written: it succeeds exactly when every line does, with aligned zone
      lists, and otherwise exits with the error of the first line that fails. */
  function ReadGrid<F>(lines: seq<string>, parse: string -> Option<F>): (r: Result<Grid<F>, ReadError>)
    ensures r.Ok? <==> forall i :: 0 <= i < |lines| ==> ParseLine(lines[i], AsWrittenNodeGuard, parse).Ok?
    ensures r.Ok? ==> Aligned(r.value)
    ensures r.Err? ==> exists i :: 0 <= i < |lines| && ParseLine(lines[i], AsWrittenNodeGuard, parse) == Err(r.error)
                                  && forall j :: 0 <= j < i ==> ParseLine(lines[j], AsWrittenNodeGuard, parse).Ok?
  {
    ReadGridWith(lines, AsWrittenNodeGuard, parse)
  }

  /** `read_flac3d` with the `G` guard its own indexing needs (`len(parts) >= 5`), with the same
      promises under that guard. */
  function ReadGridIntended<F>(lines: seq<string>, parse: string -> Option<F>): (r: Result<Grid<F>, ReadError>)
    ensures r.Ok? <==> forall i :: 0 <= i < |lines| ==> ParseLine(lines[i], IntendedNodeGuard, parse).Ok?
    ensures r.Ok? ==> Aligned(r.value)
    ensures r.Err? ==> exists i :: 0 <= i < |lines| && ParseLine(lines[i], IntendedNodeGuard, parse) == Err(r.error)
                                  && forall j :: 0 <= j < i ==> ParseLine(lines[j], IntendedNodeGuard, parse).Ok?
  {
    ReadGridWith(lines, IntendedNodeGuard, parse)
  }

  /** Two readings one after the other: the first error wins, otherwise every list is concatenated. */
  function Merge<F>(a: Result<Grid<F>, ReadError>, b: Result<Grid<F>, ReadError>): Result<Grid<F>, ReadError> {
    match a
    case Err(e) => Err(e)
    case Ok(ga) =>
      match b
      case Err(e) => Err(e)
      case Ok(gb) => Ok(Grid(ga.vertices + gb.vertices, ga.cells + gb.cells, ga.cellTypes + gb.cellTypes))
  }

  lemma StepMerge<F>(x: Result<Grid<F>, ReadError>, y: Result<Grid<F>, ReadError>, line: Result<Record<F>, ReadError>)
    ensures Step(Merge(x, y), line) == Merge(x, Step(y, line))
  {
    if x.Ok? && y.Ok? {
      var gx, gy := x.value, y.value;
      match line
      case Err(_) =>
      case Ok(rec) =>
        match rec
        case Node(v) => assert gx.vertices + gy.vertices + [v] == gx.vertices + (gy.vertices + [v]);
        case Zone(k, ix) =>
          assert gx.cells + gy.cells + [ix] == gx.cells + (gy.cells + [ix]);
          assert gx.cellTypes + gy.cellTypes + [k] == gx.cellTypes + (gy.cellTypes + [k]);
        case Ignored =>
    }
  }

  lemma {:induction false} CollectConcat<F>(x: seq<Result<Record<F>, ReadError>>, y: seq<Result<Record<F>, ReadError>>)
    ensures Collect(x + y) == Merge(Collect(x), Collect(y))
    decreases |y|
  {
    if y == [] {
      assert x + y == x;
      match Collect(x)
      case Err(_) =>
      case Ok(g) => assert g == Grid(g.vertices + [], g.cells + [], g.cellTypes + []);
    } else {
      var y' := y[..|y| - 1];
      assert (x + y)[..|x + y| - 1] == x + y';
      assert (x + y)[|x + y| - 1] == y[|y| - 1];
      CollectConcat(x, y');
      StepMerge(Collect(x), Collect(y'), y[|y| - 1]);
    }
  }

  /** Reading is line-local: reading a concatenation merges the readings of its parts. */
  lemma ReadConcat<F>(a: seq<string>, b: seq<string>, classify: string -> Result<Record<F>, ReadError>)
    ensures ReadLines(a + b, classify) == Merge(ReadLines(a, classify), ReadLines(b, classify))
  {
    RecordsConcat(a, b, classify);
    CollectConcat(Records(a, classify), Records(b, classify));
  }

  /** Appending one line: the result is the previous reading stepped by that line's outcome. */
  lemma ReadSnoc<F>(lines: seq<string>, line: string, classify: string -> Result<Record<F>, ReadError>)
    ensures ReadLines(lines + [line], classify) == Step(ReadLines(lines, classify), classify(line))
  {
    var recs := Records(lines + [line], classify);
    assert recs[..|recs| - 1] == Records(lines, classify);
  }

  /** A line that fails fails the whole read, wherever it comes. */
  lemma FailingLineIsFatal<F>(lines: seq<string>, line: string, classify: string -> Result<Record<F>, ReadError>)
    requires classify(line).Err?
    ensures ReadLines(lines + [line], classify).Err?
  {
    ReadSnoc(lines, line, classify);
  }

  /** A line that contributes nothing leaves the reading as it was. */
  lemma IgnoredLineChangesNothing<F>(lines: seq<string>, line: string, classify: string -> Result<Record<F>, ReadError>)
    requires classify(line) == Ok(Ignored)
    ensures ReadLines(lines + [line], classify) == ReadLines(lines, classify)
  {
    ReadSnoc(lines, line, classify);
  }

  /** A `G` line of exactly four fields: a kind, an id and two coordinates. */
  predicate FourFieldNodeLine(line: string) {
    Strip(line) != [] && Strip(line)[0] == 'G' && |Split(line)| == 4
  }

  /** Four fields pass the original guard and cannot give a vertex: a coordinate that is not a
      number fails first, and otherwise the third coordinate is missing. */
  lemma FourFieldsFail<F>(parts: seq<string>, parse: string -> Option<F>)
    requires |parts| == 4
    ensures NodeRecord(parts, AsWrittenNodeGuard, parse).Err?
    ensures parse(parts[2]).Some? && parse(parts[3]).Some? ==>
      NodeRecord(parts, AsWrittenNodeGuard, parse) == Err(MissingCoordinate)
  {
  }

  /** Such a line passes the original guard and then fails, on `parts[4]` when its two
      coordinates are numbers. */
  lemma FourFieldLineFails<F>(line: string, parse: string -> Option<F>)
    requires FourFieldNodeLine(line)
    ensures ParseLine(line, AsWrittenNodeGuard, parse).Err?
    ensures parse(Split(line)[2]).Some? && parse(Split(line)[3]).Some? ==>
      ParseLine(line, AsWrittenNodeGuard, parse) == Err(MissingCoordinate)
  {
    SplitStrip(line);
    FourFieldsFail(Split(Strip(line)), parse);
  }

  /** A node line with an id and only two coordinates. */
  const FourFieldLine: string := "G 1 0.0 0.0"

  /** `FourFieldLine` has nothing to strip. */
  lemma FourFieldLineStripped()
    ensures Strip(FourFieldLine) == FourFieldLine
  {
    var line := FourFieldLine;
    assert !IsSpace(line[0]);
    assert DropLeading(line) == line;
    assert !IsSpace(line[|line| - 1]);
    assert DropTrailing(line) == line;
  }

  /** `FourFieldLine` has four fields. */
  lemma FourFieldLineFields()
    ensures Split(FourFieldLine) == ["G", "1", "0.0", "0.0"]
  {
    var fields := ["G", "1", "0.0", "0.0"];
    assert IsToken(fields[0]) && IsToken(fields[1]) && IsToken(fields[2]) && IsToken(fields[3]);
    assert Join(fields) == FourFieldLine;
    SplitJoin(fields);
  }

  /** `G 1 0.0 0.0` is such a line. */
  lemma FourFieldLineIsShort()
    ensures FourFieldNodeLine(FourFieldLine)
  {
    FourFieldLineStripped();
    FourFieldLineFields();
  }

  /** The fault: a `G` line of exactly four fields passes the guard and then fails, so such a
      line ends the whole read, whatever came before it. */
  lemma FourFieldNodeLineIsFatal<F>(lines: seq<string>, line: string, parse: string -> Option<F>)
    requires FourFieldNodeLine(line)
    ensures ReadGrid(lines + [line], parse).Err?
  {
    FourFieldLineFails(line, parse);
    FailingLineIsFatal(lines, line, LineReader(AsWrittenNodeGuard, parse));
  }

  /** In particular `G 1 0.0 0.0` ends the read wherever it appears last. */
  lemma FourFieldLineIsFatal<F>(lines: seq<string>, parse: string -> Option<F>)
    ensures ReadGrid(lines + [FourFieldLine], parse).Err?
  {
    FourFieldLineIsShort();
    FourFieldNodeLineIsFatal(lines, FourFieldLine, parse);
  }

  /** A `G` line of fewer than five fields is ignored under the intended guard. */
  lemma ShortNodeLineIgnored<F>(line: string, parse: string -> Option<F>)
    requires Strip(line) != [] && Strip(line)[0] == 'G' && |Split(line)| < 5
    ensures ParseLine(line, IntendedNodeGuard, parse) == Ok(Ignored)
  {
    SplitStrip(line);
  }

  /** With the intended guard, a `G` line of fewer than five fields is skipped like any other
      short line. */
  lemma IntendedSkipsShortNodeLines<F>(lines: seq<string>, line: string, parse: string -> Option<F>)
    requires Strip(line) != [] && Strip(line)[0] == 'G' && |Split(line)| < 5
    ensures ReadGridIntended(lines + [line], parse) == ReadGridIntended(lines, parse)
  {
    ShortNodeLineIgnored(line, parse);
    IgnoredLineChangesNothing(lines, line, LineReader(IntendedNodeGuard, parse));
  }

  /** On a line the original guard accepts without error, the intended guard reads the same. */
  lemma GuardsAgreeOnGoodLines<F>(line: string, parse: string -> Option<F>)
    requires ParseLine(line, AsWrittenNodeGuard, parse).Ok?
    ensures ParseLine(line, IntendedNodeGuard, parse) == ParseLine(line, AsWrittenNodeGuard, parse)
  {
  }

  /** Wherever the reader as written succeeds, the corrected reader reads the same grid; the two
      differ only on the four-field `G` lines that make the original fail. */
  lemma IntendedAgreesWhereWrittenSucceeds<F>(lines: seq<string>, parse: string -> Option<F>)
    requires ReadGrid(lines, parse).Ok?
    ensures ReadGridIntended(lines, parse) == ReadGrid(lines, parse)
  {
    forall i | 0 <= i < |lines|
      ensures ParseLine(lines[i], IntendedNodeGuard, parse) == ParseLine(lines[i], AsWrittenNodeGuard, parse)
    {
      GuardsAgreeOnGoodLines(lines[i], parse);
    }
    assert Records(lines, LineReader(IntendedNodeGuard, parse)) == Records(lines, LineReader(AsWrittenNodeGuard, parse));
  }
}
