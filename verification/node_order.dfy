/**
 * `convert_msh_node_order`: copies an MSH 2.2 file line by line and, inside every block that
 * follows a `$Elements` line, re-reads each element line, reorders its node list by the shape's
 * table when the type code and node count match, and writes the line back out.
 *
 * Uncaught Python exceptions (a line that is not there, a field `int()` rejects, a field that is
 * not there) become `CorrectError`s; the output file is only written when none occurs.
 */
module NodeOrder {
  import opened Results
  import opened Text
  import opened Shapes

  /** The line index is the zero-based position in the input file. */
  datatype CorrectError =
    | MissingLine(at: nat)
    | NotAnInteger(at: nat, token: string)
    | MissingField(at: nat)

  /** How the loop reads the count line and rewrites an element line, each given the line and
      its position. */
  type CountReading = (string, nat) -> Result<int, CorrectError>
  type LineRewriting = (string, nat) -> Result<string, CorrectError>

  /** One element line as the corrector reads it. */
  datatype ElementRecord = ElementRecord(id: int, code: int, ntags: int, tags: seq<string>, nodes: seq<int>)

  /** A slice bound as Python normalises it: negative counts from the end, then clamped. */
  function SliceBound(b: int, len: nat): (r: nat)
    ensures r <= len
  {
    if b < 0 then (if b + len < 0 then 0 else b + len)
    else if b > len then len
    else b
  }

  /** `s[lo:hi]`, case by case: a start and an end each lie below `-len`, in `-len..-1`, in
      `0..len` or past `len`. */
  function PySlice<T>(s: seq<T>, lo: int, hi: int): (r: seq<T>)
    // both bounds in range
    ensures 0 <= lo <= hi <= |s| ==> r == s[lo..hi]
    ensures 0 <= hi <= lo ==> r == []
    ensures 0 <= lo && |s| <= lo ==> r == []
    // an end below minus the length
    ensures hi < -|s| ==> r == []
    // an end past the length is clamped
    ensures 0 <= lo <= |s| <= hi ==> r == s[lo..]
    ensures -|s| <= lo < 0 && |s| <= hi ==> r == s[lo + |s|..]
    ensures lo < -|s| && |s| <= hi ==> r == s
    // a negative end counts from the end
    ensures -|s| <= hi < 0 && 0 <= lo <= hi + |s| ==> r == s[lo..hi + |s|]
    ensures -|s| <= hi < 0 && hi + |s| < lo ==> r == []
    // a negative start counts from the end
    ensures -|s| <= lo < 0 && lo + |s| <= hi <= |s| ==> r == s[lo + |s|..hi]
    ensures -|s| <= lo < 0 && 0 <= hi < lo + |s| ==> r == []
    ensures -|s| <= lo <= hi < 0 ==> r == s[lo + |s|..hi + |s|]
    ensures -|s| <= hi < lo < 0 ==> r == []
    // a start below minus the length is clamped to the start
    ensures lo < -|s| && 0 <= hi <= |s| ==> r == s[..hi]
    ensures lo < -|s| && -|s| <= hi < 0 ==> r == s[..hi + |s|]
    ensures |r| <= |s|
  {
    var a, b := SliceBound(lo, |s|), SliceBound(hi, |s|);
    if a < b then s[a..b] else []
  }

  /** `int(parts[k])`. */
  function IntField(parts: seq<string>, k: nat, at: nat): (r: Result<int, CorrectError>)
    ensures r.Ok? <==> k < |parts| && ParseInt(parts[k]).Some?
    ensures r.Ok? ==> r.value == ParseInt(parts[k]).value
    ensures r.Err? && k < |parts| ==> r.error == NotAnInteger(at, parts[k])
    ensures r.Err? && k >= |parts| ==> r.error == MissingField(at)
  {
    if k >= |parts| then Err(MissingField(at))
    else match ParseInt(parts[k])
      case Some(n) => Ok(n)
      case None => Err(NotAnInteger(at, parts[k]))
  }

  /** `list(map(int, ts))`: every token, or the first one `int()` rejects. */
  function IntTokens(ts: seq<string>, at: nat): (r: Result<seq<int>, CorrectError>)
    ensures r.Ok? <==> forall i :: 0 <= i < |ts| ==> ParseInt(ts[i]).Some?
    ensures r.Ok? ==> |r.value| == |ts| && forall i :: 0 <= i < |ts| ==> r.value[i] == ParseInt(ts[i]).value
    ensures r.Err? ==> exists i :: 0 <= i < |ts| && ParseInt(ts[i]).None? && r.error == NotAnInteger(at, ts[i])
                                  && forall j :: 0 <= j < i ==> ParseInt(ts[j]).Some?
    decreases |ts|
  {
    if ts == [] then Ok([])
    else
      match ParseInt(ts[0])
      case None => Err(NotAnInteger(at, ts[0]))
      case Some(n) =>
        var rest := IntTokens(ts[1..], at);
        assert forall i :: 1 <= i < |ts| ==> ts[i] == ts[1..][i - 1];
        if rest.Err? then
          Err(rest.error)
        else
          Ok([n] + rest.value)
  }

  /** Fields `id type ntags tag... node...` of line `at`; the tag count decides where the
      nodes start, with Python's slicing when it is negative or too large. */
  function ParseRecord(line: string, at: nat): Result<ElementRecord, CorrectError> {
    ParseFields(Split(Strip(line)), at)
  }

  /** The record held by the fields `parts` of line `at`. */
  function ParseFields(parts: seq<string>, at: nat): Result<ElementRecord, CorrectError> {
    var id :- IntField(parts, 0, at);
    var code :- IntField(parts, 1, at);
    var ntags :- IntField(parts, 2, at);
    var tags := PySlice(parts, 3, 3 + ntags);
    var nodes :- IntTokens(PySlice(parts, 3 + ntags, |parts|), at);
    Ok(ElementRecord(id, code, ntags, tags, nodes))
  }

  /** What the parser of an element line promises: it succeeds exactly when the first three fields
      and every node field are integers, the nodes starting after `ntags` tags (Python slicing);
      the record holds those values and tags; and a failure is a missing field among the first
      three, or a field `int()` rejects. */
  lemma ParseFieldsSpec(parts: seq<string>, at: nat)
    ensures var r := ParseFields(parts, at);
            var heads := |parts| >= 3 && ParseInt(parts[0]).Some? && ParseInt(parts[1]).Some? && ParseInt(parts[2]).Some?;
            && (r.Ok? <==> heads && var ns := PySlice(parts, 3 + ParseInt(parts[2]).value, |parts|);
                                   forall i :: 0 <= i < |ns| ==> ParseInt(ns[i]).Some?)
            && (r.Ok? ==> var n := ParseInt(parts[2]).value;
                          var ns := PySlice(parts, 3 + n, |parts|);
                          && r.value.id == ParseInt(parts[0]).value && r.value.code == ParseInt(parts[1]).value
                          && r.value.ntags == n && r.value.tags == PySlice(parts, 3, 3 + n)
                          && |r.value.nodes| == |ns|
                          && forall i :: 0 <= i < |ns| ==> r.value.nodes[i] == ParseInt(ns[i]).value)
            && (r.Ok? && 0 <= r.value.ntags <= |parts| - 3 ==> |r.value.tags| == r.value.ntags)
            && (r.Err? ==> (|parts| < 3 && r.error == MissingField(at))
                           || exists k :: 0 <= k < |parts| && ParseInt(parts[k]).None? && r.error == NotAnInteger(at, parts[k]))
  {
    if ParseFields(parts, at).Ok? {
      ParsedFields(parts, at);
    } else {
      FieldsFail(parts, at);
    }
  }

  /** The values a successful parse holds, and when its tags number its tag count. */
  lemma ParsedFields(parts: seq<string>, at: nat)
    requires ParseFields(parts, at).Ok?
    ensures var r := ParseFields(parts, at);
            && |parts| >= 3 && ParseInt(parts[0]).Some? && ParseInt(parts[1]).Some? && ParseInt(parts[2]).Some?
            && var n := ParseInt(parts[2]).value;
               var ns := PySlice(parts, 3 + n, |parts|);
               && (forall i :: 0 <= i < |ns| ==> ParseInt(ns[i]).Some?)
               && r.value.id == ParseInt(parts[0]).value && r.value.code == ParseInt(parts[1]).value
               && r.value.ntags == n && r.value.tags == PySlice(parts, 3, 3 + n)
               && |r.value.nodes| == |ns|
               && (forall i :: 0 <= i < |ns| ==> r.value.nodes[i] == ParseInt(ns[i]).value)
               && (0 <= n <= |parts| - 3 ==> |r.value.tags| == n)
  {
  }

  /** A failing parse: a missing field among the first three, or a field `int()` rejects; and
      with integer heads, some node field is not an integer. */
  lemma FieldsFail(parts: seq<string>, at: nat)
    requires ParseFields(parts, at).Err?
    ensures var r := ParseFields(parts, at);
            && (|parts| >= 3 && ParseInt(parts[0]).Some? && ParseInt(parts[1]).Some? && ParseInt(parts[2]).Some? ==>
                  var ns := PySlice(parts, 3 + ParseInt(parts[2]).value, |parts|);
                  !forall i :: 0 <= i < |ns| ==> ParseInt(ns[i]).Some?)
            && ((|parts| < 3 && r.error == MissingField(at))
                || exists k :: 0 <= k < |parts| && ParseInt(parts[k]).None? && r.error == NotAnInteger(at, parts[k]))
  {
    var r := ParseFields(parts, at);
    if |parts| >= 3 && ParseInt(parts[0]).Some? && ParseInt(parts[1]).Some? && ParseInt(parts[2]).Some? {
      var ns := PySlice(parts, 3 + ParseInt(parts[2]).value, |parts|);
      var bad :| 0 <= bad < |ns| && ParseInt(ns[bad]).None? && r.error == NotAnInteger(at, ns[bad]);
      PySliceIndex(parts, 3 + ParseInt(parts[2]).value, |parts|, bad);
    }
  }

  /** Every element of a slice is an element of the sequence. */
  lemma PySliceIndex<T>(s: seq<T>, lo: int, hi: int, i: nat)
    requires i < |PySlice(s, lo, hi)|
    ensures exists k :: 0 <= k < |s| && s[k] == PySlice(s, lo, hi)[i]
  {
    var a := SliceBound(lo, |s|);
    assert s[a + i] == PySlice(s, lo, hi)[i];
  }

  /** `map(str, ns)`. */
  function ShowAll(ns: seq<int>): (r: seq<string>)
    ensures |r| == |ns| && AllTokens(r)
    ensures forall i :: 0 <= i < |ns| ==> r[i] == ShowInt(ns[i])
  {
    seq(|ns|, i requires 0 <= i < |ns| => ShowInt(ns[i]))
  }

  /** `f"{id} {type} {ntags} {' '.join(tags)} {' '.join(map(str, nodes))}"`. */
  function Render(r: ElementRecord): string {
    Spaced(ShowInt(r.id), Spaced(ShowInt(r.code), Spaced(ShowInt(r.ntags), Spaced(Join(r.tags), Join(ShowAll(r.nodes))))))
  }

  /** The record with its node list put into Gmsh corner order. */
  function Correct(r: ElementRecord): (c: ElementRecord)
    ensures c.id == r.id && c.code == r.code && c.ntags == r.ntags && c.tags == r.tags
    ensures multiset(c.nodes) == multiset(r.nodes)
    ensures ShapeOf(r.code, |r.nodes|).None? ==> c.nodes == r.nodes
    ensures ShapeOf(r.code, |r.nodes|).Some? ==> c.nodes == Gather(r.nodes, Table(ShapeOf(r.code, |r.nodes|).value))
  {
    r.(nodes := ReorderFor(r.code, r.nodes))
  }

  /** One element line in, one element line out. */
  function RewriteLine(line: string, at: nat): Result<string, CorrectError> {
    var rec :- ParseRecord(line, at);
    Ok(Render(Correct(rec)))
  }

  /** An element line is rewritten exactly when it parses, failing with the parser's error
      otherwise; and the rewritten line reads back as the corrected record whenever its tag count
      fits the fields. */
  lemma RewriteLineSpec(line: string, at: nat)
    ensures var r, rec := RewriteLine(line, at), ParseRecord(line, at);
            && (r.Ok? <==> rec.Ok?)
            && (rec.Err? ==> r == Err(rec.error))
            && (rec.Ok? && 0 <= rec.value.ntags <= |Split(Strip(line))| - 3 ==>
                  ParseRecord(r.value, at) == Ok(Correct(rec.value)))
  {
    var rec := ParseRecord(line, at);
    if rec.Ok? && 0 <= rec.value.ntags <= |Split(Strip(line))| - 3 {
      ParsedTags(Split(Strip(line)), at);
      RenderParse(Correct(rec.value), at);
    }
  }

  /** Tags that fit the fields are as many as the tag count says, and each is one of the fields. */
  lemma ParsedTags(parts: seq<string>, at: nat)
    requires ParseFields(parts, at).Ok? && AllTokens(parts)
    requires 0 <= ParseFields(parts, at).value.ntags <= |parts| - 3
    ensures var rec := ParseFields(parts, at).value;
            |rec.tags| == rec.ntags && AllTokens(rec.tags)
  {
    var rec := ParseFields(parts, at).value;
    assert rec.tags == parts[3..3 + rec.ntags] by {
      ParseFieldsSpec(parts, at);
    }
    assert forall i :: 0 <= i < |rec.tags| ==> rec.tags[i] == parts[3 + i];
  }

  /** `max(n, 0)`: how many lines `range(n)` visits. */
  function Visits(n: int): nat {
    if n < 0 then 0 else n
  }

  /** `block` is the rewrite of the lines from `start` on, one for one. */
  predicate Rewritten(lines: seq<string>, start: nat, block: seq<string>, rewrite: LineRewriting) {
    && start + |block| <= |lines|
    && forall p :: start <= p < start + |block| ==> rewrite(lines[p], p) == Ok(block[p - start])
  }

  /** The `for _ in range(n)` loop over the lines from `start` on, each line handed to
      `rewrite` with its position. */
  function RewriteBlock(lines: seq<string>, start: nat, n: int, rewrite: LineRewriting): (r: Result<seq<string>, CorrectError>)
    requires start <= |lines|
    ensures r.Ok? ==> start + Visits(n) <= |lines| && |r.value| == Visits(n)
    decreases Visits(n)
  {
    if n <= 0 then Ok([])
    else if start == |lines| then Err(MissingLine(start))
    else
      var first :- rewrite(lines[start], start);
      var rest := RewriteBlock(lines, start + 1, n - 1, rewrite);
      if rest.Err? then Err(rest.error) else Ok([first] + rest.value)
  }

  /** The block loop succeeds exactly when all `max(n, 0)` lines are there and each one
      rewrites, and then it holds their rewrites in order. */
  lemma {:induction false} RewriteBlockSpec(lines: seq<string>, start: nat, n: int, rewrite: LineRewriting)
    requires start <= |lines|
    ensures var r := RewriteBlock(lines, start, n, rewrite);
            && (r.Ok? <==> start + Visits(n) <= |lines| && forall p :: start <= p < start + Visits(n) ==> rewrite(lines[p], p).Ok?)
            && (r.Ok? ==> |r.value| == Visits(n) && Rewritten(lines, start, r.value, rewrite))
    decreases Visits(n)
  {
    if n > 0 && start < |lines| {
      RewriteBlockSpec(lines, start + 1, n - 1, rewrite);
      var r := RewriteBlock(lines, start, n, rewrite);
      var first := rewrite(lines[start], start);
      var rest := RewriteBlock(lines, start + 1, n - 1, rewrite);
      if first.Ok? && rest.Ok? {
        assert r.value == [first.value] + rest.value;
        forall p | start <= p < start + Visits(n)
          ensures rewrite(lines[p], p) == Ok(r.value[p - start])
        {
          if p > start {
            assert r.value[p - start] == rest.value[p - (start + 1)];
          }
        }
      } else if first.Err? {
        assert r.Err?;
      } else {
        assert r.Err?;
      }
    }
  }

  /** `int(lines[at].strip())`: the element count. */
  function CountField(line: string, at: nat): (r: Result<int, CorrectError>)
    ensures r.Ok? <==> ParseInt(Strip(line)).Some?
    ensures r.Ok? ==> r.value == ParseInt(Strip(line)).value
    ensures r.Err? ==> r.error == NotAnInteger(at, Strip(line))
  {
    match ParseInt(Strip(line))
    case Some(n) => Ok(n)
    case None => Err(NotAnInteger(at, Strip(line)))
  }

  /** `out` is what the loop may produce from `lines[k..]`: every line either copied or rewritten
      in place. */
  predicate CopiedOrRewritten(lines: seq<string>, k: nat, out: seq<string>, rewrite: LineRewriting)
    requires k <= |lines|
  {
    && |out| == |lines| - k
    && forall p :: k <= p < |lines| ==> out[p - k] == lines[p] || rewrite(lines[p], p) == Ok(out[p - k])
  }

  lemma CopiedLine(lines: seq<string>, k: nat, rest: seq<string>, rewrite: LineRewriting)
    requires k < |lines| && CopiedOrRewritten(lines, k + 1, rest, rewrite)
    ensures CopiedOrRewritten(lines, k, [lines[k]] + rest, rewrite)
  {
    var out := [lines[k]] + rest;
    forall p | k <= p < |lines|
      ensures out[p - k] == lines[p] || rewrite(lines[p], p) == Ok(out[p - k])
    {
      if p > k {
        assert out[p - k] == rest[p - (k + 1)];
      }
    }
  }

  lemma CopiedHeaderAndBlock(lines: seq<string>, k: nat, block: seq<string>, rest: seq<string>, rewrite: LineRewriting)
    requires Rewritten(lines, k + 2, block, rewrite)
    requires CopiedOrRewritten(lines, k + 2 + |block|, rest, rewrite)
    ensures CopiedOrRewritten(lines, k, [lines[k], lines[k + 1]] + block + rest, rewrite)
  {
    var out := [lines[k], lines[k + 1]] + block + rest;
    forall p | k <= p < |lines|
      ensures out[p - k] == lines[p] || rewrite(lines[p], p) == Ok(out[p - k])
    {
      if k + 2 <= p < k + 2 + |block| {
        assert out[p - k] == block[p - (k + 2)];
      } else if k + 2 + |block| <= p {
        assert out[p - k] == rest[p - (k + 2 + |block|)];
      }
    }
  }

  /** The outer `while` loop from line `k` on: `opens` says which lines start an element block,
      `count` how many element lines the next line announces, `rewrite` what becomes of each
      element line. */
  function CorrectFrom(lines: seq<string>, k: nat, opens: string -> bool, count: CountReading, rewrite: LineRewriting): Result<seq<string>, CorrectError>
    requires k <= |lines|
    decreases |lines| - k
  {
    if k == |lines| then Ok([])
    else if opens(lines[k]) then
      if k + 1 == |lines| then Err(MissingLine(k + 1))
      else
        var n :- count(lines[k + 1], k + 1);
        var block :- RewriteBlock(lines, k + 2, n, rewrite);
        var rest :- CorrectFrom(lines, k + 2 + Visits(n), opens, count, rewrite);
        Ok([lines[k], lines[k + 1]] + block + rest)
    else
      var rest :- CorrectFrom(lines, k + 1, opens, count, rewrite);
      Ok([lines[k]] + rest)
  }

  /** A successful pass over an opening line: the count line, the rewritten block, and the
      rest of the file after the block. */
  lemma OpenedBlock(lines: seq<string>, k: nat, opens: string -> bool, count: CountReading, rewrite: LineRewriting)
    requires k < |lines| && opens(lines[k]) && CorrectFrom(lines, k, opens, count, rewrite).Ok?
    ensures k + 1 < |lines| && count(lines[k + 1], k + 1).Ok?
    ensures var n := count(lines[k + 1], k + 1).value;
            var block := RewriteBlock(lines, k + 2, n, rewrite);
            && block.Ok? && |block.value| == Visits(n) && Rewritten(lines, k + 2, block.value, rewrite)
            && k + 2 + |block.value| <= |lines|
            && var rest := CorrectFrom(lines, k + 2 + |block.value|, opens, count, rewrite);
               rest.Ok? && CorrectFrom(lines, k, opens, count, rewrite).value == [lines[k], lines[k + 1]] + block.value + rest.value
  {
    RewriteBlockSpec(lines, k + 2, count(lines[k + 1], k + 1).value, rewrite);
  }

  /** At an opening line the loop fails when the count line is missing or does not read. */
  lemma OpeningFails(lines: seq<string>, k: nat, opens: string -> bool, count: CountReading, rewrite: LineRewriting)
    requires k < |lines| && opens(lines[k])
    ensures k + 1 == |lines| ==> CorrectFrom(lines, k, opens, count, rewrite) == Err(MissingLine(k + 1))
    ensures k + 1 < |lines| && count(lines[k + 1], k + 1).Err? ==>
              CorrectFrom(lines, k, opens, count, rewrite) == Err(count(lines[k + 1], k + 1).error)
  {
  }

  /** The loop copies the lines before the first opening line, so a failure there is the
      failure of the whole pass. */
  lemma FirstOpeningFails(lines: seq<string>, k: nat, opens: string -> bool, count: CountReading, rewrite: LineRewriting)
    requires k < |lines| && opens(lines[k])
    requires forall i :: 0 <= i < k ==> !opens(lines[i])
    ensures k + 1 == |lines| ==> CorrectFrom(lines, 0, opens, count, rewrite) == Err(MissingLine(k + 1))
    ensures k + 1 < |lines| && count(lines[k + 1], k + 1).Err? ==>
              CorrectFrom(lines, 0, opens, count, rewrite) == Err(count(lines[k + 1], k + 1).error)
  {
    CopyPlainLines(lines, 0, k, opens, count, rewrite);
    OpeningFails(lines, k, opens, count, rewrite);
  }

  /** A block after the first opening line that fails, for lack of lines or on a line that does
      not rewrite, fails the whole pass with its error. */
  lemma BlockFails(lines: seq<string>, k: nat, n: int, opens: string -> bool, count: CountReading, rewrite: LineRewriting)
    requires k + 1 < |lines| && opens(lines[k])
    requires forall i :: 0 <= i < k ==> !opens(lines[i])
    requires count(lines[k + 1], k + 1) == Ok(n)
    requires RewriteBlock(lines, k + 2, n, rewrite).Err?
    ensures CorrectFrom(lines, 0, opens, count, rewrite) == Err(RewriteBlock(lines, k + 2, n, rewrite).error)
  {
    CopyPlainLines(lines, 0, k, opens, count, rewrite);
  }

  /** A successful pass over any other line: the line, then the rest of the file. */
  lemma CopiedStep(lines: seq<string>, k: nat, opens: string -> bool, count: CountReading, rewrite: LineRewriting)
    requires k < |lines| && !opens(lines[k]) && CorrectFrom(lines, k, opens, count, rewrite).Ok?
    ensures CorrectFrom(lines, k + 1, opens, count, rewrite).Ok?
    ensures CorrectFrom(lines, k, opens, count, rewrite).value == [lines[k]] + CorrectFrom(lines, k + 1, opens, count, rewrite).value
  {
  }

  /** Every output line is the input line at the same position, either copied or rewritten. */
  lemma {:induction false} CorrectKeepsPositions(lines: seq<string>, k: nat, opens: string -> bool, count: CountReading, rewrite: LineRewriting)
    requires k <= |lines|
    ensures CorrectFrom(lines, k, opens, count, rewrite).Ok? ==> CopiedOrRewritten(lines, k, CorrectFrom(lines, k, opens, count, rewrite).value, rewrite)
    decreases |lines| - k
  {
    var r := CorrectFrom(lines, k, opens, count, rewrite);
    if k < |lines| && r.Ok? {
      if opens(lines[k]) {
        OpenedBlock(lines, k, opens, count, rewrite);
        var block := RewriteBlock(lines, k + 2, count(lines[k + 1], k + 1).value, rewrite).value;
        var next := k + 2 + |block|;
        var rest := CorrectFrom(lines, next, opens, count, rewrite).value;
        assert r.value == [lines[k], lines[k + 1]] + block + rest;
        assert CopiedOrRewritten(lines, k, [lines[k], lines[k + 1]] + block + rest, rewrite) by {
          CorrectKeepsPositions(lines, next, opens, count, rewrite);
          CopiedHeaderAndBlock(lines, k, block, rest, rewrite);
        }
      } else {
        CopiedStep(lines, k, opens, count, rewrite);
        var rest := CorrectFrom(lines, k + 1, opens, count, rewrite).value;
        assert r.value == [lines[k]] + rest;
        assert CopiedOrRewritten(lines, k, [lines[k]] + rest, rewrite) by {
          CorrectKeepsPositions(lines, k + 1, opens, count, rewrite);
          CopiedLine(lines, k, rest, rewrite);
        }
      }
    }
  }

  /** `p` in front of a successful result; a failure stays as it is. */
  function Prepend(p: seq<string>, r: Result<seq<string>, CorrectError>): Result<seq<string>, CorrectError> {
    match r
    case Ok(v) => Ok(p + v)
    case Err(e) => Err(e)
  }

  /** Lines that open no block are copied through one by one. */
  lemma {:induction false} CopyPlainLines(lines: seq<string>, k: nat, m: nat, opens: string -> bool, count: CountReading, rewrite: LineRewriting)
    requires k + m <= |lines|
    requires forall i :: k <= i < k + m ==> !opens(lines[i])
    ensures CorrectFrom(lines, k, opens, count, rewrite) == Prepend(lines[k..k + m], CorrectFrom(lines, k + m, opens, count, rewrite))
    decreases m
  {
    if m == 0 {
      assert lines[k..k] == [];
      match CorrectFrom(lines, k, opens, count, rewrite)
      case Ok(v) => assert [] + v == v;
      case Err(_) =>
    } else {
      CopyPlainLines(lines, k + 1, m - 1, opens, count, rewrite);
      assert lines[k..k + m] == [lines[k]] + lines[k + 1..k + m];
      match CorrectFrom(lines, k + m, opens, count, rewrite)
      case Ok(v) => assert [lines[k]] + (lines[k + 1..k + m] + v) == lines[k..k + m] + v;
      case Err(_) =>
    }
  }

  /** A block whose every line rewrites succeeds with exactly those rewrites. */
  lemma {:induction false} RewriteAll(lines: seq<string>, start: nat, out: seq<string>, rewrite: LineRewriting)
    requires Rewritten(lines, start, out, rewrite)
    ensures RewriteBlock(lines, start, |out|, rewrite) == Ok(out)
    decreases |out|
  {
    if out != [] {
      assert rewrite(lines[start], start) == Ok(out[0]);
      assert Rewritten(lines, start + 1, out[1..], rewrite) by {
        forall p | start + 1 <= p < start + 1 + |out[1..]|
          ensures rewrite(lines[p], p) == Ok(out[1..][p - (start + 1)])
        {
          assert out[1..][p - (start + 1)] == out[p - start];
        }
      }
      RewriteAll(lines, start + 1, out[1..], rewrite);
      assert out == [out[0]] + out[1..];
    }
  }

  /** An opening line, a count that reads as `n` and a block that rewrites: the two header lines
      and the block come out, and the loop goes on after the block. */
  lemma OpenBlock(lines: seq<string>, k: nat, n: int, block: seq<string>, opens: string -> bool, count: CountReading, rewrite: LineRewriting)
    requires k + 1 < |lines| && opens(lines[k])
    requires count(lines[k + 1], k + 1) == Ok(n)
    requires RewriteBlock(lines, k + 2, n, rewrite) == Ok(block)
    ensures k + 2 + Visits(n) <= |lines|
    ensures CorrectFrom(lines, k, opens, count, rewrite)
         == Prepend([lines[k], lines[k + 1]] + block, CorrectFrom(lines, k + 2 + Visits(n), opens, count, rewrite))
  {
    match CorrectFrom(lines, k + 2 + Visits(n), opens, count, rewrite)
    case Ok(v) => assert [lines[k], lines[k + 1]] + block + v == ([lines[k], lines[k + 1]] + block) + v;
    case Err(_) =>
  }

  /** A file with no opening line from `k` on comes out exactly as it went in. */
  lemma {:induction false} NoBlockNoChange(lines: seq<string>, k: nat, opens: string -> bool, count: CountReading, rewrite: LineRewriting)
    requires k <= |lines|
    requires forall i :: k <= i < |lines| ==> !opens(lines[i])
    ensures CorrectFrom(lines, k, opens, count, rewrite) == Ok(lines[k..])
    decreases |lines| - k
  {
    if k < |lines| {
      NoBlockNoChange(lines, k + 1, opens, count, rewrite);
      assert lines[k..] == [lines[k]] + lines[k + 1..];
    }
  }

  /** The fields of a rendered record: the three numbers, the tags, the nodes. */
  function RenderedFields(r: ElementRecord): seq<string> {
    [ShowInt(r.id)] + ([ShowInt(r.code)] + ([ShowInt(r.ntags)] + (r.tags + ShowAll(r.nodes))))
  }

  lemma RenderFields(r: ElementRecord)
    requires AllTokens(r.tags)
    ensures Split(Strip(Render(r))) == RenderedFields(r)
  {
    SplitStrip(Render(r));
    RenderHead(r);
    var shows := ShowAll(r.nodes);
    SplitSpaced(Join(r.tags), Join(shows));
    SplitJoin(r.tags);
    SplitJoin(shows);
  }

  /** The three numbers split off the front of a rendered record. */
  lemma RenderHead(r: ElementRecord)
    ensures Split(Render(r)) == [ShowInt(r.id)] + ([ShowInt(r.code)] + ([ShowInt(r.ntags)] + Split(Spaced(Join(r.tags), Join(ShowAll(r.nodes))))))
  {
    var rest := Spaced(Join(r.tags), Join(ShowAll(r.nodes)));
    ThreeFirst(ShowInt(r.id), ShowInt(r.code), ShowInt(r.ntags), rest);
  }

  /** Where each part sits in `[a, b, c] + xs + ys`. */
  lemma FieldsLayout<T>(a: T, b: T, c: T, xs: seq<T>, ys: seq<T>)
    ensures var parts := [a] + ([b] + ([c] + (xs + ys)));
            && |parts| == 3 + |xs| + |ys|
            && parts[0] == a && parts[1] == b && parts[2] == c
            && parts[3..3 + |xs|] == xs
            && parts[3 + |xs|..|parts|] == ys
  {
    var parts := [a] + ([b] + ([c] + (xs + ys)));
    assert parts[3..] == xs + ys;
  }

  /** Where each part of a record sits among its rendered fields. */
  lemma RenderedFieldsLayout(r: ElementRecord)
    requires 0 <= r.ntags == |r.tags|
    ensures var parts := RenderedFields(r);
            && |parts| == 3 + r.ntags + |r.nodes|
            && parts[0] == ShowInt(r.id) && parts[1] == ShowInt(r.code) && parts[2] == ShowInt(r.ntags)
            && parts[3..3 + r.ntags] == r.tags
            && parts[3 + r.ntags..|parts|] == ShowAll(r.nodes)
  {
    FieldsLayout(ShowInt(r.id), ShowInt(r.code), ShowInt(r.ntags), r.tags, ShowAll(r.nodes));
  }

  /** `int()` reads every printed integer back. */
  lemma IntTokensShowAll(ns: seq<int>, at: nat)
    ensures IntTokens(ShowAll(ns), at) == Ok(ns)
  {
    var r := IntTokens(ShowAll(ns), at);
    assert r.Ok?;
    assert r.value == ns;
  }

  /** Reading the fields of a rendered record gives the record back. */
  lemma FieldsParse(r: ElementRecord, at: nat)
    requires 0 <= r.ntags == |r.tags|
    ensures ParseFields(RenderedFields(r), at) == Ok(r)
  {
    RenderedFieldsLayout(r);
    IntTokensShowAll(r.nodes, at);
  }

  /** Reading a rendered record gives it back, when its tag count is the number of its tags. */
  lemma RenderParse(r: ElementRecord, at: nat)
    requires 0 <= r.ntags == |r.tags| && AllTokens(r.tags)
    ensures ParseRecord(Render(r), at) == Ok(r)
  {
    RenderFields(r);
    FieldsParse(r, at);
  }

  /** The corrector's rewrite of a rendered record renders the corrected record. */
  lemma RewriteRendered(r: ElementRecord, at: nat)
    requires 0 <= r.ntags == |r.tags| && AllTokens(r.tags)
    ensures RewriteLine(Render(r), at) == Ok(Render(Correct(r)))
  {
    RenderParse(r, at);
  }

  /** The heading of an element block. */
  const ElementsHeading: string := "$Elements"

  /** `line.strip() == "$Elements"`. */
  function ElementsMarker(): string -> bool {
    line => Strip(line) == ElementsHeading
  }

  /** `CountField` as a value, for the loops above. */
  function CountReader(): CountReading {
    (line: string, at: nat) => CountField(line, at)
  }

  /** `RewriteLine` as a value, for the loops above. */
  function LineRewriter(): LineRewriting {
    (line: string, at: nat) => RewriteLine(line, at)
  }

  /** `convert_msh_node_order` on the lines of a file. */
  function ConvertNodeOrder(lines: seq<string>): Result<seq<string>, CorrectError> {
    CorrectFrom(lines, 0, ElementsMarker(), CountReader(), LineRewriter())
  }
  /** The whole pass: on success each line of the file is copied or rewritten in place; a file with
      no `$Elements` line comes out unchanged. */
  lemma ConvertNodeOrderSpec(lines: seq<string>)
    ensures var r := ConvertNodeOrder(lines);
            && (r.Ok? ==> |r.value| == |lines|
                          && forall p :: 0 <= p < |lines| ==> r.value[p] == lines[p] || RewriteLine(lines[p], p) == Ok(r.value[p]))
            && ((forall i :: 0 <= i < |lines| ==> Strip(lines[i]) != ElementsHeading) ==> r == Ok(lines))
  {
    CorrectKeepsPositions(lines, 0, ElementsMarker(), CountReader(), LineRewriter());
    if forall i :: 0 <= i < |lines| ==> Strip(lines[i]) != ElementsHeading {
      NoBlockNoChange(lines, 0, ElementsMarker(), CountReader(), LineRewriter());
      assert lines[0..] == lines;
    }
  }

  /** A `$Elements` line with no line after it, and none before it, fails the pass: the count
      line is missing. */
  lemma ConvertNodeOrderMissingCount(lines: seq<string>)
    requires lines != [] && Strip(lines[|lines| - 1]) == ElementsHeading
    requires forall i :: 0 <= i < |lines| - 1 ==> Strip(lines[i]) != ElementsHeading
    ensures ConvertNodeOrder(lines) == Err(MissingLine(|lines|))
  {
    var opens, count, rewrite := ElementsMarker(), CountReader(), LineRewriter();
    var k := |lines| - 1;
    assert opens(lines[k]) && forall i :: 0 <= i < k ==> !opens(lines[i]);
    FirstOpeningFails(lines, k, opens, count, rewrite);
  }

  /** At the first `$Elements` line, a count line `int()` rejects fails the pass with its
      stripped text. */
  lemma ConvertNodeOrderBadCount(lines: seq<string>, k: nat)
    requires k + 1 < |lines| && Strip(lines[k]) == ElementsHeading
    requires forall i :: 0 <= i < k ==> Strip(lines[i]) != ElementsHeading
    requires ParseInt(Strip(lines[k + 1])).None?
    ensures ConvertNodeOrder(lines) == Err(NotAnInteger(k + 1, Strip(lines[k + 1])))
  {
    var opens, count, rewrite := ElementsMarker(), CountReader(), LineRewriter();
    var bad := NotAnInteger(k + 1, Strip(lines[k + 1]));
    assert count(lines[k + 1], k + 1) == Err(bad) by {
      assert CountField(lines[k + 1], k + 1) == Err(bad);
    }
    assert CorrectFrom(lines, 0, opens, count, rewrite) == Err(bad) by {
      assert opens(lines[k]) && forall i :: 0 <= i < k ==> !opens(lines[i]);
      FirstOpeningFails(lines, k, opens, count, rewrite);
    }
  }
  /** After the first `$Elements` line and a count `n` that reads, the pass fails when fewer than
      `max(n, 0)` lines follow, or when one of the lines it visits is not an element record; the
      error is the block loop's. */
  lemma ConvertNodeOrderBadBlock(lines: seq<string>, k: nat, n: int)
    requires k + 1 < |lines| && Strip(lines[k]) == ElementsHeading
    requires forall i :: 0 <= i < k ==> Strip(lines[i]) != ElementsHeading
    requires ParseInt(Strip(lines[k + 1])) == Some(n)
    requires BadBlock(lines, k + 2, n)
    ensures var block := RewriteBlock(lines, k + 2, n, LineRewriter());
            block.Err? && ConvertNodeOrder(lines) == Err(block.error)
  {
    var opens, count, rewrite := ElementsMarker(), CountReader(), LineRewriter();
    assert RewriteBlock(lines, k + 2, n, rewrite).Err? by {
      BadRecordFailsBlock(lines, k + 2, n);
    }
    assert count(lines[k + 1], k + 1) == Ok(n) by {
      assert CountField(lines[k + 1], k + 1) == Ok(n);
    }
    assert CorrectFrom(lines, 0, opens, count, rewrite) == Err(RewriteBlock(lines, k + 2, n, rewrite).error) by {
      assert opens(lines[k]) && forall i :: 0 <= i < k ==> !opens(lines[i]);
      BlockFails(lines, k, n, opens, count, rewrite);
    }
  }

  /** Fewer than `max(n, 0)` lines remain from `start`, or one of the lines the loop visits is not
      an element record. */
  predicate BadBlock(lines: seq<string>, start: nat, n: int) {
    || start + Visits(n) > |lines|
    || exists p :: start <= p < start + Visits(n) && p < |lines| && ParseRecord(lines[p], p).Err?
  }

  /** The block loop fails when fewer than `max(n, 0)` lines remain or a visited line is not an
      element record. */
  lemma BadRecordFailsBlock(lines: seq<string>, start: nat, n: int)
    requires start <= |lines| && BadBlock(lines, start, n)
    ensures RewriteBlock(lines, start, n, LineRewriter()).Err?
  {
    RewriteBlockSpec(lines, start, n, LineRewriter());
    if start + Visits(n) <= |lines| {
      var p :| start <= p < start + Visits(n) && p < |lines| && ParseRecord(lines[p], p).Err?;
      RewriteLineSpec(lines[p], p);
      assert LineRewriter()(lines[p], p).Err?;
    }
  }
}
