/**
 * The four volume elements the converter knows: their Gmsh element-type codes,
 * their corner counts, the FLAC3D kind tags that name them, and the fixed index
 * tables that turn a FLAC3D corner order into Gmsh's corner order
 * (`cell_type_map` and the `reorder_flac3d_to_gmsh_*` functions).
 */
module Shapes {
  import opened Results

  datatype Shape = Tetrahedron | Hexahedron | Prism | Pyramid

  /** Element-type code in the legacy MSH 2.2 format (4-node tetrahedron 4, 8-node hexahedron 5,
      6-node prism 6, 5-node pyramid 7). */
  function Code(s: Shape): int {
    match s
    case Tetrahedron => 4
    case Hexahedron => 5
    case Prism => 6
    case Pyramid => 7
  }

  function Corners(s: Shape): nat {
    match s
    case Tetrahedron => 4
    case Hexahedron => 8
    case Prism => 6
    case Pyramid => 5
  }

  /** The FLAC3D-to-Gmsh corner tables, exactly as the converter writes them. */
  const HexahedronTable: seq<nat> := [2, 4, 7, 5, 0, 1, 6, 3]
  const PrismTable: seq<nat> := [5, 2, 4, 3, 0, 1]
  const PyramidTable: seq<nat> := [2, 0, 1, 4, 3]
  const TetrahedronTable: seq<nat> := [0, 2, 3, 1]

  /** Output position `i` takes the node at input position `Table(s)[i]`. */
  function Table(s: Shape): seq<nat> {
    match s
    case Hexahedron => HexahedronTable
    case Prism => PrismTable
    case Pyramid => PyramidTable
    case Tetrahedron => TetrahedronTable
  }

  /** The inverse tables: Gmsh corner order back to FLAC3D corner order. */
  const HexahedronInverse: seq<nat> := [4, 5, 0, 7, 1, 3, 6, 2]
  const PrismInverse: seq<nat> := [4, 5, 1, 3, 2, 0]
  const PyramidInverse: seq<nat> := [1, 2, 0, 4, 3]
  const TetrahedronInverse: seq<nat> := [0, 3, 1, 2]

  /** The table that undoes `Table(s)`. */
  function Inverse(s: Shape): seq<nat> {
    match s
    case Hexahedron => HexahedronInverse
    case Prism => PrismInverse
    case Pyramid => PyramidInverse
    case Tetrahedron => TetrahedronInverse
  }

  /** `cell_type_map.get(kind, 4)`: the three listed kinds get their own code, every other kind
      string (including `T4`) gets the tetrahedron code; the lookup never fails. */
  function TypeCode(kind: string): (code: int)
    ensures code == 5 <==> kind == "B8"
    ensures code == 6 <==> kind == "W6"
    ensures code == 7 <==> kind == "P5"
    ensures code == 4 <==> kind != "B8" && kind != "W6" && kind != "P5"
  {
    if kind == "T4" then Code(Tetrahedron)
    else if kind == "B8" then Code(Hexahedron)
    else if kind == "W6" then Code(Prism)
    else if kind == "P5" then Code(Pyramid)
    else Code(Tetrahedron)
  }

  /** The shape whose node list the corrector reorders: the element-type code AND the number of
      nodes must both match; anything else is left alone. */
  function ShapeOf(code: int, count: int): (r: Option<Shape>)
    ensures r.Some? ==> Code(r.value) == code && Corners(r.value) == count
    ensures r.None? ==> forall s: Shape :: Code(s) != code || Corners(s) != count
  {
    if code == 5 && count == 8 then Some(Hexahedron)
    else if code == 6 && count == 6 then Some(Prism)
    else if code == 7 && count == 5 then Some(Pyramid)
    else if code == 4 && count == 4 then Some(Tetrahedron)
    else None
  }

  /** Every shape is recognised by its own code and corner count. */
  lemma ShapeOfRecognises(s: Shape)
    ensures ShapeOf(Code(s), Corners(s)) == Some(s)
  {
  }

  function Iota(n: nat): (r: seq<nat>)
    ensures |r| == n && forall i :: 0 <= i < n ==> r[i] == i
  {
    seq(n, i requires 0 <= i < n => i)
  }

  /** `m` lists every position `0 .. |m|-1` exactly once: a bijection of the positions. */
  ghost predicate IsPermutation(m: seq<nat>) {
    multiset(m) == multiset(Iota(|m|))
  }

  predicate InRange(m: seq<nat>, n: nat) {
    forall i :: 0 <= i < |m| ==> m[i] < n
  }

  /** `[nodes[i] for i in index_map]`. */
  function Gather<T>(nodes: seq<T>, m: seq<nat>): (r: seq<T>)
    requires InRange(m, |nodes|)
    ensures |r| == |m|
    ensures forall i :: 0 <= i < |m| ==> r[i] == nodes[m[i]]
  {
    seq(|m|, i requires 0 <= i < |m| => nodes[m[i]])
  }

  /** All four tables are bijections of their shape's corner positions. */
  lemma TablesArePermutations(s: Shape)
    ensures |Table(s)| == Corners(s)
    ensures IsPermutation(Table(s))
  {
    InverseUndoesTable(s);
    BijectionIsPermutation(Table(s), Inverse(s));
  }

  /** `inv` and `m` are tables over `0 .. n-1` that undo each other, in both orders. */
  predicate Undoes(inv: seq<nat>, m: seq<nat>, n: nat) {
    && |m| == n && |inv| == n && InRange(m, n) && InRange(inv, n)
    && (forall i :: 0 <= i < n ==> inv[m[i]] == i)
    && (forall i :: 0 <= i < n ==> m[inv[i]] == i)
  }

  /** `Inverse(s)` undoes `Table(s)` in both orders. */
  lemma InverseUndoesTable(s: Shape)
    ensures Undoes(Inverse(s), Table(s), Corners(s))
  {
    match s
    case Hexahedron => HexahedronInverseUndoes();
    case Prism => PrismInverseUndoes();
    case Pyramid => PyramidInverseUndoes();
    case Tetrahedron => TetrahedronInverseUndoes();
  }

  lemma HexahedronInverseUndoes()
    ensures Undoes(HexahedronInverse, HexahedronTable, 8)
  {
  }

  lemma PrismInverseUndoes()
    ensures Undoes(PrismInverse, PrismTable, 6)
  {
  }

  lemma PyramidInverseUndoes()
    ensures Undoes(PyramidInverse, PyramidTable, 5)
  {
  }

  lemma TetrahedronInverseUndoes()
    ensures Undoes(TetrahedronInverse, TetrahedronTable, 4)
  {
  }

  /** `m` without its entry at `j`. */
  function Without(m: seq<nat>, j: nat): (r: seq<nat>)
    requires j < |m|
    ensures |r| == |m| - 1
    ensures forall i :: 0 <= i < |r| ==> r[i] == if i < j then m[i] else m[i + 1]
  {
    m[..j] + m[j + 1..]
  }

  /** The inverse of `m` once the entry at `j` is gone and the later entries have moved down. */
  function Shifted(inv: seq<nat>, j: nat, n: nat): (r: seq<nat>)
    requires n <= |inv| && forall x :: 0 <= x < n ==> inv[x] != j
    ensures |r| == n
  {
    seq(n, x requires 0 <= x < n => if inv[x] < j then inv[x] else inv[x] - 1)
  }

  /** Taking out the entry that holds the top position leaves a bijection one smaller. */
  lemma UndoesWithoutTop(m: seq<nat>, inv: seq<nat>)
    requires |m| > 0 && Undoes(inv, m, |m|)
    ensures var n, j := |m|, inv[|m| - 1];
            && m[j] == n - 1
            && (forall x :: 0 <= x < n - 1 ==> inv[x] != j)
            && Undoes(Shifted(inv, j, n - 1), Without(m, j), n - 1)
  {
    var n, j := |m|, inv[|m| - 1];
    forall x | 0 <= x < n - 1
      ensures inv[x] != j
    {
      assert m[inv[x]] == x;
    }
    var rest, restInv := Without(m, j), Shifted(inv, j, n - 1);
    forall i | 0 <= i < n - 1
      ensures rest[i] < n - 1 && restInv[rest[i]] == i
    {
      var k := if i < j then i else i + 1;
      assert rest[i] == m[k] && inv[m[k]] == k;
    }
    forall x | 0 <= x < n - 1
      ensures restInv[x] < n - 1 && rest[restInv[x]] == x
    {
      assert m[inv[x]] == x;
    }
  }

  /** The multiset of a list is that of the list without entry `j`, plus that entry. */
  lemma MultisetWithout(m: seq<nat>, j: nat)
    requires j < |m|
    ensures multiset(m) == multiset(Without(m, j)) + multiset{m[j]}
  {
    assert m == m[..j] + [m[j]] + m[j + 1..];
  }

  lemma IotaSnoc(n: nat)
    requires n > 0
    ensures multiset(Iota(n)) == multiset(Iota(n - 1)) + multiset{(n - 1) as nat}
  {
    assert Iota(n) == Iota(n - 1) + [n - 1];
  }

  /** A table with a two-sided inverse lists every position exactly once. */
  lemma {:induction false} BijectionIsPermutation(m: seq<nat>, inv: seq<nat>)
    requires Undoes(inv, m, |m|)
    ensures IsPermutation(m)
    decreases |m|
  {
    var n := |m|;
    if n > 0 {
      var j := inv[n - 1];
      UndoesWithoutTop(m, inv);
      BijectionIsPermutation(Without(m, j), Shifted(inv, j, n - 1));
      PermutationStep(m, j);
    }
  }

  /** Putting the top position back into a permutation one smaller gives a permutation. */
  lemma PermutationStep(m: seq<nat>, j: nat)
    requires j < |m| && m[j] == |m| - 1
    requires IsPermutation(Without(m, j))
    ensures IsPermutation(m)
  {
    MultisetWithout(m, j);
    IotaSnoc(|m|);
  }

  /** A permutation table only mentions positions below its length. */
  lemma PermutationInRange(m: seq<nat>)
    requires IsPermutation(m)
    ensures InRange(m, |m|)
  {
    forall i | 0 <= i < |m|
      ensures m[i] < |m|
    {
      assert m[i] in multiset(m);
      assert m[i] in multiset(Iota(|m|));
      var j :| 0 <= j < |m| && Iota(|m|)[j] == m[i];
    }
  }

  lemma GatherConcat<T>(nodes: seq<T>, a: seq<nat>, b: seq<nat>)
    requires InRange(a, |nodes|) && InRange(b, |nodes|)
    ensures InRange(a + b, |nodes|)
    ensures Gather(nodes, a + b) == Gather(nodes, a) + Gather(nodes, b)
  {
  }

  /** Taking the same index out of two index lists with equal multisets keeps them equal. */
  lemma RemoveMatching(xs: seq<nat>, ys: seq<nat>, j: nat)
    requires xs != [] && j < |ys| && ys[j] == xs[0]
    requires multiset(xs) == multiset(ys)
    ensures multiset(xs[1..]) == multiset(ys[..j] + ys[j + 1..])
  {
    var mx := multiset{xs[0]};
    var before, after := ys[..j], ys[j + 1..];
    assert xs == [xs[0]] + xs[1..];
    assert ys == before + ([ys[j]] + after);
    calc {
      multiset(xs[1..]);
      (multiset(xs[1..]) + mx) - mx;
      multiset(ys) - mx;
      (multiset(before) + multiset(after) + mx) - mx;
      multiset(before + after);
    }
  }

  /** Gathering along `before + [x] + after` yields `nodes[x]` besides what `before + after` yields. */
  lemma GatherAround<T>(nodes: seq<T>, before: seq<nat>, x: nat, after: seq<nat>)
    requires InRange(before, |nodes|) && InRange(after, |nodes|) && x < |nodes|
    ensures InRange(before + [x] + after, |nodes|) && InRange(before + after, |nodes|)
    ensures multiset(Gather(nodes, before + [x] + after))
         == multiset{nodes[x]} + multiset(Gather(nodes, before + after))
  {
    GatherConcat(nodes, before, after);
    GatherConcat(nodes, before, [x]);
    GatherConcat(nodes, before + [x], after);
    assert Gather(nodes, [x]) == [nodes[x]];
  }

  /** Gathering along two index lists holding the same indices gives the same nodes. */
  lemma {:induction false} GatherPermuted<T>(nodes: seq<T>, xs: seq<nat>, ys: seq<nat>)
    requires InRange(xs, |nodes|) && InRange(ys, |nodes|)
    requires multiset(xs) == multiset(ys)
    ensures multiset(Gather(nodes, xs)) == multiset(Gather(nodes, ys))
    decreases |xs|
  {
    if xs == [] {
      assert |multiset(ys)| == 0;
    } else {
      var j := Locate(xs, ys, |nodes|);
      var before, after := ys[..j], ys[j + 1..];
      RemoveMatching(xs, ys, j);
      GatherAround(nodes, before, xs[0], after);
      GatherPermuted(nodes, xs[1..], before + after);
      GatherFirst(nodes, xs);
    }
  }

  /** Where the first index of `xs` sits in `ys`, when both hold the same indices. */
  lemma Locate(xs: seq<nat>, ys: seq<nat>, n: nat) returns (j: nat)
    requires xs != [] && InRange(ys, n)
    requires multiset(xs) == multiset(ys)
    ensures j < |ys| && ys[j] == xs[0]
    ensures ys == ys[..j] + [xs[0]] + ys[j + 1..]
    ensures InRange(ys[..j], n) && InRange(ys[j + 1..], n)
  {
    assert xs[0] in multiset(ys);
    j :| 0 <= j < |ys| && ys[j] == xs[0];
    assert ys == ys[..j] + [xs[0]] + ys[j + 1..];
  }

  /** Gathering along a non-empty list yields the first index's node, then the rest. */
  lemma GatherFirst<T>(nodes: seq<T>, xs: seq<nat>)
    requires InRange(xs, |nodes|) && xs != []
    ensures InRange(xs[1..], |nodes|)
    ensures Gather(nodes, xs) == [nodes[xs[0]]] + Gather(nodes, xs[1..])
  {
  }

  /** Reordering by a permutation table neither adds nor loses a node. */
  lemma GatherByPermutation<T>(nodes: seq<T>, m: seq<nat>)
    requires IsPermutation(m) && |m| == |nodes|
    ensures InRange(m, |nodes|)
    ensures multiset(Gather(nodes, m)) == multiset(nodes)
  {
    PermutationInRange(m);
    var iota := Iota(|m|);
    GatherPermuted(nodes, m, iota);
    assert Gather(nodes, iota) == nodes;
  }

  /** The corrector's per-record rule: reorder by the matching shape's table, or keep the list. */
  function ReorderFor(code: int, nodes: seq<int>): (r: seq<int>)
    ensures |r| == |nodes|
    ensures multiset(r) == multiset(nodes)
    ensures ShapeOf(code, |nodes|).None? ==> r == nodes
    ensures ShapeOf(code, |nodes|).Some? ==>
      var s := ShapeOf(code, |nodes|).value;
      forall i :: 0 <= i < |nodes| ==> r[i] == nodes[Table(s)[i]]
  {
    match ShapeOf(code, |nodes|)
    case None => nodes
    case Some(s) =>
      TablesArePermutations(s);
      GatherByPermutation(nodes, Table(s));
      Gather(nodes, Table(s))
  }

  /** Reordering into Gmsh order and back with the inverse table restores the FLAC3D order. */
  lemma ReorderRoundTrip(s: Shape, nodes: seq<int>)
    requires |nodes| == Corners(s)
    ensures InRange(Table(s), |nodes|) && InRange(Inverse(s), |nodes|)
    ensures ReorderFor(Code(s), nodes) == Gather(nodes, Table(s))
    ensures Gather(ReorderFor(Code(s), nodes), Inverse(s)) == nodes
  {
    InverseUndoesTable(s);
    ShapeOfRecognises(s);
  }

  /** None of the four tables is its own inverse: correcting an already-corrected element
      scrambles it instead of leaving it in Gmsh order. */
  lemma CorrectingTwiceDiffers(s: Shape)
    ensures var once := ReorderFor(Code(s), Iota(Corners(s)));
            ReorderFor(Code(s), once) != Iota(Corners(s))
  {
    var n := Corners(s);
    ShapeOfRecognises(s);
    var once := ReorderFor(Code(s), Iota(n));
    var twice := ReorderFor(Code(s), once);
    assert twice[1] == once[Table(s)[1]] == Table(s)[Table(s)[1]];
    assert twice[1] != 1;
  }
}
