/**
 * `create_gmsh_mesh`: the grid as the lines of a legacy Gmsh MSH 2.2 ASCII file. Vertices are
 * numbered by their position, elements carry two zero tags, and every zone's node list is
 * written WITHOUT its first entry (which in a FLAC3D `Z` line is the zone's own id).
 */
module MeshWriter {
  import opened Results
  import opened Text
  import opened Shapes
  import opened GridReader

  /** Format header (version 2.2, ASCII, 8-byte reals) and an empty physical-names block. */
  const Preamble: seq<string> :=
    ["$MeshFormat", "2.2 0 8", "$EndMeshFormat", "", "$PhysicalNames", "0", "$EndPhysicalNames", ""]

  /** `f"{i+1} {x} {y} {z}"`: vertex `i` is written as node `i + 1`, whatever id its `G` line had. */
  function NodeLine<F>(i: nat, v: Vertex<F>, show: F -> string): string {
    ShowInt(i + 1) + " " + show(v.x) + " " + show(v.y) + " " + show(v.z)
  }

  function NodeLines<F>(vs: seq<Vertex<F>>, show: F -> string): (r: seq<string>)
    ensures |r| == |vs|
    ensures forall i :: 0 <= i < |vs| ==> r[i] == NodeLine(i, vs[i], show)
  {
    seq(|vs|, i requires 0 <= i < |vs| => NodeLine(i, vs[i], show))
  }

  /** `cell[1:]` shifted back to one-based numbering. */
  function WrittenIds(cell: seq<int>): (r: seq<int>)
    ensures |r| == if cell == [] then 0 else |cell| - 1
    ensures forall i :: 0 <= i < |r| ==> r[i] == cell[i + 1] + 1
  {
    if cell == [] then [] else seq(|cell| - 1, i requires 0 <= i < |cell| - 1 => cell[i + 1] + 1)
  }

  /** One `f" {node_idx+1}"` per written node. */
  function Trail(ids: seq<int>): string
    decreases |ids|
  {
    if ids == [] then "" else " " + ShowInt(ids[0]) + Trail(ids[1..])
  }

  /** An element line: id, type code, two tags (physical 0, elementary 0), then the nodes. */
  function ElementLine(id: int, code: int, ids: seq<int>): string {
    Spaced(ShowInt(id), Spaced(ShowInt(code), "2 0 0")) + Trail(ids)
  }

  /** `zip(cells, cell_types)`: one line per pair, so the shorter list decides. */
  function ElementLines(cells: seq<seq<int>>, types: seq<string>): (r: seq<string>)
    ensures |r| == if |cells| <= |types| then |cells| else |types|
    ensures forall i :: 0 <= i < |r| ==> r[i] == ElementLine(i + 1, TypeCode(types[i]), WrittenIds(cells[i]))
  {
    var n := if |cells| <= |types| then |cells| else |types|;
    seq(n, i requires 0 <= i < n => ElementLine(i + 1, TypeCode(types[i]), WrittenIds(cells[i])))
  }

  /** Everything up to and including the blank line after `$EndNodes`. */
  function Header<F>(g: Grid<F>, show: F -> string): seq<string> {
    Preamble + ["$Nodes", ShowInt(|g.vertices|)] + NodeLines(g.vertices, show) + ["$EndNodes", ""]
  }

  /** The lines that open and close the element block. */
  const ElementsStart: string := "$Elements"
  const ElementsEnd: string := "$EndElements"

  /** A file with the grid's header and `elements` as the element block. */
  function Mesh<F>(g: Grid<F>, show: F -> string, elements: seq<string>): seq<string> {
    Header(g, show) + [ElementsStart, ShowInt(|g.cells|)] + elements + [ElementsEnd]
  }

  /** The whole file, line by line (`show` is how a coordinate is printed). */
  function WriteMesh<F>(g: Grid<F>, show: F -> string): seq<string> {
    Mesh(g, show, ElementLines(g.cells, g.cellTypes))
  }

  /** Where the blocks sit: the node block after line 10, the element block after its own two
      header lines; `$EndNodes` and `$EndElements` close them. */
  lemma MeshLayout<F>(g: Grid<F>, show: F -> string)
    ensures var r := WriteMesh(g, show);
            var nv, ne := |g.vertices|, |ElementLines(g.cells, g.cellTypes)|;
            && |r| == 15 + nv + ne
            && r[..8] == Preamble
            && r[8] == "$Nodes" && r[9] == ShowInt(nv)
            && (forall i :: 0 <= i < nv ==> r[10 + i] == NodeLine(i, g.vertices[i], show))
            && r[10 + nv] == "$EndNodes" && r[11 + nv] == ""
            && r[12 + nv] == ElementsStart && r[13 + nv] == ShowInt(|g.cells|)
            && (forall i :: 0 <= i < ne ==> r[14 + nv + i] == ElementLines(g.cells, g.cellTypes)[i])
            && r[14 + nv + ne] == ElementsEnd
  {
  }

  /** For a grid the reader produces, both announced counts read back as the number of lines in
      their block, so a reader that trusts the counts finds every node and every element. */
  lemma CountsMatchBlocks<F>(g: Grid<F>, show: F -> string)
    requires Aligned(g)
    ensures var r := WriteMesh(g, show);
            var nv, ne := |g.vertices|, |g.cells|;
            && |r| == 15 + nv + ne
            && ParseInt(r[9]) == Some(nv) && r[10 + nv] == "$EndNodes"
            && ParseInt(r[13 + nv]) == Some(ne) && r[14 + nv + ne] == ElementsEnd
  {
    MeshLayout(g, show);
  }

  /** Node lines carry their one-based position as their first field. */
  lemma NodeLineNumber<F>(i: nat, v: Vertex<F>, show: F -> string)
    ensures var fields := Split(NodeLine(i, v, show));
            fields != [] && ParseInt(fields[0]) == Some(i + 1)
  {
    var rest := show(v.x) + " " + show(v.y) + " " + show(v.z);
    assert NodeLine(i, v, show) == ShowInt(i + 1) + [' '] + rest;
    SplitAtSpace(ShowInt(i + 1), ' ', rest);
    SplitToken(ShowInt(i + 1));
  }
}
