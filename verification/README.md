# FLAC3D grid to Gmsh MSH 2.2 converter, modelled in Dafny

The script `f3grid_to_msh_finally.py` turns a FLAC3D grid file into a legacy Gmsh MSH 2.2
ASCII mesh in two text passes:

1. `read_flac3d` reads the grid line by line. A stripped line starting with `G` gives a vertex
   (fields 2, 3 and 4). A line starting with `Z` gives a zone: the kind tag `parts[1]` and every
   tail token that `int()` accepts, minus one. Every other line is ignored.
2. `create_gmsh_mesh` writes the MSH text: a fixed preamble, the `$Nodes` block numbered from one,
   and the `$Elements` block. Each element line is `i+1 code 2 0 0` followed by the zone's indices
   without the first one, plus one. The kind tag picks the code through `cell_type_map`:
   `B8` 5, `W6` 6, `P5` 7, anything else 4.
3. `convert_msh_node_order` reads that text back. It finds the line `$Elements`, reads the count
   on the next line, and rewrites exactly that many element lines. When the type code and the
   node count match one of the four shapes, it puts the node list into Gmsh corner order with
   that shape's fixed `reorder_flac3d_to_gmsh_*` table. Every other line is copied.

Files are modelled as sequences of lines without their terminators. Python's `strip()`,
`split()`, `' '.join()`, `int()` and `str()` on integers are modelled in `Text`. Coordinates are
opaque: a `parse: string -> Option<F>` parameter stands for `float()`, and a `show: F -> string`
parameter for the f-string that prints a coordinate. An uncaught exception becomes an `Err`
value. The read stage's errors are `ReadError` (the script prints them and exits). The
correction stage's errors are `CorrectError` (a missing line, a field `int()` rejects, a field
that is not there).

Modules, in dependency order:

- `Results`: `Option` and `Result`.
- `Text`: the string operations and their laws.
- `Shapes`: the type table, the four corner tables, and the proof that each table is a bijection.
- `GridReader`: `read_flac3d`, both as written and with the `G` guard corrected.
- `MeshWriter`: `create_gmsh_mesh`.
- `NodeOrder`: `convert_msh_node_order`.
- `Pipeline`: both stages run one after the other, end to end.
- `Example`: one brick zone followed through both stages.
- `ExampleLines`: the two element lines of that brick written out as text.

The model follows the code. In particular:

- A `G` line of exactly four fields passes the guard and then fails on `parts[4]`, which ends the
  run (see Findings).
- A coordinate `float()` rejects ends the run; the line is not skipped.
- The corrector re-renders element lines rather than copying them byte for byte. It prints
  integers in normal form. With no tags it leaves two spaces. With no nodes it leaves a trailing
  space.
- `__main__` runs the corrector whatever the writer reported.

## Model

| member | source | states |
|---|---|---|
| Shapes.TypeCode | f3grid_to_msh_finally.py:115-124 | `B8`, `W6` and `P5` and only they get 5, 6 and 7. Every other kind string, `T4` or unknown, gets 4, so the lookup never fails |
| Shapes.ShapeOf | f3grid_to_msh_finally.py:254-261 | a shape is chosen exactly when the type code and the node count both match it: (5,8), (6,6), (7,5) or (4,4). For every other pair no shape matches |
| Shapes.TablesArePermutations | f3grid_to_msh_finally.py:212-226 | each of the four index maps has as many entries as its shape has corners and lists every corner position exactly once |
| Shapes.InverseUndoesTable | f3grid_to_msh_finally.py:212-226 | each index map has a two-sided inverse over its corner positions |
| Shapes.BijectionIsPermutation | f3grid_to_msh_finally.py:212-226 | any index list with a two-sided inverse lists each position below its length exactly once |
| Shapes.GatherByPermutation | f3grid_to_msh_finally.py:214 | `[nodes[i] for i in index_map]` along a permutation table is a rearrangement of `nodes`: nothing added, nothing lost |
| Shapes.ReorderFor | f3grid_to_msh_finally.py:254-261 | the corrector's per-record rule keeps the length and the multiset of the nodes. It leaves the list alone when no shape matches; otherwise entry `i` is `nodes[map[i]]` |
| Shapes.ReorderRoundTrip | f3grid_to_msh_finally.py:212-226 | reordering into Gmsh order and then applying the inverse table gives the FLAC3D order back |
| Shapes.CorrectingTwiceDiffers | f3grid_to_msh_finally.py:254-261 | no table is its own inverse, so running the corrector over an already corrected element scrambles it |
| GridReader.ZoneIndices | f3grid_to_msh_finally.py:49-55 | the integer tail tokens minus one, in order, with non-integers skipped. The list is empty exactly when no tail token is an integer |
| GridReader.ZoneIndicesSingle | f3grid_to_msh_finally.py:49-55 | one token gives its value minus one when `int()` accepts it, and nothing when `int()` raises `ValueError` |
| GridReader.ZoneIndicesConcat | f3grid_to_msh_finally.py:49-55 | each token is handled on its own: the indices of two runs of tokens one after the other are the two lists of indices one after the other. With the single-token law this fixes the result on every tail, integers and non-integers mixed |
| GridReader.ZoneIndicesFirstInteger | f3grid_to_msh_finally.py:49-55 | tokens before the first integer contribute nothing, so the list starts with that integer minus one, followed by the indices of the rest |
| GridReader.NodeRecord | f3grid_to_msh_finally.py:32-40 | below the guard the line is skipped. At or above it, reading succeeds exactly when fields 2, 3 and 4 exist and are numbers, and the vertex is those three; a missing field is the error exactly when the fields present are numbers |
| GridReader.ZoneRecord | f3grid_to_msh_finally.py:42-59 | a zone is recorded exactly when there are at least 3 fields and some tail field is an integer. Its kind is `parts[1]` and its indices are the tail's integers minus one |
| GridReader.ParseLineCases | f3grid_to_msh_finally.py:27-61 | a blank stripped line, or one starting with neither `G` nor `Z`, contributes nothing. A `G` line is read as a node from its fields and a `Z` line as a zone from its fields |
| GridReader.Collect | f3grid_to_msh_finally.py:24-68 | the read succeeds exactly when every line does. The two zone lists stay the same length and every recorded zone is non-empty |
| GridReader.ReadLines | f3grid_to_msh_finally.py:26-61 | the read succeeds exactly when every line reads. There are never more vertices plus zones than lines |
| GridReader.ReadGridWith | f3grid_to_msh_finally.py:20-68 | a successful read yields `cells` and `cell_types` of equal length, with no empty cell |
| GridReader.ReadGrid | f3grid_to_msh_finally.py:8-68 | `read_flac3d` as written returns exactly when every line reads under the guard `len(parts) >= 4`, with `cells` and `cell_types` of equal length and no empty cell. Otherwise it exits with the error of the first line that raises |
| GridReader.ReadGridIntended | f3grid_to_msh_finally.py:8-68 | the same promises with the guard `len(parts) >= 5` that `parts[4]` needs |
| GridReader.ReadConcat | f3grid_to_msh_finally.py:26-61 | reading is line-local: reading two runs of lines one after the other gives the first error, or else the concatenation of the two readings |
| GridReader.FailingLineIsFatal | f3grid_to_msh_finally.py:63-66 | a line that raises ends the whole read, whatever came before it |
| GridReader.IgnoredLineChangesNothing | f3grid_to_msh_finally.py:27-61 | a line that contributes nothing leaves the reading unchanged. By `ParseLineCases`, `NodeRecord` and `ZoneRecord` that covers blank lines, lines with any other first character, `G` lines below the guard, and `Z` lines that are short or have no integer |
| GridReader.FourFieldNodeLineIsFatal | f3grid_to_msh_finally.py:34-39 | a `G` line of exactly four fields passes the guard and then raises, on `parts[4]` or on a coordinate that is not a number, so it ends the read |
| GridReader.FourFieldLineIsFatal | f3grid_to_msh_finally.py:34-39 | in particular, a file ending in `G 1 0.0 0.0` fails to read |
| GridReader.IntendedSkipsShortNodeLines | f3grid_to_msh_finally.py:34-39 | with the guard `len(parts) >= 5`, a `G` line of fewer than five fields is skipped |
| GridReader.IntendedAgreesWhereWrittenSucceeds | f3grid_to_msh_finally.py:32-40 | wherever the reader as written succeeds, the corrected reader yields the same grid |
| MeshWriter.MeshLayout | f3grid_to_msh_finally.py:70-134 | the file `create_gmsh_mesh` writes is the 8-line preamble, then `$Nodes`, the vertex count, one line per vertex, `$EndNodes` and a blank line, then `$Elements`, the zone count, one line per element and `$EndElements` |
| MeshWriter.CountsMatchBlocks | f3grid_to_msh_finally.py:99-112 | for a grid the reader yields, both announced counts read back as the number of lines in their block |
| MeshWriter.NodeLineNumber | f3grid_to_msh_finally.py:101-105 | vertex `i`'s line starts with `i+1`, whatever id its `G` line had |
| NodeOrder.PySlice | f3grid_to_msh_finally.py:251-252 | Python slicing, for every placement of the start and the end (below minus the length, negative, in range, past the length). A negative bound counts from the end, a bound past the length is clamped to it, and one below minus the length is clamped to the start. A start at or after the end gives the empty list, so `parts[3:3+num_tags]` with `num_tags` in -3..-1 gives no tags, and with too large a count it is `parts[3:]`. The result is never longer than the list |
| NodeOrder.IntField | f3grid_to_msh_finally.py:248-250 | `int(parts[k])` succeeds exactly when the field exists and is an integer. Otherwise it raises the missing-field or the not-an-integer error |
| NodeOrder.IntTokens | f3grid_to_msh_finally.py:252 | `list(map(int, ...))` succeeds exactly when every token is an integer, and then yields their values in order. Otherwise it fails on the first token `int()` rejects |
| NodeOrder.ParseFieldsSpec | f3grid_to_msh_finally.py:246-252 | an element line's fields parse exactly when the first three and every node field after the `num_tags` tags are integers. The record holds those values and the tag slice, and the tags number `num_tags` whenever they fit. A failure is a missing field among the first three, or a field `int()` rejects |
| NodeOrder.RewriteLineSpec | f3grid_to_msh_finally.py:246-264 | an element line is rewritten exactly when it parses, and otherwise fails with the parser's error. The new line reads back as the same element with its nodes corrected, whenever its tag count fits its fields |
| NodeOrder.CountField | f3grid_to_msh_finally.py:241 | the count line reads exactly when its stripped text is an integer |
| NodeOrder.Correct | f3grid_to_msh_finally.py:254-261 | the id, type, tag count and tags are kept. The nodes are a rearrangement of the old ones, reordered by the matching shape's table, or left alone when no shape matches |
| NodeOrder.RewriteBlockSpec | f3grid_to_msh_finally.py:245-265 | the `range(n)` loop succeeds exactly when `max(n, 0)` lines remain and every one rewrites. It then yields their rewrites, one per line, in order |
| NodeOrder.CorrectKeepsPositions | f3grid_to_msh_finally.py:235-267 | a successful pass has one output line per input line. Each output line is the input line at that position, copied or rewritten |
| NodeOrder.CopyPlainLines | f3grid_to_msh_finally.py:235-267 | lines that are not `$Elements` are copied through unchanged, in order |
| NodeOrder.NoBlockNoChange | f3grid_to_msh_finally.py:235-267 | a file with no `$Elements` line comes out exactly as it went in |
| NodeOrder.OpenBlock | f3grid_to_msh_finally.py:239-265 | at an opening line with count `n` and a block that rewrites, the marker and count line are copied, the block is rewritten, and the loop goes on after the block |
| NodeOrder.ConvertNodeOrderSpec | f3grid_to_msh_finally.py:228-270 | on success the output has one line per input line, each copied or rewritten in place; a file without a `$Elements` line comes out unchanged |
| NodeOrder.ConvertNodeOrderMissingCount | f3grid_to_msh_finally.py:239-241 | a first `$Elements` line that is the last line fails with the count line missing |
| NodeOrder.ConvertNodeOrderBadCount | f3grid_to_msh_finally.py:241 | a count line after the first `$Elements` line that `int()` rejects fails the pass, naming that line and its stripped text |
| NodeOrder.ConvertNodeOrderBadBlock | f3grid_to_msh_finally.py:245-252 | after the first `$Elements` line and a count `n` that reads, the pass fails when fewer than `n` lines follow or when a visited line is not an element record, with the block loop's error |
| NodeOrder.BlockFails | f3grid_to_msh_finally.py:235-265 | the lines before the first opening line are copied, so a block after it that fails makes the whole loop fail with that block's error |
| NodeOrder.RenderParse | f3grid_to_msh_finally.py:246-263 | reading a rendered element line gives back the record, whenever its tag count is the number of its tags |
| NodeOrder.RewriteRendered | f3grid_to_msh_finally.py:246-264 | the rewrite of a rendered record is the rendering of the corrected record |
| Pipeline.ElementLinesParse | f3grid_to_msh_finally.py:122-132 | `zip(cells, cell_types)` writes one line per pair, so the shorter list decides the count. The corrector's parser reads line `i` back as element `i+1` with the kind's code, tags `0 0`, and the cell's nodes after the first, each plus one |
| Pipeline.ElementLineParses | f3grid_to_msh_finally.py:246-252 | the corrector reads a writer's element line as its id, its code, the two zero tags and the written node ids |
| Pipeline.ElementLineRendered | f3grid_to_msh_finally.py:263 | re-rendering a writer's element line gives the same text, except for a trailing space when the element has no nodes |
| Pipeline.ElementLineRewritten | f3grid_to_msh_finally.py:246-264 | the corrector rewrites a writer's element line as the same element with its nodes in Gmsh corner order |
| Pipeline.HeaderIsPlain | f3grid_to_msh_finally.py:89-108 | no line before the element block strips to `$Elements`, so the corrector copies the whole header unchanged |
| Pipeline.CountReadsBack | f3grid_to_msh_finally.py:241 | the corrector reads the count the writer printed as that number |
| Pipeline.ConvertElementBlock | f3grid_to_msh_finally.py:235-267 | after a header with no opening line, the writer's element block is rewritten line for line into the corrected block, and the closing line is copied |
| Pipeline.ConvertWrittenMesh | f3grid_to_msh_finally.py:276-278 | on any grid the reader yields, the corrector succeeds on the written file. It keeps every line outside the element block and replaces each element line by the same element with its nodes in Gmsh order |
| Pipeline.Convert | f3grid_to_msh_finally.py:276-278 | the whole script, with the reader's `G` guard corrected to `len(parts) >= 5`, fails exactly when reading the grid fails, with that error. Otherwise it yields the written mesh with the corrected element block |
| Pipeline.ConvertAgreesWithScript | f3grid_to_msh_finally.py:276-278 | wherever the script's own reader succeeds, the whole conversion yields the file the script writes |
| Pipeline.ZoneNodeIdsWritten | f3grid_to_msh_finally.py:130-131 | for any `Z` tail whose first integer is `t`, the written node ids are the integers after `t`, as printed in the `Z` line: non-integers are skipped wherever they stand, `cell[1:]` drops `t`, and the reader's minus one and the writer's plus one cancel |
| Example.BrickThroughBothStages | f3grid_to_msh_finally.py:42-263 | `Z B8 7 1 2 3 4 5 6 7 8` reads as a brick of kind code 5 whose written ids are grid points 1 to 8, and the corrector rewrites element 1 of type 5 on those ids as element 1 of type 5 on grid points 3 5 8 6 1 2 7 4 |
| ExampleLines.GridPointsLine | f3grid_to_msh_finally.py:129-131 | the writer's element line for the brick is the text `1 5 2 0 0 1 2 3 4 5 6 7 8` |
| ExampleLines.GmshOrderLine | f3grid_to_msh_finally.py:254-263 | the corrector's line for the brick is the text `1 5 2 0 0 3 5 8 6 1 2 7 4` |
| ExampleLines.BrickRewrittenText | f3grid_to_msh_finally.py:246-263 | the corrector rewrites the text `1 5 2 0 0 1 2 3 4 5 6 7 8` into the text `1 5 2 0 0 3 5 8 6 1 2 7 4`, at any position in the file |

## Left out

- File I/O: opening and reading the files (latin-1 for the grid), `readlines`, `writelines`. Each file is a sequence of lines.
- Line terminators. The corrector writes `\n` after a rewritten line and keeps a copied line's own terminator, including a last line without one; lines are modelled without terminators.
- `print`, `traceback.print_exc` and `sys.exit`: diagnostics only. An exit is an `Err` result.
- `float()` and the printing of coordinates. They are the opaque `parse` and `show` parameters; IEEE arithmetic and numpy formatting are not modelled.
- Text.ParseInt: accepts an optional sign and ASCII digits only. Python's `int()` also accepts `_` between digits and non-ASCII decimal digits; tokens never carry surrounding whitespace, so that case does not arise. The model also reads a digit string of any length, while CPython 3.11 and later (and the 2022 security releases of earlier versions) make `int()` raise `ValueError` beyond 4300 digits: the reader keeps such a zone token where the script skips it, and the corrector accepts such a count or field where the script raises.
- Pipeline.Convert: runs the reader with the corrected `G` guard, so a grid with a four-field `G` line converts where the script as written exits. Pipeline.ConvertAgreesWithScript states the script as written wherever its reader succeeds, and GridReader.FourFieldLineIsFatal the case where it does not.
- `np.array(vertices)`: the vertex list stays a sequence of triples.
- `create_fipy_mesh_from_gmsh` and the FiPy `Gmsh3D` import: an external library call.
- The orchestration in `f3grid_2_msh`: the per-kind tally and its prints are diagnostic only. A writer that reports failure only does so on an I/O error, which is not modelled.
- `vtk_viewer.py` (Qt and VTK rendering) and `Alpha_Shapes_algorithm.cs` (AutoCAD plumbing around floating-point geometry): not part of the converter.

## Findings

| source | as written | input that shows it | evidently intended | confidence | as-written member | corrected member |
|---|---|---|---|---|---|---|
| f3grid_to_msh_finally.py:34-39 | the `G` guard is `len(parts) >= 4`, but the vertex reads `parts[4]`, the fifth field | a grid line `G 1 0.0 0.0`: it passes the guard, `parts[4]` raises `IndexError`, and the script exits | `len(parts) >= 5`, as the comment `G node_id x y z` says: such a line is skipped like any shorter `G` line | high, not executed | GridReader.FourFieldLineIsFatal | GridReader.IntendedSkipsShortNodeLines |
