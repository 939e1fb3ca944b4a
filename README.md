# OBJ2PMaker body and wing pipeline, in Dafny

A model of the converter that turns Wavefront OBJ meshes into the body and
wing entries of an X-Plane Plane-Maker `.acf` file, with the properties the
code relies on proved about the model. It covers:

- **Reading OBJ groups** (`ObjGroups`): the single-body importer's line
  scanner, which gathers for every `g`/`o` group the vertices its faces
  reference, and the multi-body converter's remapping of a group's faces onto
  a group-local vertex array.
- **Topology stationing** (`Topology`): the undirected vertex graph of a
  group's faces, the breadth-first layering from the lowest-z nose, and the
  grouping of the layers into validated stations.
- **Z-sorted stationing** (`ZStations`): centring on x, cutting the z-sorted
  vertices into a nose tip, fixed-size chunks and a tail tip, and padding or
  truncating the station list.
- **Rings** (`Rings`, `GeoLiteral`): the 18-slot Plane-Maker rings of the
  multi-body converter (collapsed tips, top / sides / bottom ordering, x
  mirroring) and the mirrored `_geo_xyz` literal of the single-body importer.
- **Grid and block output** (`PmGrid`, `BodyBlock`, `TemplateFill`): the
  `_part_rad` bound, the padded station x slot grid, Plane-Maker's print
  order, the complete body block, the `_locked` grid and target dimensions,
  and the line-for-line fill of a zeroed template block.
- **Patching `.acf` text** (`AcfPatch`, `Wings`): replacing the body span of
  the PROPERTIES block, replacing one body's lines, `replace_or_append`,
  finding a wing panel's group by name, and the `_wing/<n>` keys written per
  panel with the Wing2 lateral sign rule.
- **Small readers and classifiers** (`GroupScan`, `BodyAssign`, `RefBlocks`,
  `RefBodies`): the launcher's vertex-count classification of OBJ groups, the
  body-index check before bodies are written, grouping reference `_geo_xyz`
  lines by body, and the tabulated "split" listing of one reference body.
- **Shared pieces** (`Text`, `NumText`, `GeoLine`, `Geometry`, `Sorting`,
  `Seqs`, `Wrappers`): Python's string primitives, decimal text and the
  `{:.9f}` rendering, the `_geo_xyz` line and the regular expressions that
  read it, points and epsilon snapping, Python's stable sort, and sequence
  helpers.

Files are read and written as sequences of lines; coordinates are real
numbers. Where the code builds a result step by step (the BFS, the ring
fill, the template fill, the line patchers, the scanners) the model is a
method with loop invariants, proved equal to a function that defines the
result, and the properties are lemmas about that function. Errors the code
raises (`ValueError`, `IndexError`, missing markers) are `Err` results.

The model follows the code where it differs from its own documentation:

- `build_body_block_from_template` with a template that holds no `_geo_xyz`
  line does not stop: the inferred shape is a 1 x 1 grid.
- The header z of a station in `make_ref_body_split` is the axis-2 value of
  the first ring slot, in the order the slots were first stored, that has
  one; it is not necessarily slot 0's.
- A `verts_per_loop` of 0 or less with middle vertices
  makes `build_stations_from_geometry` loop forever, so the model requires a
  positive chunk size whenever there are middle vertices.

## Model

| member | source | states |
|---|---|---|
| Text.SplitWs | files/OLD/cis_bodies2pm_working.py:103 | `str.split()` yields non-empty words free of whitespace, and none exactly for a blank line |
| Text.BeforeSlash | files/OLD/cis_bodies2pm_working.py:124 | `token.split("/")[0]` is the longest slash-free prefix of the token |
| Text.LStrip | extractBodies.py:21 | the leading half of `strip()`: removes exactly the leading whitespace |
| Text.RStrip | extractBodies.py:21 | the trailing half of `strip()`: removes exactly the trailing whitespace |
| NumText.NatToStringRoundTrip | files/OLD/cis_bodies2pm_working.py:528-530 | the decimal digits written for an index read back as that index |
| NumText.ParseIntOfString | extractBodies.py:64-67 | `int(str(n)) == n` for every integer |
| NumText.DigitGroupsIff | extractBodies.py:64-67 | the text `int()` accepts after the sign starts and ends with a digit, holds only digits and underscores, and has a digit right after every underscore |
| NumText.ParseIntUnderscore | extractBodies.py:64-67 | `int()` reads one underscore between two runs of digits as nothing: `int("1_0") == int("10") == 10` |
| NumText.ParseIntStrayUnderscore | extractBodies.py:64-67 | `int()` raises for an underscore at the start or the end, or for two underscores in a row |
| NumText.Fixed9RoundTrip | files/OLD/cis_wings2pm-original.py:202 | a value written with `{:.9f}` reads back as the value rounded to nine decimals |
| NumText.Pad2 | files/OLD/Extract_ACFbody_split.py:93 | `{j:2d}` right-aligns the digits in a field of width two: the result is `max(2, len)` characters, ends with the digits, and every character before them is a space |
| Geometry.Snap | files/OLD/cis_bodies2pm_working.py:305-308 | a component within `eps` of zero becomes 0.0; any other keeps its value |
| Geometry.ArgMinZ | files/OLD/cis_bodies2pm_working.py:188 | the nose: the first vertex of smallest z |
| Geometry.ArgMaxZ | files/OLD/cis_bodies2pm_working.py:189 | the tail: the first vertex of largest z |
| Geometry.MinX | files/OLD/cis_bodies2pm_working.py:286 | `min(xs)` is at most every x and is one of them |
| Geometry.MaxX | files/OLD/cis_bodies2pm_working.py:286 | `max(xs)` is at least every x and is one of them |
| Geometry.ShiftX | files/OLD/cis_bodies2pm_working.py:289 | every vertex shifted by `c` in x only |
| Geometry.ShiftXExtent | files/OLD/cis_bodies2pm_working.py:284-289 | shifting by `c` shifts both ends of the x extent by `c` |
| Geometry.ShiftByMidpointCentres | files/OLD/cis_bodies2pm_working.py:284-289 | shifting by the mid-point of the x extent leaves an extent symmetric about 0 |
| Sorting.SortAscendingCorrect | extractBodies.py:97 | `sorted(s, key=k)` is a permutation ordered by increasing key |
| Sorting.SortDescendingCorrect | extractBodies.py:170 | `sorted(s, key=k, reverse=True)` is a permutation ordered by decreasing key |
| Sorting.SortByCorrect | extractBodies.py:97 | Python's sort is ordered, a permutation, and keeps equal-key elements in input order |
| GeoLine.Parse | files/OLD/cis_bodies2pm_working.py:852-854 | a line matching the geometry expression starts with `P _body/` and names a non-empty slash-free body tag |
| GeoLine.ParseNumbered | files/OLD/Extract_ACFbody_split.py:37-39 | a line the numbered expression matches also matches the template expression, with the same indices and value |
| GeoLine.ParseRender | files/OLD/cis_bodies2pm_working.py:528-530 | every `P _body/{b}/_geo_xyz/{i},{j},{k} {v:.9f}` line the writers emit matches the readers' expression, reading back the body, the indices and `v` to nine decimals |
| GeoLine.ParseNumberedRender | files/OLD/Extract_ACFbody_split.py:37-39 | such a line also reads back its body number |
| GeoLine.PrefixIndexRender | files/OLD/extract_ref_bodies.py:19 | such a line carries the body-index prefix of its body |
| Topology.BuildVertexAdjacency | files/OLD/cis_bodies2pm_working.py:155-176 | one neighbour set per vertex; `v` is a neighbour of `u` exactly when some face joins them by consecutive corners (the closing corner pair included, equal corners and faces of fewer than 2 corners contributing nothing) |
| Topology.AdjacencyShape | files/OLD/cis_bodies2pm_working.py:162-174 | the adjacency is symmetric, has no self-loops and names only vertices `0..n-1` |
| Topology.ClosingEdge | files/OLD/cis_bodies2pm_working.py:168-170 | the wrap-around edge `(face[n-1], face[0])` of a face of 2 or more corners is an edge |
| Topology.ExpandStep | files/OLD/cis_bodies2pm_working.py:198-201 | handling one neighbour enters it at `dist[v] + 1` and queues it when it is new, and changes nothing otherwise |
| Topology.ExpandVertex | files/OLD/cis_bodies2pm_working.py:197-201 | after the inner loop every neighbour of `v` is discovered, the new ones at `dist[v] + 1` at the end of the queue |
| Topology.DiscoverStep | files/OLD/cis_bodies2pm_working.py:199-201 | discovering a vertex one layer beyond `v` keeps the search invariant (distances, parents, discovery order) |
| Topology.AdvanceHead | files/OLD/cis_bodies2pm_working.py:196-201 | once the head's neighbours are in, every vertex before the new head is fully expanded and the queue spans at most one layer |
| Topology.SearchComplete | files/OLD/cis_bodies2pm_working.py:193-203 | when the queue is empty the distance dict is a breadth-first layering from the root and its key order the discovery order |
| Topology.ComputeTopologicalLayers | files/OLD/cis_bodies2pm_working.py:179-203 | nose is the first min-z vertex, tail the first max-z vertex, `dist` a breadth-first layering from the nose (nose at 0, each discovered neighbour at `dist[v] + 1`), `order` its key order |
| Topology.LayerIsLowerBound | files/OLD/cis_bodies2pm_working.py:193-203 | no walk from the nose reaches a vertex in fewer steps than its distance, and every vertex a walk reaches is discovered |
| Topology.LayerIsAttained | files/OLD/cis_bodies2pm_working.py:193-203 | every discovered vertex is reached from the nose by a walk of exactly its distance |
| Topology.BucketByDistance | files/OLD/cis_bodies2pm_working.py:221-223 | each bucket holds the vertices of that distance in discovery order, and absent distances have empty buckets |
| Topology.LayerMembers | files/OLD/cis_bodies2pm_working.py:221-223 | a layer holds exactly the discovered vertices at that distance |
| Topology.MidStations | files/OLD/cis_bodies2pm_working.py:240-252 | the mid-station loop appends the layers of increasing distance other than 0 and the tail's, and stops with ValueError at the first layer outside 8..16 vertices |
| Topology.MidLoopStep | files/OLD/cis_bodies2pm_working.py:241-252 | one distance of the mid loop adds its layer when it is a mid layer of the right size and nothing otherwise |
| Topology.AssembleStations | files/OLD/cis_bodies2pm_working.py:235-264 | the stations are `[nose]`, the mid layers, then the tail layer, with the mid-size, tail-size and station-count ValueErrors in source order |
| Topology.SpecMidError | files/OLD/cis_bodies2pm_working.py:248-251 | a mid layer outside 8..16 vertices makes the result the mid-layer ValueError |
| Topology.SpecAfterMids | files/OLD/cis_bodies2pm_working.py:254-264 | with every mid layer sized 8..16, a tail layer whose size is not 1 is a ValueError, and so are more than `max_stations` stations |
| Topology.MidDistancesIncreasing | files/OLD/cis_bodies2pm_working.py:225-252 | the mid stations follow the sorted bucket keys, strictly increasing |
| Topology.BuildStationVertexGroups | files/OLD/cis_bodies2pm_working.py:206-266 | the result is the station grouping of the breadth-first layering from the min-z vertex, the tail being the first max-z vertex; a successful grouping has 2..`max_stations` stations, starts with the nose alone, ends with a one-vertex layer, has mid stations of 8..16 vertices and names only mesh vertices |
| Topology.StationGroupsShape | files/OLD/cis_bodies2pm_working.py:235-264 | a successful grouping starts with the single nose, ends with a one-vertex tail layer, has mid layers of 8..16 vertices and at most `max_stations` stations |
| Topology.StationGroupsOk | files/OLD/cis_bodies2pm_working.py:235-266 | a successful grouping is exactly `[nose]` + the mid layers by increasing distance + the tail layer |
| Topology.StationVerticesInRange | files/OLD/cis_bodies2pm_working.py:235-266 | every station of a successful grouping names vertices of the mesh |
| Topology.MeshStations | files/OLD/cis_bodies2pm_working.py:291-292 | adjacency then grouping, as build_pm_rings_for_mesh calls them; a successful grouping names only mesh vertices |
| Rings.TipRing | files/OLD/cis_bodies2pm_working.py:300-310 | a tip ring has 18 slots |
| Rings.TipRingUniform | files/OLD/cis_bodies2pm_working.py:300-310 | a tip ring is one point `(0.0, y_ft, z_ft)` in every slot, each component snapped to 0.0 below eps |
| Rings.TipRingAt | files/OLD/cis_bodies2pm_working.py:300-310 | the tip / tail branch builds that ring |
| Rings.CenterIndices | files/OLD/cis_bodies2pm_working.py:330-334 | every listed position is a point of the half with \|x\| below 1e-4 ft |
| Rings.FirstMax | files/OLD/cis_bodies2pm_working.py:338 | the position of the first largest value (Python `max` with a key) |
| Rings.FirstMin | files/OLD/cis_bodies2pm_working.py:339 | the position of the first smallest value (Python `min` with a key) |
| Rings.SidesMultiset | files/OLD/cis_bodies2pm_working.py:342 | the side points are the half without the top and bottom points |
| Rings.CenterExtremes | files/OLD/cis_bodies2pm_working.py:336-341 | top is the first highest centre-plane point, bottom the first lowest |
| Rings.OrderHalfWithCenter | files/OLD/cis_bodies2pm_working.py:336-352 | with 2 or more centre points the ordered half is `[top] + sides by decreasing angle + [bottom]`, a permutation of the half (top counted twice when it is also the bottom) |
| Rings.OrderHalfWithoutCenter | files/OLD/cis_bodies2pm_working.py:353-359 | with fewer than 2 centre points the ordered half is the half sorted by decreasing angle, a permutation of it |
| Rings.LeftSlots | files/OLD/cis_bodies2pm_working.py:361-378 | nine half slots |
| Rings.LeftSlotsFill | files/OLD/cis_bodies2pm_working.py:361-378 | half slot `j` is ordered point `j` snapped, or the last point once the half runs out |
| Rings.FillHalfSlots | files/OLD/cis_bodies2pm_working.py:361-378 | the `left_ring` loop computes those nine slots |
| Rings.MirrorRing | files/OLD/cis_bodies2pm_working.py:380-387 | 18 slots; slot `j` is half slot `j` and slot `9 + j` is half slot `j` with x negated and snapped |
| Rings.MirrorHalf | files/OLD/cis_bodies2pm_working.py:380-387 | the loop over the preallocated ring of 18 builds that ring |
| Rings.HalfToFeet | files/OLD/cis_bodies2pm_working.py:326-328 | every half point converted to feet, in order |
| Rings.MidRingHalf | files/OLD/cis_bodies2pm_working.py:315-322 | a mid ring succeeds exactly when 5..9 points have x >= -1e-5, and then reports that half size |
| Rings.MidRingMirrored | files/OLD/cis_bodies2pm_working.py:380-387 | every mid ring is symmetric: slot `9 + j` is slot `j` with x negated |
| Rings.MidRing | files/OLD/cis_bodies2pm_working.py:312-387 | the mid-ring branch computes the ring and half size of its specification, or its ValueError |
| Rings.StationRingShape | files/OLD/cis_bodies2pm_working.py:299-387 | every station ring has 18 slots; a one-vertex station reports half size 0, any other 5..9 |
| Rings.CollectOk | files/OLD/cis_bodies2pm_working.py:298-389 | a successful station loop keeps every ring in order, and `half_n_max` is 0 or the largest half size |
| Rings.CollectErr | files/OLD/cis_bodies2pm_working.py:316-322 | the station loop fails with the error of the first failing station |
| Rings.RingsOfShape | files/OLD/cis_bodies2pm_working.py:297-389 | one ring of 18 slots per station, and `half_n_max` is 0 or the largest half size within 5..9 |
| Rings.RingsOfFails | files/OLD/cis_bodies2pm_working.py:316-322 | the error of the first failing station is the result |
| Rings.RingsForStations | files/OLD/cis_bodies2pm_working.py:297-389 | the station loop computes the rings and `half_n_max` of its specification |
| Rings.BuildPmRings | files/OLD/cis_bodies2pm_working.py:273-391 | zero vertices give `(0.0, [], 0)`; otherwise the mesh is recentred on the middle of its x extent, `part_x` is that centre in feet, and the rings are those of the stations of the recentred mesh's breadth-first layering; every ring has 18 slots and `half_n_max` is 0 or within 5..9 |
| Rings.CenteredRings | files/OLD/cis_bodies2pm_working.py:291-391 | after recentring, the stations and rings of the layering: 2..20 rings of 18 slots, `part_x` as given, `half_n_max` 0 or within 5..9 |
| PmGrid.ComputePartRad | files/OLD/cis_bodies2pm_working.py:22-52 | the result less the buffer is the largest \|x\| or \|y\| over all ring points (0 when there are none) |
| PmGrid.PmOrder | files/OLD/cis_bodies2pm_working.py:697-722 | the print order of `n` has `max(n, 0)` entries |
| PmGrid.PrintOrder | files/OLD/cis_bodies2pm_working.py:697-722 | `_pm_i_print_order` / `_pm_j_print_order` compute 0, 1, then 10 and up, then 2..9 below `n` |
| PmGrid.AppendHigh | files/OLD/cis_bodies2pm_working.py:703-704 | the first loop appends `10..n-1` |
| PmGrid.AppendLow | files/OLD/cis_bodies2pm_working.py:705-707 | the second loop appends `2..min(n,10)-1`, none of them already listed |
| PmGrid.PmOrderInRange | files/OLD/cis_bodies2pm_working.py:697-722 | every listed index is in `0..n-1` |
| PmGrid.PmOrderPermutation | files/OLD/cis_bodies2pm_working.py:697-722 | the print order lists every index below `n` exactly once, starting 0, 1 |
| PmGrid.Padded | files/OLD/cis_bodies2pm_working.py:505-517 | the padded grid has `max(total_stations, 0)` stations |
| PmGrid.PaddedCells | files/OLD/cis_bodies2pm_working.py:505-517 | every cell is the ring point when there is one and the origin otherwise; rings beyond `total_stations` are dropped and short rings are padded to `points_per_ring` |
| PmGrid.PadGrid | files/OLD/cis_bodies2pm_working.py:505-517 | the padding loops compute that grid |
| PmGrid.StationCellsAt | files/OLD/cis_bodies2pm_working.py:526-530 | entry `3c + k` of a station is axis `k` of its `c`-th listed slot |
| PmGrid.GridCellsAt | files/OLD/cis_bodies2pm_working.py:524-530 | the entries of the grid in station order, each station's slots in slot order |
| PmGrid.PaddedCovers | files/OLD/cis_bodies2pm_working.py:520-525 | both print orders only name cells of the padded grid |
| PmGrid.AppendGrid | files/OLD/cis_bodies2pm_working.py:524-530 | the station loop appends the lines of every station in print order |
| PmGrid.AppendStation | files/OLD/cis_bodies2pm_working.py:526-530 | the slot loop appends three lines per slot |
| PmGrid.BuildBodyBlockLines | files/OLD/cis_bodies2pm_working.py:465-532 | the six header lines and a blank, then one `_geo_xyz` line per entry of the padded grid in print order |
| PmGrid.BlockCellsCount | files/OLD/cis_bodies2pm_working.py:505-530 | a block has `3 * total_stations * points_per_ring` geometry lines |
| PmGrid.BlockCellsAt | files/OLD/cis_bodies2pm_working.py:505-530 | geometry line `3(a * points + c) + k` is axis `k` of slot `j_order[c]` of station `i_order[a]`: the ring point when there is one, else 0 |
| TemplateFill.MaxIndicesBounds | files/OLD/cis_bodies2pm_working.py:881-892 | every entry's station and slot are at most the maxima, and each maximum is 0 or an index that occurs |
| TemplateFill.ShapeBounds | files/OLD/cis_bodies2pm_working.py:881-895 | every `_geo_xyz` template line lies inside the inferred (max i + 1) x (max j + 1) grid, and each dimension is 1 or one past an index that occurs |
| TemplateFill.InferShape | files/OLD/cis_bodies2pm_working.py:881-895 | the shape-inference loop computes that grid |
| TemplateFill.AllOkValues | files/OLD/cis_bodies2pm_working.py:913-969 | gathering the line results succeeds exactly when every line does, and keeps every value in its place |
| TemplateFill.AllOkErrSticks | files/OLD/cis_bodies2pm_working.py:925 | once a line fails, the whole fill fails with its error |
| TemplateFill.FilledLines | files/OLD/cis_bodies2pm_working.py:913-969 | one result per template line |
| TemplateFill.FillLinesOk | files/OLD/cis_bodies2pm_working.py:913-969 | the fill succeeds exactly when every template line fills |
| TemplateFill.FillLinesValues | files/OLD/cis_bodies2pm_working.py:913-969 | a successful fill is one output line per template line, in template order, each the fill of that line |
| TemplateFill.FillTemplateLines | files/OLD/cis_bodies2pm_working.py:913-969 | the output loop computes that fill |
| TemplateFill.BuildBodyBlockFromTemplateAsWritten | files/OLD/cis_bodies2pm_working.py:856-971 | as written: the grid shape read from the unstripped template lines, the entries from the stripped lines |
| TemplateFill.BuildBodyBlockFromTemplate | files/OLD/cis_bodies2pm_working.py:856-971 | with the shape read from the stripped lines, the fill always succeeds with exactly one line per template line |
| TemplateFill.StrippedShapeFits | files/OLD/cis_bodies2pm_working.py:881-969 | when the shape is read from the stripped lines, every entry names a cell of the padded grid and no line fails |
| TemplateFill.LineInsideFits | files/OLD/cis_bodies2pm_working.py:919-936 | a line whose entry, if any, lies inside the grid fills without error |
| TemplateFill.FilledEntryReadsBack | files/OLD/cis_bodies2pm_working.py:919-936 | an entry line becomes `P _body/<b>/_geo_xyz/i,j,k` holding axis `k` of the padded cell (the ring point, or 0 past the rings), and that line reads back as that entry |
| TemplateFill.FillKeepsOtherLines | files/OLD/cis_bodies2pm_working.py:968-969 | a line that is neither an entry nor mentions `_body/b/` is copied as it is, surrounding whitespace included |
| TemplateFill.HeaderParamNeedsBody | files/OLD/cis_bodies2pm_working.py:938-959 | every header parameter the fill sets is on a line mentioning `_body/b/` |
| TemplateFill.FillRetargetsParameter | files/OLD/cis_bodies2pm_working.py:961-966 | any other `P _body/b/<rest>` line keeps its key and value, with `b` replaced by the body index |
| TemplateFill.ReplaceTemplateBody | files/OLD/cis_bodies2pm_working.py:964 | when the rest of the key holds no further `_body/b/`, the replacement touches exactly the one placeholder |
| TemplateFill.IndentedTemplateFails | files/OLD/cis_bodies2pm_working.py:881-925 | a template holding only an indented entry for station 1 fails as written (IndexError) and fills when the shape is read from the stripped lines |
| TemplateFill.IndentedShape | files/OLD/cis_bodies2pm_working.py:883-895 | an indented line alone is read as a 1 x 1 grid |
| TemplateFill.IndentedLineFails | files/OLD/cis_bodies2pm_working.py:919-925 | station 1 of a 1 x 1 grid is not there |
| AcfPatch.MarkedBlock | files/OLD/cis_bodies2pm_working.py:989-998 | the block the marker scan settles on: the first `PROPERTIES_END` line and the last `PROPERTIES_BEGIN` line before it, BEGIN strictly before END |
| AcfPatch.Span | files/OLD/cis_bodies2pm_working.py:1000-1011 | the span runs from the first to the last body line strictly between the markers, or is the empty range just after BEGIN when there is none |
| AcfPatch.FindPropertiesBlock | files/OLD/cis_bodies2pm_working.py:989-995 | the marker loop: the first END line, and the last BEGIN line before it |
| AcfPatch.FindBodyLines | files/OLD/cis_bodies2pm_working.py:1000-1006 | the first and last lines strictly between the markers whose left-stripped text starts `P _body/` |
| AcfPatch.ScansDetermine | files/OLD/cis_bodies2pm_working.py:989-1017 | the two scans determine the spliced lines `lines[:body_start] + new + lines[body_end+1:]` |
| AcfPatch.RewriteAcfBodies | files/OLD/cis_bodies2pm_working.py:973-1017 | rewrite_acf_bodies on the lines of the file: RuntimeError without a valid block, otherwise the splice |
| AcfPatch.BlockFound | files/OLD/cis_bodies2pm_working.py:989-998 | conversely, a BEGIN line with no BEGIN after it before the first END line is the block found |
| AcfPatch.BlockMissing | files/OLD/cis_bodies2pm_working.py:997-998 | given the first BEGIN line and an END line after it, the scan fails exactly when an END line comes before that BEGIN |
| AcfPatch.MarkersDiffer | files/OLD/cis_bodies2pm_working.py:991-994 | no line is both markers |
| AcfPatch.RewriteFails | files/OLD/cis_bodies2pm_working.py:989-998 | given the first BEGIN line and an END line after it, rewrite_acf_bodies raises exactly when an END line comes before that BEGIN line |
| AcfPatch.NoBlockIff | files/OLD/cis_bodies2pm_working.py:989-998 | for any lines where no line is both markers, the scan finds no block exactly when there is no END line or every BEGIN line has an END line before it |
| AcfPatch.RewriteFailsIff | files/OLD/cis_bodies2pm_working.py:989-998 | for every file, rewrite_acf_bodies raises RuntimeError exactly when there is no PROPERTIES_END line, or no PROPERTIES_BEGIN line comes before the first one |
| AcfPatch.SpliceOf | files/OLD/cis_bodies2pm_working.py:1013-1017 | the splice is `lines[:body_start] + new + lines[body_end+1:]` |
| AcfPatch.SpliceLayout | files/OLD/cis_bodies2pm_working.py:1013-1017 | everything before and after the old span is unchanged, the new lines sit in its place, the markers are kept and no body line is left in the block outside the new lines |
| AcfPatch.SpliceBlock | files/OLD/cis_bodies2pm_working.py:989-1017 | the spliced lines have the same marker block, its END shifted past the new lines |
| AcfPatch.SpliceSpan | files/OLD/cis_bodies2pm_working.py:1000-1017 | in the spliced lines the body span is exactly the new lines |
| AcfPatch.SpliceAgain | files/OLD/cis_bodies2pm_working.py:989-1017 | a second splice of the spliced lines puts the same lines back where they are |
| AcfPatch.SpliceIdempotent | files/OLD/cis_bodies2pm_working.py:973-1017 | splicing in well-formed lines twice is splicing them once |
| AcfPatch.RewriteIdempotent | files/OLD/cis_bodies2pm_working.py:973-1017 | rewriting the bodies twice with a block of body lines and no marker is rewriting them once |
| AcfPatch.InsertPos | extractBodies.py:257-258 | the insertion point is never past the kept lines |
| AcfPatch.FilterSplit | extractBodies.py:256 | kept and removed lines share out the file |
| AcfPatch.ReplaceMatchingLayout | extractBodies.py:254-259 | the result has `len(acf) - removed + len(block)` lines: the lines before the first removed one, the block, then the kept rest; with none removed the block is appended |
| AcfPatch.KeptBefore | extractBodies.py:256-258 | the kept lines start with every line before the first removed one |
| AcfPatch.KeptClean | extractBodies.py:256 | no kept line starts with the body's prefix |
| AcfPatch.ReplaceMatchingClean | extractBodies.py:254-259 | no line of the body is left outside the new block |
| AcfPatch.ReplaceMatchingKept | extractBodies.py:254-259 | removing the body's lines from the result gives back the kept lines in their order |
| AcfPatch.ReplaceMatchingFirst | extractBodies.py:257-259 | a non-empty block starts where the first removed line was |
| AcfPatch.ReplaceMatchingPos | extractBodies.py:257-259 | replacing again puts the block at the same place |
| AcfPatch.ReplaceEmpty | extractBodies.py:254-259 | replacing with no lines only drops the body's lines |
| AcfPatch.ReplaceMatchingIdempotent | extractBodies.py:254-259 | replacing with a block of the body's lines twice is replacing once |
| AcfPatch.ReplaceBodyBlockIdempotent | extractBodies.py:254-259 | replace_body_block with lines of that body is idempotent |
| AcfPatch.KeyLineHasKey | files/OLD/cis_wings2pm-original.py:201-202 | the written line starts with `P <key> ` |
| AcfPatch.WithKeySets | files/OLD/cis_wings2pm-original.py:196-207 | afterwards the first line of the key is `P <key> <value>`; every other line is unchanged; the list grows by one exactly when no line had the key |
| AcfPatch.WithKeyLastWins | files/OLD/cis_wings2pm-original.py:196-207 | setting a key twice is setting it to the second value |
| AcfPatch.AcfText.ReplaceOrAppend | files/OLD/cis_wings2pm-original.py:196-207 | replaces the first line starting `P <key> ` in place, or appends the line |
| BodyAssign.PmName | files/OLD/cis_bodies2pm_working.py:589 | the display name is the stripped `pm_name`, or the mesh name when that is empty; non-empty unless the mesh name is |
| BodyAssign.AssignedFirst | files/OLD/cis_bodies2pm_working.py:586-604 | a body index is taken exactly when some row of a known mesh claims it, and then by the first such row (later duplicates are skipped) |
| BodyAssign.ContiguousIff | files/OLD/cis_bodies2pm_working.py:611-613 | `sorted(keys) == list(range(len(keys)))` holds exactly when the keys are `0..N-1` |
| BodyAssign.OrderBodiesSlots | files/OLD/cis_bodies2pm_working.py:606-618 | a successful order puts in slot `i` the first row claiming index `i`, with as many slots as taken indices |
| BodyAssign.OrderBodiesFails | files/OLD/cis_bodies2pm_working.py:606-615 | the order fails exactly when no row is kept or the kept indices are not `0..N-1` |
| BodyAssign.AssignBodies | files/OLD/cis_bodies2pm_working.py:584-618 | the row loop, the index check and the ordered list compute that order |
| ObjGroups.GroupName | extractBodies.py:32-34 | a `g`/`o` header starts the group named by its stripped text, or `unnamed`; never empty |
| ObjGroups.TokenIndex | extractBodies.py:40-49 | a face token names vertex `int(token.split("/")[0]) - 1` only when that lies among the vertices read so far |
| ObjGroups.FaceRefs | extractBodies.py:39-49 | a face adds only indices of vertices read so far |
| ObjGroups.FaceRefsMembers | extractBodies.py:39-49 | a face adds exactly the indices its valid tokens name; empty, non-integer and out-of-range tokens add nothing |
| ObjGroups.StepOk | extractBodies.py:20-49 | one line keeps the scan's bookkeeping consistent |
| ObjGroups.ScanValid | extractBodies.py:14-49 | on every input each group is registered once, the current group is registered and every referenced index names a vertex |
| ObjGroups.FaceLineRefs | extractBodies.py:36-49 | a face line before any vertex changes nothing; otherwise it adds its valid indices to the current group and leaves vertices and groups alone |
| ObjGroups.GroupVerts | extractBodies.py:54 | `[verts[i] for i in sorted(idxs)]` |
| ObjGroups.GroupVertsAscending | extractBodies.py:54 | a group's vertices are those at its distinct referenced indices, in strictly ascending index order |
| ObjGroups.GroupsFromMembers | extractBodies.py:50-55 | only registered groups that reference a vertex appear, each with its vertices |
| ObjGroups.GroupsFromComplete | extractBodies.py:50-55 | every registered group that references a vertex appears |
| ObjGroups.GroupsFromDistinct | extractBodies.py:50-55 | no group appears twice |
| ObjGroups.LoadedGroupsShape | extractBodies.py:13-55 | the result holds each group that references a vertex exactly once, with its distinct referenced vertices in ascending index order; groups that reference none are omitted |
| ObjGroups.FaceIndices | extractBodies.py:39-49 | the token loop collects the face's valid indices |
| ObjGroups.ScanLine | extractBodies.py:21-49 | the loop body performs one step of the scan |
| ObjGroups.LoadObjGroups | extractBodies.py:13-55 | load_obj_groups over the lines of the file computes the groups of the scan |
| ObjGroups.CollectGroups | extractBodies.py:50-55 | the loop over the registered groups keeps the non-empty ones in registration order |
| ObjGroups.PyIndex | files/OLD/cis_bodies2pm_working.py:139 | Python's `xs[g]` on a list of length `n` succeeds exactly for `-n <= g < n` |
| ObjGroups.UsedIndices | files/OLD/cis_bodies2pm_working.py:132-136 | every index some face uses, once, strictly increasing, and nothing else |
| ObjGroups.LocalFaces | files/OLD/cis_bodies2pm_working.py:140 | each local face has its global face's length, and each local index is the position of its global index among the used ones |
| ObjGroups.RemapFails | files/OLD/cis_bodies2pm_working.py:139 | the remap fails exactly when some face names a vertex Python cannot index |
| ObjGroups.RemapFaithful | files/OLD/cis_bodies2pm_working.py:131-145 | on success each local index picks the same vertex its global index picked, and the local array holds one vertex per used index |
| ObjGroups.RemapGroup | files/OLD/cis_bodies2pm_working.py:131-145 | the remap loops compute that local group |
| ObjGroups.CollectUsed | files/OLD/cis_bodies2pm_working.py:132-136 | the used indices, sorted |
| ObjGroups.LocalNumbering | files/OLD/cis_bodies2pm_working.py:137 | each used index maps to its position, and nothing else is mapped |
| ObjGroups.TakeVerts | files/OLD/cis_bodies2pm_working.py:139 | the local vertex list, or the IndexError exactly when some used index cannot be indexed |
| ObjGroups.MapFaces | files/OLD/cis_bodies2pm_working.py:140 | every face remapped to local indices |
| BodyBlock.TrailingRun | extractBodies.py:64-67 | the run of non-whitespace that ends the line, preceded by whitespace unless it is the whole line |
| BodyBlock.LastWordOf | extractBodies.py:64-67 | `t.split()[-1]` of `a + " " + w` is the word `w` |
| BodyBlock.ClassifyAllAt | extractBodies.py:61-68 | each line is classified after `strip()`: i_count line, else j_count line, else neither |
| BodyBlock.ClassifyIff | extractBodies.py:63-68 | an i line is one starting with the i key, a j line one starting with the j key but not the i key, and each carries `int()` of its last word or nothing where `int()` raises |
| BodyBlock.DimsFromNext | extractBodies.py:61-70 | one step of the scan: set the count its line carries, stop once both are known |
| BodyBlock.ReadTargetDimsFromAcf | extractBodies.py:57-73 | the scan with its early break computes read_target_dims_from_acf |
| BodyBlock.ScanDimLine | extractBodies.py:62-68 | the loop body performs one step of the scan on the stripped line |
| BodyBlock.DimsFromI | extractBodies.py:61-71 | the scan finds no i_count exactly when no i line from there on holds an integer; otherwise the count comes from such a line |
| BodyBlock.DimsFromJ | extractBodies.py:61-72 | the same for j_count |
| BodyBlock.TargetISource | extractBodies.py:57-73 | target_i is 20 when no stripped i_count line ends in an integer, and otherwise the integer of one of those lines |
| BodyBlock.TargetJSource | extractBodies.py:57-73 | target_j is 18 when no stripped j_count line (that is not an i_count line) ends in an integer, and otherwise the integer of one of those lines |
| BodyBlock.MaxAbsX | extractBodies.py:195 | the largest \|x\| over the vertices, 0.0 for none |
| BodyBlock.MaxAbsY | extractBodies.py:196 | the largest \|y\| over the vertices, 0.0 for none |
| BodyBlock.GridRadiusBounds | extractBodies.py:192-197 | the radius is 5.0 for no vertices; otherwise it clears every vertex's \|x\| and \|y\| in feet by 3.0, and equals that margin past one of them |
| BodyBlock.RowMajorAt | extractBodies.py:224-226 | line `i * w + j` of the row-major lines is the one for `(i, j)` |
| BodyBlock.LockedRowsAt | extractBodies.py:224-226 | locked line `i * target_j + j` is `P _body/<b>/_locked/i,j 0` |
| BodyBlock.LockedLoop | extractBodies.py:224-226 | the nested loop emits the `target_i * target_j` locked lines in row-major order |
| BodyBlock.LockedRowLoop | extractBodies.py:225-226 | the inner loop emits the locked lines of one station |
| BodyBlock.BuildBodyBlock | extractBodies.py:199-252 | the line-appending body computes build_body_block |
| BodyBlock.BodyBlockParts | extractBodies.py:199-252 | the block is six head lines, the `_geo_xyz` literal, the locked lines, then the 21 tail lines |
| BodyBlock.BodyBlockShape | extractBodies.py:199-252 | the block has `6 + 3 * target_i * max(2, target_j) + target_i * target_j + 21` lines, the geometry right after the head |
| BodyBlock.BodyBlockLocked | extractBodies.py:224-226 | the locked line of `(i, j)` sits at `6 + geometry + i * target_j + j` |
| BodyBlock.BodyBlockRadius | extractBodies.py:237 | the `_part_rad` line carries the grid radius of the centred vertices |
| BodyBlock.ReadBackDims | extractBodies.py:57-73 | reading the dimensions of a freshly built block gives back the target_i and target_j it was built with |
| BodyBlock.ReadBackAfter | extractBodies.py:57-73 | lines without count lines, followed by the i_count and j_count lines, read as those counts |
| BodyBlock.FrontNoDims | extractBodies.py:210-227 | nothing before the count lines of a block is a count line |
| ZStations.RecenterX | extractBodies.py:83-86 | y and z kept; x kept when the centre is within 1e-12 of 0, otherwise shifted by the centre |
| ZStations.RecenterCentres | extractBodies.py:77-86 | recentring on the computed centre leaves a mesh whose centre is within 1e-12 of 0 and whose x width is unchanged |
| ZStations.SortedByZ | extractBodies.py:97 | `sorted(verts, key=z)`: a permutation ordered by z |
| ZStations.ChunksFrom | extractBodies.py:106-109 | every chunk is non-empty and at most `verts_per_loop` long, all but the last exactly that long |
| ZStations.ChunksFlatten | extractBodies.py:106-109 | the chunks hold the rest of the list, in order |
| ZStations.ChunkMiddle | extractBodies.py:106-109 | the `while off < n_mid` loop cuts the middle into those chunks |
| ZStations.BuildStationsFromGeometry | extractBodies.py:90-112 | the stationing loop computes build_stations_from_geometry |
| ZStations.FlattenLong | extractBodies.py:99-109 | the tip, the chunks and the tail flatten back to the z-sorted list |
| ZStations.ZStationsFlatten | extractBodies.py:90-112 | with tip and tail, concatenating the stations gives the z-sorted vertices: nothing lost, duplicated or reordered |
| ZStations.ZStationsShape | extractBodies.py:98-112 | with at least `verts_per_loop + 2` vertices, the first station is a single min-z vertex, the last a single max-z vertex, and the middle ones have `verts_per_loop` vertices except perhaps the last |
| ZStations.ZStationsFew | extractBodies.py:95-99 | fewer vertices give one station of all of them, z-sorted; no vertices give no station |
| ZStations.PadOrTruncateStations | extractBodies.py:114-122 | the padding loop computes pad_or_truncate_stations |
| ZStations.PadOrTruncateShape | extractBodies.py:114-122 | exactly `target_i` stations: the first `min(len, target_i)` unchanged, then empty ones (a negative target slices from the end) |
| GeoLiteral.SlotCount | extractBodies.py:135 | `J = max(2, target_j)` is at least 2 |
| GeoLiteral.SlotHalves | extractBodies.py:136-138 | right slots are `0..half-1`, left slots `J-1` down to `half`; together every slot once |
| GeoLiteral.HalfPointsKept | extractBodies.py:169 | the half kept is the x >= 0 vertices when there are any, all of them otherwise |
| GeoLiteral.HalfSorted | extractBodies.py:170 | the kept half ordered by decreasing y, a permutation of it |
| GeoLiteral.TipPointOfLevel | extractBodies.py:155-166 | a tip whose vertices share y and z broadcasts `(0, y_ft, z_ft)` |
| GeoLiteral.LastWriterIs | extractBodies.py:173-178 | the point a slot ends up holding is the last one whose index is that slot modulo the side's length, and none exactly when no index is |
| GeoLiteral.CellAfterSlots | extractBodies.py:172-178 | a right slot holds the last point written to it, a left slot that point's mirror image, and a slot no point reached is absent |
| GeoLiteral.LastWriterNoWrap | extractBodies.py:175-176 | with no more points than slots on a side, point `q` goes to right slot `q` and left slot `J-1-q` |
| GeoLiteral.RightSlotValue | extractBodies.py:175-183 | a right slot reads as the last point written there, or zero |
| GeoLiteral.LeftSlotValue | extractBodies.py:176-183 | a left slot reads as the mirror of the last point written there, or zero |
| GeoLiteral.MirroredSlots | extractBodies.py:172-183 | left slot `J-1-j` holds right slot `j` with x negated; a slot no point reached is zero on both sides |
| GeoLiteral.LastNonEmpty | extractBodies.py:140-145 | the index of the last non-empty station, -1 for none |
| GeoLiteral.FindLastNonEmpty | extractBodies.py:140-145 | the backward scan computes it |
| GeoLiteral.StationSlots | extractBodies.py:147-186 | every station has `J` slots |
| GeoLiteral.FillCells | extractBodies.py:172-178 | the `enumerate(pos_sorted)` loop fills the cell dict |
| GeoLiteral.ComputeStationSlots | extractBodies.py:147-186 | one pass of the station loop computes the station's slots |
| GeoLiteral.ComputeGrid | extractBodies.py:147-186 | the station loop computes the slots of every station in turn |
| GeoLiteral.GenerateGeoXyzLiteral | extractBodies.py:126-188 | the method computes generate_geo_xyz_literal_from_stations |
| GeoLiteral.GeoLiteralCount | extractBodies.py:126-188 | exactly `target_i * max(2, target_j) * 3` lines |
| GeoLiteral.GeoLiteralAt | extractBodies.py:147-186 | line `3(i * J + j) + k` is axis `k` of slot `j` of station `i`: ascending (i, j, k) order |
| GeoLiteral.GeoGridSlot | extractBodies.py:147-186 | a padding or empty station is all zero; station 0 and the last non-empty station broadcast `(0, mean y, mean z)`; any other station reads its cell, zero where no point went |
| GroupScan.Touch | files/OLD/cis_PMGenerator_Clean.py:61-62 | `vert_counts[name]` creates the key at 0 on first use and keeps its count otherwise |
| GroupScan.HeaderName | files/OLD/cis_PMGenerator_Clean.py:55-59 | a header with a second part names a non-empty group |
| GroupScan.HeaderAlwaysNamed | files/OLD/cis_PMGenerator_Clean.py:54-59 | a stripped header line always yields a name, so the `current_name = None` branch is never taken |
| GroupScan.LastHeader | files/OLD/cis_PMGenerator_Clean.py:54-59 | the most recent header's name, never empty |
| GroupScan.HeaderSeenAt | files/OLD/cis_PMGenerator_Clean.py:54-62 | a group is seen exactly when some header line names it |
| GroupScan.LastHeaderSeen | files/OLD/cis_PMGenerator_Clean.py:54-62 | the current group is a group some header named |
| GroupScan.StepSkips | files/OLD/cis_PMGenerator_Clean.py:50-51 | a blank line, or one that is neither a header nor a vertex line, changes nothing |
| GroupScan.StepHeader | files/OLD/cis_PMGenerator_Clean.py:54-63 | a header makes its group current and lists it |
| GroupScan.StepVertex | files/OLD/cis_PMGenerator_Clean.py:66-69 | a vertex line adds one to the current named group, and counts for nothing before any header |
| GroupScan.StepDescribes | files/OLD/cis_PMGenerator_Clean.py:48-69 | one line keeps the scan's description of the lines read |
| GroupScan.ScanDescribes | files/OLD/cis_PMGenerator_Clean.py:44-69 | the scan lists every named group once, in first-mention order, and counts for each the vertex lines read while it was the current group |
| GroupScan.CountVertices | files/OLD/cis_PMGenerator_Clean.py:44-69 | the loop over the lines computes that scan |
| GroupScan.Items | files/OLD/cis_PMGenerator_Clean.py:75 | `vert_counts.items()`: one pair per listed group, in key insertion order |
| GroupScan.ByLowerNamePreorder | files/OLD/cis_PMGenerator_Clean.py:75 | comparing lower-cased names is a total preorder, so the stable sort is well defined |
| GroupScan.FilterSorted | files/OLD/cis_PMGenerator_Clean.py:75-81 | each list, taken from the sorted pairs, stays sorted |
| GroupScan.FilterSplit3 | files/OLD/cis_PMGenerator_Clean.py:76-81 | three filters splitting every element exactly once split the multiset |
| GroupScan.ClassifiedPartition | files/OLD/cis_PMGenerator_Clean.py:75-81 | every scanned group lands in exactly one list: wings if count <= 8, bodies if count >= 10, ambiguous otherwise; each list is ordered by lower-cased name |
| GroupScan.ItemsCounts | files/OLD/cis_PMGenerator_Clean.py:44-75 | one pair for every group some header names, with the number of vertex lines read while it was current |
| GroupScan.ClassifiedCounts | files/OLD/cis_PMGenerator_Clean.py:44-81 | the three lists hold, between them, exactly those pairs |
| GroupScan.ItemsDistinctNames | files/OLD/cis_PMGenerator_Clean.py:44-75 | a group named twice is listed once |
| GroupScan.NoHeaderStart | files/OLD/cis_PMGenerator_Clean.py:45-68 | before the first header, vertex lines count for nothing |
| GroupScan.NoHeaderNoGroups | files/OLD/cis_PMGenerator_Clean.py:44-81 | a file without a header yields three empty lists |
| GroupScan.EmptyGroupIsWing | files/OLD/cis_PMGenerator_Clean.py:60-77 | a header with no vertex under it is still listed, with count 0, among the wings |
| GroupScan.SplitByCount | files/OLD/cis_PMGenerator_Clean.py:75-81 | the appending loop puts each sorted pair in the list its count selects, in order |
| GroupScan.ScanObjGroupsByVertexCount | files/OLD/cis_PMGenerator_Clean.py:25-83 | the whole pre-scan returns `(bodies, wings, ambig)` of the classified pairs |
| Wings.PanelMatchBest | files/OLD/cis_wings2pm-original.py:40-64 | get_panel_points raises ValueError exactly when no group name contains the logical name; otherwise the group it returns contains it, is ranked best (exact name, then the name followed by `_`, `.` or `-`, then containment) and no earlier name ranks as well |
| Wings.RankBelow3 | files/OLD/cis_wings2pm-original.py:46-58 | each of the three matching rules implies containment, so a name matches by some rule exactly when it contains the logical name |
| Wings.GetPanelPoints | files/OLD/cis_wings2pm-original.py:40-64 | the loop returns the points of the group PanelMatch picks, or the error case when it picks none |
| Wings.SlotPanel | files/OLD/cis_wings2pm-original.py:225-230 | the panel a wing slot is given to always lists that slot |
| Wings.SlotPanelOwns | files/OLD/cis_wings2pm-original.py:225-230 | slots 0,1 go to Wing1, 2,3 to Wing2, 8,9 to the horizontal stabiliser and 10 to the fin, and no slot to two panels |
| Wings.Wing2Mirrored | files/OLD/cis_wings2pm-original.py:258-268 | for Wing2 the left slot (2) gets `-abs(lat)` and the right slot (3) `+abs(lat)`: opposite signs, the measured magnitude, whichever sign was measured |
| Wings.OthersUnmirrored | files/OLD/cis_wings2pm-original.py:258-268 | every other panel and slot writes the measured lateral arm unchanged |
| Wings.FieldPos | files/OLD/cis_wings2pm-original.py:250-278 | each of the eleven per-slot keys has one place in the order of the calls |
| Wings.WingKeyInjective | files/OLD/cis_wings2pm-original.py:248-278 | the keys `_wing/{idx}/...` of different slots or fields are different strings |
| Wings.WingKeyShape | files/OLD/cis_wings2pm-original.py:248-278 | every such key has no space and starts with `_wing/` |
| Wings.WithKeySame | files/OLD/cis_wings2pm-original.py:196-207 | after replace_or_append the first line carrying the key's prefix is `P <key> <value:.9f>` |
| Wings.WithKeyOther | files/OLD/cis_wings2pm-original.py:196-207 | replace_or_append leaves the line read for any other space-free key as it was |
| Wings.ApplyWritesLookup | files/OLD/cis_wings2pm-original.py:196-207 | after a run of calls each key reads the line of its last write, or what it read before when no call wrote it |
| Wings.ApplyWritesLength | files/OLD/cis_wings2pm-original.py:196-207 | each call replaces a line or appends one, so the file grows by at most one line per call |
| Wings.SlotWrites | files/OLD/cis_wings2pm-original.py:250-278 | a slot makes exactly eleven writes |
| Wings.PlanformWrites | files/OLD/cis_wings2pm-original.py:238-255 | the first five writes of a slot are root chord, tip chord and semi-length in feet (meters times 3.280839895), then sweep and dihedral in degrees |
| Wings.ArmWrites | files/OLD/cis_wings2pm-original.py:243-273 | writes 5-7 are `_part_x/y/z`: the lateral arm after the Wing2 sign rule, then the vertical and longitudinal root quarter-chord coordinates in feet |
| Wings.GeoRootWrites | files/OLD/cis_wings2pm-original.py:275-278 | writes 8-10 set `_geo_xyz/0,0,0..2` to the same three arm values |
| Wings.PatchWritesLast | files/OLD/cis_wings2pm-original.py:235-278 | the last write of a slot key over a list of panels comes from the last panel listing that slot, with that panel's value |
| Wings.MappingOwner | files/OLD/cis_wings2pm-original.py:226-235 | over the mapping, the last panel listing a slot is the panel SlotPanel gives it |
| Wings.PatchedKeys | files/OLD/cis_wings2pm-original.py:210-278 | after patch_acf each of the eleven keys of a mapped slot reads that slot's panel value; keys of unmapped slots read what they read before |
| Wings.PatchedOthers | files/OLD/cis_wings2pm-original.py:210-278 | keys outside `_wing/` read what they read before, and the file grows by at most one line per write |
| Wings.Wrote2 | files/OLD/cis_wings2pm-original.py:271-273 | two replace_or_append calls in a row are the run of those two writes |
| Wings.Wrote3 | files/OLD/cis_wings2pm-original.py:271-278 | three replace_or_append calls in a row are the run of those three writes |
| Wings.Wrote5 | files/OLD/cis_wings2pm-original.py:251-255 | five replace_or_append calls in a row are the run of those five writes |
| Wings.PatchPlanform | files/OLD/cis_wings2pm-original.py:251-255 | the file's lines become the planform writes of the slot applied to the old lines |
| Wings.PatchArms | files/OLD/cis_wings2pm-original.py:270-273 | the file's lines become the arm writes of the slot applied to the old lines |
| Wings.PatchGeoRoot | files/OLD/cis_wings2pm-original.py:275-278 | the file's lines become the `_geo_xyz` root writes applied to the old lines |
| Wings.PatchSlot | files/OLD/cis_wings2pm-original.py:248-278 | one slot's body leaves the old lines with its eleven writes applied in order |
| Wings.PatchPanel | files/OLD/cis_wings2pm-original.py:247-278 | the inner loop leaves the old lines with the writes of every slot of the panel applied in order |
| Wings.PatchAcf | files/OLD/cis_wings2pm-original.py:210-278 | patch_acf's loop over the mapping leaves PatchedLines of the old lines, whose keys PatchedKeys and PatchedOthers describe |
| RefBlocks.StripNewlines | files/OLD/extract_ref_bodies.py:33 | `rstrip("\n")` keeps a prefix of the line, removes only newlines, and leaves no trailing newline |
| RefBlocks.ExtractBodyBlocks | files/OLD/extract_ref_bodies.py:17-33 | the OrderedDict holds the body indexes in order of first appearance, and each block is exactly the stripped lines of that body in file order |
| RefBlocks.UnseenEmpty | files/OLD/extract_ref_bodies.py:17-33 | a body index no line carries has an empty block |
| RefBlocks.GroupMembers | files/OLD/extract_ref_bodies.py:23-33 | every line of a block is the stripped form of some line of that body |
| RefBlocks.GroupsMultiset | files/OLD/extract_ref_bodies.py:17-33 | across all blocks every kept line appears exactly as often as in the file: grouping loses and invents no line |
| RefBlocks.StepSkip | files/OLD/extract_ref_bodies.py:23-25 | a line not starting with `P _body/<n>/_geo_xyz/` leaves the dict as it was |
| RefBlocks.StepNew | files/OLD/extract_ref_bodies.py:27-33 | a line with a new body index opens a block at the end holding just that line |
| RefBlocks.StepOld | files/OLD/extract_ref_bodies.py:27-33 | a line with a seen body index is appended to that body's block, and the key order does not change |
| RefBodies.Tabulate | files/OLD/Extract_ACFbody_split.py:31-58 | the nested dicts list exactly the stations and slots they hold data for |
| RefBodies.TabulateStored | files/OLD/Extract_ACFbody_split.py:41-58 | `body_data[i][j][k]` holds the value of the last `_geo_xyz/i,j,k` line of the body, and is missing when there is none |
| RefBodies.TabulateOrder | files/OLD/Extract_ACFbody_split.py:31-58 | the stations, and each station's slots, are in the order of their first appearance in the file |
| RefBodies.TabulateEmpty | files/OLD/Extract_ACFbody_split.py:31-58 | the dict is empty exactly when the body has no values |
| RefBodies.ErrorIffNoEntries | files/OLD/Extract_ACFbody_split.py:60-63 | the ValueError is raised exactly when no `_geo_xyz` line of the body is found |
| RefBodies.StationLinesShape | files/OLD/Extract_ACFbody_split.py:81-96 | a station's block is its header, one line per slot `j = 0 .. points_per_ring - 1`, then a blank line |
| RefBodies.OutputShape | files/OLD/Extract_ACFbody_split.py:65-96 | the stations come out in ascending order, exactly those with a value of the body, each as a block of `points_per_ring + 2` lines |
| RefBodies.SlotValues | files/OLD/Extract_ACFbody_split.py:87-94 | each slot line shows the last value stored for its slot and axis, or 0.0 when none was |
| RefBodies.SortedStations | files/OLD/Extract_ACFbody_split.py:71 | `sorted(body_data.keys())` is strictly increasing and holds exactly the stations |
| RefBodies.StoreEntry | files/OLD/Extract_ACFbody_split.py:58 | one `body_data[i][j][k] = val` turns the table into Store of the old table |
| RefBodies.CollectBody | files/OLD/Extract_ACFbody_split.py:41-58 | after the line loop the table is Tabulate of the body's values in file order |
| RefBodies.StationZ | files/OLD/Extract_ACFbody_split.py:73-79 | the header z is the axis-2 value of the first slot, in storing order, that has one, else 0.0 |
| RefBodies.EmitStation | files/OLD/Extract_ACFbody_split.py:81-96 | the lines emitted for one station are StationLines |
| RefBodies.EmitStations | files/OLD/Extract_ACFbody_split.py:71-96 | the nested output loops emit the blocks of the stations in ascending order, one after another |
| RefBodies.MakeRefBodySplit | files/OLD/Extract_ACFbody_split.py:6-96 | make_ref_body_split returns exactly RefBodySplit of the file's lines: the error, or the blocks of the stations in ascending order |

## Left out

- The tkinter interfaces (`OBJ2PMBodiesGUI`, `ImporterGUI`, `PMGeneratorGUI`, `App`), file dialogs, message boxes and logging callbacks: user interface only.
- `extractStation.py` is not part of this model: it is a file picker, a one-line prefix filter and output-path naming.
- File reading and writing, `resource_path`, backups, temporary files and `os.remove`: the model takes and returns lists of lines.
- `section_chord_info` and `compute_all_panels`: numpy floating-point geometry (chords, sweep, `sqrt`, `degrees`); the model takes their results as a `PanelInfo` per panel.
- The `wing_dihed_deg` argument passed at `files/OLD/cis_PMGenerator_Clean.py:572-577` goes to a `build_body_block_from_template` of another version, which is not part of this model.
- `parse_obj_by_object` of the wing converter: a plain OBJ reader whose results only feed `compute_all_panels`.
- The console and QC print helpers (`print_ring`, `print_station_z_list`, `debug_station_z_spread`, `print_body_geo_PMstyle_ordered`, `write_body_block_*`): output formatting only.
- `patch_acf`'s `log_func` messages, its sorted summary table and the write of `<stem>_updated.acf`: logging and I/O.
- `make_ref_body_split`'s output file name, file write and console message, and `extract_body_blocks_from_acf`'s per-body output files: I/O.
- Wings.PatchAcf: `panel_data[name]` raising KeyError for a missing panel is not modelled; `info` is a total function from panel to measurements.
- RefBodies.RefBodySplit: the body index is a natural number; a negative `body_index`, which matches no line and so raises the ValueError, is not modelled.
- ZStations.BuildStationsFromGeometry: requires a positive `verts_per_loop` unless there are at most two vertices, since with middle vertices and a chunk size of 0 or less the source loops forever.
- GeoLiteral.MirroredSlots: the pairing of left and right slots is stated for an even `J`, or when the half does not wrap around; with an odd `J` and wrap-around the two sides repeat with different periods.
- Floating point: coordinates are exact reals. `FT_PER_M` scaling is real multiplication, and `{:.9f}` rounds the exact real half up where Python rounds the binary double half to even.
- GeoLiteral.GenerateGeoXyzLiteral: a left slot mirrored from a vertex whose x is exactly 0 holds `-x_ft` (extractBodies.py:178), which is the float -0.0 in Python and prints as `-0.000000000`; the model's reals have no signed zero, so that slot prints `0.000000000`. GeoLiteral.LeftSlotValue and GeoLiteral.MirroredSlots speak of values, where the two agree.
- Wings.PatchAcf: when Wing2's measured lateral arm is exactly 0, the left slot's `-lat_mag` (files/OLD/cis_wings2pm-original.py:262) is -0.0 and prints as `-0.000000000`; the model prints `0.000000000`. The ring builder does not have this gap, because it snaps a mirrored x below `eps` back to 0.0 (files/OLD/cis_bodies2pm_working.py:385-386).
- `math.atan2` is the parameter `angle` of the ring builder and `float()` of a vertex token is the parameter `parseReal`; neither is modelled.
- Whitespace is the ASCII set `str.isspace` accepts, `\d` is ASCII digits, and `lower()` folds ASCII letters only; Unicode whitespace, digits and case folding are not modelled.
- The order in which the BFS visits a vertex's neighbour set is an arbitrary choice in the model, since Python's set iteration order is implementation-defined; the proved properties hold for every order.

## Findings

| source | as written | input that shows it | evidently intended | confidence | as-written member | corrected member |
|---|---|---|---|---|---|---|
| files/OLD/cis_bodies2pm_working.py:880-925 | the grid shape is inferred by matching `GEO_RE` against the unstripped template lines, while the fill matches the stripped lines | a template whose only line is ` P _body/b/_geo_xyz/1,0,0 0.000000000` (one leading space): the shape loop skips it and infers a 1 x 1 grid, then the fill reads `padded[1]` and raises IndexError | infer the shape from the same stripped lines the fill reads, so every template entry lies inside the grid | not executed | TemplateFill.BuildBodyBlockFromTemplateAsWritten, TemplateFill.IndentedTemplateFails | TemplateFill.BuildBodyBlockFromTemplate, TemplateFill.StrippedShapeFits |
