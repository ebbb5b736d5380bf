# GeodeticFloes in Dafny

GeodeticFloes spreads points over the unit sphere by mutual repulsion. It
draws their Delaunay triangulation and the dual Voronoi cells. This project
models the discrete logic around that float and GL code, and proves what it
promises:

- **PointModel** (`point_model.dfy`, from `Python/simulator/model.py`) holds
  the index-aligned `vertices`/`translations` sequences. It covers append,
  delete-by-ids, removal from the tail that always leaves at least four
  points, single and full reset, and the `tri` flag. Every mutation clears
  the flag and `updateGeometry` sets it. It also covers the placeholder
  arrays `updateGeometry` builds. `allVertices = vertices` binds one
  array to both names, so in-place writes show through `allVertices`
  until a mutator binds `vertices` to a new array.
- **Simulation** (`simulator.dfy`, from `Python/simulator/simulator.py`)
  covers `simulate`'s signed step counter and the `array_split` chunks
  written back into `translations` by offset. It also covers
  `simulateStep`'s guarantees: the count is kept, every point moves by its
  own row, and the model ends invalidated.
- **Driver** (`driver.dfy`, from `Python/PyGL.py`) is the event reducer of
  the main loop, as a pure `HandleEvent`. One frame is the events, then
  `simulate`, then `updateGeometry` when needed.
- **BoardData** (`board_data.dfy`, from `Cpp/GeodeticFloes/DynamicBoardData.cpp`)
  covers `addNodes`, `removeNode`, the ranges `updateParallel` posts, and
  the combinatorial part of `updateGeometrie`.
- **DynamicBoard** (`dynamic_board.dfy`, from `Cpp/GeodeticFloes/DynamicBoard.cpp`)
  is the `needsUpdate` state machine.
- **Prototype** (`prototype.dfy`, from `Cpp/GeodeticFloes/main.cpp`) covers
  `addPoints`, the worker chunk loop, the per-frame `Board`, and the
  `from < to` filter for drawn links.
- **HalfEdgeMesh** (`half_edge_mesh.dfy`) is the half-edge pass both C++
  files share. It has the node-count rule, the face walk, and the
  neighbor/face/border lists. Each list is also given an independent
  reference definition.
- **Indices**, **Partition**, **Vectors** and **Results** are shared
  building blocks:
  - `Indices` has numpy `delete`, Eigen resizing and the `(id + n) % n`
    wrap.
  - `Partition` has the `n*i/t` bounds and `array_split`.
  - `Vectors` has 3-vectors of `real`.
  - `Results` has the error type. A Python exception, a failed debug
    assertion or a thrown "data is outdated" is an `Err`.

Floating-point steps are function-typed parameters, so the model says
nothing about their values. These are normalisation, the sphere
trigonometry, the repulsion sum, damping and renormalisation. numpy's
random sample stream is a parameter too, and the driver keeps its
position, so every draw reads fresh samples. The Voronoi cross product is
exact; only its normalisation is a parameter. QuickHull's half-edge mesh is an input. Its index discipline
is the precondition `HalfEdgeMesh.HullOf`.

Three behaviours of the code are easy to miss:

- `simulate` with `steps >= 0` runs `steps` steps and does not reset the
  counter. The counter stays at `steps`, and the driver's Space key is what
  returns it to 0.
- `removeVertexIds` does not refuse to go below four points. Only the
  driver's Delete key (`count() > 4`) and `removeVertices` guard this.
- The Python `updateGeometry` has no guard. The driver checks
  `needsUpdate()` first. The C++ `updateGeometryIfNeeded` is the guarded
  form.

## Model

| member | source | states |
|---|---|---|
| `PointModel.NewModel` | Python/simulator/model.py:20-24 | a new model has `count` generated points, all-zero translations, and needs an update |
| `PointModel.Invalidate` | Python/simulator/model.py:26-30 | invalidating makes `needsUpdate()` true and changes no point or translation |
| `PointModel.AddVerticesAt` | Python/simulator/model.py:38-43 | count grows by the number of positions; the old prefix of both arrays is unchanged; new points are the normalised positions with zero translations; the model needs an update |
| `PointModel.AddVertices` | Python/simulator/model.py:45-47 | adds exactly `count` points after the old ones, point `k` being the normalised `k`-th generated point, with zero translations |
| `PointModel.ArgMax` | Python/simulator/model.py:49-50 | the index has a maximal score and no earlier index reaches it (numpy's first-maximum rule) |
| `PointModel.VertexIdAt` | Python/simulator/model.py:49-50 | fails exactly on an empty model; otherwise returns a valid index whose vertex has the largest dot product with `pos`, the first such |
| `PointModel.ResetVertex` | Python/simulator/model.py:52-55 | succeeds exactly for indices numpy accepts (`-n <= i < n`); only the wrapped index changes (normalised `pos`, zero translation); count kept; needs update; the write is in place, so an `allVertices` still sharing the array follows it and the other derived arrays are untouched |
| `PointModel.ResetAllVertices` | Python/simulator/model.py:57-62 | keeps the count, regenerates every point, zeroes every translation, needs update |
| `PointModel.RemoveVertexIds` | Python/simulator/model.py:64-67 | succeeds exactly when every id is in numpy's range; deletes exactly the wrapped ids from both arrays; survivors keep their order and the arrays stay aligned |
| `PointModel.RemovalAmount` | Python/simulator/model.py:69-71 | removes `max(0, min(c, N-4))` points: exactly `c` when `0 < c <= N-4`, exactly `N-4` when `c` is larger, nothing for `c <= 0` or `N <= 4` |
| `PointModel.RemoveVertices` | Python/simulator/model.py:69-72 | the result is the prefix of length `N - RemovalAmount`; from `N >= 4` the count stays `>= 4` |
| `PointModel.TrailingIds` | Python/simulator/model.py:70-72 | the ids `N - k + arange(k)` are all valid and name exactly the last `k` rows |
| `PointModel.RemoveOneId` | Python/simulator/model.py:64-67 | removing one valid id cuts exactly that row out of both arrays and lowers the count by one |
| `PointModel.UpdateGeometry` | Python/simulator/model.py:74-92 | clears the stale flag; `allVertices == vertices`; `degrees` has `count()` zeros; `links`, `tris`, `borders` have `count()` empty rows |
| `PointModel.UpdateGeometryTwice` | Python/simulator/model.py:88-92 | rebuilding twice is the same as rebuilding once |
| `PointModel.Refresh` | Python/PyGL.py:256-257 | afterwards the geometry is current; points and translations are unchanged; a stale model is rebuilt (and aliased), a current one is left as it is |
| `PointModel.ResetSeenThroughAlias` | Python/simulator/model.py:77-78 | right after `updateGeometry`, `allVertices` is the same array as `vertices`, so a reset point shows up in `allVertices` |
| `PointModel.AppendDetachesAlias` | Python/simulator/model.py:38-43 | after `np.append` rebinds `vertices`, a reset no longer reaches `allVertices`, which keeps the rows of the last rebuild |
| `PointModel.AddRemoveRoundTrip` | Python/simulator/model.py:38-72 | adding `k` points and then removing `k` from the tail restores the original arrays |
| `Indices.Wrap` | Cpp/GeodeticFloes/DynamicBoardData.cpp:38 | `(id + n) % n` lies in `[0, n)`, is `id` for a valid index and `id + n` for a negative one |
| `Indices.Kept` | Python/simulator/model.py:65 | the surviving indices of a numpy delete are below `n`, not deleted, and strictly increasing |
| `Indices.KeptComplete` | Python/simulator/model.py:65 | every index below `n` that is not deleted survives |
| `Indices.Delete` | Python/simulator/model.py:64-66 | the result has one element per surviving index, taken from that index |
| `Indices.DeleteOne` | Cpp/GeodeticFloes/DynamicBoardData.cpp:39-45 | deleting one index is the shift-left of the later columns followed by dropping the last |
| `Indices.DeleteSuffix` | Python/simulator/model.py:69-72 | deleting the last `k` indices leaves the prefix of length `n - k` |
| `Indices.ClampDelta` | Cpp/GeodeticFloes/DynamicBoardData.cpp:20-25 | the clamped delta keeps `count + delta >= 0` and equals the request whenever that already holds |
| `Indices.Resized` | Cpp/GeodeticFloes/DynamicBoardData.cpp:27-28 | a conservative resize keeps the common prefix and fills new columns from the given source |
| `Partition.BoundEnds` | Cpp/GeodeticFloes/DynamicBoardData.cpp:54-56 | the bounds `n*i/t` start at 0 for `i = 0` and end at `n` for `i = t` |
| `Partition.BoundMonotone` | Cpp/GeodeticFloes/DynamicBoardData.cpp:55-56 | the bounds `n*i/t` never decrease in `i` |
| `Partition.TilingHitsOnce` | Python/simulator/simulator.py:23-27 | in a tiling of `[lo, hi)` every index in the range lies in exactly one range and no other index in any |
| `Partition.ArraySplit` | Python/simulator/simulator.py:23 | `array_split` into `k` sections yields `k` ranges with numpy's sizes (`n/k + 1` for the first `n % k`), each ending at the running sum of the sizes before the next |
| `Partition.SplitStartClosed` | Python/simulator/simulator.py:23 | the running sum of the section sizes up to section `j` is `j * (n/k)` plus one for each of the first `n % k` sections passed |
| `Partition.ArraySplitTiles` | Python/simulator/simulator.py:23-27 | with `0 < k <= n` the sections are non-empty, contiguous and cover `[0, n)` |
| `Simulation.RejectionForIds` | Python/simulator/simulator.py:13-20 | one row per requested id, in id order, each the force on that id |
| `Simulation.AddRows` | Python/simulator/simulator.py:27 | the slice `+=` changes exactly the rows from `start` on, one per added row, by the scaled rows |
| `Simulation.Kick` | Python/simulator/simulator.py:27 | same length as `translations`; row `i` is the old row plus `repulsion` times the force on point `i` (the reference that `WriteBack` meets) |
| `Simulation.Sections` | Python/simulator/simulator.py:23 | the section count is `min(cpu, n)`: at most both, equal to one of them, and 0 exactly when either is 0 |
| `Simulation.WriteBack` | Python/simulator/simulator.py:22-27 | writing every chunk back by offset adds the repulsion exactly once to every row |
| `Simulation.WriteSegments` | Python/simulator/simulator.py:26-27 | for any tiling of the index range, the chunk-by-chunk write-back gives every row exactly its own kick |
| `Simulation.WriteChunk` | Python/simulator/simulator.py:24-27 | one task and its write-back change exactly the rows of its chunk, each by its own scaled force row |
| `Simulation.SimulateStep` | Python/simulator/simulator.py:22-38 | fails exactly when `array_split` gets 0 sections (empty model); keeps the count; each point moves by its own kicked translation; ends invalidated; the in-place `+=`/`/=` carry a shared `allVertices` along |
| `Simulation.Repeat` | Python/simulator/simulator.py:41-42 | `k` steps keep the count and, for `k > 0`, end invalidated; 0 steps change nothing |
| `Simulation.Runs` | Python/simulator/simulator.py:41 | one run while counting down (`steps < 0`), `steps` runs otherwise, and none exactly when `steps == 0` |
| `Simulation.Simulate` | Python/simulator/simulator.py:40-45 | succeeds exactly when `steps == 0` or the model gets at least one section; `steps < 0`: one step and `steps + 1`; `steps >= 0`: the counter is unchanged (no reset); the model is unchanged or invalidated |
| `Simulation.RepeatAdds` | Python/simulator/simulator.py:41-42 | `a + b` steps are `a` steps followed by `b` steps |
| `Simulation.NonNegativeCalls` | Python/simulator/simulator.py:40-45 | with `steps >= 0`, `c` calls run `c * steps` steps and leave the counter as it was |
| `Simulation.Countdown` | Python/simulator/simulator.py:40-45 | from `steps = -k`, `c >= k` calls run exactly `k` steps in total and end with `steps == 0` |
| `Simulation.RepeatSimulatorFree` | Python/simulator/simulator.py:22-38 | a step depends only on friction and repulsion, not on the counter |
| `Driver.Amount` | Python/PyGL.py:215-218 | the `+`/`-` amount is 1, 10, 100 or 1000 according to CTRL and SHIFT |
| `Driver.Initial` | Python/PyGL.py:89-110 | `count` points, point `i` the `i`-th of `randomPointsOnSphere(count)` read from the start of the sample stream, which then stands at `2*count`; zero translations, stale geometry, no selection, default simulator, shader 1, alpha 0 |
| `Driver.HandleEvent` | Python/PyGL.py:187-252 | raises exactly for a left click on an empty model, a left drag with a selection that misses the sphere or is out of range, and Delete with an out-of-range selection; exit is set exactly by Quit or Escape; only motion and the editing keys touch the model, which is then unchanged or stale; only F, R and Space touch the simulator |
| `Driver.Click` | Python/PyGL.py:196-201 | raises exactly for a left click that hits an empty model; changes only the selection, which a left click sets to the nearest point or clears |
| `Driver.Drag` | Python/PyGL.py:202-205 | raises exactly for a left-only drag with a selection whose ray misses (no interception) or whose index is out of range; changes only the model, which is unchanged or stale |
| `Driver.HandleKey` | Python/PyGL.py:215-252 | raises exactly for Delete with an out-of-range selection; exit is set exactly by Escape; non-editing keys keep model and selection, non-tuning keys keep the simulator; only `+` and Return draw samples |
| `Driver.PlusKey` | Python/PyGL.py:215-216 | `+` appends `amount` points, each the normalised next point of the sample stream, which advances by `2*amount`; the selection is kept |
| `Driver.MinusKey` | Python/PyGL.py:217-220 | `-` removes the clamped amount; afterwards the selection is empty or valid, and a selection still in range is kept |
| `Driver.DeleteKey` | Python/PyGL.py:221-224 | with a selection and more than 4 points, removes one point and clears the selection; otherwise the state is unchanged; raises only for an out-of-range selection |
| `Driver.ReturnKey` | Python/PyGL.py:225-226 | keeps the count and zeroes the translations; CTRL regenerates random points from the stream position, otherwise the arranged points for that count |
| `Driver.SettingKey` | Python/PyGL.py:227-252 | the view and tuning keys keep model, selection and stream; exit is set exactly by Escape; only F, R and Space change the simulator |
| `Driver.HandleEvents` | Python/PyGL.py:187-252 | exit is set exactly when some event is an exit; the model ends unchanged or stale; a batch of harmless events never raises |
| `Driver.HandleEventsAppend` | Python/PyGL.py:187-252 | handling `a + b` is handling `a` and then `b` from the resulting state |
| `Driver.Settle` | Python/PyGL.py:254-257 | succeeds exactly when the simulator rests or the model gets a section; afterwards the geometry is current, the count kept, and nothing but model and simulator changes |
| `Driver.Frame` | Python/PyGL.py:185-257 | a frame succeeds exactly when its events do and the simulation can split the model; it then leaves current geometry, the same count, and every field but model and simulator as the events left them |
| `Driver.FrameUploadsVertices` | Python/PyGL.py:254-259 | after a successful frame, the uploaded `allVertices` are exactly the model's points |
| `Driver.PlusPress` | Python/PyGL.py:215-216 | a `+` key press is `PlusKey` with the CTRL/SHIFT amount |
| `Driver.Batch` | Python/simulator/model.py:14-18 | a batch of `n` is `n` normalised points, point `k` built from samples `at + k` (theta) and `at + n + k` (height) |
| `Driver.PlusTwiceDrawsFresh` | Python/simulator/model.py:14-18 | two `+` presses append two consecutive, different stretches of the sample stream, not the same points twice |
| `Driver.InitialInv` | Python/PyGL.py:89-110 | the initial state keeps the driver invariant: at least 4 points, valid selection, shader in [1, 8], alpha in [0, 1], repulsion `>= 0` |
| `Driver.HandleEventKeepsInv` | Python/PyGL.py:187-252 | every event keeps the invariant; the only one that raises is a left drag with a selection whose ray misses the sphere |
| `Driver.ClickKeepsInv` | Python/PyGL.py:196-201 | a mouse click never raises and leaves the selection a valid index or empty |
| `Driver.DragKeepsInv` | Python/PyGL.py:202-205 | a mouse motion raises exactly when it is a left drag with a selection and no interception; otherwise the invariant survives the moved point |
| `Driver.HandleKeyKeepsInv` | Python/PyGL.py:215-252 | no key raises, and every key keeps the invariant |
| `Driver.DeleteKeepsInv` | Python/PyGL.py:221-224 | Delete never raises and keeps the invariant |
| `Driver.MinusKeepsInv` | Python/PyGL.py:217-220 | `-` never raises and keeps the invariant |
| `Driver.HandleEventsKeepInv` | Python/PyGL.py:187-252 | a whole batch of events keeps the invariant unless it raises |
| `Driver.SpaceToggles` | Python/PyGL.py:248-252 | plain Space takes `steps` from 0 to 1, and a second press back to 0 |
| `Driver.CtrlSpaceCountdown` | Python/PyGL.py:248-254 | Ctrl+Space takes `steps` from 0 to `-10^shift`; that many frames then run one step each and end at 0 |
| `Driver.PlusMinusAmounts` | Python/PyGL.py:215-220 | `+` adds exactly the amount; `-` removes the clamped amount; afterwards the selection is None or a valid index |
| `Driver.DeleteSelected` | Python/PyGL.py:221-224 | Delete never raises; when a point is selected and more than 4 remain it cuts exactly the selected (wrapped) row out of both arrays and clears the selection; otherwise nothing changes |
| `Driver.ShaderClamped` | Python/PyGL.py:238-240 | after `s` the shader is in [1, 8] |
| `Driver.ClickSelects` | Python/PyGL.py:196-201 | a left click selects `vertexIdAt(hit)`, a valid index, or clears the selection when the ray misses |
| `Driver.FrameKeepsInv` | Python/PyGL.py:185-257 | a frame that does not raise keeps the invariant and leaves the geometry current |
| `HalfEdgeMesh.CountRule` | Cpp/GeodeticFloes/DynamicBoardData.cpp:73-75 | `nodeCount` is the column count above 3, else 0; `vertCount` and `edgeCount` are 0 exactly when `nodeCount` is |
| `HalfEdgeMesh.Walk` | Cpp/GeodeticFloes/DynamicBoardData.cpp:84-89 | the walk records, at round `j`, the end of the half-edge `j` `next` steps from the start, and stops `k` steps on |
| `HalfEdgeMesh.Corners` | Cpp/GeodeticFloes/DynamicBoardData.cpp:84-91 | the face's three corners are the ends of its consecutive half-edges; the closing assertion fails exactly when three `next` steps do not return to the start |
| `HalfEdgeMesh.Center` | Cpp/GeodeticFloes/DynamicBoardData.cpp:92-96 | the Voronoi vertex is the normalised cross product of the face's edges, the same whichever corner the walk starts from |
| `Vectors.FaceNormal` | Cpp/GeodeticFloes/DynamicBoardData.cpp:92-94 | `(v1 - v0) x (v2 - v1)` is orthogonal to all three edges and is unchanged by rotating the corners |
| `HalfEdgeMesh.VoronoiVertices` | Cpp/GeodeticFloes/DynamicBoardData.cpp:82-97 | succeeds exactly when every face is a triangle; vertex `i` is the normalised normal of face `i` |
| `HalfEdgeMesh.Scatter` | Cpp/GeodeticFloes/DynamicBoardData.cpp:100-117 | the per-half-edge pushes give each node exactly its reference list, and the lists hold `edgeCount` entries in total |
| `HalfEdgeMesh.AroundMembers` | Cpp/GeodeticFloes/DynamicBoardData.cpp:104-116 | `x` is in node `v`'s list exactly when some half-edge ends at `v` and contributes `x` |
| `HalfEdgeMesh.NeighborsSymmetric` | Cpp/GeodeticFloes/DynamicBoardData.cpp:106-114 | when `opp` is an involution, `x` neighbors `v` implies `v` neighbors `x` |
| `HalfEdgeMesh.Borders` | Cpp/GeodeticFloes/DynamicBoardData.cpp:102-111 | one face pair per half-edge, both entries valid face indices |
| `HalfEdgeMesh.BordersSwap` | Cpp/GeodeticFloes/DynamicBoardData.cpp:109-111 | a half-edge and its opposite carry the same two faces, swapped |
| `HalfEdgeMesh.FirstDegenerate` | Cpp/GeodeticFloes/DynamicBoardData.cpp:120-123 | finds a cell with at most two corners exactly when one exists |
| `HalfEdgeMesh.CellLists` | Cpp/GeodeticFloes/DynamicBoardData.cpp:100-123 | the list pass gives each node its reference neighbor and face lists, and the closing assertion fails exactly when some cell has at most two corners |
| `HalfEdgeMesh.Derive` | Cpp/GeodeticFloes/DynamicBoardData.cpp:73-123 | succeeds exactly when all faces are triangles and all cells have more than two corners; the sizes follow the count rule; vertex `i` is the normalised normal of face `i`'s corners; lists match the reference; borders are the face pairs |
| `HalfEdgeMesh.Outward` | Cpp/GeodeticFloes/main.cpp:321-325 | one node emits a link to each neighbor above it, as often as that neighbor occurs |
| `HalfEdgeMesh.Links` | Cpp/GeodeticFloes/main.cpp:320-326 | link `(a, b)` is emitted exactly when `a < b`, as often as `b` occurs in `a`'s list |
| `HalfEdgeMesh.LinkOnce` | Cpp/GeodeticFloes/main.cpp:320-326 | for mutual neighbors `a != b`, exactly one orientation is drawn, the lower node first |
| `BoardData.New` | Cpp/GeodeticFloes/DynamicBoardData.cpp:11-18 | the constructor gives `nodeCount` normalised random nodes, zero steps, aligned matrices, no geometry |
| `BoardData.AddNodes` | Cpp/GeodeticFloes/DynamicBoardData.cpp:20-35 | both matrices end with `count + max(delta, -count)` columns; old columns kept; new nodes are fresh normalised points with zero steps |
| `BoardData.RemoveNodeAsWritten` | Cpp/GeodeticFloes/DynamicBoardData.cpp:37-47 | as written: with one node the second resize asks for `-1` columns and fails; otherwise the wrapped column is cut out of `nodes`, and `nextStep` (when aligned) loses that column and then its last one, ending with `n - 2` columns |
| `BoardData.ShiftLeft` | Cpp/GeodeticFloes/DynamicBoardData.cpp:40-44 | columns before `id` and from `n - 1` on are kept; column `i` in between takes the column one to its right |
| `BoardData.RemoveNode` | Cpp/GeodeticFloes/DynamicBoardData.cpp:37-47 | (corrected) the wrapped column is cut out of both matrices; all others keep their order; the matrices stay aligned |
| `BoardData.RemoveLast` | Cpp/GeodeticFloes/DynamicBoardData.hpp:44 | the default argument `-1` removes the last node |
| `BoardData.RemoveNodeMisaligns` | Cpp/GeodeticFloes/DynamicBoardData.cpp:45-46 | as written, the right node column is removed but `nextStep` loses one more column |
| `BoardData.RemoveNodeCounterexample` | Cpp/GeodeticFloes/DynamicBoardData.cpp:27-46 | with two nodes, `removeNode()` leaves no step column; a later `addNodes(1)` copies a node position into `nextStep` |
| `BoardData.UpdateParallel` | Cpp/GeodeticFloes/DynamicBoardData.cpp:49-68 | posts, in increasing `i`, the range `[n*i/t, n*(i+1)/t)` whenever it is non-empty; `running` counts them; with threads they tile `[0, n)`, so each index is handed to exactly one task; with none, nothing is posted |
| `Partition.ChunksTile` | Cpp/GeodeticFloes/DynamicBoardData.cpp:54-62 | the non-empty ranges between consecutive bounds `n*i/t`, for `i` below `j`, tile `[0, n*j/t)` |
| `BoardData.UpdateGeometrie` | Cpp/GeodeticFloes/DynamicBoardData.cpp:49-142 | with threads: succeeds exactly when the shared pass does, and then the Voronoi vertices are the normalised face normals, neighbor and face lists are the reference lists, borders are the face pairs; with no thread: always succeeds with zero vertices, empty lists and indeterminate borders; either way node count and `nextStep` are kept, the hull's node order is adopted and sizes follow the count rule |
| `BoardData.UpdateGeometrieReorders` | Cpp/GeodeticFloes/DynamicBoardData.cpp:71-79 | given QuickHull's mesh of the nodes, the nodes after the `memcpy` are the same points, reordered (equal multisets) |
| `BoardData.UpdateGeometrieNeighbors` | Cpp/GeodeticFloes/DynamicBoardData.cpp:104-117 | after a threaded rebuild, `x` is in `v`'s list exactly when some half-edge ends at `v` and its opposite ends at `x`; the relation is symmetric when `opp` is an involution |
| `DynamicBoard.NewBoard` | Cpp/GeodeticFloes/DynamicBoard.cpp:4-7 | a new board needs an update and has `faceCount` aligned nodes |
| `DynamicBoard.InternalData` | Cpp/GeodeticFloes/DynamicBoard.cpp:13-16 | throws exactly when stale |
| `DynamicBoard.FaceCount` | Cpp/GeodeticFloes/DynamicBoard.cpp:18-21 | never throws; the node count when above 3, else 0 |
| `DynamicBoard.FaceCenters` | Cpp/GeodeticFloes/DynamicBoard.cpp:28-30 | never throws, even when stale; the centers are the data's node positions |
| `DynamicBoard.FaceCenter` | Cpp/GeodeticFloes/DynamicBoard.cpp:32-34 | never throws; fails Eigen's `col` assertion exactly for an index outside the node columns, and otherwise is that node's position |
| `DynamicBoard.FaceNeighbors` | Cpp/GeodeticFloes/DynamicBoard.cpp:23-26 | throws exactly when stale |
| `DynamicBoard.FaceVertices` | Cpp/GeodeticFloes/DynamicBoard.cpp:36-39 | throws exactly when stale |
| `DynamicBoard.VertexCount` | Cpp/GeodeticFloes/DynamicBoard.cpp:41-44 | throws exactly when stale |
| `DynamicBoard.VertexPositions` | Cpp/GeodeticFloes/DynamicBoard.cpp:46-49 | throws exactly when stale |
| `DynamicBoard.VertexPosition` | Cpp/GeodeticFloes/DynamicBoard.cpp:51-54 | throws when stale; otherwise fails Eigen's `col` assertion exactly for an index outside the vertex columns, and returns that column of `vertexPositions()` |
| `DynamicBoard.BorderCount` | Cpp/GeodeticFloes/DynamicBoard.cpp:56-59 | throws exactly when stale |
| `DynamicBoard.BorderVertices` | Cpp/GeodeticFloes/DynamicBoard.cpp:61-64 | throws exactly when stale |
| `DynamicBoard.BorderVerticesAt` | Cpp/GeodeticFloes/DynamicBoard.cpp:66-69 | throws when stale; otherwise fails Eigen's `col` assertion exactly for an index outside the border columns, and returns that column of `borderVertices()` |
| `DynamicBoard.AddFaces` | Cpp/GeodeticFloes/DynamicBoard.cpp:71-76 | `addFaces(0)` changes nothing; any other delta resizes and marks the board stale |
| `DynamicBoard.RemoveFace` | Cpp/GeodeticFloes/DynamicBoard.cpp:78-81 | as written: fails exactly on a one-node board; otherwise applies `removeNode` as written (one node fewer, `nextStep` one column shorter still) and marks the board stale |
| `DynamicBoard.RemoveFaceCorrected` | Cpp/GeodeticFloes/DynamicBoard.cpp:78-81 | (corrected) cuts the wrapped column out of both matrices, keeps them aligned, marks the board stale |
| `DynamicBoard.UpdateDispersion` | Cpp/GeodeticFloes/DynamicBoard.cpp:83-86 | applies the data's step and marks the board stale |
| `DynamicBoard.UpdateGeometryIfNeeded` | Cpp/GeodeticFloes/DynamicBoard.cpp:88-93 | a current board is returned unchanged; a stale one succeeds exactly when `updateGeometrie` does, its data is that rebuild's result, and it comes back current with node count and `nextStep` kept |
| `DynamicBoard.UpdateReordersNodes` | Cpp/GeodeticFloes/DynamicBoard.cpp:88-93 | a rebuild through the board keeps its nodes as the same points, reordered |
| `DynamicBoard.UpdateOnce` | Cpp/GeodeticFloes/DynamicBoard.cpp:88-93 | a second call right after a successful one is a no-op, whatever hull it is given |
| `DynamicBoard.NewBoardStale` | Cpp/GeodeticFloes/DynamicBoard.cpp:4-69 | on a fresh board the guarded getters throw and `faceCount`, `faceCenters` and every in-range `faceCenter` answer |
| `DynamicBoard.CurrentGettersAnswer` | Cpp/GeodeticFloes/DynamicBoard.cpp:13-69 | on a current board every guarded getter returns its data field |
| `DynamicBoard.RebuiltGettersAnswer` | Cpp/GeodeticFloes/DynamicBoard.cpp:23-64 | on a current board shaped like a rebuild, the counts follow the count rule and each node's neighbors and vertices are the hull's lists, or empty without threads |
| `DynamicBoard.UpdatedGettersAnswer` | Cpp/GeodeticFloes/DynamicBoard.cpp:23-99 | after a rebuild all getters answer; `faceCount` equals the list lengths; the vertex and border counts follow the count rule; with threads each node's neighbors and vertices are its reference lists, with none they are empty |
| `DynamicBoard.MutatorsInvalidate` | Cpp/GeodeticFloes/DynamicBoard.cpp:71-86 | `removeFace` (when it succeeds) and `updateDispersion` always mark the board stale; `addFaces` does so unless the delta is 0 |
| `DynamicBoard.MutatorsKeepCovered` | Cpp/GeodeticFloes/DynamicBoard.cpp:71-93 | `addFaces`, `removeFace` and the rebuild keep `nextStep` at least `nodes - 1` columns wide, which is what `removeFace` needs to stay in bounds |
| `Prototype.AddPoints` | Cpp/GeodeticFloes/main.cpp:86-101 | both matrices end with `count + max(delta, -count)` columns; old columns kept; new particles normalised, new translations zero |
| `Prototype.AddPointsRoundTrip` | Cpp/GeodeticFloes/main.cpp:86-101 | shrinking by `k` and growing by `k` keeps the surviving prefix and zeroes the regrown translations |
| `Prototype.WorkerSweep` | Cpp/GeodeticFloes/main.cpp:165-186 | with `t > 0` tasks, every column gets its update applied exactly once; with none, nothing changes |
| `Prototype.BuildBoard` | Cpp/GeodeticFloes/main.cpp:217-274 | nodes are the hull's vertices; sizes follow the count rule; every cell has more than two corners; the Voronoi vertices are the normalised face normals; neighbor and face lists are the reference lists with `edgeCount` entries each |
| `Prototype.BoardNeighborMirrored` | Cpp/GeodeticFloes/main.cpp:245-254 | on an involutive hull, every neighbor entry has its mirror entry |
| `Prototype.BoardLinesOnce` | Cpp/GeodeticFloes/main.cpp:320-326 | on an involutive hull, every mesh edge is drawn in exactly one orientation, lower node first |
| `Prototype.DelaunayLines` | Cpp/GeodeticFloes/main.cpp:320-326 | each line `(a, b)` is drawn exactly as often as `b` occurs in `a`'s neighbor list with `a < b`, and never otherwise |

## Left out

- Floating-point numerics are parameters. This covers the sphere
  trigonometry of the point generators, normalisation, the `nansum` repulsion row, tangential
  projection, exponential damping, renormalisation, the normalisation of
  the Voronoi cross products and `round(x, 6)`. The model's `real` arithmetic on alpha,
  friction and repulsion is exact, not `float`/`float32`.
- Driver.Initial: `np.random.seed()` reseeds from the operating system,
  so the sample stream is an arbitrary parameter (`Env.sample`), fixed
  for the whole run. Only its position (`drawn`) is tracked. The
  `float32` cast of each sample is not modelled.
- Driver.ReturnKey: the arranged spiral of `arrangedPointsOnSphere(n)` is
  a parameter for each `n`; its trigonometry is not interpreted.
- `Model.temperature` is a float diagnostic that no modelled operation
  reads.
- The `acos` angle sort of each cell (DynamicBoardData.cpp:119-141,
  main.cpp:256-273) only permutes a list. The model keeps half-edge order.
- HalfEdgeMesh.Derive: states the face lists before the angle sort, so
  it gives their contents and multiplicities but not the counter-clockwise
  order.
- BoardData.UpdateGeometrie: the lists are stated in half-edge order.
  Under per-node locking the neighbor and face lists come out in any
  order, and only their multiset matches. The sort order is not stated.
- Prototype.BuildBoard: the lists are stated before the angle sort, as in
  `Derive`. The Voronoi vertices are only as exact as the normalisation
  parameter.
- QuickHull itself is not modelled. Its mesh is an input that must
  satisfy `HalfEdgeMesh.HullOfNodes`: every stored index is in range,
  and the hull's vertices are the nodes themselves, reordered (every
  node is a hull vertex, as for points on a sphere). The `memcpy` of
  the hull's vertices back into `nodes` is modelled as adopting
  `mesh.vertices`.
- Thread pools, `std::mutex`, the condition variable, futures and
  `Python/ThreadPool.py` are not modelled. Only the partition arithmetic
  and its exactly-once coverage are.
- BoardData.UpdateParallel: returns the posted ranges instead of calling
  `f`. It does not model the wait on `running` reaching 0.
- Prototype.WorkerSweep: runs the tasks one after another. This is
  equivalent because each task writes only its own columns.
- With `hardware_concurrency()` returning 0, `updateParallel` posts
  nothing. `BoardData.UpdateGeometrie` models what follows: zero Voronoi
  vertices, empty lists, and `edges` whose contents are a parameter,
  because Eigen leaves a freshly resized matrix uninitialised.
- C++ `int` overflow of `n * i` and 32-bit column counts are not modelled.
- BoardData.RemoveNodeAsWritten: `removeNode` with `id < -n` gives a
  negative C++ remainder and undefined behaviour, and on an empty board
  line 38 computes `% 0`, also undefined. Both are excluded by a
  precondition.
- BoardData.RemoveNodeAsWritten: requires `nextStep` to have at least
  `nodes - 1` columns, so that its `middleCols` stays in bounds. The
  board's own mutators keep this (`DynamicBoard.MutatorsKeepCovered`).
  The data's `updateDispersion` step is a parameter and is not shown to
  keep it.
- Overlapping `middleCols` assignment in `removeNode` is treated as a
  memmove, without Eigen aliasing.
- Rendering, windowing and camera code is not modelled: `renderer.py`,
  `camera.py`, the GL/pygame calls in `PyGL.py`, and the SFML/GL drawing
  in `main.cpp`. `unprojectToSphereNear` becomes the event's `hit`.
  Rotation, zoom and resize do not change the modelled state.
- The prototype's SFML event loop (main.cpp:106-157) and its physics
  arithmetic (main.cpp:173-189) are not modelled. Only the chunk loop and
  `addPoints` are.
- `DynamicBoardData::updateDispersion` and `writeStatisticsOnce` are
  defined outside the files this model covers. `updateDispersion`'s
  effect on the data is a parameter.
- The `edges` matrix that `updateGeometrie` writes is modelled as the
  header's `borders` member.
- DynamicBoard.FaceNeighbors: `neighbors[faceId]` on a `std::vector`
  has no bounds check, so an out-of-range index is undefined behaviour
  rather than an assertion. It is excluded by a precondition, as for
  `DynamicBoard.FaceVertices`. Eigen's `col` does assert, and
  `FaceCenter`, `VertexPosition` and `BorderVerticesAt` model that as an
  error.
- DynamicBoard.VertexCount: the guarded getters' own contracts only say
  when they throw. `DynamicBoard.UpdatedGettersAnswer` states the counts
  and the per-node lists they return after a rebuild, but not the
  individual vertex positions or borders; those are stated on
  `BoardData.UpdateGeometrie`.
- PointModel.VertexIdAt: the dot products are exact `real`s. With
  `float32`, two nearly equal dot products can round to a tie or swap
  order, and numpy then picks the earlier index; the model does not
  predict which index wins in such near-ties.
- Simulation.Sections: the core count is a `nat` parameter. The model
  allows 0, but `multiprocessing.cpu_count()` returns at least 1 (or
  raises, which is not modelled). So with a non-empty model, a
  zero-section `Err` from `SimulateStep` only arises for this unreachable
  count.

## Findings

| source | as written | input that shows it | evidently intended | confidence | as-written member | corrected member |
|---|---|---|---|---|---|---|
| Cpp/GeodeticFloes/DynamicBoardData.cpp:45-46 | `nextStep` is resized to `nodes.cols() - 1` after `nodes` has already shrunk, so it ends with `n - 2` columns | two nodes, `removeNode()`: one node is left and no `nextStep` column; a later `addNodes(1)` fills the missing column with a copy of the surviving node's position (`BoardData.RemoveNodeCounterexample`) | both matrices lose the same column and keep `n - 1` columns | not executed | `BoardData.RemoveNodeAsWritten` (used by `DynamicBoard.RemoveFace`) | `BoardData.RemoveNode` (used by `DynamicBoard.RemoveFaceCorrected`) |
