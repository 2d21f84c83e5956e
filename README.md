# slam-maps grid core in Dafny

This project models four parts of the slam-maps grid library and proves properties of each:

- **The multi-level grid queries** (`MultiLevelGridMap`). Every cell of a dense grid holds a list of patches (its vertical levels).
  - `intersectAABB_callback` projects a box onto a clamped, half-open index rectangle and scans it, y outer and x inner. It reports each patch whose vertical extent overlaps the box's height band. It stops at the first report the callback answers with true.
  - `intersectAABB` collects every report.
  - `intersectCuboid` builds a `View`: a grid of references to the matching patches, re-indexed relative to the box's minimum corner. It also counts the matches.
- **The layered grid registry** (`LayeredGridMap`). Named grids of different element types share one cell count and resolution. The operations are add, has, remove, remove-all, typed lookup and the sorted key list.
- **The dense grid storage** (`GridMap` over `VectorGrid`). Cells are stored row-major with x running fastest, and every cell starts at the default value. `getRange` finds the first and the last cell that differs from the default.
- **The colour gradient** (`ColorGradient`). It keeps control points sorted by position. It supports sorted insertion, clear, the default seven-point heat map, and the lookup's segment selection.

Modules:

- `GridIndex` (`grid_index.dfy`): indices, sizes, the row-major offset, and the truncating and wrapping conversions.
- `Wrappers`: Option and Result.
- `Grids` (`grid_map.dfy`): the class `GridMap<T>` over an `array<T>`.
- `MultiLevel` (`multi_level.dfy`): the class `MultiLevelGridMap`.
- `Layered` (`layered_grid_map.dfy`): the class `LayeredGridMap`.
- `Gradient` (`color_gradient.dfy`): the class `ColorGradient`.

The callback scan is specified by functions:

- `Matches` is every patch selected in the rectangle, in visiting order.
- `UntilAbort` cuts that sequence after the first report answered with true.
- The scan methods return the list of reports the callback received and are proved equal to `UntilAbort(Matches(...))`.

The intersectCuboid View is specified by `CuboidCells`. A `PatchRef` (cell index, position in the level list) stands for the source's `const P*`.

`GridMap::toGrid` and `tools::overlap` are not part of this model. Each query receives them as a function parameter instead.

The getRange unit test, three registry scenarios and a two-patch example are members whose assertions follow from the contracts alone:

- `Grids.GetRangeScenario` replays the getRange unit test on a 2 x 3 grid with default -5.
- `Layered.LayeredScenario`, `Layered.LayeredKeysScenario` and `Layered.LayeredRemoveScenario` exercise the registry.
- `MultiLevel.TwoPatchWideBand` and `MultiLevel.TwoPatchNarrowBand` are lemmas: intersectAABB on a 1 x 1 grid whose cell holds two patches.

## Model

| member | source | states |
|---|---|---|
| GridIndex.Offset | test/grid/test_VectorGrid.cpp:33-51 | cell (x, y) of a w x h grid sits at flat position y*w + x, which is below w*h (at(0,0) is begin, at(1,2) of a 2 x 3 grid is end-1) |
| GridIndex.OffsetInjective | test/grid/test_VectorGrid.cpp:64-75 | two cells share a flat position exactly when they are the same cell, so a write through at(x, y) reaches only that cell |
| GridIndex.Trunc | src/grid/MultiLevelGridMap.hpp:83-84 | cast<int> of a quotient truncates toward zero: the result is within one below a non-negative value and within one above a negative one |
| GridIndex.ToInt32 | src/grid/MultiLevelGridMap.hpp:87 | cast<int> of a Vector2ui component gives a signed 32-bit value no larger than it, negative from 2^31 on, that converts back to the same unsigned value |
| GridIndex.ToUInt32 | src/grid/MultiLevelGridMap.hpp:130-132 | an int difference stored in a Vector2ui component is itself when in range and wraps by 2^32 when negative |
| Grids.GridMap.constructor | test/grid/test_VectorGrid.cpp:22-30 | a new grid holds width*height cells, all equal to the default value, with the given size and resolution |
| Grids.GridMap.Empty | src/grid/MultiLevelGridMap.hpp:41-43 | the default-constructed grid (as View() uses it) has size (0, 0) and no cells |
| Grids.GridMap.Copy | src/grid/MultiLevelGridMap.hpp:28-31 | a copy has the other grid's size, resolution, default value and cells, in storage of its own |
| Grids.GridMap.At | test/grid/test_VectorGrid.cpp:33-40 | read access succeeds exactly inside the grid and yields the cell at the row-major offset |
| Grids.GridMap.Put | test/grid/test_VectorGrid.cpp:43-51 | a write inside the grid changes exactly the cell at the row-major offset; outside it changes nothing and reports failure |
| Grids.GridMap.Clear | src/grid/GridAccessInterface.hpp:40 | every cell is back at the default value |
| Grids.GridMap.Resize | src/grid/GridAccessInterface.hpp:30 | new storage for the new size, every cell at the default, resolution and default unchanged |
| Grids.GridMap.GetRange | test/grid/test_VectorGrid.cpp:26-75 | first is the first non-default cell and last the last one, with first <= last; both are the end position exactly when every cell is the default; cells before first and after last are default |
| MultiLevel.AabbRect | src/grid/MultiLevelGridMap.hpp:83-87 | the index rectangle (truncated quotients, min clamped at 0, max clamped at the cell count converted to int) lies within [0, numCells] |
| MultiLevel.AabbVisitsClampedRect | src/grid/MultiLevelGridMap.hpp:83-91 | every reported index satisfies max(0, trunc(min/res)) <= idx < min(int(numCells), trunc(max/res)) per axis and is inside the grid, so no at(curIdx) fails |
| MultiLevel.CellMatchesSpec | src/grid/MultiLevelGridMap.hpp:94-96 | a cell reports exactly its patches that overlap the height band, in level-list order |
| MultiLevel.CellAtSpec | src/grid/MultiLevelGridMap.hpp:93-96 | the reports of a grid cell are exactly the genuine selected patches stored at that cell |
| MultiLevel.RowMatchesSpec | src/grid/MultiLevelGridMap.hpp:91-101 | a row reports exactly the selected patches of its cells lo.x .. x-1, in x order then level order |
| MultiLevel.RectMatchesSpec | src/grid/MultiLevelGridMap.hpp:89-103 | the rows lo.y .. y-1 report exactly their selected patches, y outer and x inner |
| MultiLevel.MatchesSpec | src/grid/MultiLevelGridMap.hpp:80-103 | the full scan reports a hit exactly when its cell is in the rectangle and its patch is stored there and overlaps [box.min.z, box.max.z]; the reports are in scan order |
| MultiLevel.UntilAbortAll | src/grid/MultiLevelGridMap.hpp:98-99 | when the callback never answers true every report is made |
| MultiLevel.UntilAbortStops | src/grid/MultiLevelGridMap.hpp:98-99 | when the first true answer comes at report h, the reports end with h |
| MultiLevel.UntilAbortAfter | src/grid/MultiLevelGridMap.hpp:98-99 | an abort inside a later part of the scan leaves the earlier reports in place |
| MultiLevel.UntilAbortPrefix | src/grid/MultiLevelGridMap.hpp:98-99 | once the callback has aborted, later matches are never reported |
| MultiLevel.UntilAbortShape | src/grid/MultiLevelGridMap.hpp:98-99 | the calls made are a prefix of the matches, all but the last answered false, and either all matches or ending with a true answer |
| MultiLevel.NeverAbortSeesAll | src/grid/MultiLevelGridMap.hpp:62-66 | the collecting lambda of intersectAABB (always false) receives every match |
| MultiLevel.ScanCell | src/grid/MultiLevelGridMap.hpp:94-101 | the level loop of one cell makes exactly the calls UntilAbort gives for that cell's matches and reports whether it aborted |
| MultiLevel.MultiLevelGridMap.constructor | src/grid/MultiLevelGridMap.hpp:22-24 | a grid of the given size and resolution whose cells hold no patches |
| MultiLevel.MultiLevelGridMap.Empty | src/grid/MultiLevelGridMap.hpp:26 | the default multi-level grid has no cells |
| MultiLevel.MultiLevelGridMap.CopyOf | src/grid/MultiLevelGridMap.hpp:28-31 | a copy has the same size, resolution and cells |
| MultiLevel.MultiLevelGridMap.ScanRow | src/grid/MultiLevelGridMap.hpp:91-102 | the x loop of one row makes exactly the calls UntilAbort gives for that row's matches, and aborted says whether the callback ended it |
| MultiLevel.MultiLevelGridMap.Scan | src/grid/MultiLevelGridMap.hpp:89-103 | the nested loops make exactly the calls UntilAbort(Matches) gives: every match in scan order up to and including the first true answer, then return |
| MultiLevel.MultiLevelGridMap.IntersectAABBCallback | src/grid/MultiLevelGridMap.hpp:78-104 | the calls made to cb are the scan of the clamped rectangle under the box's height band, cut at the first true answer; every call names an in-rectangle cell and a stored, overlapping patch |
| MultiLevel.MultiLevelGridMap.IntersectAABB | src/grid/MultiLevelGridMap.hpp:58-68 | the result is the whole match sequence of the callback scan in the same order, nothing dropped; membership is exactly in-rectangle and overlapping; scan-ordered |
| MultiLevel.CuboidCellAt | src/grid/MultiLevelGridMap.hpp:134-149 | View cell idx - minIdx (at its row-major offset) holds exactly the references of the selected patches of source cell idx |
| MultiLevel.CellRefsSpec | src/grid/MultiLevelGridMap.hpp:140-148 | a View cell holds a reference exactly for each level of its source cell that overlaps the height band |
| MultiLevel.CuboidCellsLength | src/grid/MultiLevelGridMap.hpp:130-132 | the View's cell vector has width*height cells of the (wrapped) size maxIdx - minIdx |
| MultiLevel.CuboidFlattensToMatches | src/grid/MultiLevelGridMap.hpp:134-151 | the View's cells, read in order, hold exactly the references to the rectangle's matches in scan order; an empty rectangle gives no matches and only empty cells |
| MultiLevel.CuboidFilled | src/grid/MultiLevelGridMap.hpp:134-151 | the number of references in the View equals the number of matches; an empty rectangle leaves all cells blank |
| MultiLevel.MultiLevelGridMap.FillCell | src/grid/MultiLevelGridMap.hpp:140-149 | the level loop fills the next View cell with its intended references and counts them |
| MultiLevel.MultiLevelGridMap.FillRow | src/grid/MultiLevelGridMap.hpp:136-150 | the x loop fills the View cells of one row in order; the count grows by the references of that row |
| MultiLevel.MultiLevelGridMap.FillView | src/grid/MultiLevelGridMap.hpp:134-151 | the y loop leaves every View cell at its intended content; the count is the total number of references inserted |
| MultiLevel.MultiLevelGridMap.IntersectCuboidCounted | src/grid/MultiLevelGridMap.hpp:111-154 | an empty View of size (0, 0) and count 0 when toGrid fails for either corner; otherwise a View of size maxIdx - minIdx and the source resolution whose cells are CuboidCells, with count the number of matches; the source is not changed |
| MultiLevel.MultiLevelGridMap.IntersectCuboid | src/grid/MultiLevelGridMap.hpp:46-50 | the same View as the counted form, without the count |
| MultiLevel.AabbSkipsMaxCell | src/grid/MultiLevelGridMap.hpp:84-91 | the maximum corner is exclusive: a box whose maximum lies in the first column or row of cells reports nothing |
| MultiLevel.AabbWideGridScansNothing | src/grid/MultiLevelGridMap.hpp:87-91 | a cell count of 2^31 or more on either axis converts to a negative int, so the scan visits no cell |
| MultiLevel.SingleCellMatches | src/grid/MultiLevelGridMap.hpp:89-96 | a one-cell rectangle reports exactly that cell's matches |
| MultiLevel.ExampleRect | src/grid/MultiLevelGridMap.hpp:83-87 | the unit box on a 1 x 1 grid of resolution 1 scans exactly cell (0, 0) |
| MultiLevel.ExampleCellBoth | src/grid/MultiLevelGridMap.hpp:94-96 | patches [0,1] and [2,3] are both selected, in list order, by band [0.5, 2.5] under closed-interval overlap |
| MultiLevel.ExampleCellNone | src/grid/MultiLevelGridMap.hpp:94-96 | neither patch [0,1] nor [2,3] is selected by band [1.5, 1.9] |
| MultiLevel.TwoPatchWideBand | src/grid/MultiLevelGridMap.hpp:80-103 | the whole scan of the unit box with band [0.5, 2.5] on a 1 x 1 grid reports both patches of cell (0, 0) in order |
| MultiLevel.TwoPatchNarrowBand | src/grid/MultiLevelGridMap.hpp:80-103 | the same scan with band [1.5, 1.9] reports nothing |
| Layered.KeyLessIrreflexive | src/grid/LayeredGridMap.hpp:139-140 | the key order of the std::map<std::string, ...> is irreflexive |
| Layered.KeyLessTrans | src/grid/LayeredGridMap.hpp:139-140 | the key order is transitive |
| Layered.KeyLessTotal | src/grid/LayeredGridMap.hpp:139-140 | any two different keys are ordered one way or the other |
| Layered.LeastKeyExists | src/grid/LayeredGridMap.hpp:124-133 | a non-empty key set has a least key, so a walk in map order always has a next key |
| Layered.LayeredGridMap.constructor | src/grid/LayeredGridMap.hpp:18-22 | the default registry has num_cells (0, 0), resolution (0, 0) and no layers |
| Layered.LayeredGridMap.Sized | src/grid/LayeredGridMap.hpp:34-38 | the sized registry has the given num_cells and resolution and no layers |
| Layered.LayeredGridMap.HasLayer | src/grid/LayeredGridMap.hpp:79-86 | true exactly when the key is in the layer map |
| Layered.LayeredGridMap.AddLayer | src/grid/LayeredGridMap.hpp:57-70 | a taken key fails with out_of_range and changes nothing; a fresh key stores a new grid of the default value's element type and of the registry's size and resolution, all cells at the default, leaves every other key as it was, makes hasLayer true, and returns that layer |
| Layered.LayeredGridMap.RemoveLayer | src/grid/LayeredGridMap.hpp:88-99 | returns true exactly when the key was present; exactly that key is gone afterwards |
| Layered.LayeredGridMap.RemoveAllLayers | src/grid/LayeredGridMap.hpp:101-110 | no layer is left, whatever there was, so a second call changes nothing; size and resolution are kept |
| Layered.LayeredGridMap.GetLayer | src/grid/LayeredGridMap.hpp:112-122 | out_of_range exactly for an absent key; runtime_error exactly for a present key of another element type; otherwise success with the stored layer itself, whose grid has cells of the requested type |
| Layered.LayeredGridMap.GetAllLayerKeys | src/grid/LayeredGridMap.hpp:124-133 | every stored key exactly once, nothing else, in strictly ascending key order |
| Gradient.FirstAbove | viz/ColorGradient.hpp:39-46 | the position of the first point strictly above value, or the end: no earlier point is above value |
| Gradient.FirstAboveIs | viz/ColorGradient.hpp:76-89 | the stopping position of the search loop is FirstAbove |
| Gradient.InsertKeepsSorted | viz/ColorGradient.hpp:26 | inserting at FirstAbove keeps the points in non-decreasing order of position |
| Gradient.InsertKeepsOthers | viz/ColorGradient.hpp:43-47 | the insertion grows the points by exactly one, puts the new point at its position, and leaves the old points in their order (same multiset plus the new one) |
| Gradient.BlendAtFirst | viz/ColorGradient.hpp:81-86 | with i = 0 the segment is color[0]..color[0], fractBetween is 0 and the colour is color[0]'s exactly |
| Gradient.BlendBetween | viz/ColorGradient.hpp:82-86 | for value in [prev.val, curr.val) each channel of the blend lies between the two points' channels |
| Gradient.ColorAtCases | viz/ColorGradient.hpp:71-96 | on sorted points: output unchanged when empty, first colour below the first position, last colour when no point is above value, otherwise between the colours of the enclosing points |
| Gradient.HeatMapShape | viz/ColorGradient.hpp:57-67 | the heat map has seven sorted points from 0.0 to 1.0 |
| Gradient.ColorGradient.constructor | viz/ColorGradient.hpp:31-34 | a new gradient is exactly the heat map and sorted |
| Gradient.ColorGradient.AddColorPoint | viz/ColorGradient.hpp:37-48 | the points become the old ones with the new point inserted before the first point strictly above its position (appended when none is); sorted points stay sorted |
| Gradient.ColorGradient.ClearGradient | viz/ColorGradient.hpp:51-54 | no point is left |
| Gradient.ColorGradient.CreateDefaultHeatMapGradient | viz/ColorGradient.hpp:57-67 | whatever the old points, they become the seven heat-map points 0.0, 0.1428, 0.2856, 0.4284, 0.5712, 0.7140, 1.0 in that order |
| Gradient.ColorGradient.GetColorAtValue | viz/ColorGradient.hpp:71-96 | the output is ColorAt: unchanged for no points, the last colour when no point is above value, the first colour when value is below the first point, otherwise the blend of the segment that the search selects |

## Left out

- Floating point: coordinates, resolutions, heights and colours are `real`. Float rounding of the quotients, of the interpolation and of the literals (0.1428f is taken as exactly 0.1428) is not modelled.
- Trunc: the `cast<int>` of a huge quotient overflows int in C++. The model's truncation is unbounded.
- MultiLevel.MultiLevelGridMap.IntersectAABBCallback: requires a positive resolution, because the model divides by it. The C++ divides by zero or a negative resolution without complaint.
- MultiLevel.MultiLevelGridMap.IntersectCuboidCounted:
  - It requires that a successful toGrid yields an index inside the grid. GridMap::toGrid is not part of this model, and that is its documented postcondition.
  - The corners are not otherwise checked, as in the code. An inverted corner pair gives a wrapped View size and no fill.
- The callback is a pure function of (index, patch), and the model records the calls made to it. A callback's side effects are not modelled; intersectAABB's vector is the recorded call list.
- `LevelList::insert` is modelled as an append, so View cells hold their references in level order. The code's LevelList is not part of this model and may order its elements differently.
- The patch type is reduced to its extent (getMin, getMax). View entries are references (cell index, position), not raw pointers.
- Grids.GridMap.Clear and Grids.GridMap.Resize: clear() and resize() are only declared in the grid interface and their bodies are not part of this model. The contracts (every cell back at the default; for resize, the new size with every cell at the default) are the interface's intent, not shown code; resize's keeping of existing cells, if any, is not modelled.
- The `LocalMapData` shared metadata, constructors taking it, `moveBy`, and the GridMap features not used by the core are not modelled.
- LayeredGridMap destructor: it runs removeAllLayers and then frees the object. The model has RemoveAllLayers; deallocation, `new`/`delete` of layers and the delete loop inside removeAllLayers are memory management, which Dafny does not need.
- `dynamic_cast` is modelled by the variant of the stored layer (an int, real or bool grid). Element types are limited to these three. GetLayer returns the layer, and the caller reads the grid of that variant.
- The key order is the lexicographic order of character codes, the order of `std::map<std::string, ...>`.
- Exception messages are dropped. Only the exception kind (out_of_range or runtime_error) is kept.
- addLayer's documentation says it returns true/false and that the first layer becomes a basis layer. The code throws on a duplicate key and has no basis layer, and the model follows the code.
- intersectAABB's documentation says it throws for a box outside the grid. The code clamps the rectangle instead, and the model follows the code (AabbVisitsClampedRect).
- getColorAtValue writes through reference parameters. The model passes the old output in as `current` and returns the new output.
