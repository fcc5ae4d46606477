# Heightmap generator: grid-mutation engine in Dafny

This project models the part of the heightmap generator that changes its two
same-size RGBA grids in place: the height map, which is grey, and the colour
map, which classifies terrain. It covers:

- the erosion predicate `should_erode` and the thermal-erosion automaton
  `thermal_erosion`. Each iteration freezes a snapshot of both maps. Every
  interior pixel then takes the height and colour of the first neighbour, in
  dx-outer/dy-inner order, that the predicate accepts;
- the RGB clamp `clamp_image_buffer`;
- the river walker `simulate_river_flow`. Walkers descend to strictly lower
  neighbours of a green-channel snapshot, and each cell they move onto is
  carved and painted with the water colour;
- the zero-size guard of `scale_image`;
- the colour ramp and the preview size from `constants.rs`;
- from the older application revision `main.rs`: the render pipeline run by
  the `ui_changed` callback, which every slider, the erosion-mode combo box and
  the water-level check box fire (the layers' blend-mode combo box does not),
  and the handlers of the Add Layer and Remove Layer buttons. The copies of
  `should_erode`, `thermal_erosion` and `clamp_image_buffer` in `main.rs`
  (lines 469-547) behave identically to the engine's: they differ only in
  `.clone()` versus `*` on pixels, which are `Copy`. The pipeline therefore
  calls the `Heightmap` members, and every contract of those members holds for
  the copies too.

Modules:

- `Image` (`image.dfy`): pixels, grids and buffer snapshots.
- `Constants` (`constants.dfy`): the constant tables.
- `Heightmap` (`heightmap.dfy`): the engine.
- `App` (`main.dfy`): the application revision.

A buffer is an `array2<Pixel>` indexed `[x, y]`. Its value is a `Grid`
`g[x][y]`.

Each imperative routine is a method over the buffers. Its contract ties the
new contents to a specification function of the old contents:

| method | specification function |
|---|---|
| `ThermalErosion` | `Erosion` |
| `ClampImageBuffer` | `ClampGrid` |
| `SimulateRiverFlow` | `Rivers` |
| `RenderPipeline` | `Render` |

The source's promises are proved as lemmas about those functions.

Behaviour of the source worth noting:

- The clamp never recolours pixels; the colour map is left alone
  (`heightmap.rs:156-167`).
- The river snapshot is taken once. Later walkers therefore do not see the
  cells that earlier walkers carved (`heightmap.rs:217-222`).
- Walkers may step onto border cells, where they stall (`heightmap.rs:229`).
- `main.rs` colours first, then erodes, then clamps to the water level
  (`main.rs:331-339`).
- An unknown erosion mode panics (`heightmap.rs:104`). The model represents
  the panic as `ok == false` or `None` rather than as a typed error.

## Model

| member | source | states |
|---|---|---|
| Heightmap.ShouldErode | src/heightmap_gen/heightmap.rs:89-108 | The predicate panics (None) exactly for a mode outside 0..2; mode 0 is always false |
| Heightmap.ShouldErodeFrom | src/heightmap_gen/heightmap.rs:90-107 | The channel loop from a given channel on: panics exactly when a channel remains and the mode is unknown; mode 0 answers false |
| Heightmap.StandardFrom | src/heightmap_gen/heightmap.rs:93-97 | Mode 1 from channel c: true iff some later RGB channel of the neighbour is strictly below the centre |
| Heightmap.TalusFrom | src/heightmap_gen/heightmap.rs:98-103 | Mode 2 from channel c: true iff some later RGB channel drops by more than the talus angle |
| Heightmap.Drop | src/heightmap_gen/heightmap.rs:99 | The talus delta `(center - neighbor) / 255` of one channel lies in [-1, 1] and is positive exactly when the neighbour's channel is lower |
| Heightmap.ShouldErodeMeaning | src/heightmap_gen/heightmap.rs:89-108 | Mode 1 is true iff some RGB channel of the neighbour is strictly below the centre; mode 2 is true iff some channel's normalised drop exceeds the talus angle |
| Heightmap.TalusImpliesStandard | src/heightmap_gen/heightmap.rs:93-103 | With a non-negative talus angle, a Talus hit implies a Standard hit |
| Heightmap.ScanPosOffsets | src/heightmap_gen/heightmap.rs:128-132 | The neighbour offsets and scan positions 0..8 correspond one to one in dx-outer/dy-inner order; position 4 is the skipped centre |
| Heightmap.FirstHit | src/heightmap_gen/heightmap.rs:128-148 | The first accepted scan position: accepted, and no earlier position is accepted; None when no position is accepted |
| Heightmap.FirstEroding | src/heightmap_gen/heightmap.rs:128-148 | The neighbour chosen for a pixel is never the centre |
| Heightmap.FirstErodingIsFirst | src/heightmap_gen/heightmap.rs:128-148 | The chosen neighbour satisfies the predicate and no neighbour earlier in dx-outer/dy-inner order does; with no choice, no neighbour satisfies it |
| Heightmap.HitAt | src/heightmap_gen/heightmap.rs:134-137 | The scan at offset (dx, dy) asks the predicate about the snapshot pixel at (x+dx, y+dy) |
| Heightmap.ErodedPair | src/heightmap_gen/heightmap.rs:137-140 | The pair an interior pixel is given: the snapshot height and colour of the first eroding neighbour, or its own; `PassTakesSnapshotPair` and `PassSource` state where it comes from |
| Heightmap.PassSource | src/heightmap_gen/heightmap.rs:123-148 | The cell a pixel's new pair comes from lies on the grid, next to or at the pixel |
| Heightmap.PassTakesSnapshotPair | src/heightmap_gen/heightmap.rs:120-147 | In one pass every pixel's new height and colour are the snapshot pair of one and the same cell |
| Heightmap.PassPanics | src/heightmap_gen/heightmap.rs:104-124 | With a known mode, a pass panics exactly when `height - 1` underflows (height 0) or, once the row loop runs (height >= 3), `width - 1` underflows (width 0); on a grid with an interior pixel it panics exactly for an unknown mode; heights 1 and 2 never panic |
| Heightmap.Pass | src/heightmap_gen/heightmap.rs:120-150 | One iteration over the frozen snapshot keeps both maps at the same width and height; `PassTakesSnapshotPair`, `PassSource` and `PassModeNoneIsIdentity` state where each new pair comes from |
| Heightmap.Erosion | src/heightmap_gen/heightmap.rs:119-151 | `iterations` passes, each over a snapshot of the previous result, keep the grid shape; `ErosionPairsFromInput`, `ErosionKeepsBorder` and `ErosionModeNoneIsIdentity` state what they do to the pixels |
| Heightmap.ErosionPairsFromInput | src/heightmap_gen/heightmap.rs:119-151 | After any number of iterations, every (height, colour) pair in the output occurs at one cell of the input grids, so height and colour are always moved together |
| Heightmap.ErosionKeepsBorder | src/heightmap_gen/heightmap.rs:117-124 | No iteration changes a pixel of the outermost ring in either map |
| Heightmap.ModeNoneFindsNothing | src/heightmap_gen/heightmap.rs:92 | With mode 0 no neighbour is ever chosen |
| Heightmap.PassModeNoneIsIdentity | src/heightmap_gen/heightmap.rs:92 | A mode-0 pass leaves both maps unchanged |
| Heightmap.ErosionModeNoneIsIdentity | src/heightmap_gen/heightmap.rs:92 | Any number of mode-0 iterations leave both maps unchanged |
| Heightmap.ErodePixel | src/heightmap_gen/heightmap.rs:125-148 | One interior pixel: panics (false) exactly on an unknown mode; otherwise writes the first accepted neighbour's snapshot pair, or nothing; no other pixel changes |
| Heightmap.ErodeRow | src/heightmap_gen/heightmap.rs:124-149 | One row, left to right: the visited pixels hold the pass's values and all others keep theirs; a panic happens before any write of the row |
| Heightmap.ErosionPass | src/heightmap_gen/heightmap.rs:120-150 | One iteration: the maps become `Pass` of the frozen snapshots; it panics exactly when the row range underflows or an interior pixel meets an unknown mode, and then both maps are unchanged |
| Heightmap.ThermalErosion | src/heightmap_gen/heightmap.rs:110-152 | Both maps become `Erosion` of their old contents; with 0 iterations or mode 0 they are unchanged; a panic leaves them unchanged |
| Heightmap.Clamp | src/heightmap_gen/heightmap.rs:163 | `max(min(c, max), min)`: inside [min, max] when min <= max; the value itself when already inside; min when min > max |
| Heightmap.ClampIdempotentChannel | src/heightmap_gen/heightmap.rs:163 | Clamping a channel twice equals clamping it once |
| Heightmap.ClampPixel | src/heightmap_gen/heightmap.rs:161-164 | Channels 0-2 are clamped and alpha is kept |
| Heightmap.ClampGrid | src/heightmap_gen/heightmap.rs:159-166 | Every pixel, borders included, is clamped |
| Heightmap.ClampGridBounds | src/heightmap_gen/heightmap.rs:156-167 | After the clamp every RGB channel lies in [min, max], or equals min when min > max; alpha is untouched |
| Heightmap.ClampGridIdempotent | src/heightmap_gen/heightmap.rs:156-167 | Applying the clamp twice equals applying it once |
| Heightmap.ClampImageBuffer | src/heightmap_gen/heightmap.rs:156-167 | The buffer becomes `ClampGrid` of its old contents |
| Heightmap.Green | src/heightmap_gen/heightmap.rs:217-222 | The river snapshot holds the green channel of every pixel |
| Heightmap.GreenSnapshot | src/heightmap_gen/heightmap.rs:217-222 | The snapshot loop builds exactly the green-channel heights |
| Heightmap.SaturatingSubI16 | src/heightmap_gen/heightmap.rs:257 | i16 `saturating_sub`: exact when the difference fits, otherwise -32768 or 32767 |
| Heightmap.CarveLevel | src/heightmap_gen/heightmap.rs:257-258 | The carved level is the snapshot height minus the factor, clamped into [0, 255]; it never rises above the height for a non-negative factor |
| Heightmap.CarvePixel | src/heightmap_gen/heightmap.rs:258-259 | The carved height pixel is grey and opaque, and no higher than the snapshot height for a non-negative factor |
| Heightmap.MinScan | src/heightmap_gen/heightmap.rs:232-253 | The running minimum never rises, stays a consistent (height, cell) record, and is the centre or one of its neighbours |
| Heightmap.ScanFrom | src/heightmap_gen/heightmap.rs:232-253 | The same three facts for the remaining steps of the scan |
| Heightmap.MinScanAt | src/heightmap_gen/heightmap.rs:232-253 | The scan position of offset (dx, dy) performs the update for that neighbour |
| Heightmap.LowestNeighbor | src/heightmap_gen/heightmap.rs:229-253 | The nested dx/dy loop returns the scan's result, starting from the centre cell |
| Heightmap.Neighbor | src/heightmap_gen/heightmap.rs:237-245 | A neighbour's record carries its snapshot height |
| Heightmap.ScanUpdate | src/heightmap_gen/heightmap.rs:240-252 | A scan step never raises the running minimum; it either keeps the record or takes the on-grid, non-centre neighbour at (x+dx, y+dy) with its snapshot height when that is strictly lower; it takes the neighbour exactly when the neighbour is strictly below the running minimum |
| Heightmap.ScanUpdateCases | src/heightmap_gen/heightmap.rs:239-252 | A scan step takes the neighbour exactly when it is strictly lower than the running minimum |
| Heightmap.MinScanIsLowest | src/heightmap_gen/heightmap.rs:232-253 | The scan ends no higher than any neighbour it scans |
| Heightmap.MinScanFirstLowest | src/heightmap_gen/heightmap.rs:246-250 | The scan ends on the starting record or on a neighbour strictly below everything scanned before it |
| Heightmap.Step | src/heightmap_gen/heightmap.rs:228-263 | A walker moves only from an interior cell, only to an on-grid 8-neighbour, and only to a strictly lower snapshot height |
| Heightmap.StepChoosesFirstLowest | src/heightmap_gen/heightmap.rs:229-262 | The walker stalls iff the cell is on the border or no neighbour is strictly lower; otherwise it moves to a lowest neighbour, the first of equals in dx-outer/dy-inner order |
| Heightmap.StepFromScan | src/heightmap_gen/heightmap.rs:255-262 | The loop's minimum decides the step: move to it when strictly below the centre, else stay |
| Heightmap.Flow | src/heightmap_gen/heightmap.rs:217-253 | The flow field records each cell's step over the one snapshot, which is never updated |
| Heightmap.Walk | src/heightmap_gen/heightmap.rs:224-263 | A walker always stands on the grid |
| Heightmap.WalkNext | src/heightmap_gen/heightmap.rs:228-263 | One more rain iteration moves the walker by its cell's step and appends the new cell to its path, or leaves it where it is |
| Heightmap.WalkDescends | src/heightmap_gen/heightmap.rs:229-262 | A walker's path stays on the grid, strictly descends in snapshot height step by step, and ends where the walker stands |
| Heightmap.DescendsExtend | src/heightmap_gen/heightmap.rs:255-262 | A strictly lower neighbour extends a descending path |
| Heightmap.PathBelow | src/heightmap_gen/heightmap.rs:229-262 | Every cell of a descending path is below the start and below every earlier cell of the path |
| Heightmap.StartNotCarved | src/heightmap_gen/heightmap.rs:224-263 | The start cell is never carved, and no cell is carved twice by one walker |
| Heightmap.StallIsFinal | src/heightmap_gen/heightmap.rs:229-262 | A walker at a local minimum or on the border stays there for all later iterations |
| Heightmap.NoRainNoCells | src/heightmap_gen/heightmap.rs:227 | With no rain iterations no cell is carved |
| Heightmap.RiversNoop | src/heightmap_gen/heightmap.rs:224-228 | With zero rivers or zero rain iterations both maps are unchanged |
| Heightmap.RiverCellsHas | src/heightmap_gen/heightmap.rs:224-263 | A cell on the path of any one walker is among the carved cells |
| Heightmap.RiverCellsWitness | src/heightmap_gen/heightmap.rs:224-263 | Every carved cell lies on the path of some walker, which the lemma returns |
| Heightmap.RiverCellsMembers | src/heightmap_gen/heightmap.rs:224-263 | A cell is among the carved cells exactly when it lies on the path of some walker, in both directions |
| Heightmap.RiverCells | src/heightmap_gen/heightmap.rs:224-263 | The cells carved by all walkers in turn; `RiverCellsMembers` proves a cell is in it exactly when some walker's path contains it |
| Heightmap.RiverPixel | src/heightmap_gen/heightmap.rs:255-262 | A cell outside the carved set keeps its snapshot pair; a carved cell holds (v,v,v,255), with v its carve level from its snapshot green height, and COLORS[0] |
| Heightmap.Rivers | src/heightmap_gen/heightmap.rs:217-264 | Both maps keep their shape, and each pixel is its `RiverPixel` over the carved set. This overlay view is valid because the scan reads only the snapshot taken at lines 217-222, never the live map (line 247), so every carve of a cell writes the same pair whatever the order of the writes |
| Heightmap.RiversWriteOnlyCarvedCells | src/heightmap_gen/heightmap.rs:255-262 | A pixel that changes lies on the path of some walker; its height becomes (v,v,v,255) with v the carved level; its colour becomes COLORS[0] |
| Heightmap.CarveCell | src/heightmap_gen/heightmap.rs:257-260 | A carve writes both maps at one cell and extends the carved set by that cell |
| Heightmap.RainIteration | src/heightmap_gen/heightmap.rs:228-263 | One rain iteration advances the walker exactly as `Walk` does and carves the cell it moves onto |
| Heightmap.RunWalker | src/heightmap_gen/heightmap.rs:227-263 | One river adds its walker's path to the carved cells |
| Heightmap.RunRivers | src/heightmap_gen/heightmap.rs:224-264 | After all rivers both maps show the original pixels with every carved cell overwritten |
| Heightmap.SimulateRiverFlow | src/heightmap_gen/heightmap.rs:204-269 | Always returns `Ok(())`; both maps become `Rivers` of their old contents |
| Heightmap.ScaleImage | src/heightmap_gen/heightmap.rs:272-283 | Err iff the target width or height is 0, and then the buffer is kept; otherwise the buffer becomes the resized image |
| Constants.ColorRamp | src/heightmap_gen/constants.rs:3-15 | The ramp has 10 opaque entries; entry 0, the water colour, is (0,0,200,255); the last is white; the preview size is 256 |
| Image.Pixel.WithChannel | src/heightmap_gen/heightmap.rs:161-164 | Setting one channel of a pixel changes that channel only |
| Image.Cells | src/heightmap_gen/heightmap.rs:120-121 | The snapshot that `clone()` takes holds every pixel of the buffer |
| App.ColorizeBuffer | src/main.rs:553-582 | Colouring fills a fresh buffer in which each pixel is the colour of the height pixel at the same place |
| App.Colorize | src/main.rs:553-582 | The colour map keeps the height map's shape and each pixel is the ramp colour of the height pixel at the same place |
| App.WaterClamp | src/main.rs:337-339 | The optional water clamp keeps the height map at the preview size; `RenderWaterClamp` states its bounds |
| App.Render | src/main.rs:469-488 | The pipeline panics exactly when the main.rs copy of the predicate meets an unknown erosion mode, which needs a positive iteration count and a non-zero mode |
| App.RenderPipeline | src/main.rs:326-339 | The height buffer and the new colour buffer end as `Render` of the blended heights; erosion runs only for a non-zero mode, after colouring |
| App.RenderGuardIsHarmless | src/main.rs:333-335 | Skipping erosion for mode 0 gives the same maps as running it |
| App.RenderWaterClamp | src/main.rs:536-547 | The water clamp leaves the colour map as it is and clamps the height map to [water level, 255]; every RGB channel is at least the water level and alpha is kept |
| App.RenderColourFollowsHeight | src/main.rs:490-532 | The main.rs copy of thermal erosion moves height and colour together: without the water clamp, every colour pixel is the colour of the height pixel at the same place |
| App.RenderKeepsBorderColour | src/main.rs:490-532 | The main.rs copy of thermal erosion leaves the outermost ring alone, so the colour map there is always the colour of the blended heights |
| App.LayerList.constructor | src/main.rs:54 | The layer list starts empty |
| App.LayerList.AddLayer | src/main.rs:359-371 | The add handler appends one default layer (scale 0.05, offsets 0, seed 1, opacity 1, mode 0) and keeps every existing entry |
| App.LayerList.RemoveLayer | src/main.rs:373-380 | The remove handler drops exactly the last layer of a non-empty list and changes nothing on an empty one |
| App.AddThenRemove | src/main.rs:359-380 | Removing right after adding gives the list back |

## Left out

- Perlin noise generation (`generate_perlin_noise_buffer`): a foreign noise library plus f64 casts. The pipeline starts from the blended height buffer.
- Layer compositing (`blend_buffers`): f32 compositing with truncating casts. The pipeline's loop over layers is not modelled.
- The per-pixel colour rule of `colorize_buffer` and `lerp`: f32 luminance and a truncating interpolation. `App.ColorizeBuffer` takes it as an abstract function `ramp` from pixel to pixel.
- Heightmap.PassPanics: the u32 underflow of `height - 1` and `width - 1` on an empty buffer is modelled as the panic of checked (debug-build) arithmetic. A release build wraps instead: the wrapped loop then runs over a huge range and either reads outside the buffer, which also panics, or, when the other loop's range is empty, returns normally after doing nothing.
- Heightmap.Drop: the Talus comparison is exact over reals. The f32 rounding of `(center - neighbor) / 255.0` and of the talus angle is not modelled.
- The random number generator of `simulate_river_flow`. The caller supplies the start cells instead, all in [1, w-2] x [1, h-2]. The seed parameter is therefore absent.
- The `image::imageops::resize` call inside `scale_image`. Its result is a parameter of Heightmap.ScaleImage.
- Saving images to the desktop (`save_image_to_desktop`), the slint UI, threads, mutexes and event-loop callbacks.
- The `main.rs` copy of the colour table, which has 9 entries. It is read only by its colouring rule, which is left out.
- Integer widths. Coordinates, iteration counts and dimensions are unbounded naturals, and u32 dimensions are not capped. A negative neighbour coordinate cast to usize becomes a huge index. The model treats such a coordinate as off the grid, which the cast achieves for every grid. Walkers only scan from interior cells, so such coordinates never arise.
- Panics are results (`ok == false`, `None`). Which exact pixels a panicking pass has already written is moot: the first pixel of the first row panics before any write.
- LayerParams fields are reals, not f32.

