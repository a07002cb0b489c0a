# Gashapon dispenser: draw engine and reset lever

A model of the single component of a small web page that simulates a
"gashapon" capsule-toy machine. Clicking the machine draws a random item
without replacement from a pool loaded from a fixed catalog. The drawn item
is shown in a detail panel and recorded in a 4×4 grid of cells keyed by item
id. Clicking a filled cell shows its item again. A lever that the user drags
along a track resets pool, panel and grid when it is released past 80 % of
the track.

The component's state is one immutable record (`AppState.State`): the pool,
the item on display, the filled cells as a map from id to item, and the
lever's position and drag flag. Every event handler is a total pure function
of that record:

- `DrawEngine`: the click on the machine (`Draw` with a chosen index,
  `HandleClick` with the random generator's value), `Reset`, and the grid
  cell click (`Inspect`).
- `LeverGesture`: `Press`, `Move` (clamping the raw position into [0, 100])
  and `Release` (reset strictly beyond 80, then back to rest).
- `Session`: the events, one step per event, runs of events, and the
  properties that hold over runs.
- `Elements` and `Sequences`: the item record, the "not yet drawn, in catalog
  order" view of a catalog, and the filter-by-index removal the click
  handler uses.

The central invariant (`DrawEngine.Consistent`) holds for a catalog with
distinct ids. It says that the pool is exactly the catalog items whose id has
no filled cell, in catalog order. Every filled cell holds the catalog item
with that id. The item on display is a drawn one. Pool size plus number of
filled cells equals the catalog size.

Inputs the component takes from its host are parameters. The catalog is a
parameter of `Mount`, `Reset`, `Release` and `Step`. The value of the random
generator is an argument of `HandleClick`: a real in [0, 1), scaled and
rounded down exactly as the handler does. The lemmas about many draws in a
row (`Session.Draws`) take the chosen indices directly, each below the pool
size at that moment. The raw pointer-derived lever
position is an argument of `Move`.

Notes on the component's behaviour:

- Reset restores the catalog in its original order.
- Only grid cells 1 to 16 exist, so only items with those ids can be
  inspected or seen in the grid.
- A press while already dragging just keeps dragging.
- Before the mount effect runs, the pool is empty (`AppState.Initial`), so a
  click then is inert.

## Model

| member | source | states |
|---|---|---|
| Elements.Undrawn | src/App.tsx:38 | the items left in the pool are the catalog items whose id is not drawn, in catalog order; a catalog item is kept exactly when its id is undrawn |
| Elements.UndrawnDrawOne | src/App.tsx:34-44 | for a catalog with distinct ids, cutting position `i` out of the undrawn items equals marking that item's id drawn |
| Sequences.FilterOutIndex | src/App.tsx:38 | filtering by "index differs from i" drops one element when `i` is in range and none otherwise |
| Sequences.FilterOutIndexIsSplice | src/App.tsx:38 | the filter keeps exactly `xs[..i] + xs[i+1..]`: one element removed, the others in their order |
| AppState.Initial | src/App.tsx:15-19 | before mounting the pool is empty, nothing is displayed, no cell is filled, and the lever is at rest and not dragged |
| Session.ClickBeforeMountInert | src/App.tsx:15-19 | a click on the machine before the mount effect has run leaves the initial state unchanged, and that state already satisfies the lever's invariant |
| AppState.Mount | src/App.tsx:23-25 | the mount effect loads the catalog into the pool and changes nothing else |
| DrawEngine.Draw | src/App.tsx:27-45 | an empty pool makes the click inert; otherwise the pool loses exactly position `i`, the drawn item is displayed and filed under its id, other cells keep their items, the key set grows by that id only, and the lever is untouched |
| DrawEngine.PickIndex | src/App.tsx:34 | the scaled and floored generator value is a valid pool index |
| DrawEngine.PickIndexInterval | src/App.tsx:34 | index `i` is chosen exactly for generator values in `[i/n, (i+1)/n)`, an interval of the same width for every index |
| DrawEngine.HandleClick | src/App.tsx:27-45 | on a non-empty pool the pool shrinks by one, the displayed item is the one removed (multiset identity), and the grid gains that item under its id |
| DrawEngine.Reset | src/App.tsx:47-51 | pool, display and grid are reinitialised together to catalog, nothing, empty; the lever is untouched |
| DrawEngine.Cell | src/App.tsx:192-193 | cell `index` shows an item exactly when id `index + 1` is filed, and then the item filed under that id |
| DrawEngine.Inspect | src/App.tsx:191-200 | a click on a filled cell displays its item, on an empty cell changes nothing; pool, grid and lever are never modified |
| DrawEngine.ResetEstablishesConsistency | src/App.tsx:47-51 | from any state whatsoever, reset re-establishes the invariant |
| DrawEngine.ResetIdempotent | src/App.tsx:47-51 | resetting twice equals resetting once |
| DrawEngine.MountedConsistent | src/App.tsx:14-25 | the freshly mounted state satisfies the invariant and equals a reset of the initial state |
| DrawEngine.PoolItemsUndrawn | src/App.tsx:34-44 | under the invariant every pool item is a catalog item with no filled cell, and no filled cell holds a pool item |
| DrawEngine.DrawPreservesConsistency | src/App.tsx:27-45 | a draw keeps the invariant: the drawn item leaves the pool and enters the grid under a fresh id |
| DrawEngine.InspectPreservesConsistency | src/App.tsx:191-200 | inspecting a cell keeps the invariant |
| DrawEngine.CellShowsDrawnItem | src/App.tsx:191-193 | under the invariant, grid cell `index` shows the catalog item with id `index + 1` exactly when that item has left the pool, and is empty exactly while it is still in the pool |
| LeverGesture.Clamp | src/App.tsx:63 | the result lies in [0, 100], equals the raw value inside that range, and is 0 below it and 100 above it |
| LeverGesture.ClampIsNearest | src/App.tsx:63 | the clamped value is the point of [0, 100] nearest the raw value |
| LeverGesture.ClampIdempotent | src/App.tsx:63 | clamping twice equals clamping once |
| LeverGesture.ClampMonotone | src/App.tsx:63 | clamping preserves the order of raw values |
| LeverGesture.Press | src/App.tsx:53-56 | a press starts a drag and changes nothing else |
| LeverGesture.Move | src/App.tsx:58-64 | a movement outside a drag changes nothing; during a drag the position becomes the clamped raw value and the draw engine is untouched |
| LeverGesture.Release | src/App.tsx:66-74 | a release outside a drag changes nothing; during a drag the draw engine is reset when the position is strictly above 80 and untouched otherwise, and the lever always ends at rest |
| LeverGesture.LeverTransitionsKeepSanity | src/App.tsx:53-74 | the position stays within [0, 100], and it is 0 whenever no drag is in progress |
| LeverGesture.ReleaseAtThresholdKeepsDraws | src/App.tsx:68 | a release at exactly 80 does not reset |
| LeverGesture.GestureResetsIffPulledPastThreshold | src/App.tsx:53-74 | press, move, release from rest resets exactly when the raw value exceeds 80, and otherwise returns the state unchanged |
| Session.Step | src/App.tsx:27-74 | only a machine click or a lever release changes the pool; only a click or a release changes the display; only lever events move the lever |
| Session.MountedInvariant | src/App.tsx:14-25 | the first interactive state satisfies the draw engine's and the lever's invariants |
| Session.StepPreservesInvariant | src/App.tsx:27-74 | every event keeps both invariants |
| Session.RunPreservesInvariant | src/App.tsx:27-74 | every sequence of events keeps both invariants |
| Session.StepOnlyResetForgets | src/App.tsx:41-50 | filled cells only grow and keep their items, and once something is displayed the display is never emptied, except by a release past the threshold, which clears both |
| Session.Draws | src/App.tsx:27-45 | after `k` clicks, each with an index valid for the pool at that moment, the pool has shrunk by `k`, down to empty, and the lever is untouched |
| Session.Trace | src/App.tsx:34-41 | the clicks display one item each until the pool is empty: as many items as clicks, or as pool items if fewer |
| Session.TraceIsPermutation | src/App.tsx:34-41 | the items displayed by the clicks together with the remaining pool are exactly the original pool (as a multiset) |
| Session.DrawsPreserveConsistency | src/App.tsx:27-45 | repeated draws keep the invariant |
| Session.ExhaustedFillsCatalog | src/App.tsx:28-44 | with an empty pool the grid's keys are exactly the catalog ids, each filed with its own item, one cell per item |
| Session.Exhaustion | src/App.tsx:28-44 | at least as many clicks as pool items, whatever indices are drawn, empty the pool and fill the grid with the whole catalog, one cell per item; any further draw is inert |
| Session.SessionDrawsEachItemOnce | src/App.tsx:23-45 | N clicks after mounting an N-item catalog, whatever indices are drawn, display every catalog item exactly once and fill exactly the catalog's ids |
| Session.PoolAndGridDisjoint | src/App.tsx:34-44 | in every state a session reaches, no filled cell holds an item that is still in the pool, and each cell holds the item with its own id |
| Session.ThreeItemScenario | src/App.tsx:27-45 | with items 1, 2, 3, three clicks with any indices give grid `{1:A, 2:B, 3:C}` and an empty pool, and a fourth draw is inert |
| Session.LeverPastThresholdScenario | src/App.tsx:53-74 | press, move to 85, release restores the catalog, clears display and grid, and puts the lever at rest |
| Session.LeverShortOfThresholdScenario | src/App.tsx:53-74 | press, move to 50, release leaves the draws alone and puts the lever at rest |

## Left out

- Rendering, styling, the lever's pixel offset (src/App.tsx:102), the "Reset" label (src/App.tsx:105-109), the dimmed machine image and the hyperlinks: presentation only.
- The stretch pulse and its 200 ms timer (src/App.tsx:30-31): a visual effect that no state depends on.
- The random generator itself (src/App.tsx:34): its value is an argument in [0, 1), and the arithmetic is exact real arithmetic, not floating point.
- Track geometry and the division that turns the pointer coordinate into a percentage (src/App.tsx:61-62): the raw percentage is an argument of `Move`. Floating-point effects, including a zero-width track, are not modelled.
- The null check on the track element (src/App.tsx:59): the lever is rendered inside the track, so the track exists whenever a drag is in progress.
- Attaching and detaching the window listeners (src/App.tsx:76-85) and React's deferred state updates: handlers are modelled as running one at a time, each seeing the state the previous one left.
- Loading the catalog file and image assets (src/App.tsx:2-3): the catalog is a parameter.
- Catalogs with repeated ids: the invariant and the properties about runs assume distinct ids, since item ids are meant to be unique; with a repeated id a later draw overwrites an earlier cell.
