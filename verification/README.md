# Paginated scroll engine

This project models the `Scrollview` of `src/app/PageSwipe.js` in Dafny. It is a single-axis scroll engine:

- touch start, move and end samples set the position and velocity of a physics particle;
- the current node (the page the particle position is measured from) is re-homed, so the position stays inside it;
- every frame walks the pages within reach of the position, records their offsets, and detects the start and end edges;
- a spring is pinned at an edge;
- a settling scroller snaps to a page;
- `pageChange` is reported when the current node differs from the previous frame's.

Modules:

- `Wrappers` holds `Option`. It stands for JavaScript's `undefined`.
- `PageGeometry` is pure arithmetic over the page extents:
  - `Origin` is where each page begins;
  - `Offset` is the offset of a page from the current node;
  - `ForwardEnd` and `BackwardStart` are the bounds of the two window walks;
  - `RenderedWindow` is what one render places and records;
  - `Rehome` is where re-homing lands.
- `ScrollPolicy` is the numeric policy: the release-velocity clamp and the pagination decision.
- `Scroller` holds the `Scrollview` class.
  - Its fields are the instance fields of the source.
  - Its methods are the handlers and private helpers.
  - Each method names the fields it may change with a field-level `modifies`, so every other field keeps its value.
  - The two walks of `_innerRender` are the value-level methods `WalkForward` and `WalkBackward`, which change no state.
  - `Valid()` is the class invariant:
    - the current node and the last frame's node index the page sequence;
    - the edge flag is -1, 0 or 1;
    - the spring flag agrees with the attached forces;
    - drag and friction are attached together.

Nodes of the linked `ViewSequence` are page indices. The previous node of page `i` is `i-1`, and its next node is `i+1`.

A page is given by its size along the scroll axis. `None` stands for a page that reports no size; it takes the viewport's extent, as `_sizeForDir` does.

The physics engine appears only as the set of forces attached to the particle. Its integration step runs between frames and is not modelled, so every operation accepts any particle position and velocity.

Three facts of the code shape the model:

- The physics engine's `attach` adds to the attached set, so `_handleEdge` and `_attachPageSpring` leave drag and friction attached beside the spring. The attached forces are therefore a `set<Force>`. Only a final touch end and leaving an edge reset the set to exactly one group: the spring alone, or drag plus friction.
- `pageChange` is emitted without a payload (src/app/PageSwipe.js:569).
- `sequenceFrom` does not reject anything. The model only asks that the start index names a page.

## Model

| member | source | states |
|---|---|---|
| PageGeometry.Extents | src/app/PageSwipe.js:201-205 | One extent per page. A page without a size takes the viewport's extent. Positive sizes and a positive viewport give positive extents. |
| PageGeometry.OriginIncreasing | src/app/PageSwipe.js:525-537 | With positive extents, a later page begins strictly after an earlier one. |
| PageGeometry.ForwardEndBounds | src/app/PageSwipe.js:529-537 | The forward walk takes every page it passes, since each is less than clip+margin ahead of the position. It stops at the end of the sequence or at the first page that is clip+margin or more ahead. |
| PageGeometry.BackwardStartBounds | src/app/PageSwipe.js:540-560 | The backward walk takes every page from where it stops up to the current node, since each is more than -(clip+margin) from the position. It stops at the first page or below a page at or beyond -(clip+margin). |
| PageGeometry.WindowExact | src/app/PageSwipe.js:525-560 | With positive extents, a page lies between the two walk bounds exactly when it is within reach of the position on its side of the current node. |
| PageGeometry.OffsetSigns | src/app/PageSwipe.js:526-560 | A recorded offset is 0 at the current node, positive after it and negative before it. |
| PageGeometry.OffsetStep | src/app/PageSwipe.js:530-532 | Consecutive offsets differ by exactly the extent of the earlier page: offsets are cumulative sums. |
| PageGeometry.ForwardPlacementsAt | src/app/PageSwipe.js:529-531 | The forward walk outputs pages node, node+1, … in order, each at its offset plus the master offset. |
| PageGeometry.BackwardPlacementsAt | src/app/PageSwipe.js:552-554 | The backward walk outputs pages node-1, node-2, … in order, each at its offset plus the master offset. |
| PageGeometry.EndEdgeExact | src/app/PageSwipe.js:529-536 | With a non-negative margin, the end-edge flag is raised exactly when the end of the content is within the clip size of the position. |
| PageGeometry.WindowPlacesOnlyPagesInReach | src/app/PageSwipe.js:525-560 | Every page a render outputs is within reach, and sits at its offset plus the master offset. |
| PageGeometry.WindowPlacesEveryPageInReach | src/app/PageSwipe.js:525-560 | Every page within reach is output by a render. |
| PageGeometry.WindowOffsetsSigned | src/app/PageSwipe.js:526-563 | The recorded offsets contain the current node at 0. All keys are pages of the sequence. Offsets are non-negative from the current node on and negative before it. |
| PageGeometry.WindowEdge | src/app/PageSwipe.js:533-551 | A render reports the start edge exactly when there is no previous node and the position is at or before 0. Otherwise it reports the end edge exactly when the end of the content is within the clip size. |
| PageGeometry.RenderedWindow | src/app/PageSwipe.js:518-563 | The edge a render reports is -1, 0 or 1. |
| PageGeometry.RehomeBackward | src/app/PageSwipe.js:215-226 | The backward loop never moves forward. It stops either at a non-negative position, inside the page it stepped to whenever it took a step, or at page 0 with a negative position (the start edge). |
| PageGeometry.RehomeForward | src/app/PageSwipe.js:227-238 | The forward loop never moves back. It stops either before the end of the page it reached, or on the last page at or past its end (the end edge). |
| PageGeometry.Rehome | src/app/PageSwipe.js:214-238 | After both loops, either the position lies in [0, extent) of the current node, or an edge was hit: page 0 with a negative position, or the last page at or past its end. |
| PageGeometry.RehomeBackwardKeepsLogical | src/app/PageSwipe.js:216-226 | The backward loop keeps the start of the current node plus the position unchanged. |
| PageGeometry.RehomeForwardKeepsLogical | src/app/PageSwipe.js:228-238 | The forward loop keeps the start of the current node plus the position unchanged. |
| PageGeometry.RehomeKeepsLogical | src/app/PageSwipe.js:214-238 | Re-homing keeps the logical position, i.e. the start of the current node plus the position. |
| PageGeometry.RehomeKeepsView | src/app/PageSwipe.js:214-238 | Re-homing moves no page relative to the position. |
| PageGeometry.RehomeFindsContainingPage | src/app/PageSwipe.js:214-238 | When the logical position lies inside the content, re-homing hits no edge. It lands on the one page that contains that position. |
| PageGeometry.NextPageKeepsView | src/app/PageSwipe.js:431-442 | Stepping to the next page and re-basing by the departing page's extent moves no page relative to the position. |
| PageGeometry.PreviousPageKeepsView | src/app/PageSwipe.js:413-424 | Stepping to the previous page and re-basing by the arriving page's extent moves no page relative to the position. |
| PageGeometry.PreviousPagePosAsWritten | src/app/PageSwipe.js:417-420 | As written, a step back re-bases the position by the extent of the page being left. |
| PageGeometry.PreviousPageAsWrittenShiftsView | src/app/PageSwipe.js:413-424 | As written, a step back moves every page by the arriving extent minus the departing extent. |
| PageGeometry.PreviousPageAsWrittenMovesView | src/app/PageSwipe.js:413-424 | With extents [100, 200], a step back from page 1 at position 0 moves page 1 from offset 0 to -100. |
| ScrollPolicy.ClampSpeed | src/app/PageSwipe.js:175-179 | The release velocity ends up in [-limit, limit], with a magnitude no larger than before. It is unchanged when already inside the range. Below -limit it becomes -limit, and above a non-negative limit it becomes limit. |
| ScrollPolicy.ClampIdempotent | src/app/PageSwipe.js:178-179 | Clamping a clamped velocity changes nothing. |
| ScrollPolicy.AdvancesPage | src/app/PageSwipe.js:268-273 | Above the switch speed, the page advances exactly when the velocity is positive. Otherwise it advances exactly when the position is past half the page. |
| ScrollPolicy.HalfPageStays | src/app/PageSwipe.js:271-273 | A slow scroller exactly half-way through a page stays on it. |
| ScrollPolicy.AdvancesPageMonotone | src/app/PageSwipe.js:271-273 | A position further forward never turns an advance into a stay. |
| Scroller.WalkForward | src/app/PageSwipe.js:525-537 | The forward loop stops at `ForwardEnd` and outputs exactly the forward placements. It records the offsets of the pages walked plus the next page's. Its edge flag is raised exactly when the walk ran off the end with the end within the clip. |
| Scroller.WalkBackward | src/app/PageSwipe.js:539-560 | The backward loop stops at `BackwardStart` and outputs exactly the backward placements. It extends the offsets down to its stop. Its flag is raised exactly when there is no previous node and the position is at or before 0. |
| Scroller.WalkWindow | src/app/PageSwipe.js:525-560 | Both walks together produce `RenderedWindow`. The start edge wins over the end edge. |
| Scroller.Particle.constructor | src/app/PageSwipe.js:65-66 | A new particle is at rest at 0. |
| Scroller.Scrollview.constructor | src/app/PageSwipe.js:59-118 | Fields start as the source sets them. The margin defaults to half the larger window dimension (line 372). The spring takes the edge period and damping. |
| Scroller.Scrollview.ClipSize | src/app/PageSwipe.js:304-307 | A set, non-zero clip size wins. Otherwise the viewport's extent along the axis is used. |
| Scroller.Scrollview.GetVelocity | src/app/PageSwipe.js:342-344 | While touched, the last touch velocity (possibly undefined). Otherwise the particle's velocity. |
| Scroller.Scrollview.GetPosition | src/app/PageSwipe.js:318-326 | Without a node, the particle position. With one, a value exactly when the last render recorded that node's offset. |
| Scroller.Scrollview.SequenceFrom | src/app/PageSwipe.js:464-468 | Both the current node and the last frame's node become the start page. |
| Scroller.Scrollview.DetachAgents | src/app/PageSwipe.js:196-199 | No force is attached and the spring flag is cleared. |
| Scroller.Scrollview.AttachAgents | src/app/PageSwipe.js:191-194 | On an empty set, attaches the spring alone if the spring flag is set, otherwise drag and friction. |
| Scroller.Scrollview.HandleStart | src/app/PageSwipe.js:138-146 | The touch count is the event's (1 when absent). All forces are detached. The velocity and touch velocity are 0 and the early end is cleared. |
| Scroller.Scrollview.HandleEnd | src/app/PageSwipe.js:169-183 | The touch count is the event's (0 when absent). On the final end, exactly one of the spring (on an edge) or drag+friction is attached. The velocity is -v clamped to the speed limit, which is scaled by the edge grip when slipping, and the touch velocity is cleared. Otherwise none of these change. |
| Scroller.Scrollview.HandleMove | src/app/PageSwipe.js:148-167 | A slip into the edge ends the touch early, once; later ones change nothing. A fast slip away after an early end restarts the touch. Otherwise, unless the touch ended early, the sample sets the velocity (on a slip) or the position. |
| Scroller.Scrollview.ShiftOrigin | src/app/PageSwipe.js:207-212 | The position and the spring anchor move by the amount, and the offset differential by its negation. |
| Scroller.Scrollview.SetSpring | src/app/PageSwipe.js:288-295 | The anchor is the given position. The period and damping are the given ones, or the edge ones when none are given. |
| Scroller.Scrollview.AttachPageSpring | src/app/PageSwipe.js:280-286 | The page spring is anchored at 0 with the page period and damping, and the spring is added to the attached forces. |
| Scroller.Scrollview.RehomeBack | src/app/PageSwipe.js:215-226 | The loop lands where `RehomeBackward` says. It keeps position+masterOffset, anchor-position and differential+position. |
| Scroller.Scrollview.RehomeForth | src/app/PageSwipe.js:227-238 | The loop lands where `RehomeForward` says, with the same three sums kept. |
| Scroller.Scrollview.RehomeNode | src/app/PageSwipe.js:214-238 | Both loops land where `Rehome` says, with the three sums kept. The position of every page is unchanged. |
| Scroller.Scrollview.NormalizeState | src/app/PageSwipe.js:214-240 | The node and position are re-homed and the logical position is kept, as are anchor-position and differential+position. The master offset moves opposite to the position. It is reset to 0 exactly when the velocity is 0 and its magnitude exceeds clip+margin. |
| Scroller.Scrollview.HandleEdge | src/app/PageSwipe.js:242-261 | Entering an edge sets the input scale to the edge grip, and attaches the spring when untouched and not yet attached. Leaving an edge restores scale 1. When the spring was attached and the velocity is below 0.001, leaving also stops the particle at the anchor and swaps back to drag+friction. The edge flag always becomes the detected edge. |
| Scroller.Scrollview.HandlePagination | src/app/PageSwipe.js:263-278 | When untouched, spring-free, off the edges, paginated and slower than the stop speed: it advances to the next page if `AdvancesPage` says so and there is one; otherwise it springs back to the current page. In all other cases nothing changes. The node moves by at most one. |
| Scroller.Scrollview.GoToNextPage | src/app/PageSwipe.js:431-442 | Returns nothing and changes nothing without a next node. Otherwise it moves to the next node and re-bases by the departing extent, and the page spring is attached at 0. No page moves, and every recorded page position is kept. |
| Scroller.Scrollview.GoToPreviousPage | src/app/PageSwipe.js:413-424 | Returns nothing and changes nothing without a previous node. Otherwise it moves to the previous node and re-bases by the arriving extent (see Findings), and the page spring is attached at 0. No page moves, and every recorded page position is kept. |
| Scroller.Scrollview.Commit | src/app/PageSwipe.js:485-516 | A new viewport size without a clip size resets the edge flag and is taken. The state is re-homed as `NormalizeState` states: the logical position, anchor-position, differential+position and every recorded page position are kept, and the master offset moves opposite to the position unless it is reset. The scroll translation is -(position + master offset): the old translation unless the master offset was reset. |
| Scroller.Scrollview.PinEdgeSpring | src/app/PageSwipe.js:533-549 | Unless already on an edge, the start edge anchors the spring at 0. The end edge alone anchors it where the end meets the clip. Both use the edge period and damping. Otherwise the spring is unchanged. |
| Scroller.Scrollview.PlaceWindow | src/app/PageSwipe.js:518-563 | The placed pages, recorded offsets and detected edge are `RenderedWindow` of the current state. The differential is reset, and the spring is pinned as `PinEdgeSpring` says. |
| Scroller.Scrollview.Settle | src/app/PageSwipe.js:242-278 | The edge flag becomes the detected edge, and the input scale is the edge grip on entering an edge and 1 on leaving one. On an edge pagination stays off: nothing moves, and entering attaches the spring when released and free. Off the edges, pagination acts on the old state as `HandlePagination` states, unless a settled edge spring is swapped out. That swap stops the particle at the old anchor with drag and friction attached. The node then advances exactly when released, paginated, the stop speed allows rest, `AdvancesPage` says so at velocity 0, and there is a next page. In the same frame, the page spring at 0 joins drag and friction unless pagination is off or advances on the last page. In those cases no spring is attached and the spring parameters are unchanged. |
| Scroller.Scrollview.ReportPageChange | src/app/PageSwipe.js:568-571 | `pageChange` is reported exactly when paginated and the node differs from the last frame's, which then takes it. |
| Scroller.Scrollview.InnerRender | src/app/PageSwipe.js:518-573 | One render outputs and records `RenderedWindow` of the state it started from, and the edge flag is the window's edge. It reports `pageChange` as `ReportPageChange` does. |

## Left out

- The physics engine is not modelled: the integration step, the drag and friction strengths and the spring force. The particle's position and velocity take any value between calls.
- Event plumbing is left out: `GenericSync`, the event handlers and `_bindEvents`. The handlers are methods called directly with a sample `(count, p, v, slip)`. The input scale is kept as a field.
- Transforms and output functions are left out: `setOutputFunction`, `_output`'s transform and `node.render()`, and `commit`'s matrix composition. A placement is a page and its offset.
- `setOptions`, the `OptionsManager`, the direction-string parsing and `rails` are left out. The options are an immutable value given to the constructor.
- `_size` and `getSize` are left out. They only expose the clip size to the layout.
- `window.innerWidth`/`innerHeight` become constructor parameters.
- The spring's `anchor` option is left out; it is represented by the `springPosition` field.
- The `offsets` entry that the forward walk writes under the `null` key, after running off the end, is left out.
- An empty page sequence is not modelled: `sequenceFrom` is given a page that exists.
- Floating-point arithmetic is left out: positions, sizes and velocities are exact reals.
- A page whose size is `NaN` or non-positive is left out: the properties of the window and of re-homing assume positive extents.
- `getCurrentNode` and `render` are left out. They only return a field or the entity id.
- src/app/AppView.js and src/app/PageView.js are not part of this model. They are UI composition and timed animations.
- Scroller.Scrollview.InnerRender: does not restate the spring, force, input-scale, node and differential effects of its steps. They are stated by `PlaceWindow` (the spring pinned at an edge) and `Settle` (the edge change and pagination).

## Findings

| source | as written | input that shows it | evidently intended | confidence | as-written member | corrected member |
|---|---|---|---|---|---|---|
| src/app/PageSwipe.js:417 | `goToPreviousPage` re-bases the position by the size of the node being left (`this.node.getSize()` read before `this.node = prevNode`) | extents [100, 200], current node 1, position 0: page 1 moves from offset 0 to -100 relative to the position | re-base by the size of the previous node, as `goToNextPage` does with the node it leaves, so that no page moves | not executed | PageGeometry.PreviousPageAsWrittenMovesView | Scroller.Scrollview.GoToPreviousPage |
