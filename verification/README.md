# Sticky container positioning engine, in Dafny

This project models `FStickyContainer`, the overlay container of the stickyview
library. Sticky views (sections of a scrolling list) are pinned into the overlay
when they scroll up to the pin edge. On every scroll tick the pinned stack moves
with the bottom-most pinned view (the *target*), clamped to a travel range. The
target goes back to its original host, its *wrapper*, once it has scrolled back
out.

The Android view system is replaced by an immutable `State`:

- the wrapper registry (`registry`, a sequence of wrapper ids);
- the wrappers themselves, each with its sticky view (`None` for a null
  reference) and its last two screen readings;
- every view, with its single parent (`Detached`, `Host(w)` or `Overlay`), its
  measured size, its GONE flag, and its top and bottom;
- the overlay's ordered child list;
- `target`, `maxY` (`mMaxYForTargetSticky`), `ready` (`mIsReadyToMove`), the
  container's own screen y, and its measured size.

Each method of the class that the model covers becomes a pure function from one
`State` to the next. Where the source loops, the function is recursive (the
registry loop of `performSticky`, the target search of `onViewRemoved`) or a map
comprehension (`offsetChildren`).
`onMeasure` and `onLayout` become methods with loops. Screen readings
(`getLocationOnScreen`, `FStickyWrapper.updateLocation`) are inputs: a function
from wrapper id to reading, plus the container's screen y. The two `post(...)`
reparents become a queue of `Action`s (`Pin`, `Unpin`). A tick applies the
queue at its end, in posting order: first the pins from the registry loop, then
the target's return from `moveViews`.

Files:

- `seqs.dfy`: `List.indexOf`/`List.remove` on sequences.
- `wrapper.dfy`: the wrapper record and its readings.
- `legal_delta.dfy`: the clamp.
- `container.dfy`: the state and its invariant, the registry, `addViewTo`, and
  `onViewAdded`/`onViewRemoved`.
- `layout.dfy`: `onMeasure` and `onLayout`.
- `movement.dfy`: `moveViews`, `offsetChildren`, the registry loop of
  `performSticky`, and the queued reparents.
- `scenarios.dfy`: concrete ticks.

The invariant `Container.Valid` has these parts:

- every reference resolves;
- neither the child list nor the registry has repeats;
- a view is a child of the overlay exactly when its parent is the overlay;
- different wrappers wrap different views;
- every wrapped view hangs in its own wrapper or in the overlay;
- the target, when set, wraps the last child.

These transitions are proved to keep `Valid`:

- `AddSticky` and `RemoveSticky`;
- `MeasureAndLayout`;
- `PerformSticky`, the whole scroll tick;
- `Apply`, one queued reparent, when a pin names a view that is not yet in the
  overlay.

`AddViewTo` and `Detach` are steps inside these transitions. On their own
they keep only `WellFormed`. A reparent into the overlay, for example, only
clears the ready flag (`onViewAdded`), so the target can be left wrapping a
view that is no longer the last child. Nothing in `AddViewTo` recomputes it:
the pin action's own `setTarget(wrapper)`, which `Apply` models, restores
it.

The model follows `FStickyContainer.java` on these points:

- **Travel range.** The clamp applies to the target view's own top, in
  `[0, mMaxYForTargetSticky]`. `mMaxYForTargetSticky` is the measured height of
  the second-to-last child, or 0 when there is none. The first child's top
  plays no part in the clamp.
- **Enabling movement.** `onMeasure` sets `ready` only when a target is set.
  Otherwise it leaves `ready` unchanged, so `ready` is not the same as "some
  child is pinned".
- **Null sticky views.** A wrapper whose sticky view is null is skipped by the
  registry loop. It stays in the registry.
- **Registration.** `addSticky` rejects only null and repeats.
- **Return condition.** A target goes home when all of these hold:
  - the legal delta is 0;
  - the raw delta is positive;
  - the target's reading lies below the last child's top edge.

  The first child's top plays no part in this decision either.

## Model

| member | source | states |
|---|---|---|
| Seqs.Remove | lib/src/main/java/com/fanwe/lib/stickyview/FStickyContainer.java:55 | `List.remove` drops the first occurrence and keeps the order of the rest; an absent element leaves the list unchanged |
| Seqs.RemoveFromNoDup | lib/src/main/java/com/fanwe/lib/stickyview/FStickyContainer.java:55 | removing from a duplicate-free list removes the element entirely, keeps every other element, and adds no duplicate |
| Seqs.RemoveAppended | lib/src/main/java/com/fanwe/lib/stickyview/FStickyContainer.java:47-55 | appending an absent element and removing it again restores the list |
| StickyWrapper.UpdateLocation | lib/src/main/java/com/fanwe/lib/stickyview/FStickyContainer.java:212-213 | a fresh reading becomes the location, and the location delta becomes the reading minus the previous location |
| LegalDelta.GetLegalDelta | lib/src/main/java/com/fanwe/lib/stickyview/FStickyContainer.java:325-339 | the result is 0 for a zero delta; otherwise `current + result` is `current + delta` clamped into `[min, max]`, so the result equals delta when that sum is already in range; from an in-range `current` the result is 0 or has delta's sign and is no larger in magnitude |
| Container.FindTarget | lib/src/main/java/com/fanwe/lib/stickyview/FStickyContainer.java:106-114 | the result is a registered wrapper whose view is the given view, and no wrapper before it in the registry wraps that view, so it is the first match of the loop; it is null exactly when no registered wrapper wraps that view |
| Container.OnViewAdded | lib/src/main/java/com/fanwe/lib/stickyview/FStickyContainer.java:84-91 | adding a child disables movement and changes nothing else |
| Container.OnViewRemoved | lib/src/main/java/com/fanwe/lib/stickyview/FStickyContainer.java:93-118 | removing a child disables movement; the new target is the registered wrapper of the last child, or null exactly when there are no children or no registered wrapper wraps the last one |
| Container.MoveKeepsWellFormed | lib/src/main/java/com/fanwe/lib/stickyview/FStickyContainer.java:313-318 | a reparent keeps each view under a single parent, and the overlay's child list matches the views whose parent is the overlay |
| Container.Detach | lib/src/main/java/com/fanwe/lib/stickyview/FStickyContainer.java:315-316 | a child leaving its parent, the overlay included, ends up with no parent and leaves the state well formed |
| Container.Attach | lib/src/main/java/com/fanwe/lib/stickyview/FStickyContainer.java:318 | a parentless view joining a wrapper or the overlay ends up with that parent and leaves the state well formed |
| Container.AddViewTo | lib/src/main/java/com/fanwe/lib/stickyview/FStickyContainer.java:304-323 | a null child, or one already under the destination, changes nothing; otherwise the child's only parent becomes the destination, it leaves the overlay's list when that was its parent, it joins at the end, keeping the target, when the overlay is the destination, and its geometry is kept; joining or leaving the overlay disables movement; when it leaves the overlay, the target becomes the first registered wrapper of the new last child, or null when there is none |
| Container.AddSticky | lib/src/main/java/com/fanwe/lib/stickyview/FStickyContainer.java:40-48 | a null or already registered wrapper leaves the state unchanged; otherwise it is appended at the end; the registry never gains a duplicate; the invariant is kept |
| Container.RemoveSticky | lib/src/main/java/com/fanwe/lib/stickyview/FStickyContainer.java:50-65 | the wrapper leaves the registry, which keeps its order; a pinned view goes back into its wrapper and leaves the child list, with the rest in order and movement disabled, and the target becomes the first registered wrapper of the new last child, or null when there is none; an unregistered wrapper changes nothing |
| Container.ReturnHomeKeepsValid | lib/src/main/java/com/fanwe/lib/stickyview/FStickyContainer.java:62 | sending a wrapped view back into its own wrapper keeps the invariant, target included |
| Container.RemoveStickyKeepsValid | lib/src/main/java/com/fanwe/lib/stickyview/FStickyContainer.java:50-65 | unregistering keeps the invariant |
| Container.RegistryKeepsValid | lib/src/main/java/com/fanwe/lib/stickyview/FStickyContainer.java:47-55 | any duplicate-free sub-list of the registry can replace it without breaking the invariant |
| Container.AddThenRemoveSticky | lib/src/main/java/com/fanwe/lib/stickyview/FStickyContainer.java:40-65 | registering an unpinned wrapper and then unregistering it restores the state exactly |
| Layout.SumHeights | lib/src/main/java/com/fanwe/lib/stickyview/FStickyContainer.java:144-154 | the stacked height is at least the height of every visible child, and GONE children add nothing |
| Layout.MaxWidth | lib/src/main/java/com/fanwe/lib/stickyview/FStickyContainer.java:144-152 | the measured width is at least every visible child's width, and it is either 0 or the width of some visible child |
| Layout.OnMeasure | lib/src/main/java/com/fanwe/lib/stickyview/FStickyContainer.java:138-173 | the measured height is the sum of the visible children's heights, and the measured width is their maximum; with a target set, `maxY` is the second-to-last child's height (0 without one) and movement is enabled; without a target both stay unchanged |
| Layout.SumSkipsGone | lib/src/main/java/com/fanwe/lib/stickyview/FStickyContainer.java:184-191 | GONE children between two positions add no height to the running top |
| Layout.PlaceChildren | lib/src/main/java/com/fanwe/lib/stickyview/FStickyContainer.java:176-193 | the layout loop places every child where the stacking rule puts it and moves no other view |
| Layout.OnLayout | lib/src/main/java/com/fanwe/lib/stickyview/FStickyContainer.java:176-193 | the stack starts at the first child's own top, or at 0 when that child is GONE; every later visible child's top is the bottom of the visible child above it; bottom is top plus height; GONE children and parents are untouched |
| Layout.LaidOutFacts | lib/src/main/java/com/fanwe/lib/stickyview/FStickyContainer.java:176-193 | after layout the stack has no gaps, parents are unchanged, and, when the last child is not GONE, the last child's bottom is the stack's start plus the total stacked height |
| Layout.LaidOutContiguous | lib/src/main/java/com/fanwe/lib/stickyview/FStickyContainer.java:187-191 | in a laid-out list, each visible child starts exactly where the previous visible child ends, whatever GONE children lie between them |
| Layout.LaidOutEnds | lib/src/main/java/com/fanwe/lib/stickyview/FStickyContainer.java:178-191 | a laid-out stack keeps the first child's top when that child is not GONE, and, when the last child is not GONE, the last child ends the total visible height below the stack's start |
| Layout.MeasureAndLayout | lib/src/main/java/com/fanwe/lib/stickyview/FStickyContainer.java:138-193 | measuring and laying out keeps the invariant, and the measured height is the stacked height; when the last child is not GONE, the pin edge `getBoundSticky(true)` lies exactly the measured height below the stack's start, exactly the last child's height below `getBoundSticky(false)`, and no visible child reaches below it |
| Layout.SumHeightsPrefix | lib/src/main/java/com/fanwe/lib/stickyview/FStickyContainer.java:144-154 | the children before any position never stack higher than the whole list |
| Layout.PinEdgeHeight | lib/src/main/java/com/fanwe/lib/stickyview/FStickyContainer.java:231-239 | after layout, when the last child is not GONE, `getBoundSticky(true)` minus `getBoundSticky(false)` is the last child's height |
| Layout.PinEdgeIsStackBottom | lib/src/main/java/com/fanwe/lib/stickyview/FStickyContainer.java:231-239 | after layout, when the last child is not GONE, no visible child's screen bottom lies below `getBoundSticky(true)`, so the pin edge is the bottom of the whole stack |
| Movement.OffsetChildren | lib/src/main/java/com/fanwe/lib/stickyview/FStickyContainer.java:295-302 | every child's top and bottom move by the same amount, and nothing else changes |
| Movement.OffsetChildrenRoundTrip | lib/src/main/java/com/fanwe/lib/stickyview/FStickyContainer.java:295-302 | offsetting by d and then by -d restores the state |
| Movement.Apply | lib/src/main/java/com/fanwe/lib/stickyview/FStickyContainer.java:215-223 | a pin puts the view in the overlay, as the last child when it was not there yet, and makes its wrapper the target; a return puts the view back in its wrapper and out of the child list |
| Movement.ApplyAll | lib/src/main/java/com/fanwe/lib/stickyview/FStickyContainer.java:269-278 | replaying the queued reparents keeps the state well formed, and leaves the registry and wrappers alone |
| Movement.ApplyKeepsValid | lib/src/main/java/com/fanwe/lib/stickyview/FStickyContainer.java:215-223 | one queued reparent of a view not yet pinned keeps the invariant, including that the target wraps the last child |
| Movement.ApplyAllKeepsValid | lib/src/main/java/com/fanwe/lib/stickyview/FStickyContainer.java:269-278 | a queue of distinct views whose pins are for unpinned views keeps the invariant when replayed |
| Movement.ApplyPinsStack | lib/src/main/java/com/fanwe/lib/stickyview/FStickyContainer.java:215-223 | replaying a safe queue of pins appends their views to the child list in queue order, and the last pin's wrapper becomes the target |
| Movement.PinsThenReturn | lib/src/main/java/com/fanwe/lib/stickyview/FStickyContainer.java:269-278 | replaying pins and then a return leaves the old children minus the returned view, followed by the pinned views in order; the target is the first registered wrapper of the new last child, or null when there is none |
| Movement.ReplayStacks | lib/src/main/java/com/fanwe/lib/stickyview/FStickyContainer.java:195-229 | replaying a tick's queue leaves the old children, minus the returned view when a return was queued, followed by the pinned views in queue order; after at least one pin the target is the last pinned wrapper |
| Movement.ApplyAllPlaces | lib/src/main/java/com/fanwe/lib/stickyview/FStickyContainer.java:215-223 | after a replay, every queued view ends where its action sends it |
| Movement.ApplyAllKeeps | lib/src/main/java/com/fanwe/lib/stickyview/FStickyContainer.java:269-278 | a replay leaves every view it does not name unchanged |
| Movement.ReplayPlaces | lib/src/main/java/com/fanwe/lib/stickyview/FStickyContainer.java:215-223 | in a replay of the pins followed by the movement step's queue, each queued view ends where its action sends it |
| Movement.PinsFor | lib/src/main/java/com/fanwe/lib/stickyview/FStickyContainer.java:202-226 | a pin is queued for exactly those wrappers that have a non-null, unpinned view whose fresh reading is at or above the pin edge; there is at most one per wrapper, and the pins follow registry order |
| Movement.ReadLocations | lib/src/main/java/com/fanwe/lib/stickyview/FStickyContainer.java:206-212 | the registry loop changes only wrapper readings |
| Movement.ReadLocationsUpdates | lib/src/main/java/com/fanwe/lib/stickyview/FStickyContainer.java:206-212 | each wrapper with an unpinned view gets exactly one fresh reading, and every other wrapper keeps its readings |
| Movement.MoveByDelta | lib/src/main/java/com/fanwe/lib/stickyview/FStickyContainer.java:255-293 | after the target's reading, a zero delta moves nothing; otherwise all children move by the clamped delta only when it is non-zero and follows the target relative to the last child's top edge; the return is queued exactly when the clamped delta is 0, the raw delta is positive, and the target lies below that edge; the target's top stays within `[0, maxY]` |
| Movement.MoveViews | lib/src/main/java/com/fanwe/lib/stickyview/FStickyContainer.java:241-293 | nothing moves when movement is off, there is no target, or the target view is null; otherwise the target takes a reading, and all children move by the clamped delta only when it is non-zero and follows the target relative to the last child's top edge; the return is queued exactly when the clamped delta is 0, the raw delta is positive, and the target lies below that edge; the target's top stays within `[0, maxY]` |
| Movement.MoveViewsSettles | lib/src/main/java/com/fanwe/lib/stickyview/FStickyContainer.java:254-257 | a second movement step with the same readings moves nothing and queues nothing |
| Movement.MoveViewsRigid | lib/src/main/java/com/fanwe/lib/stickyview/FStickyContainer.java:254-302 | the stack moves as one block, so the distance between any two children is unchanged; the target view stays put or lands on its top plus the scroll delta, clamped into `[0, maxY]` |
| Movement.MoveViewsQueue | lib/src/main/java/com/fanwe/lib/stickyview/FStickyContainer.java:260-280 | the movement step queues at most one action, the return of the target's pinned view |
| Movement.TickQueueOk | lib/src/main/java/com/fanwe/lib/stickyview/FStickyContainer.java:202-229 | a tick's queue never names a view twice and only pins views that are not yet pinned |
| Movement.TickReplays | lib/src/main/java/com/fanwe/lib/stickyview/FStickyContainer.java:195-229 | a tick is the replay, after the movement step, of the registry loop's pins followed by the movement step's return; this queue fits the moved state and can be replayed safely |
| Movement.PerformSticky | lib/src/main/java/com/fanwe/lib/stickyview/FStickyContainer.java:195-229 | with an empty registry the tick changes nothing; otherwise it keeps the registry and the set of views and stays well formed |
| Movement.PerformStickyKeepsValid | lib/src/main/java/com/fanwe/lib/stickyview/FStickyContainer.java:195-229 | a tick keeps the invariant: each wrapped view has one parent, its wrapper or the overlay, and the target wraps the last child |
| Movement.PerformStickyPins | lib/src/main/java/com/fanwe/lib/stickyview/FStickyContainer.java:210-223 | every registered, unpinned view whose reading reaches the pin edge ends the tick in the overlay |
| Movement.PerformStickyStacks | lib/src/main/java/com/fanwe/lib/stickyview/FStickyContainer.java:195-229 | after a tick the child list is the old one, minus the target's view when its return was queued, followed by the views pinned this tick in registry order; when anything was pinned, the target is the wrapper pinned last |
| Movement.PerformStickyReturnsTarget | lib/src/main/java/com/fanwe/lib/stickyview/FStickyContainer.java:260-280 | a queued return ends the tick with the target's view back in its wrapper |
| Scenarios.PinAtEdge | lib/src/main/java/com/fanwe/lib/stickyview/FStickyContainer.java:202-226 | a view whose reading moves from 600 to 480, with the edge at 500, is pinned as the only child and becomes the target |
| Scenarios.ClampedMove | lib/src/main/java/com/fanwe/lib/stickyview/FStickyContainer.java:254-292 | a target delta of -150 with travel range `[0, 100]` moves the stack by -100 only |
| Scenarios.ReturnQueued | lib/src/main/java/com/fanwe/lib/stickyview/FStickyContainer.java:259-280 | a target already at `maxY` whose reading moves down past the last child's top edge is queued to go home, and nothing moves |

## Left out

- Android plumbing has no model:
  - `Log` output, the `mIsDebug` flag and `setDebug`/`getDebugTag` have no
    effect on control flow.
  - The `setPadding`/`setLayoutParams` overrides only force constants.
  - `setReadyToMove`/`setTarget` become plain field updates.
- `measureChild`, `MeasureSpec` and `Utils.getMeasureSize` are not modelled.
  Measured sizes are fixed inputs carried by each view, and the final size
  adjustment is taken as the identity. `Utils` is not part of this model.
- `onLayout` sets only tops and bottoms. Left and right edges, and the unused
  layout arguments, are not modelled.
- The layout of a view while it hangs in its wrapper is not modelled. A view
  keeps its last top and bottom when it is reparented.
- Screen readings are inputs: the container's screen y and a reading per
  wrapper. `FStickyWrapper` is not part of this model. Only its view, location
  and last location are kept, and its `addView` is the reparent into `Host(w)`.
- A wrapper's view is fixed per wrapper (`Some` or `None`). A reference that
  becomes null between ticks is not modelled.
- The message-loop scheduling of `post` is not modelled. Posted reparents run at
  the end of the tick, in posting order, with nothing else in between.
- The exception that `addViewTo` catches is not modelled. Every reparent
  succeeds.
- Java's 32-bit `int` arithmetic is not modelled:
  - `current + delta` in `getLegalDelta` and the height sums are unbounded
    integers;
  - overflow is not modelled.
- The `mListWrapper == null` test always fails, since the list is never null.
  Only the emptiness test is modelled.
- `app/src/main/java/com/fanwe/stickyview/MainActivity.java` is activity
  scaffolding with no logic.
- Invariant assumption: different wrappers wrap different views. The code
  never checks this.
