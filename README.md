# Infinite work list — a Dafny model

This project models the "work" page of a personal portfolio site. The page shows a
fixed table of nine projects. The `InfiniteWorkList` component turns that table into a
list that seems endless: it renders a display buffer of repeated copies of the table and
recycles it as the user scrolls. The page keeps a small hover state, and a preview panel
shows the image of the hovered row.

The display buffer's life:

- **Mount.** The buffer starts as 70 copies of the table.
- **Scroll handler.** The handler runs on every scroll event. It is guarded by a busy
  flag (`isCloning`) and a 150 ms throttle (`lastCloneTime`). It then makes three
  independent checks:
  - near the bottom, it appends 20 copies;
  - near the top, it prepends 20 copies and moves the scroll position down by their
    height;
  - when the buffer holds more than 140 copies, it trims the buffer to 105 copies around
    its midpoint.
- **Re-render.** The listener belongs to an effect that depends on the buffer length. So
  every length change installs a new listener with a fresh guard.

Files and modules:

- `repetition.dfy` (`Repetition`): `k` copies of a block (`Repeat`), and windows onto
  the block's infinite repetition (`WindowAt`). It proves when appending or prepending
  whole copies keeps a window seamless.
- `buffer.dfy` (`RecyclingBuffer`): the three updaters and the trim arithmetic. It also
  holds one scroll event as a value: the guard, the three checks and the re-render
  (`Step`). The lemmas cover the buffer's length, period and contents, the guard, and
  the scroll compensation.
- `infinite_work_list.dfy` (`InfiniteWorkList`): the component as a class. Its fields
  are the rendered rows, the guard and the container's scroll position. `HandleScroll`
  is proved against `Step`, and the class invariant is the buffer shape `StepKeepsShape`
  proves.
- `trim_alignment.dfy` (`TrimAlignment`): the seam that the trim leaves (see
  Findings), and a block-aligned trim that is proved to keep every buffer seamless.
- `work.dfy` (`Work`): the project table, the hover state as a class and as a replay of
  mouse events, the preview panel, and how the list's rows connect to the page.

Where the code and its own comment disagree, the model follows the code. The comment
says "keep between 70-140 copies". Only the lower bound holds. From mounting the buffer
only ever holds 70, 90, 110, 130, 150, 170, 105, 125, 145 or 165 copies (`MountedCopies`),
so it reaches 170 copies before the next event trims it (`GrowthPassesMax`). The trim is
centred on the midpoint of the whole buffer, not on the visible row. There is no error
path for an empty table: a non-empty table is a precondition. A missing container only
means that no listener is attached.

Every buffer the component reaches satisfies:

- its length is a whole number of copies, between 70 and 170 copies, and one of the ten
  counts listed above (`MountedCopies`); the class invariant `Shape` uses the looser bound
  of 180 copies, which holds after any event from any buffer of at most 180 copies
  (`StepKeepsShape`);
- every row is a row of the table;
- an event that gets through the guard and sees more than 140 copies leaves exactly 105.

The guard is never left set in a reachable state (`GuardStaysClear`), because every event
that fires changes the length and so re-creates the guard. The throttle therefore compares
the clock only against 0 (`ThrottleOnlyBeforeStartup`).

## Model

| member | source | states |
|---|---|---|
| `Repetition.Repeat` | src/components/InfiniteWorkList.tsx:29-33 | pushing the table k times gives k·n rows, and row i is table row i mod n |
| `Repetition.WindowSlice` | src/components/InfiniteWorkList.tsx:129 | a contiguous slice of a window is a window whose offset moves by the slice's start |
| `Repetition.AppendKeepsWindow` | src/components/InfiniteWorkList.tsx:83-90 | appending copies to a window that ends on a copy boundary gives a window at the same offset, whatever the table's rows |
| `Repetition.AppendWindow` | src/components/InfiniteWorkList.tsx:83-90 | appending copies to a window (distinct rows) gives a window at the same offset exactly when the window ends on a copy boundary; otherwise no offset at all makes it a window |
| `Repetition.PrependKeepsWindow` | src/components/InfiniteWorkList.tsx:100-108 | prepending copies to a window that starts on a copy boundary gives a window at offset 0, whatever the table's rows |
| `Repetition.PrependWindow` | src/components/InfiniteWorkList.tsx:100-108 | prepending copies to a window (distinct rows) gives a window at offset 0 exactly when the window starts on a copy boundary; otherwise no offset makes it a window |
| `RecyclingBuffer.BuildInitial` | src/components/InfiniteWorkList.tsx:27-34 | the loop builds 70 copies: 70·n rows, and row i is `items[i mod n]` |
| `RecyclingBuffer.AppendCopies` | src/components/InfiniteWorkList.tsx:83-90 | the loop adds exactly 20·n rows at the end; the old buffer is an unchanged prefix and the new rows are the table in order |
| `RecyclingBuffer.PrependCopies` | src/components/InfiniteWorkList.tsx:100-108 | the loop adds exactly 20·n rows at the front; the old buffer is an unchanged suffix and the new rows are the table in order |
| `RecyclingBuffer.TrimStart` | src/components/InfiniteWorkList.tsx:125-127 | when L > 140·n, start = floor(L/2) − floor(105·n/2); it is ≥ 0, start + 105·n ≤ L, and the kept stretch is centred on floor(L/2) |
| `RecyclingBuffer.Trim` | src/components/InfiniteWorkList.tsx:121-129 | given L > 140·n and at least L rows in `prev`, it returns exactly 105·n contiguous rows of `prev` from the start index, and the row at `prev[L/2]` becomes the middle row |
| `RecyclingBuffer.NextBuffer` | src/components/InfiniteWorkList.tsx:80-129 | after the three updaters in queue order: over 140 copies it leaves 105·n rows; otherwise it gives the grown buffer; the length changes exactly when some check fires |
| `RecyclingBuffer.Step` | src/components/InfiniteWorkList.tsx:68-139 | a guarded event changes nothing; an event that gets through applies `NextBuffer`; the result either equals the old state or has a new length and a cleared guard (the effect re-runs on a length change) |
| `RecyclingBuffer.InitialShape` | src/components/InfiniteWorkList.tsx:27-34 | the first buffer has 70·n rows, a whole number of copies, every row from the table |
| `RecyclingBuffer.StepKeepsShape` | src/components/InfiniteWorkList.tsx:121-129 | every event keeps a whole number of copies, between 70 and 180 copies, every row from the table; an unblocked event that sees more than 140 copies leaves exactly 105 |
| `RecyclingBuffer.GrownShape` | src/components/InfiniteWorkList.tsx:80-108 | growth keeps every row from the table and a whole number of copies, and adds at most 40 copies |
| `RecyclingBuffer.GuardStaysClear` | src/components/InfiniteWorkList.tsx:65-73 | from a clear guard, every event leaves the guard clear: `isCloning` false and `lastCloneTime` 0 |
| `RecyclingBuffer.ThrottleOnlyBeforeStartup` | src/components/InfiniteWorkList.tsx:69-73 | with a clear guard, an event is dropped exactly when the clock reads under 150 ms |
| `RecyclingBuffer.BranchesFireTogether` | src/components/InfiniteWorkList.tsx:80-129 | one event can append, prepend and trim; each fired branch sets `isCloning` and `lastCloneTime := now`, and the trim slices the buffer grown at both ends |
| `RecyclingBuffer.PrependShiftsTrimCentre` | src/components/InfiniteWorkList.tsx:95-129 | when a prepend and a trim fire together, the middle kept row is the row 20 copies before the old midpoint |
| `RecyclingBuffer.GrowthPassesMax` | src/components/InfiniteWorkList.tsx:83-122 | nothing caps the buffer at 140 copies: from 130 copies a bottom-edge event grows it to 150 copies, and one at both edges to 170 |
| `RecyclingBuffer.StepCopies` | src/components/InfiniteWorkList.tsx:68-129 | in copies, a blocked event keeps the count; any other event trims a count over 140 to 105, and otherwise adds 20 for each edge that is near |
| `RecyclingBuffer.NextCopiesReachable` | src/components/InfiniteWorkList.tsx:83-129 | one event from a reachable count (70, 90, 110, 130, 150, 170, 105, 125, 145, 165) gives a reachable count |
| `RecyclingBuffer.RunKeepsReachableLength` | src/components/InfiniteWorkList.tsx:68-139 | any series of events from a reachable count of copies keeps the count reachable |
| `RecyclingBuffer.MountedCopies` | src/components/InfiniteWorkList.tsx:27-34 | after mounting and any series of events, the buffer holds a reachable count of copies, between 70 and 170 |
| `RecyclingBuffer.NextBufferWindow` | src/components/InfiniteWorkList.tsx:83-129 | from a block-aligned window, growth keeps offset 0 and a trim moves the offset to its start index |
| `RecyclingBuffer.GrownWindow` | src/components/InfiniteWorkList.tsx:83-108 | growing a block-aligned window of whole copies keeps it a window at offset 0 |
| `RecyclingBuffer.PrependedHeightIsBlockHeight` | src/components/InfiniteWorkList.tsx:98 | with rows h pixels high, the scroll compensation equals the height of the prepended 20·n rows |
| `InfiniteWorkList.WorkList.constructor` | src/components/InfiniteWorkList.tsx:27-38 | mounting: 70 copies, clear guard, and a listener only when the container exists |
| `InfiniteWorkList.WorkList.HandleScroll` | src/components/InfiniteWorkList.tsx:68-139 | the new buffer and guard are `Step` of the old ones (unchanged once unmounted or without a container); the buffer shape invariant holds; the scroll position grows by the prepended height exactly when the top branch fires |
| `InfiniteWorkList.WorkList.ClearBusy` | src/components/InfiniteWorkList.tsx:91 | the timeout clears `isCloning` and changes nothing else |
| `InfiniteWorkList.WorkList.Recenter` | src/components/InfiniteWorkList.tsx:131-136 | the deferred re-centring sets the scroll position to half the content height and leaves the buffer and guard alone |
| `InfiniteWorkList.WorkList.Unmount` | src/components/InfiniteWorkList.tsx:157-159 | after cleanup no listener is attached, so later events change nothing |
| `TrimAlignment.NineRowTrimStart` | src/components/InfiniteWorkList.tsx:125-127 | for n = 9 and 150 copies, the trim starts at 203, five rows into a copy |
| `TrimAlignment.MisalignedTrimLeavesSeam` | src/components/InfiniteWorkList.tsx:121-129 | from mounting, four bottom-edge events reach 150 copies; a trim, then a bottom-edge event, leaves a buffer that is a window at no offset whenever the trim start is not a multiple of n |
| `TrimAlignment.TrimThenAppendSeam` | src/components/InfiniteWorkList.tsx:83-129 | from 150 aligned copies, a trim and then an append leave a seam whenever the trim start is not a multiple of n |
| `TrimAlignment.AlignedTrimStart` | src/components/InfiniteWorkList.tsx:125-127 | corrected start: a multiple of n, no more than one copy after the written start, and the 105 kept copies still fit in L |
| `TrimAlignment.AlignedNextBufferKeepsWindow` | src/components/InfiniteWorkList.tsx:80-129 | with the corrected trim, one event keeps a seamless buffer seamless: a window at offset 0 with the same shape |
| `TrimAlignment.AlignedRunIsWindow` | src/components/InfiniteWorkList.tsx:68-139 | with the corrected trim, every buffer reached from a seamless one by any series of events is seamless |
| `TrimAlignment.MountedRunIsWindow` | src/components/InfiniteWorkList.tsx:27-34 | with the corrected trim, every buffer reached after mounting is a window onto the infinite repetition |
| `Work.ItemsTableFacts` | src/Work.tsx:5-15 | the table has 9 distinct rows; every image is set and every variant is in {1,2,3}; the first buffer has 630 rows |
| `Work.NoPreviewInitially` | src/Work.tsx:19-20 | initially the image is "" and the variant 1, so no preview shows |
| `Work.LastEventWins` | src/Work.tsx:97-104 | after any series of hover/leave events, the image is the last hovered one if the last event was a hover and "" otherwise; the variant is that of the last hover, kept across leaves |
| `Work.PreviewFollowsLastEvent` | src/components/InfiniteWorkList.tsx:181-185 | the preview shows exactly when the last event was a hover on a row with an image |
| `Work.HoverInitialRow` | src/components/InfiniteWorkList.tsx:165-177 | hovering row i of the first buffer previews table row i mod 9 with its own variant |
| `Work.HoverAnyRow` | src/components/InfiniteWorkList.tsx:172 | in any buffer drawn from the table, hovering a row previews some table row with that row's variant |
| `Work.WorkPage.constructor` | src/Work.tsx:19-20 | the page starts with image "" and variant 1 |
| `Work.WorkPage.HandleItemHover` | src/Work.tsx:97-100 | sets the image and the variant to exactly the reported ones |
| `Work.WorkPage.HandleItemLeave` | src/Work.tsx:102-104 | clears the image and keeps the variant |
| `Work.Mount` | src/Work.tsx:148-154 | the page passes its 9-row table to the list: 630 rows, row i is `Items[i mod 9]`, nothing hovered |
| `Work.MouseEnterRow` | src/components/InfiniteWorkList.tsx:172 | mouse-enter on row i reports that row's image and variant, so the preview shows that row |
| `Work.MouseLeaveRow` | src/components/InfiniteWorkList.tsx:173 | mouse-leave calls the page's leave handler, and the preview hides |

## Findings

| source | as written | input that shows it | evidently intended | confidence | as-written member | corrected member |
|---|---|---|---|---|---|---|
| src/components/InfiniteWorkList.tsx:125-129 | `startIndex = floor(L/2) − floor(105·n/2)` is usually not a multiple of n, so after a trim the buffer starts inside a copy of the table, and the next append or prepend joins two stretches of the table out of order | the 9-row table: from 70 copies, four bottom-edge scrolls reach 150 copies (1350 rows); the next event trims from row 203 (203 mod 9 = 5); the next bottom-edge scroll appends "z" right after "red hot chilli peppers" instead of "naughty cat" | the trim keeps whole copies (start on a copy boundary), so the list stays one seamless repetition of the table | not executed; high | `TrimAlignment.MisalignedTrimLeavesSeam` | `TrimAlignment.AlignedRunIsWindow` |

The class `InfiniteWorkList.WorkList` keeps the trim as written. The corrected trim
(`AlignedTrimStart`, `AlignedNextBuffer`, `AlignedStep`) is used by the lemmas in
`TrimAlignment`.

## Left out

- The smooth-scroll driver (Lenis) is left out: its construction, its velocity clamping
  at 1700 px/s, its animation-frame loop and its `scrollTo`. The position the handler
  reads (`lenis.scroll || container.scrollTop`) is an input, `top`, and the driver moving
  the container is the `ScrollTo` step.
- `setTimeout` and `requestAnimationFrame` scheduling is left out. The 100 ms busy
  timeouts are the explicit `ClearBusy` step, and the double-frame re-centrings are the
  explicit `Recenter` step. How these callbacks interleave with scroll events is not
  modelled.
- Browser geometry is left out. Pixel inputs are integers. The top-edge compensation is
  computed over `real` in place of floating point, and the browser's clamping of
  `scrollTop` to the content is not modelled.
- React scheduling is simplified. `HandleScroll` assumes that React renders the updates
  an event queued before the next event arrives. A second event that reaches the old
  listener before that render, and so trims with a stale length, is not modelled. So is a
  stale timeout that clears an old listener's flag.
- `InfiniteWorkList.WorkList.HandleScroll`: the top-edge compensation is applied at once
  to the modelled container position. The source reads the container two frames later.
- Unmounting destroys the driver, but deferred frame callbacks that are already scheduled
  still run in the source. The model does not cancel or run them.
- Row markup (link target, title text) is left out; only each row's data and its two
  mouse callbacks are modelled.
- The rest of `src/Work.tsx` is not part of this model: the menu toggle, link-click
  navigation, page-transition timers and `sessionStorage`. Neither are `src/App.tsx`,
  `src/About.tsx`, the animation hooks or `src/main.tsx`. They are DOM, animation and
  routing code with no buffer logic.
