/**
  The recycling display buffer of the infinite work list, as values: the updaters that
  grow and trim the buffer, and one scroll event handled from start to finish (the
  handler's guard, its three independent edge checks, and the re-render that follows).
 */
module RecyclingBuffer {
  import opened Repetition

  /** One row of the work table. */
  datatype WorkItem = WorkItem(title: string, image: string, variant: int, url: string)

  /** Copies of the table in the first buffer. */
  const InitialCopies: nat := 70
  /** Copies added at either end by one growth step. */
  const GrowCopies: nat := 20
  /** A buffer longer than this many copies is trimmed. */
  const MaxCopies: nat := 140
  /** Copies a trim keeps. */
  const KeepCopies: nat := 105
  /** Distance from either end of the content, in pixels, at which growth starts. */
  const EdgePx: int := 30000
  /** Minimum time between two structural changes, in milliseconds. */
  const ThrottleMs: int := 150

  // ---------------------------------------------------------------------------
  // The updaters

  /** The first buffer: the table pushed `InitialCopies` times. */
  method BuildInitial(items: seq<WorkItem>) returns (copies: seq<WorkItem>)
    requires |items| > 0
    ensures copies == Repeat(items, InitialCopies)
    ensures |copies| == InitialCopies * |items|
    ensures forall i :: 0 <= i < |copies| ==> copies[i] == items[i % |items|]
  {
    copies := [];
    for k := 0 to InitialCopies
      invariant copies == Repeat(items, k)
    {
      copies := copies + items;
    }
  }

  /** The bottom-edge updater: the previous buffer followed by `GrowCopies` copies. */
  method AppendCopies(prev: seq<WorkItem>, items: seq<WorkItem>) returns (newItems: seq<WorkItem>)
    requires |items| > 0
    ensures newItems == prev + Repeat(items, GrowCopies)
    ensures |newItems| == |prev| + GrowCopies * |items|
    ensures newItems[..|prev|] == prev
    ensures forall i :: |prev| <= i < |newItems| ==> newItems[i] == items[(i - |prev|) % |items|]
  {
    newItems := prev;
    for k := 0 to GrowCopies
      invariant newItems == prev + Repeat(items, k)
    {
      newItems := newItems + items;
    }
  }

  /** The top-edge updater: `GrowCopies` copies followed by the previous buffer. */
  method PrependCopies(prev: seq<WorkItem>, items: seq<WorkItem>) returns (newItems: seq<WorkItem>)
    requires |items| > 0
    ensures newItems == Repeat(items, GrowCopies) + prev
    ensures |newItems| == GrowCopies * |items| + |prev|
    ensures newItems[GrowCopies * |items|..] == prev
    ensures forall i :: 0 <= i < GrowCopies * |items| ==> newItems[i] == items[i % |items|]
  {
    newItems := [];
    for k := 0 to GrowCopies
      invariant newItems == Repeat(items, k)
    {
      newItems := newItems + items;
    }
    newItems := newItems + prev;
  }

  /** A buffer of `len` entries is over the limit and gets trimmed. */
  predicate OverMax(len: nat, n: nat)
  {
    len > MaxCopies * n
  }

  /**
    Where the trim starts: half the handler's length, less half the kept count, both
    rounded down. The kept stretch always lies inside the first `len` entries.
   */
  function TrimStart(len: nat, n: nat): (start: int)
    requires n > 0 && OverMax(len, n)
    ensures 0 <= start && start + KeepCopies * n <= len
    ensures start + (KeepCopies * n) / 2 == len / 2
  {
    len / 2 - (KeepCopies * n) / 2
  }

  /**
    The trim updater. `len` is the length the handler saw; `prev` is the latest buffer,
    which may already carry this call's growth, so it is at least that long.
   */
  function Trim(prev: seq<WorkItem>, len: nat, n: nat): (r: seq<WorkItem>)
    requires n > 0 && OverMax(len, n) && |prev| >= len
    ensures |r| == KeepCopies * n
    ensures forall i :: 0 <= i < |r| ==> r[i] == prev[TrimStart(len, n) + i]
    ensures r[(KeepCopies * n) / 2] == prev[len / 2]
  {
    var start := TrimStart(len, n);
    prev[start..start + KeepCopies * n]
  }

  // ---------------------------------------------------------------------------
  // One scroll event

  /** What the handler reads: the clock and the container's geometry, in pixels. */
  datatype ScrollEvent = ScrollEvent(now: int, scrollTop: int, scrollHeight: int, clientHeight: int)

  predicate NearBottom(e: ScrollEvent)
  {
    e.scrollTop + e.clientHeight >= e.scrollHeight - EdgePx
  }

  predicate NearTop(e: ScrollEvent)
  {
    e.scrollTop <= EdgePx
  }

  /** The buffer and the handler's guard. */
  datatype ListState = ListState(buf: seq<WorkItem>, isCloning: bool, lastCloneTime: int)

  /** The guard drops the event: a change is in flight or the last one was too recent. */
  predicate Blocked(s: ListState, now: int)
  {
    s.isCloning || now - s.lastCloneTime < ThrottleMs
  }

  /** At least one of the three checks fires for a buffer of `len` entries. */
  predicate Fires(e: ScrollEvent, len: nat, n: nat)
  {
    NearBottom(e) || NearTop(e) || OverMax(len, n)
  }

  /** The buffer after the two growth updaters, applied in the order they are queued. */
  function Grown(items: seq<WorkItem>, buf: seq<WorkItem>, e: ScrollEvent): seq<WorkItem>
    requires |items| > 0
  {
    var appended := if NearBottom(e) then buf + Repeat(items, GrowCopies) else buf;
    if NearTop(e) then Repeat(items, GrowCopies) + appended else appended
  }

  /**
    The buffer once all three updaters have run. The trim test and its start use the
    length the handler saw, `|buf|`, while the trim slices the already grown buffer.
   */
  function NextBuffer(items: seq<WorkItem>, buf: seq<WorkItem>, e: ScrollEvent): (r: seq<WorkItem>)
    requires |items| > 0
    ensures OverMax(|buf|, |items|) ==> |r| == KeepCopies * |items|
    ensures !OverMax(|buf|, |items|) ==> r == Grown(items, buf, e)
    ensures Fires(e, |buf|, |items|) <==> |r| != |buf|
  {
    var grown := Grown(items, buf, e);
    if OverMax(|buf|, |items|) then Trim(grown, |buf|, |items|) else grown
  }

  /**
    The handler alone: each check that fires marks a change in flight at `now` and queues
    its updater; the buffer shown is the one the queued updaters produce.
   */
  function Handler(items: seq<WorkItem>, s: ListState, e: ScrollEvent): (r: ListState)
    requires |items| > 0
  {
    if Blocked(s, e.now) || !Fires(e, |s.buf|, |items|) then s
    else ListState(NextBuffer(items, s.buf, e), true, e.now)
  }

  /**
    The re-render after the handler. The listener is re-installed whenever the buffer
    length changes, and the new listener starts with a fresh guard.
   */
  function Rerender(before: ListState, after: ListState): ListState
  {
    if |after.buf| != |before.buf| then after.(isCloning := false, lastCloneTime := 0) else after
  }

  /** One scroll event, handled and rendered. */
  function Step(items: seq<WorkItem>, s: ListState, e: ScrollEvent): (r: ListState)
    requires |items| > 0
    ensures Blocked(s, e.now) ==> r == s
    ensures !Blocked(s, e.now) ==> r.buf == NextBuffer(items, s.buf, e)
    ensures r == s || (|r.buf| != |s.buf| && !r.isCloning && r.lastCloneTime == 0)
  {
    Rerender(s, Handler(items, s, e))
  }

  /** The length, period and contents every buffer of the list keeps. */
  predicate Shape(items: seq<WorkItem>, buf: seq<WorkItem>)
    requires |items| > 0
  {
    && |buf| % |items| == 0
    && InitialCopies * |items| <= |buf| <= (MaxCopies + 2 * GrowCopies) * |items|
    && DrawnFrom(items, buf)
  }

  // ---------------------------------------------------------------------------
  // Properties of one step

  /** The first buffer has the shape. */
  lemma InitialShape(items: seq<WorkItem>)
    requires |items| > 0
    ensures Shape(items, Repeat(items, InitialCopies))
    ensures |Repeat(items, InitialCopies)| == InitialCopies * |items|
  {
    ModAddMultiple(0, InitialCopies, |items|);
    RepeatIsWindow(items, InitialCopies);
  }

  /**
    Every step keeps the shape: the length stays a whole number of copies, never drops
    below the initial 70 copies, and never exceeds 180 copies (an event that sees at most
    140 copies can add two growth steps). The bound is loose: from mounting the buffer
    never holds more than 170 copies (`MountedCopies`). An event
    that sees more than 140 copies and gets through the guard leaves exactly 105.
   */
  lemma {:induction false} StepKeepsShape(items: seq<WorkItem>, s: ListState, e: ScrollEvent)
    requires |items| > 0 && Shape(items, s.buf)
    ensures Shape(items, Step(items, s, e).buf)
    ensures !Blocked(s, e.now) && OverMax(|s.buf|, |items|) ==>
              |Step(items, s, e).buf| == KeepCopies * |items|
  {
    var n := |items|;
    var buf := s.buf;
    if !Blocked(s, e.now) {
      var grown := Grown(items, buf, e);
      GrownShape(items, buf, e);
      var next := NextBuffer(items, buf, e);
      if OverMax(|buf|, n) {
        var start := TrimStart(|buf|, n);
        assert next == grown[start..start + KeepCopies * n];
        assert DrawnFrom(items, next) by {
          forall i | 0 <= i < |next| ensures next[i] in items {
            assert next[i] == grown[start + i];
          }
        }
        assert |next| % n == 0 by { ModAddMultiple(0, KeepCopies, n); }
      }
    }
  }

  /** Growth keeps the entries drawn from the table and adds whole copies, at most two growth steps. */
  lemma GrownShape(items: seq<WorkItem>, buf: seq<WorkItem>, e: ScrollEvent)
    requires |items| > 0 && DrawnFrom(items, buf) && |buf| % |items| == 0
    ensures DrawnFrom(items, Grown(items, buf, e))
    ensures |Grown(items, buf, e)| % |items| == 0
    ensures |buf| <= |Grown(items, buf, e)| <= |buf| + 2 * GrowCopies * |items|
  {
    var n := |items|;
    var r := Repeat(items, GrowCopies);
    RepeatIsWindow(items, GrowCopies);
    var appended := if NearBottom(e) then buf + r else buf;
    assert DrawnFrom(items, appended) by {
      forall i | 0 <= i < |appended| ensures appended[i] in items {
        if i < |buf| { assert appended[i] == buf[i]; } else { assert appended[i] == r[i - |buf|]; }
      }
    }
    assert |appended| % n == 0 by { ModAddMultiple(|buf|, GrowCopies, n); }
    var grown := Grown(items, buf, e);
    assert DrawnFrom(items, grown) by {
      forall i | 0 <= i < |grown| ensures grown[i] in items {
        if NearTop(e) {
          if i < |r| { assert grown[i] == r[i]; } else { assert grown[i] == appended[i - |r|]; }
        }
      }
    }
    assert |grown| % n == 0 by { ModAddMultiple(|appended|, GrowCopies, n); }
  }

  /**
    The guard is never left set: a call that fires always changes the length, so the
    re-render hands the next event a fresh guard, and one that does not fire changes
    nothing. Hence the 150 ms throttle only compares the clock against zero.
   */
  lemma GuardStaysClear(items: seq<WorkItem>, s: ListState, e: ScrollEvent)
    requires |items| > 0 && !s.isCloning && s.lastCloneTime == 0
    ensures !Step(items, s, e).isCloning && Step(items, s, e).lastCloneTime == 0
  {
  }

  /** From a clear guard, an event is dropped only when the clock reads under 150 ms. */
  lemma ThrottleOnlyBeforeStartup(s: ListState, now: int)
    requires !s.isCloning && s.lastCloneTime == 0
    ensures Blocked(s, now) <==> now < ThrottleMs
  {
  }

  /**
    The three checks are independent: one event can append, prepend and trim. Each
    fired check marks a change in flight at `now`, and the trim then slices the buffer
    that already carries both growths.
   */
  lemma BranchesFireTogether(items: seq<WorkItem>, s: ListState, e: ScrollEvent)
    requires |items| > 0 && !Blocked(s, e.now)
    requires NearBottom(e) && NearTop(e) && OverMax(|s.buf|, |items|)
    ensures Handler(items, s, e).isCloning && Handler(items, s, e).lastCloneTime == e.now
    ensures Handler(items, s, e).buf ==
              Trim(Repeat(items, GrowCopies) + (s.buf + Repeat(items, GrowCopies)), |s.buf|, |items|)
  {
  }

  /**
    A prepend in the same call as a trim moves the kept stretch: the trim centres on the
    handler's midpoint, but counts it in the buffer that now starts with 20 new copies,
    so the middle of what is kept is the entry 20 copies before the old midpoint.
   */
  lemma {:induction false} PrependShiftsTrimCentre(items: seq<WorkItem>, s: ListState, e: ScrollEvent)
    requires |items| > 0 && Shape(items, s.buf) && !Blocked(s, e.now)
    requires NearTop(e) && OverMax(|s.buf|, |items|)
    ensures Step(items, s, e).buf[(KeepCopies * |items|) / 2] ==
              s.buf[|s.buf| / 2 - GrowCopies * |items|]
  {
    var n := |items|;
    var buf := s.buf;
    var r := Repeat(items, GrowCopies);
    var appended := if NearBottom(e) then buf + r else buf;
    var grown := r + appended;
    assert Grown(items, buf, e) == grown;
    assert |buf| / 2 >= GrowCopies * n;
    assert grown[|buf| / 2] == appended[|buf| / 2 - GrowCopies * n];
  }

  /**
    Nothing caps the buffer at 140 copies: from 130 copies, which three bottom-edge events
    reach from mounting, a bottom-edge event grows the buffer to 150 copies, and one at
    both edges to 170, before the next event trims it.
   */
  lemma GrowthPassesMax(items: seq<WorkItem>, s: ListState, e: ScrollEvent)
    requires |items| > 0 && |s.buf| == 130 * |items| && !Blocked(s, e.now) && NearBottom(e)
    ensures |Step(items, s, e).buf| == (if NearTop(e) then 170 else 150) * |items|
    ensures |Step(items, s, e).buf| > MaxCopies * |items|
  {
    StepCopies(items, s, e, 130);
  }

  // ---------------------------------------------------------------------------
  // The copy counts the list reaches

  /**
    The copy count after one event that gets through the guard: over 140 the trim keeps
    105, otherwise each edge that is near adds 20.
   */
  function NextCopies(c: nat, e: ScrollEvent): nat
  {
    if c > MaxCopies then KeepCopies
    else c + (if NearBottom(e) then GrowCopies else 0) + (if NearTop(e) then GrowCopies else 0)
  }

  /** The copy counts reachable from the first buffer, 70 copies. */
  const ReachableCopies: seq<nat> := [70, 90, 110, 130, 150, 170, 105, 125, 145, 165]

  /** `len` entries are a reachable number of copies of an `n`-row table. */
  predicate ReachableLength(len: nat, n: nat)
  {
    exists j :: 0 <= j < |ReachableCopies| && len == ReachableCopies[j] * n
  }

  /** One event, in copies: a blocked event keeps the count, any other one moves it by `NextCopies`. */
  lemma StepCopies(items: seq<WorkItem>, s: ListState, e: ScrollEvent, c: nat)
    requires |items| > 0 && |s.buf| == c * |items|
    ensures |Step(items, s, e).buf| == (if Blocked(s, e.now) then c else NextCopies(c, e)) * |items|
  {
    var n := |items|;
    if !Blocked(s, e.now) {
      if c > MaxCopies {
        assert c * n > MaxCopies * n by { MulMono(MaxCopies + 1, c, n); }
      } else {
        MulMono(c, MaxCopies, n);
        var b := if NearBottom(e) then GrowCopies else 0;
        var t := if NearTop(e) then GrowCopies else 0;
        assert |Grown(items, s.buf, e)| == c * n + b * n + t * n;
        assert (c + b + t) * n == c * n + b * n + t * n;
      }
    }
  }

  lemma MulMono(a: nat, b: nat, n: nat)
    requires a <= b
    ensures a * n <= b * n
  {
  }

  /** The reachable counts are closed under one event. */
  lemma NextCopiesReachable(j: nat, e: ScrollEvent)
    requires j < |ReachableCopies|
    ensures NextCopies(ReachableCopies[j], e) in ReachableCopies
  {
  }

  /** A series of events, handled and rendered one after another. */
  function Run(items: seq<WorkItem>, s: ListState, es: seq<ScrollEvent>): ListState
    requires |items| > 0
    decreases |es|
  {
    if es == [] then s else Run(items, Step(items, s, es[0]), es[1..])
  }

  /** Every series of events keeps the buffer at a reachable number of copies. */
  lemma {:induction false} RunKeepsReachableLength(items: seq<WorkItem>, s: ListState, es: seq<ScrollEvent>)
    requires |items| > 0 && ReachableLength(|s.buf|, |items|)
    ensures ReachableLength(|Run(items, s, es).buf|, |items|)
    decreases |es|
  {
    if es != [] {
      var n := |items|;
      var j :| 0 <= j < |ReachableCopies| && |s.buf| == ReachableCopies[j] * n;
      var c := ReachableCopies[j];
      StepCopies(items, s, es[0], c);
      var c1 := if Blocked(s, es[0].now) then c else NextCopies(c, es[0]);
      NextCopiesReachable(j, es[0]);
      assert c1 in ReachableCopies;
      var j1 :| 0 <= j1 < |ReachableCopies| && ReachableCopies[j1] == c1;
      assert ReachableLength(|Step(items, s, es[0]).buf|, n);
      RunKeepsReachableLength(items, Step(items, s, es[0]), es[1..]);
    }
  }

  /**
    From mounting, the buffer only ever holds 70, 90, 110, 130, 150, 170, 105, 125, 145
    or 165 copies: never fewer than 70 and never more than 170.
   */
  lemma MountedCopies(items: seq<WorkItem>, es: seq<ScrollEvent>)
    requires |items| > 0
    ensures var len := |Run(items, ListState(Repeat(items, InitialCopies), false, 0), es).buf|;
            ReachableLength(len, |items|) &&
            InitialCopies * |items| <= len <= 170 * |items|
  {
    var n := |items|;
    var s0 := ListState(Repeat(items, InitialCopies), false, 0);
    assert ReachableCopies[0] == InitialCopies;
    RunKeepsReachableLength(items, s0, es);
    var len := |Run(items, s0, es).buf|;
    var j :| 0 <= j < |ReachableCopies| && len == ReachableCopies[j] * n;
    MulMono(InitialCopies, ReachableCopies[j], n);
    MulMono(ReachableCopies[j], 170, n);
  }

  /**
    Tracking the window onto the infinite repetition through one step that starts from a
    block-aligned window: growth keeps offset 0, and a trim moves the offset to its
    start index.
   */
  lemma {:induction false} NextBufferWindow(items: seq<WorkItem>, buf: seq<WorkItem>, e: ScrollEvent)
    requires |items| > 0 && |buf| % |items| == 0
    requires WindowAt(items, buf, 0)
    ensures OverMax(|buf|, |items|) ==>
              WindowAt(items, NextBuffer(items, buf, e), TrimStart(|buf|, |items|))
    ensures !OverMax(|buf|, |items|) ==> WindowAt(items, NextBuffer(items, buf, e), 0)
  {
    var n := |items|;
    var grown := Grown(items, buf, e);
    GrownWindow(items, buf, e);
    if OverMax(|buf|, n) {
      var start := TrimStart(|buf|, n);
      WindowSlice(items, grown, 0, start, start + KeepCopies * n);
      assert NextBuffer(items, buf, e) == grown[start..start + KeepCopies * n];
    }
  }

  /**
    Growth of a block-aligned window whose length is whole copies keeps it a window at
    offset 0, whatever the table's rows are.
   */
  lemma GrownWindow(items: seq<WorkItem>, buf: seq<WorkItem>, e: ScrollEvent)
    requires |items| > 0 && |buf| % |items| == 0
    requires WindowAt(items, buf, 0)
    ensures WindowAt(items, Grown(items, buf, e), 0)
  {
    var appended := if NearBottom(e) then buf + Repeat(items, GrowCopies) else buf;
    if NearBottom(e) {
      AppendKeepsWindow(items, buf, 0, GrowCopies);
    }
    if NearTop(e) {
      PrependKeepsWindow(items, appended, 0, GrowCopies);
    }
  }

  // ---------------------------------------------------------------------------
  // Scroll compensation for the top edge

  /**
    The pixel height the top-edge branch adds to the scroll position: the average row
    height (content height over the handler's length) times the rows prepended.
   */
  function PrependedHeight(scrollHeight: int, len: nat, n: nat): real
    requires len > 0
  {
    (scrollHeight as real / len as real) * ((n * GrowCopies) as real)
  }

  /**
    When every row is `h` pixels high, the compensation is exactly the height of the
    prepended rows, so the row at the top of the viewport stays there.
   */
  lemma PrependedHeightIsBlockHeight(scrollHeight: int, len: nat, n: nat, h: real)
    requires len > 0 && scrollHeight as real == len as real * h
    ensures PrependedHeight(scrollHeight, len, n) == (n * GrowCopies) as real * h
  {
    assert scrollHeight as real / len as real == h;
  }
}
