/**
  The trim's start index is not a whole number of copies, so after a trim the buffer no
  longer begins at the head of the table, and the next growth step joins two stretches
  of the table out of order. This module shows the seam for the trim as written and
  proves that a trim starting on a block boundary keeps every buffer seamless.
 */
module TrimAlignment {
  import opened Repetition
  import opened RecyclingBuffer

  // ---------------------------------------------------------------------------
  // As written

  /** For the nine-row table, a trim of 150 copies starts at 203, five rows into a copy. */
  lemma NineRowTrimStart()
    ensures TrimStart(150 * 9, 9) == 203
    ensures TrimStart(150 * 9, 9) % 9 == 5
  {
  }

  /** Repeats compose: `a` copies followed by `b` copies are `a + b` copies. */
  lemma {:induction false} RepeatAdd<T>(block: seq<T>, a: nat, b: nat)
    requires |block| > 0
    ensures Repeat(block, a) + Repeat(block, b) == Repeat(block, a + b)
    decreases b
  {
    if b > 0 {
      RepeatAdd(block, a, b - 1);
      assert Repeat(block, a) + Repeat(block, b) == (Repeat(block, a) + Repeat(block, b - 1)) + block;
    }
  }

  /** A bottom-edge event through a clear guard on `k <= 140` copies appends 20 copies. */
  lemma BottomEventAppends(items: seq<WorkItem>, k: nat, e: ScrollEvent)
    requires |items| > 0 && k <= MaxCopies
    requires e.now >= ThrottleMs && NearBottom(e) && !NearTop(e)
    ensures Step(items, ListState(Repeat(items, k), false, 0), e) ==
              ListState(Repeat(items, k + GrowCopies), false, 0)
  {
    var n := |items|;
    var s := ListState(Repeat(items, k), false, 0);
    assert !Blocked(s, e.now);
    assert !OverMax(|s.buf|, n) by { MulMono(k, MaxCopies, n); }
    RepeatAdd(items, k, GrowCopies);
    assert NextBuffer(items, s.buf, e) == Repeat(items, k + GrowCopies);
  }

  /**
    The seam, reached from mounting. Four bottom-edge events grow the first 70 copies to
    150; an event away from both edges trims them, starting at `TrimStart(150n, n)`; a
    further bottom-edge event appends whole copies. When that start is not a multiple of
    `n` (for the nine-row table it is 203), the result is not a window onto the infinite
    repetition at any offset: the row after the last kept row is the table's first row
    instead of its successor.
   */
  lemma {:induction false} MisalignedTrimLeavesSeam(items: seq<WorkItem>, es: seq<ScrollEvent>)
    requires |items| > 0 && Distinct(items) && |es| == 6
    requires forall j :: 0 <= j < 6 ==> es[j].now >= ThrottleMs
    requires forall j :: 0 <= j < 4 ==> NearBottom(es[j]) && !NearTop(es[j])
    requires !NearBottom(es[4]) && !NearTop(es[4])
    requires NearBottom(es[5]) && !NearTop(es[5])
    requires TrimStart(150 * |items|, |items|) % |items| != 0
    ensures var s0 := ListState(Repeat(items, InitialCopies), false, 0);
            var s4 := Step(items, Step(items, Step(items, Step(items, s0, es[0]), es[1]), es[2]), es[3]);
            var s6 := Step(items, Step(items, s4, es[4]), es[5]);
            s4.buf == Repeat(items, 150) &&
            forall o :: !WindowAt(items, s6.buf, o)
  {
    var s0 := ListState(Repeat(items, InitialCopies), false, 0);
    BottomEventAppends(items, 70, es[0]);
    var s1 := Step(items, s0, es[0]);
    BottomEventAppends(items, 90, es[1]);
    var s2 := Step(items, s1, es[1]);
    BottomEventAppends(items, 110, es[2]);
    var s3 := Step(items, s2, es[2]);
    BottomEventAppends(items, 130, es[3]);
    TrimThenAppendSeam(items, es[4], es[5]);
  }

  /** From 150 aligned copies: a trim alone, then a bottom-edge append, leaves a seam. */
  lemma TrimThenAppendSeam(items: seq<WorkItem>, e4: ScrollEvent, e5: ScrollEvent)
    requires |items| > 0 && Distinct(items)
    requires e4.now >= ThrottleMs && !NearBottom(e4) && !NearTop(e4)
    requires e5.now >= ThrottleMs && NearBottom(e5) && !NearTop(e5)
    requires TrimStart(150 * |items|, |items|) % |items| != 0
    ensures var s4 := ListState(Repeat(items, 150), false, 0);
            forall o :: !WindowAt(items, Step(items, Step(items, s4, e4), e5).buf, o)
  {
    TrimOnlyStep(items, e4);
    AppendAfterMisalignedTrim(items, Step(items, ListState(Repeat(items, 150), false, 0), e4),
                              TrimStart(150 * |items|, |items|), e5);
  }

  /** A trim of 150 aligned copies leaves the window at the trim's start, 105 copies long. */
  lemma TrimOnlyStep(items: seq<WorkItem>, e: ScrollEvent)
    requires |items| > 0
    requires e.now >= ThrottleMs && !NearBottom(e) && !NearTop(e)
    ensures var s := Step(items, ListState(Repeat(items, 150), false, 0), e);
            WindowAt(items, s.buf, TrimStart(150 * |items|, |items|)) &&
            |s.buf| == KeepCopies * |items| && !s.isCloning && s.lastCloneTime == 0
  {
    var n := |items|;
    var buf := Repeat(items, 150);
    RepeatIsWindow(items, 150);
    assert |buf| % n == 0 by { ModAddMultiple(0, 150, n); }
    NextBufferWindow(items, buf, e);
  }

  /** Appending whole copies to a window that starts inside a copy leaves a seam. */
  lemma AppendAfterMisalignedTrim(items: seq<WorkItem>, s: ListState, start: int, e: ScrollEvent)
    requires |items| > 0 && Distinct(items) && start % |items| != 0
    requires WindowAt(items, s.buf, start) && |s.buf| == KeepCopies * |items|
    requires !s.isCloning && s.lastCloneTime == 0
    requires e.now >= ThrottleMs && NearBottom(e) && !NearTop(e)
    ensures forall o :: !WindowAt(items, Step(items, s, e).buf, o)
  {
    var n := |items|;
    assert Step(items, s, e).buf == s.buf + Repeat(items, GrowCopies);
    AppendWindow(items, s.buf, start, GrowCopies);
    ModAddMultiple(start, KeepCopies, n);
  }

  // ---------------------------------------------------------------------------
  // Corrected: the trim starts on a block boundary

  /** The written start rounded up to the next whole copy. */
  function AlignedTrimStart(len: nat, n: nat): (start: int)
    requires n > 0 && OverMax(len, n)
    ensures start % n == 0
    ensures TrimStart(len, n) <= start < TrimStart(len, n) + n
    ensures 0 <= start && start + KeepCopies * n <= len
  {
    var t := TrimStart(len, n);
    if t % n == 0 then t
    else
      assert t == (t / n) * n + t % n;
      ModAddMultiple(0, t / n + 1, n);
      (t / n + 1) * n
  }

  /** The trim updater with the aligned start. */
  function AlignedTrim(prev: seq<WorkItem>, len: nat, n: nat): (r: seq<WorkItem>)
    requires n > 0 && OverMax(len, n) && |prev| >= len
    ensures |r| == KeepCopies * n
    ensures forall i :: 0 <= i < |r| ==> r[i] == prev[AlignedTrimStart(len, n) + i]
  {
    var start := AlignedTrimStart(len, n);
    prev[start..start + KeepCopies * n]
  }

  /** The three updaters with the aligned trim. */
  function AlignedNextBuffer(items: seq<WorkItem>, buf: seq<WorkItem>, e: ScrollEvent): (r: seq<WorkItem>)
    requires |items| > 0
    ensures |r| == |NextBuffer(items, buf, e)|
  {
    var grown := Grown(items, buf, e);
    if OverMax(|buf|, |items|) then AlignedTrim(grown, |buf|, |items|) else grown
  }

  /** One event with the aligned trim; the guard behaves exactly as in `Step`. */
  function AlignedStep(items: seq<WorkItem>, s: ListState, e: ScrollEvent): ListState
    requires |items| > 0
  {
    var r := Step(items, s, e);
    if Blocked(s, e.now) then r else r.(buf := AlignedNextBuffer(items, s.buf, e))
  }

  /** A run of events with the aligned trim. */
  function AlignedRun(items: seq<WorkItem>, s: ListState, es: seq<ScrollEvent>): ListState
    requires |items| > 0
    decreases |es|
  {
    if es == [] then s else AlignedRun(items, AlignedStep(items, s, es[0]), es[1..])
  }

  /**
    With the aligned trim one event keeps a seamless buffer seamless: a window onto the
    infinite repetition starting at the head of the table, of whole copies, between 70
    and 180 copies long.
   */
  lemma {:induction false} AlignedNextBufferKeepsWindow(items: seq<WorkItem>, buf: seq<WorkItem>, e: ScrollEvent)
    requires |items| > 0 && Shape(items, buf) && WindowAt(items, buf, 0)
    ensures Shape(items, AlignedNextBuffer(items, buf, e))
    ensures WindowAt(items, AlignedNextBuffer(items, buf, e), 0)
  {
    GrownWindow(items, buf, e);
    GrownShape(items, buf, e);
    if OverMax(|buf|, |items|) {
      AlignedTrimWindow(items, Grown(items, buf, e), |buf|);
    }
  }

  /** An aligned trim of a window at offset 0 is a window at offset 0 of whole copies. */
  lemma AlignedTrimWindow(items: seq<WorkItem>, grown: seq<WorkItem>, len: nat)
    requires |items| > 0 && OverMax(len, |items|) && |grown| >= len
    requires WindowAt(items, grown, 0) && DrawnFrom(items, grown)
    ensures WindowAt(items, AlignedTrim(grown, len, |items|), 0)
    ensures DrawnFrom(items, AlignedTrim(grown, len, |items|))
    ensures |AlignedTrim(grown, len, |items|)| % |items| == 0
  {
    var n := |items|;
    var start := AlignedTrimStart(len, n);
    var next := AlignedTrim(grown, len, n);
    forall i | 0 <= i < |next|
      ensures next[i] == items[(0 + i) % n] && next[i] in items
    {
      assert next[i] == grown[start + i];
      ModSumAligned(start, i, n);
    }
    ModAddMultiple(0, KeepCopies, n);
  }

  /** Every buffer reached from a seamless one through the aligned trim is seamless. */
  lemma {:induction false} AlignedRunIsWindow(items: seq<WorkItem>, s: ListState, es: seq<ScrollEvent>)
    requires |items| > 0 && Shape(items, s.buf) && WindowAt(items, s.buf, 0)
    ensures Shape(items, AlignedRun(items, s, es).buf)
    ensures WindowAt(items, AlignedRun(items, s, es).buf, 0)
    decreases |es|
  {
    if es != [] {
      var s1 := AlignedStep(items, s, es[0]);
      if !Blocked(s, es[0].now) {
        AlignedNextBufferKeepsWindow(items, s.buf, es[0]);
      }
      AlignedRunIsWindow(items, s1, es[1..]);
    }
  }

  /** In particular every buffer reached after mounting is seamless. */
  lemma MountedRunIsWindow(items: seq<WorkItem>, es: seq<ScrollEvent>)
    requires |items| > 0
    ensures WindowAt(items, AlignedRun(items, ListState(Repeat(items, InitialCopies), false, 0), es).buf, 0)
  {
    InitialShape(items);
    RepeatIsWindow(items, InitialCopies);
    AlignedRunIsWindow(items, ListState(Repeat(items, InitialCopies), false, 0), es);
  }
}
