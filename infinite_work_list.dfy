/**
  The infinite work list as a component instance: the rendered buffer, the scroll
  listener's busy flag and throttle timestamp, and the container's scroll position.
  Each method is one thing that happens to the component; `HandleScroll` is proved
  against the one-event specification `Step`.
 */
module InfiniteWorkList {
  import opened Repetition
  import opened RecyclingBuffer

  class WorkList {
    /** The table the list repeats; never changed. */
    const items: seq<WorkItem>
    /** The rows currently rendered. */
    var displayItems: seq<WorkItem>
    /** A scroll listener is attached (the container was found and the list is mounted). */
    var listening: bool
    var isCloning: bool
    var lastCloneTime: int
    /** The container's scroll position, in pixels. */
    var scrollTop: real

    ghost predicate Valid()
      reads this
    {
      |items| > 0 && Shape(items, displayItems)
    }

    /** The part of the state the scroll handler reads and writes. */
    ghost function State(): ListState
      reads this
    {
      ListState(displayItems, isCloning, lastCloneTime)
    }

    /**
      Mounting: the buffer starts as 70 copies of the table and the guard is clear. When
      the container is missing the effect returns early and no listener is attached.
     */
    constructor (items: seq<WorkItem>, containerPresent: bool)
      requires |items| > 0
      ensures Valid() && this.items == items
      ensures displayItems == Repeat(items, InitialCopies)
      ensures |displayItems| == InitialCopies * |items|
      ensures listening == containerPresent
      ensures !isCloning && lastCloneTime == 0 && scrollTop == 0.0
    {
      var copies := BuildInitial(items);
      InitialShape(items);
      this.items := items;
      displayItems := copies;
      listening := containerPresent;
      isCloning := false;
      lastCloneTime := 0;
      scrollTop := 0.0;
    }

    /**
      One scroll event from the smooth-scroll driver, followed by the render of the
      updaters it queued. `top` is the position the handler reads; the top-edge branch
      adds the prepended height to the container's position.
     */
    method HandleScroll(now: int, top: int, scrollHeight: int, clientHeight: int)
      requires Valid()
      modifies this
      ensures Valid() && listening == old(listening)
      ensures State() ==
                if old(listening) then Step(items, old(State()), ScrollEvent(now, top, scrollHeight, clientHeight))
                else old(State())
      ensures scrollTop == old(scrollTop) +
                if old(listening) && !Blocked(old(State()), now) && top <= EdgePx
                then PrependedHeight(scrollHeight, old(|displayItems|), |items|) else 0.0
    {
      if !listening {
        return;
      }
      if isCloning {
        return;
      }
      if now - lastCloneTime < ThrottleMs {
        return;
      }
      ghost var s0 := State();
      ghost var e := ScrollEvent(now, top, scrollHeight, clientHeight);
      var len := |displayItems|;
      var next := displayItems;

      if top + clientHeight >= scrollHeight - EdgePx {
        isCloning := true;
        lastCloneTime := now;
        next := AppendCopies(next, items);
      }

      if top <= EdgePx {
        isCloning := true;
        lastCloneTime := now;
        var itemsHeight := PrependedHeight(scrollHeight, len, |items|);
        next := PrependCopies(next, items);
        scrollTop := scrollTop + itemsHeight;
      }

      if len > |items| * MaxCopies {
        isCloning := true;
        lastCloneTime := now;
        next := Trim(next, len, |items|);
      }

      // The render: a length change re-runs the effect, which starts a new guard.
      displayItems := next;
      if |displayItems| != len {
        isCloning := false;
        lastCloneTime := 0;
      }
      StepKeepsShape(items, s0, e);
    }

    /** The 100 ms timeout that ends a change in flight. */
    method ClearBusy()
      requires Valid()
      modifies this
      ensures Valid()
      ensures State() == old(State()).(isCloning := false)
      ensures listening == old(listening) && scrollTop == old(scrollTop)
    {
      isCloning := false;
    }

    /**
      The deferred re-centring after a trim and after every (re-)run of the effect: the
      container scrolls to half its content height.
     */
    method Recenter(scrollHeight: int)
      requires Valid()
      modifies this
      ensures Valid() && State() == old(State()) && listening == old(listening)
      ensures scrollTop == scrollHeight as real / 2.0
    {
      scrollTop := scrollHeight as real / 2.0;
    }

    /** The smooth-scroll driver moves the container. */
    method ScrollTo(position: real)
      requires Valid()
      modifies this
      ensures Valid() && State() == old(State()) && listening == old(listening)
      ensures scrollTop == position
    {
      scrollTop := position;
    }

    /** Unmounting: the driver is destroyed and no further scroll event reaches the list. */
    method Unmount()
      requires Valid()
      modifies this
      ensures Valid() && State() == old(State()) && scrollTop == old(scrollTop)
      ensures !listening
    {
      listening := false;
    }
  }
}
