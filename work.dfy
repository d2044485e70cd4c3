/**
  The work page: the fixed table handed to the infinite list, and the hover state that
  the list's mouse callbacks write and its preview panel reads.
 */
module Work {
  import opened Repetition
  import opened RecyclingBuffer
  import opened InfiniteWorkList

  /** The table of projects, in display order. */
  const Items: seq<WorkItem> := [
    WorkItem("z", "/img1.jpeg", 1, "https://example.com/project-z"),
    WorkItem("LoveFrom,", "/img2.jpeg", 2, "https://example.com/lovefrom"),
    WorkItem("ヨコオタロウさん", "/img3.jpeg", 3, "https://example.com/yoko-taro"),
    WorkItem("JOHN YAKUZA", "/img4.jpeg", 1, "https://example.com/john-yakuza"),
    WorkItem("red hot chilli peppers", "/img5.jpeg", 2, "https://example.com/red-hot"),
    WorkItem("naughty cat", "/img6.jpeg", 3, "https://example.com/naughty-cat"),
    WorkItem("design 2000", "/img7.jpeg", 1, "https://example.com/design-2000"),
    WorkItem("hello_world", "/img8.jpeg", 2, "https://example.com/hello-world"),
    WorkItem("idk", "/img9.jpeg", 3, "https://example.com/idk")
  ]

  /**
    The table meets the list's needs: it is non-empty (nine rows), its rows are distinct,
    every image is set, and every variant is 1, 2 or 3. The first buffer has 630 rows.
   */
  lemma ItemsTableFacts()
    ensures |Items| == 9 && Distinct(Items)
    ensures forall i :: 0 <= i < |Items| ==> Items[i].image != "" && 1 <= Items[i].variant <= 3
    ensures |Repeat(Items, InitialCopies)| == 630
  {
    forall i, j | 0 <= i < j < |Items|
      ensures Items[i] != Items[j]
    {
      assert Items[i].image != Items[j].image;
    }
  }

  // ---------------------------------------------------------------------------
  // Hover state

  /** What the preview panel is told: the hovered image ("" for none) and its layout variant. */
  datatype Hover = Hover(currentImage: string, currentVariant: int)

  /** The page's hover state before any event. */
  const InitialHover: Hover := Hover("", 1)

  /** A mouse callback from a rendered row. */
  datatype MouseEvent = Enter(image: string, variant: int) | Leave

  /** The effect of one callback on the hover state. */
  function Apply(h: Hover, ev: MouseEvent): Hover
  {
    match ev
    case Enter(image, variant) => Hover(image, variant)
    case Leave => h.(currentImage := "")
  }

  /** The effect of a series of callbacks, in order. */
  function Replay(h: Hover, evs: seq<MouseEvent>): Hover
    decreases |evs|
  {
    if evs == [] then h else Replay(Apply(h, evs[0]), evs[1..])
  }

  /** The preview panel shows an image exactly when one is set. */
  datatype Preview = Hidden | Shown(image: string, variant: int)

  function PreviewOf(h: Hover): Preview
  {
    if h.currentImage == "" then Hidden else Shown(h.currentImage, h.currentVariant)
  }

  /** The callback a rendered row `i` sends on mouse-enter: its own image and variant. */
  function RowEnter(rows: seq<WorkItem>, i: nat): MouseEvent
    requires i < |rows|
  {
    Enter(rows[i].image, rows[i].variant)
  }

  /** Nothing is previewed before the first hover. */
  lemma NoPreviewInitially()
    ensures PreviewOf(InitialHover) == Hidden
    ensures InitialHover.currentVariant == 1
  {
  }

  /**
    The last event wins: after any series of callbacks the image is the last entered one
    if the last event was an enter and "" if it was a leave, and the variant is that of
    the last enter anywhere in the series (or the earlier variant if there was none).
   */
  lemma {:induction false} LastEventWins(h: Hover, evs: seq<MouseEvent>)
    ensures evs != [] ==>
              Replay(h, evs).currentImage == (if evs[|evs| - 1].Enter? then evs[|evs| - 1].image else "")
    ensures (forall j :: 0 <= j < |evs| ==> evs[j].Leave?) ==>
              Replay(h, evs).currentVariant == h.currentVariant
    ensures forall j :: 0 <= j < |evs| && evs[j].Enter? &&
                        (forall k :: j < k < |evs| ==> evs[k].Leave?) ==>
              Replay(h, evs).currentVariant == evs[j].variant
    decreases |evs|
  {
    if evs != [] {
      var h1 := Apply(h, evs[0]);
      var rest := evs[1..];
      LastEventWins(h1, rest);
      if rest != [] {
        assert evs[|evs| - 1] == rest[|rest| - 1];
      }
      forall j | 0 <= j < |evs| && evs[j].Enter? && (forall k :: j < k < |evs| ==> evs[k].Leave?)
        ensures Replay(h, evs).currentVariant == evs[j].variant
      {
        if j == 0 {
          assert forall k :: 0 <= k < |rest| ==> rest[k] == evs[k + 1];
        } else {
          assert rest[j - 1] == evs[j];
          assert forall k :: j - 1 < k < |rest| ==> rest[k] == evs[k + 1];
        }
      }
      if forall j :: 0 <= j < |evs| ==> evs[j].Leave? {
        assert evs[0].Leave?;
        assert forall k :: 0 <= k < |rest| ==> rest[k] == evs[k + 1];
      }
    }
  }

  /**
    The preview shows something exactly when the last callback was an enter on a row with
    an image, so a leave never leaves a row previewed that is no longer hovered.
   */
  lemma PreviewFollowsLastEvent(h: Hover, evs: seq<MouseEvent>)
    requires evs != []
    ensures PreviewOf(Replay(h, evs)) != Hidden <==>
              (evs[|evs| - 1].Enter? && evs[|evs| - 1].image != "")
  {
    LastEventWins(h, evs);
  }

  /**
    Hovering rendered row `i` of the first buffer previews row `i mod 9` of the table,
    with that row's own variant.
   */
  lemma HoverInitialRow(h: Hover, i: nat)
    requires i < InitialCopies * |Items|
    ensures var rows := Repeat(Items, InitialCopies);
            PreviewOf(Apply(h, RowEnter(rows, i))) == Shown(Items[i % 9].image, Items[i % 9].variant)
  {
    ItemsTableFacts();
  }

  /**
    Whatever the list has rendered, hovering any row previews one of the table's rows,
    with that row's own variant.
   */
  lemma HoverAnyRow(h: Hover, rows: seq<WorkItem>, i: nat)
    requires DrawnFrom(Items, rows) && i < |rows|
    ensures exists j :: 0 <= j < |Items| &&
              PreviewOf(Apply(h, RowEnter(rows, i))) == Shown(Items[j].image, Items[j].variant)
  {
    ItemsTableFacts();
    assert rows[i] in Items;
    var j :| 0 <= j < |Items| && Items[j] == rows[i];
    assert PreviewOf(Apply(h, RowEnter(rows, i))) == Shown(Items[j].image, Items[j].variant);
  }

  // ---------------------------------------------------------------------------
  // The page's state

  class WorkPage {
    var currentImage: string
    var currentVariant: int

    ghost function State(): Hover
      reads this
    {
      Hover(currentImage, currentVariant)
    }

    constructor ()
      ensures State() == InitialHover
    {
      currentImage := "";
      currentVariant := 1;
    }

    /** The list reports the hovered row's image and variant. */
    method HandleItemHover(image: string, variant: int)
      modifies this
      ensures State() == Apply(old(State()), Enter(image, variant))
      ensures currentImage == image && currentVariant == variant
    {
      currentImage := image;
      currentVariant := variant;
    }

    /** The pointer left a row: the image is cleared, the variant kept. */
    method HandleItemLeave()
      modifies this
      ensures State() == Apply(old(State()), Leave)
      ensures currentImage == "" && currentVariant == old(currentVariant)
    {
      currentImage := "";
    }
  }

  /** The page renders the list over its table, with nothing hovered. */
  method Mount() returns (page: WorkPage, list: WorkList)
    ensures fresh(page) && fresh(list)
    ensures page.State() == InitialHover
    ensures list.Valid() && list.items == Items && list.listening
    ensures |list.displayItems| == 630
    ensures forall i :: 0 <= i < |list.displayItems| ==> list.displayItems[i] == Items[i % 9]
  {
    ItemsTableFacts();
    page := new WorkPage();
    list := new WorkList(Items, true);
  }

  /** Mouse-enter on rendered row `i` reports that row's image and variant to the page. */
  method MouseEnterRow(page: WorkPage, list: WorkList, i: nat)
    requires i < |list.displayItems|
    modifies page
    ensures page.State() == Apply(old(page.State()), RowEnter(list.displayItems, i))
    ensures PreviewOf(page.State()) ==
              if list.displayItems[i].image == "" then Hidden
              else Shown(list.displayItems[i].image, list.displayItems[i].variant)
  {
    var row := list.displayItems[i];
    page.HandleItemHover(row.image, row.variant);
  }

  /** Mouse-leave on any rendered row clears the preview. */
  method MouseLeaveRow(page: WorkPage)
    modifies page
    ensures page.State() == Apply(old(page.State()), Leave)
    ensures PreviewOf(page.State()) == Hidden
  {
    page.HandleItemLeave();
  }
}
