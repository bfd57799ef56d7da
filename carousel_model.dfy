/** The position bookkeeping of the Windows carousel handler, as values:
    which positions are valid, how looping folds the visible indexes back
    into the item range, where the current item sits in the item list,
    which position follows a change of the items source, and how the
    scroll bars are saved and restored around looping. */
module CarouselModel {
  import opened Wrappers

  /** An object reference as the handler compares it: `null` or one object. */
  datatype ItemRef = Null | Ref(id: nat)

  /** What `GetItem(n)` yields: a templated item context wrapping the user's
      item, or anything else the collection view may hold. */
  datatype Slot = Templated(item: ItemRef) | NotTemplated

  /** The failures the handler raises as exceptions. */
  datatype CarouselError =
    | DivideByZero         // `%= ItemCount` with no items while looping
    | VisibleItemNotFound  // the slot at a valid position holds no item context

  /** The three indexes of a scrolled event the handler rewrites. */
  datatype VisibleIndexes = VisibleIndexes(first: int, center: int, last: int)

  /** `NotifyCollectionChangedAction`. */
  datatype ChangeAction = Add | Remove | Replace | Move | Reset

  /** The part of a collection-changed event the handler reads. */
  datatype CollectionChange = CollectionChange(action: ChangeAction, oldStartingIndex: int)

  /** `ScrollBarVisibility` of the native scroll viewer. */
  datatype ScrollBarVisibility = Disabled | Auto | Hidden | Visible

  /** The two scroll bar settings of the native scroll viewer. */
  datatype ScrollBars = ScrollBars(horizontal: ScrollBarVisibility, vertical: ScrollBarVisibility)

  /** The scroll viewer (absent until the handler finds it) and the two
      visibilities recorded while looping. */
  datatype ScrollBarMemory = ScrollBarMemory(
    viewer: Option<ScrollBars>,
    horizontalWithoutLoop: Option<ScrollBarVisibility>,
    verticalWithoutLoop: Option<ScrollBarVisibility>)

  // ---------------------------------------------------------------------
  // Valid positions

  /** A position names an item: there are items and it is within them. */
  predicate IsValidPosition(itemCount: nat, position: int) {
    if itemCount == 0 then false
    else if position < 0 || position >= itemCount then false
    else true
  }

  lemma ValidPositionIff(itemCount: nat, position: int)
    ensures IsValidPosition(itemCount, position) <==> 0 <= position < itemCount
    ensures itemCount == 0 ==> !IsValidPosition(itemCount, position)
  {
  }

  // ---------------------------------------------------------------------
  // Loop wrapping of visible indexes

  /** C#'s `%` on `int`: the remainder of division truncated toward zero,
      so it takes the sign of the dividend. */
  function CsRemainder(a: int, n: int): (r: int)
    requires n > 0
    ensures -n < r < n
    ensures a >= 0 ==> r >= 0
    ensures a <= 0 ==> r <= 0
  {
    if a >= 0 then a % n else -((-a) % n)
  }

  /** C#'s `/` on `int`: division truncated toward zero. */
  function CsQuotient(a: int, n: int): int
    requires n > 0
  {
    if a >= 0 then a / n else -((-a) / n)
  }

  /** The remainder is what the truncated quotient leaves over, as the C#
      language defines `x % y` to be `x - (x / y) * y`. */
  lemma CsRemainderDivision(a: int, n: int)
    requires n > 0
    ensures a == CsQuotient(a, n) * n + CsRemainder(a, n)
  {
  }

  /** A remainder that is already smaller than the divisor is left alone. */
  lemma CsRemainderSmall(a: int, n: int)
    requires n > 0 && -n < a < n
    ensures CsRemainder(a, n) == a
  {
    if a >= 0 {
      assert a % n == a;
    } else {
      assert (-a) % n == -a;
    }
  }

  /** The loop step of ComputeVisibleIndexes: with looping on, the first,
      center and last indexes are each replaced by their remainder by the
      item count; there is no remainder by zero items. */
  function LoopVisibleIndexes(args: VisibleIndexes, loop: bool, itemCount: nat): (r: Result<VisibleIndexes, CarouselError>)
    ensures !loop ==> r == Ok(args)
    ensures loop ==> (r.Err? <==> itemCount == 0)
    ensures loop && r.Ok? ==>
      r.value.first == CsRemainder(args.first, itemCount) &&
      r.value.center == CsRemainder(args.center, itemCount) &&
      r.value.last == CsRemainder(args.last, itemCount)
  {
    if !loop then Ok(args)
    else if itemCount == 0 then Err(DivideByZero)
    else Ok(VisibleIndexes(
      CsRemainder(args.first, itemCount),
      CsRemainder(args.center, itemCount),
      CsRemainder(args.last, itemCount)))
  }

  /** With looping on, a non-negative center index wraps to a valid position. */
  lemma LoopCenterIsValid(args: VisibleIndexes, itemCount: nat)
    requires args.center >= 0 && itemCount > 0
    ensures LoopVisibleIndexes(args, true, itemCount).Ok?
    ensures IsValidPosition(itemCount, LoopVisibleIndexes(args, true, itemCount).value.center)
  {
  }

  /** Wrapping twice is wrapping once. */
  lemma {:induction false} LoopWrapIdempotent(args: VisibleIndexes, itemCount: nat)
    requires itemCount > 0
    ensures var once := LoopVisibleIndexes(args, true, itemCount).value;
      LoopVisibleIndexes(once, true, itemCount) == Ok(once)
  {
    var once := LoopVisibleIndexes(args, true, itemCount).value;
    CsRemainderSmall(once.first, itemCount);
    CsRemainderSmall(once.center, itemCount);
    CsRemainderSmall(once.last, itemCount);
  }

  /** The "no center item" marker -1 survives wrapping unless there is
      exactly one item, where it becomes 0. */
  lemma LoopKeepsMissingCenter(args: VisibleIndexes, itemCount: nat)
    requires args.center == -1 && itemCount > 0
    ensures LoopVisibleIndexes(args, true, itemCount).value.center == (if itemCount == 1 then 0 else -1)
  {
  }

  // ---------------------------------------------------------------------
  // Locating the current item

  /** A slot holds `item` when it is an item context whose item is that reference. */
  predicate Holds(slot: Slot, item: ItemRef) {
    slot.Templated? && slot.item == item
  }

  /** The first index at which `item` is held, or -1. */
  function FirstIndexOf(items: seq<Slot>, item: ItemRef): int
    decreases |items|
  {
    if |items| == 0 then -1
    else if Holds(items[0], item) then 0
    else
      var rest := FirstIndexOf(items[1..], item);
      if rest == -1 then -1 else rest + 1
  }

  /** FirstIndexOf finds the smallest holding index, and -1 exactly when
      no slot holds the item. */
  lemma {:induction false} FirstIndexOfSpec(items: seq<Slot>, item: ItemRef)
    ensures var n := FirstIndexOf(items, item);
      -1 <= n < |items| &&
      (n == -1 <==> forall j :: 0 <= j < |items| ==> !Holds(items[j], item)) &&
      (n >= 0 ==> Holds(items[n], item) && forall j :: 0 <= j < n ==> !Holds(items[j], item))
    decreases |items|
  {
    if |items| > 0 && !Holds(items[0], item) {
      FirstIndexOfSpec(items[1..], item);
      var rest := FirstIndexOf(items[1..], item);
      if rest == -1 {
        forall j | 0 <= j < |items|
          ensures !Holds(items[j], item)
        {
          if j > 0 {
            assert items[j] == items[1..][j - 1];
          }
        }
      } else {
        assert items[rest + 1] == items[1..][rest];
        forall j | 0 <= j < rest + 1
          ensures !Holds(items[j], item)
        {
          if j > 0 {
            assert items[j] == items[1..][j - 1];
          }
        }
      }
    }
  }

  // ---------------------------------------------------------------------
  // The position chosen after a change of the items source

  /** The position OnCollectionItemsSourceChanged moves to, from the
      position before the change, the index of the current item in the new
      items (-1 when it is gone) and the count the changed collection reports. */
  function ChosenPosition(position: int, currentIndex: int, count: int, e: CollectionChange): int {
    var removingCurrentElement := currentIndex == -1;
    var removingLastElement := e.oldStartingIndex == count;
    var removingFirstElement := e.oldStartingIndex == 0;
    if removingCurrentElement && removingLastElement && position > 0 then position - 1
    else if removingFirstElement && !removingCurrentElement then currentIndex
    else if e.action == Add && currentIndex != -1 then currentIndex
    else position
  }

  /** When the current item survives an insertion, or a change starting at
      index 0, the chosen position is a valid position that holds it. */
  lemma CurrentItemFollowed(items: seq<Slot>, current: ItemRef, position: int, count: int, e: CollectionChange)
    requires FirstIndexOf(items, current) != -1
    requires e.action == Add || e.oldStartingIndex == 0
    ensures var p := ChosenPosition(position, FirstIndexOf(items, current), count, e);
      IsValidPosition(|items|, p) && Holds(items[p], current)
  {
    FirstIndexOfSpec(items, current);
  }

  /** When the current item is gone and the removal started at the end of
      the remaining items, the carousel steps back one position (if it can). */
  lemma RemovedLastStepsBack(items: seq<Slot>, current: ItemRef, position: int, e: CollectionChange)
    requires forall j :: 0 <= j < |items| ==> !Holds(items[j], current)
    requires e.oldStartingIndex == |items|
    ensures var p := ChosenPosition(position, FirstIndexOf(items, current), |items|, e);
      p == (if position > 0 then position - 1 else position)
  {
    FirstIndexOfSpec(items, current);
  }

  /** When the current item is gone and the change did not remove the tail,
      the position is left as it was. */
  lemma MissingCurrentKeepsPosition(items: seq<Slot>, current: ItemRef, position: int, count: int, e: CollectionChange)
    requires forall j :: 0 <= j < |items| ==> !Holds(items[j], current)
    requires e.oldStartingIndex != count
    ensures ChosenPosition(position, FirstIndexOf(items, current), count, e) == position
  {
    FirstIndexOfSpec(items, current);
  }

  /** When the current item survives a change that is not an insertion and
      does not start at index 0, the position is left as it was, wherever
      the current item now sits. */
  lemma PresentCurrentOtherwiseKeeps(items: seq<Slot>, current: ItemRef, position: int, count: int, e: CollectionChange)
    requires FirstIndexOf(items, current) != -1
    requires e.action != Add && e.oldStartingIndex != 0
    ensures ChosenPosition(position, FirstIndexOf(items, current), count, e) == position
  {
  }

  /** The kept position can hold another item: with items a, b, c, d and c
      current at position 2, removing b (at index 1) leaves a, c, d; the
      position stays 2, where d now sits, so d becomes the current item. */
  lemma RemovalBeforeCurrentSelectsNext()
    ensures var items := [Templated(Ref(0)), Templated(Ref(2)), Templated(Ref(3))];
      var p := ChosenPosition(2, FirstIndexOf(items, Ref(2)), 3, CollectionChange(Remove, 1));
      p == 2 && IsValidPosition(|items|, p) && items[p] == Templated(Ref(3)) && FirstIndexOf(items, Ref(2)) == 1
  {
  }

  // ---------------------------------------------------------------------
  // Scroll bars and looping

  /** UpdateScrollBarVisibilityForLoop on values: nothing without a scroll
      viewer; with looping, both settings are recorded and hidden; without
      it, each recorded setting is put back. */
  function ForLoop(m: ScrollBarMemory, loop: bool): ScrollBarMemory {
    if m.viewer.None? then m
    else if loop then
      ScrollBarMemory(Some(ScrollBars(Hidden, Hidden)), Some(m.viewer.value.horizontal), Some(m.viewer.value.vertical))
    else
      var v := m.viewer.value;
      var h := if m.horizontalWithoutLoop.Some? then m.horizontalWithoutLoop.value else v.horizontal;
      var w := if m.verticalWithoutLoop.Some? then m.verticalWithoutLoop.value else v.vertical;
      m.(viewer := Some(ScrollBars(h, w)))
  }

  /** Without a scroll viewer nothing changes. */
  lemma ForLoopWithoutViewer(m: ScrollBarMemory, loop: bool)
    requires m.viewer.None?
    ensures ForLoop(m, loop) == m
  {
  }

  /** Looping hides both scroll bars and remembers what they were. */
  lemma LoopHidesScrollBars(m: ScrollBarMemory)
    requires m.viewer.Some?
    ensures ForLoop(m, true).viewer == Some(ScrollBars(Hidden, Hidden))
    ensures ForLoop(m, true).horizontalWithoutLoop == Some(m.viewer.value.horizontal)
    ensures ForLoop(m, true).verticalWithoutLoop == Some(m.viewer.value.vertical)
  {
  }

  /** Turning looping off with nothing recorded leaves the scroll bars as they are. */
  lemma UnloopWithoutRecordKeeps(m: ScrollBarMemory)
    requires m.horizontalWithoutLoop.None? && m.verticalWithoutLoop.None?
    ensures ForLoop(m, false) == m
  {
  }

  /** One enable followed by one disable restores the original settings. */
  lemma LoopThenUnloopRestores(m: ScrollBarMemory)
    requires m.viewer.Some?
    ensures ForLoop(ForLoop(m, true), false).viewer == m.viewer
  {
  }

  /** Enabling twice records the hidden settings over the originals, so a
      later disable leaves the scroll bars hidden. */
  lemma LoopTwiceThenUnloopStaysHidden(m: ScrollBarMemory)
    requires m.viewer.Some?
    ensures ForLoop(ForLoop(ForLoop(m, true), true), false).viewer == Some(ScrollBars(Hidden, Hidden))
  {
  }
}
