/** The Windows carousel handler (CarouselViewHandler) as an object: the
    items the collection view holds, the carousel's Position and CurrentItem,
    the Loop setting, and the native scroll viewer's scroll bar settings with
    the two visibilities recorded while looping. */
module CarouselHandler {
  import opened Wrappers
  import opened CarouselModel

  class CarouselViewHandler {
    /** What `GetItem(n)` yields for each n below ItemCount. */
    var items: seq<Slot>
    /** Whether the handler has created its CollectionViewSource yet. */
    var hasCollectionViewSource: bool
    /** The carousel's Loop, Position and CurrentItem. */
    var loop: bool
    var position: int
    var currentItem: ItemRef
    /** The values written to Position so far, in order; each write raises
        the view's property-changed notification. */
    var positionWrites: seq<int>
    /** The native scroll viewer's scroll bars, once found. */
    var scrollViewer: Option<ScrollBars>
    var horizontalWithoutLoop: Option<ScrollBarVisibility>
    var verticalWithoutLoop: Option<ScrollBarVisibility>

    function ScrollBarState(): ScrollBarMemory
      reads this
    {
      ScrollBarMemory(scrollViewer, horizontalWithoutLoop, verticalWithoutLoop)
    }

    /** Moves the carousel to `p` when it is a valid position other than the
        current one; otherwise Position is neither written nor changed. */
    method SetCarouselViewPosition(p: int)
      modifies this`position, this`positionWrites
      ensures position == (if IsValidPosition(|items|, p) then p else old(position))
      ensures positionWrites ==
        old(positionWrites) + (if IsValidPosition(|items|, p) && p != old(position) then [p] else [])
    {
      if |items| == 0 {
        return;
      }
      if !IsValidPosition(|items|, p) {
        return;
      }
      var currentPosition := position;
      if currentPosition != p {
        position := p;
        positionWrites := positionWrites + [p];
      }
    }

    /** Makes the item at a valid position the current item; a valid
        position whose slot holds no item context is an error. */
    method SetCarouselViewCurrentItem(p: int) returns (outcome: Result<(), CarouselError>)
      modifies this`currentItem
      ensures !IsValidPosition(|items|, p) ==> outcome.Ok? && currentItem == old(currentItem)
      ensures IsValidPosition(|items|, p) && items[p].NotTemplated? ==>
        outcome == Err(VisibleItemNotFound) && currentItem == old(currentItem)
      ensures IsValidPosition(|items|, p) && items[p].Templated? ==>
        outcome.Ok? && currentItem == items[p].item
    {
      if !IsValidPosition(|items|, p) {
        return Ok(());
      }
      if items[p].NotTemplated? {
        return Err(VisibleItemNotFound);
      }
      currentItem := items[p].item;
      outcome := Ok(());
    }

    /** The first position whose item context holds `item`, or -1. */
    method GetItemPositionInCarousel(item: ItemRef) returns (n: int)
      ensures n == FirstIndexOf(items, item)
    {
      FirstIndexOfSpec(items, item);
      n := 0;
      while n < |items|
        invariant 0 <= n <= |items|
        invariant forall j :: 0 <= j < n ==> !Holds(items[j], item)
      {
        if items[n].Templated? {
          if items[n].item == item {
            return n;
          }
        }
        n := n + 1;
      }
      return -1;
    }

    /** Position changed: the item at a valid position becomes the current item. */
    method UpdatePosition() returns (outcome: Result<(), CarouselError>)
      modifies this`currentItem
      ensures var selects := hasCollectionViewSource && IsValidPosition(|items|, position);
        (selects && items[position].Templated? ==> outcome.Ok? && currentItem == items[position].item) &&
        (selects && items[position].NotTemplated? ==>
          outcome == Err(VisibleItemNotFound) && currentItem == old(currentItem)) &&
        (!selects ==> outcome.Ok? && currentItem == old(currentItem))
    {
      if !hasCollectionViewSource {
        return Ok(());
      }
      var carouselPosition := position;
      if carouselPosition < 0 || carouselPosition >= |items| {
        return Ok(());
      }
      outcome := SetCarouselViewCurrentItem(carouselPosition);
    }

    /** The view scrolled: the carousel follows the center item, unless there
        is none (-1) or it is already the current position. */
    method CarouselScrolled(e: VisibleIndexes)
      modifies this`position, this`positionWrites
      ensures var moves := e.center != -1 && e.center != old(position) && IsValidPosition(|items|, e.center);
        position == (if moves then e.center else old(position)) &&
        positionWrites == old(positionWrites) + (if moves then [e.center] else [])
    {
      var p := e.center;
      if p == -1 {
        return;
      }
      if p == position {
        return;
      }
      SetCarouselViewPosition(p);
    }

    /** The items source changed (its new length is `count`): the current
        item is selected at the chosen position, and then the carousel moves
        there. A valid chosen position with no item context is an error,
        after which the position is left as it was. */
    method OnCollectionItemsSourceChanged(e: CollectionChange, count: nat) returns (outcome: Result<(), CarouselError>)
      modifies this`position, this`positionWrites, this`currentItem
      ensures var p := ChosenPosition(old(position), FirstIndexOf(items, old(currentItem)), count, e);
        var valid := IsValidPosition(|items|, p);
        if valid && items[p].NotTemplated? then
          outcome == Err(VisibleItemNotFound) && currentItem == old(currentItem) &&
          position == old(position) && positionWrites == old(positionWrites)
        else
          outcome.Ok? &&
          currentItem == (if valid then items[p].item else old(currentItem)) &&
          position == (if valid then p else old(position)) &&
          positionWrites == old(positionWrites) + (if valid && p != old(position) then [p] else [])
    {
      var carouselPosition := position;
      var currentItemPosition := GetItemPositionInCarousel(currentItem);

      var removingCurrentElement := currentItemPosition == -1;
      var removingLastElement := e.oldStartingIndex == count;
      var removingFirstElement := e.oldStartingIndex == 0;
      var removingCurrentElementButNotFirst := removingCurrentElement && removingLastElement && position > 0;

      if removingCurrentElementButNotFirst {
        carouselPosition := position - 1;
      } else if removingFirstElement && !removingCurrentElement {
        carouselPosition := currentItemPosition;
      } else if e.action == Add && currentItemPosition != -1 {
        carouselPosition := currentItemPosition;
      }

      outcome := SetCarouselViewCurrentItem(carouselPosition);
      if outcome.Err? {
        return;
      }
      SetCarouselViewPosition(carouselPosition);
    }

    /** Looping hides both scroll bars after recording them; not looping puts
        back whatever was recorded. Nothing happens before the scroll viewer
        is found. */
    method UpdateScrollBarVisibilityForLoop()
      modifies this`scrollViewer, this`horizontalWithoutLoop, this`verticalWithoutLoop
      ensures ScrollBarState() == ForLoop(old(ScrollBarState()), loop)
    {
      if scrollViewer.None? {
        return;
      }
      if loop {
        horizontalWithoutLoop := Some(scrollViewer.value.horizontal);
        verticalWithoutLoop := Some(scrollViewer.value.vertical);
        scrollViewer := Some(ScrollBars(Hidden, Hidden));
      } else {
        if horizontalWithoutLoop.Some? {
          scrollViewer := Some(scrollViewer.value.(horizontal := horizontalWithoutLoop.value));
        }
        if verticalWithoutLoop.Some? {
          scrollViewer := Some(scrollViewer.value.(vertical := verticalWithoutLoop.value));
        }
      }
    }
  }
}
