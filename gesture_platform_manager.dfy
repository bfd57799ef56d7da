/** The Windows gesture dispatcher (GesturePlatformManager) as an object:
    its fields are the pressed-pointer list, the session flags, the native
    subscriptions and the bound element, container and control; each native
    event handler is a method proved against the transition functions of
    GestureDispatch and GestureSubscriptions. Recognizer callbacks are
    recorded, in order, in `trace`. */
module GesturePlatform {
  import opened Wrappers
  import opened GestureTypes
  import opened GestureDispatch
  import opened GestureSubscriptions

  /** PanGestureRecognizer.CurrentId: one counter shared by every dispatcher. */
  class PanIdCounter {
    var value: int

    constructor (start: int)
      ensures value == start
    {
      value := start;
    }

    method Increment()
      modifies this
      ensures value == old(value) + 1
    {
      value := value + 1;
    }
  }

  class GesturePlatformManager {
    const panIds: PanIdCounter

    var element: Element
    var container: Option<NativeId>
    var control: Option<NativeId>

    var fingers: seq<PointerId>
    var isPanning: bool
    var isSwiping: bool
    var isPinching: bool
    var wasPanGestureStartedSent: bool
    var wasPinchGestureStartedSent: bool

    /** The recognizer callbacks sent so far, in order. */
    var trace: seq<Callback>
    /** The `+=` and `-=` performed on native events so far, in order;
        Count gives the resulting subscriptions. */
    var subscriptions: seq<SubOp>
    /** The container's CanDrag, AllowDrop and IsTabStop. */
    var canDrag: bool
    var allowDrop: bool
    var isTabStop: bool
    /** The warnings logged so far. */
    var log: seq<Warning>

    ghost predicate Valid()
      reads this
    {
      Distinct(fingers)
    }

    function Flags(): ContainerFlags
      reads this
    {
      ContainerFlags(canDrag, allowDrop, isTabStop)
    }

    /** The session state the handlers read and write. */
    function CurrentSession(): Session
      reads this, panIds
    {
      Session(fingers, isPanning, isSwiping, isPinching,
              wasPanGestureStartedSent, wasPinchGestureStartedSent, panIds.value)
    }

    /** The handler was given a view; the container defaults to the platform
        view. `containerFlags` are the container's own flags before the
        dispatcher writes them. */
    constructor (e: Element, platformView: NativeId, containerView: Option<NativeId>, counter: PanIdCounter,
                 containerFlags: ContainerFlags)
      ensures Valid() && fresh(this)
      ensures element == e && panIds == counter
      ensures control == Some(platformView)
      ensures container == Some(containerView.GetOr(platformView))
      ensures fingers == [] && trace == []
      ensures !isPanning && !isSwiping && !isPinching
      ensures !wasPanGestureStartedSent && !wasPinchGestureStartedSent
      ensures subscriptions == Rederivation(e, container, control)
      ensures log == (if IsView(e) then ScrollViewWarnings(e) else [])
      ensures Flags() == RederivedFlags(e, container, containerFlags)
    {
      panIds := counter;
      element := e;
      container := None;
      control := None;
      fingers := [];
      isPanning, isSwiping, isPinching := false, false, false;
      wasPanGestureStartedSent, wasPinchGestureStartedSent := false, false;
      trace := [];
      subscriptions := [];
      canDrag, allowDrop, isTabStop := containerFlags.canDrag, containerFlags.allowDrop, containerFlags.isTabStop;
      log := [];
      new;
      ghost var f0 := Flags();
      SetControl(Some(platformView));
      assert Flags() == f0 && subscriptions == [] && log == [];
      SetContainer(Some(containerView.GetOr(platformView)));
      assert ClearOps(None) == [];
      AppendToEmpty(Rederivation(element, container, control));
    }

    // -------------------------------------------------------------------
    // Sending to recognizers

    /** Sends `d` to every recognizer of `gs` that takes part, in list order. */
    method Send(d: Dispatch, gs: seq<Recognizer>)
      modifies this`trace
      ensures trace == old(trace) + Dispatched(d, gs)
    {
      var i := 0;
      while i < |gs|
        invariant 0 <= i <= |gs|
        invariant trace == old(trace) + Collect(d, gs, i)
      {
        assert Collect(d, gs, i + 1) == Collect(d, gs, i) + Emit(d, i, gs[i]);
        AppendAssociates(old(trace), Collect(d, gs, i), Emit(d, i, gs[i]));
        trace := trace + Emit(d, i, gs[i]);
        i := i + 1;
      }
    }

    // -------------------------------------------------------------------
    // Pointer handlers

    method OnPointerPressed(id: PointerId)
      requires Valid()
      modifies this`fingers
      ensures Valid()
      ensures CurrentSession() == Step(element, old(CurrentSession()), Press(id)).next
    {
      if id !in fingers {
        fingers := fingers + [id];
      }
    }

    method OnPointerReleased(id: PointerId)
      requires Valid()
      modifies this`fingers, this`isSwiping, this`isPinching, this`isPanning, this`trace, panIds
      ensures Valid()
      ensures var t := Step(element, old(CurrentSession()), Release(id));
        CurrentSession() == t.next && trace == old(trace) + t.out
    {
      if id in fingers {
        fingers := RemoveFirst(fingers, id);
      }
      CompleteAll(true);
    }

    method OnPointerCanceled(id: PointerId)
      requires Valid()
      modifies this`fingers, this`isSwiping, this`isPinching, this`isPanning, this`trace, panIds
      ensures Valid()
      ensures var t := Step(element, old(CurrentSession()), Cancel(id));
        CurrentSession() == t.next && trace == old(trace) + t.out
    {
      if id in fingers {
        fingers := RemoveFirst(fingers, id);
      }
      CompleteAll(false);
    }

    method OnPointerExited(id: PointerId)
      requires Valid()
      modifies this`fingers, this`isSwiping, this`isPinching, this`isPanning, this`trace, panIds
      ensures Valid()
      ensures var t := Step(element, old(CurrentSession()), Exit(id));
        CurrentSession() == t.next && trace == old(trace) + t.out
    {
      if id in fingers {
        fingers := RemoveFirst(fingers, id);
      }
      CompleteAll(true);
    }

    // -------------------------------------------------------------------
    // Manipulation handlers

    method OnManipulationStarted()
      modifies this`wasPanGestureStartedSent, this`wasPinchGestureStartedSent
      ensures Valid() == old(Valid())
      ensures old(Valid()) ==> CurrentSession() == Step(element, old(CurrentSession()), ManipulationStarted).next
    {
      if !IsView(element) {
        return;
      }
      wasPinchGestureStartedSent := false;
      wasPanGestureStartedSent := false;
    }

    method OnManipulationDelta(m: Manipulation)
      requires Valid()
      modifies this`isSwiping, this`isPinching, this`isPanning, this`trace
      modifies this`wasPanGestureStartedSent, this`wasPinchGestureStartedSent
      ensures Valid()
      ensures var t := Step(element, old(CurrentSession()), ManipulationDelta(m));
        CurrentSession() == t.next && trace == old(trace) + t.out
    {
      if !IsView(element) {
        return;
      }
      ghost var t1 := SwipeDeltaStep(element, CurrentSession(), m);
      ghost var before := trace;
      HandleSwipe(m);
      ghost var t2 := PinchDeltaStep(element, t1.next, m);
      HandlePinch(m);
      ghost var t3 := PanDeltaStep(element, t2.next, m);
      HandlePan(m);
      AppendThree(before, t1.out, t2.out, t3.out);
    }

    method OnManipulationCompleted()
      requires Valid()
      modifies this`isSwiping, this`isPinching, this`isPanning, this`trace, panIds
      ensures Valid()
      ensures var t := Step(element, old(CurrentSession()), ManipulationCompleted);
        CurrentSession() == t.next && trace == old(trace) + t.out
    {
      CompleteAll(true);
    }

    method HandleSwipe(m: Manipulation)
      modifies this`isSwiping, this`trace
      ensures var t := SwipeDeltaStep(element, old(CurrentSession()), m);
        CurrentSession() == t.next && trace == old(trace) + t.out
    {
      if |fingers| > 1 {
        return;
      }
      isSwiping := true;
      Send(SwipeDelta(m.deltaX + m.cumulativeX, m.deltaY + m.cumulativeY), element.gestures);
    }

    method HandlePan(m: Manipulation)
      modifies this`isPanning, this`wasPanGestureStartedSent, this`trace
      ensures var t := PanDeltaStep(element, old(CurrentSession()), m);
        CurrentSession() == t.next && trace == old(trace) + t.out
    {
      isPanning := true;
      Send(PanDelta(|fingers|, !wasPanGestureStartedSent,
                    m.deltaX + m.cumulativeX, m.deltaY + m.cumulativeY, panIds.value),
           element.gestures);
      wasPanGestureStartedSent := true;
    }

    method HandlePinch(m: Manipulation)
      modifies this`isPinching, this`wasPinchGestureStartedSent, this`trace
      ensures var t := PinchDeltaStep(element, old(CurrentSession()), m);
        CurrentSession() == t.next && trace == old(trace) + t.out
    {
      if |fingers| < 2 {
        return;
      }
      isPinching := true;
      if m.origin.Some? {
        Send(PinchDelta(!wasPinchGestureStartedSent, m.scale, m.origin.value), element.gestures);
        wasPinchGestureStartedSent := true;
      }
    }

    /** SwipeComplete, PinchComplete and PanComplete, in that order. */
    method CompleteAll(success: bool)
      modifies this`isSwiping, this`isPinching, this`isPanning, this`trace, panIds
      ensures var t := Completions(element, old(CurrentSession()), success);
        CurrentSession() == t.next && trace == old(trace) + t.out
      ensures !old(isSwiping) && !old(isPinching) && !old(isPanning) ==>
        CurrentSession() == old(CurrentSession()) && trace == old(trace)
    {
      ghost var t1 := SwipeCompletion(element, CurrentSession(), success);
      ghost var before := trace;
      SwipeComplete(success);
      ghost var t2 := PinchCompletion(element, t1.next, success);
      PinchComplete(success);
      ghost var t3 := PanCompletion(element, t2.next, success);
      PanComplete(success);
      AppendThree(before, t1.out, t2.out, t3.out);
    }

    method SwipeComplete(success: bool)
      modifies this`isSwiping, this`trace
      ensures var t := SwipeCompletion(element, old(CurrentSession()), success);
        CurrentSession() == t.next && trace == old(trace) + t.out
      ensures !IsView(element) || !old(isSwiping) ==> CurrentSession() == old(CurrentSession()) && trace == old(trace)
      ensures IsView(element) ==> !isSwiping
    {
      if !IsView(element) || !isSwiping {
        return;
      }
      if success {
        Send(SwipeDone, element.gestures);
      }
      isSwiping := false;
    }

    method PanComplete(success: bool)
      modifies this`isPanning, this`trace, panIds
      ensures var t := PanCompletion(element, old(CurrentSession()), success);
        CurrentSession() == t.next && trace == old(trace) + t.out
      ensures !IsView(element) || !old(isPanning) ==> CurrentSession() == old(CurrentSession()) && trace == old(trace)
      ensures IsView(element) ==> !isPanning
    {
      if !IsView(element) || !isPanning {
        return;
      }
      Send(PanDone(|fingers|, success, panIds.value), element.gestures);
      panIds.Increment();
      isPanning := false;
    }

    method PinchComplete(success: bool)
      modifies this`isPinching, this`trace
      ensures var t := PinchCompletion(element, old(CurrentSession()), success);
        CurrentSession() == t.next && trace == old(trace) + t.out
      ensures !IsView(element) || !old(isPinching) ==> CurrentSession() == old(CurrentSession()) && trace == old(trace)
      ensures IsView(element) ==> !isPinching
    {
      if !IsView(element) || !isPinching {
        return;
      }
      Send(PinchDone(success), element.gestures);
      isPinching := false;
    }

    // -------------------------------------------------------------------
    // Taps, keys and hover

    /** OnTap; returns whether the routed event was marked handled. */
    method OnTap(event: TapEvent, hit: Option<seq<Recognizer>>) returns (handled: bool)
      modifies this`trace
      ensures trace == old(trace) + TapOutcome(element, event, hit)
      ensures handled == (TapOutcome(element, event, hit) != [])
    {
      if !IsView(element) || hit.None? {
        return false;
      }
      ghost var before := trace;
      handled := ProcessGestureRecognizers(event, FromChild, hit.value);
      if handled {
        return;
      }
      assert trace == before + [] == before;
      handled := ProcessGestureRecognizers(event, FromSelf, element.gestures);
    }

    /** Sends "tapped" to every recognizer of `gs` that ValidateGesture accepts. */
    method ProcessGestureRecognizers(event: TapEvent, source: TapSource, gs: seq<Recognizer>)
      returns (handled: bool)
      modifies this`trace
      ensures trace == old(trace) + Dispatched(TapDispatch(event, source), gs)
      ensures handled == (Dispatched(TapDispatch(event, source), gs) != [])
    {
      handled := false;
      var i := 0;
      while i < |gs|
        invariant 0 <= i <= |gs|
        invariant trace == old(trace) + Collect(TapDispatch(event, source), gs, i)
        invariant handled == (Collect(TapDispatch(event, source), gs, i) != [])
      {
        ghost var d := TapDispatch(event, source);
        assert Collect(d, gs, i + 1) == Collect(d, gs, i) + Emit(d, i, gs[i]);
        AppendAssociates(old(trace), Collect(d, gs, i), Emit(d, i, gs[i]));
        var g := gs[i];
        if g.TapRecognizer? && ValidateGesture(event, g.taps, g.buttons) {
          assert Emit(d, i, g) == [TapSent(source, i)];
          assert |Collect(d, gs, i + 1)| > 0;
          trace := trace + [TapSent(source, i)];
          handled := true;
        } else {
          assert Emit(d, i, g) == [];
          assert Collect(d, gs, i + 1) == Collect(d, gs, i);
        }
        i := i + 1;
      }
    }

    method OnKeyDown(key: Key, hit: Option<seq<Recognizer>>)
      modifies this`trace
      ensures trace == old(trace) + KeyOutcome(element, key, hit)
    {
      if key == Enter || key == Space {
        var _ := OnTap(KeyActivated, hit);
      }
    }

    /** OnPgrPointerEntered, OnPgrPointerExited and OnPgrPointerMoved. */
    method OnPgrPointerEvent(phase: PointerPhase)
      modifies this`trace
      ensures trace == old(trace) + PointerOutcome(element, phase)
    {
      if !IsView(element) {
        return;
      }
      Send(PointerDispatch(phase), element.compositeGestures);
    }

    // -------------------------------------------------------------------
    // Subscriptions

    /** `+=` of each handler of `hs` on native element `k`, in order. */
    method Subscribe(k: NativeId, hs: seq<Handler>)
      modifies this`subscriptions
      ensures subscriptions == old(subscriptions) + Adds(k, hs)
    {
      subscriptions := subscriptions + Adds(k, hs);
    }

    /** `-=` of each handler of `hs` on native element `k`, in order. */
    method Unsubscribe(k: NativeId, hs: seq<Handler>)
      modifies this`subscriptions
      ensures subscriptions == old(subscriptions) + Removes(k, hs)
    {
      subscriptions := subscriptions + Removes(k, hs);
    }

    method ClearContainerEventHandlers()
      modifies this`subscriptions
      ensures subscriptions == old(subscriptions) + ClearOps(container)
    {
      if container.Some? {
        Unsubscribe(container.value, ClearedList);
      }
    }

    /** The first half of the Control setter: the replaced control loses its
        swallowing tap handlers. */
    method DetachControlEventHandlers()
      modifies this`subscriptions
      ensures subscriptions == old(subscriptions) + DetachControlOps(control)
    {
      if control.Some? {
        Unsubscribe(control.value, ControlList);
      }
    }

    method UpdateDragAndDropGestureRecognizers()
      requires container.Some? && IsView(element)
      modifies this`subscriptions, this`canDrag, this`allowDrop
      ensures subscriptions == old(subscriptions) + DragDropOps(container.value, element.gestures)
      ensures canDrag == FirstCanDrag(element.gestures)
      ensures allowDrop == FirstAllowDrop(element.gestures)
    {
      var c := container.value;
      canDrag := FirstCanDrag(element.gestures);
      allowDrop := FirstAllowDrop(element.gestures);
      if canDrag {
        Subscribe(c, [DragStartingSub, DropCompletedSub]);
      }
      if allowDrop {
        Subscribe(c, [DragOverSub, DropSub, DragLeaveSub]);
      }
    }

    method UpdateTapGestureRecognizers()
      requires container.Some? && IsView(element)
      modifies this`subscriptions, this`isTabStop
      ensures subscriptions == old(subscriptions) + TapOps(element, container.value, control)
      ensures isTabStop == (old(isTabStop) || element.tapNeedsDelegate)
    {
      var c := container.value;
      ghost var before := subscriptions;
      if WantsTap(element) {
        Subscribe(c, [TapSub, RightTapSub]);
      } else if control.Some? && PreventGestureBubbling(element.kind) {
        Subscribe(control.value, [ControlTapSub]);
      } else {
        assert before + [] == before;
      }
      ghost var single := subscriptions;
      assert single == before + SingleTapOps(element, c, control);
      if WantsDoubleTap(element) {
        Subscribe(c, [DoubleTapSub]);
      } else if control.Some? && PreventGestureBubbling(element.kind) {
        Subscribe(control.value, [ControlDoubleTapSub]);
      } else {
        assert single + [] == single;
      }
      ghost var double := subscriptions;
      assert double == before + SingleTapOps(element, c, control) + DoubleTapOps(element, c, control);
      if element.tapNeedsDelegate {
        isTabStop := true;
        Subscribe(c, [KeyDownSub]);
      } else {
        assert double + [] == double;
      }
      AppendThree(before, SingleTapOps(element, c, control), DoubleTapOps(element, c, control), KeyOps(element, c));
    }

    method UpdatingGestureRecognizers()
      modifies this`subscriptions, this`canDrag, this`allowDrop, this`isTabStop, this`log
      ensures subscriptions == old(subscriptions) + Rederivation(element, container, control)
      ensures log == old(log) + (if container.Some? && IsView(element) then ScrollViewWarnings(element) else [])
      ensures Flags() == RederivedFlags(element, container, old(Flags()))
    {
      if container.None? || !IsView(element) {
        return;
      }
      var c := container.value;
      ghost var before := subscriptions;
      ghost var e := element;
      ClearContainerEventHandlers();
      ghost var s1 := subscriptions;
      UpdateDragAndDropGestureRecognizers();
      ghost var s2 := subscriptions;
      UpdateTapGestureRecognizers();
      ghost var s3 := subscriptions;
      Subscribe(c, HoverList);
      ghost var s4 := subscriptions;
      UpdateManipulationGestureRecognizers(c);
      assert subscriptions == s4 + ManipulationOps(e, c);
      assert s4 == s3 + Adds(c, HoverList);
      assert s3 == s2 + TapOps(e, c, control);
      assert s2 == s1 + DragDropOps(c, e.gestures);
      assert s1 == before + ClearOps(container);
      AppendFive(before, ClearOps(container), DragDropOps(c, e.gestures), TapOps(e, c, control),
                 Adds(c, HoverList), ManipulationOps(e, c));
    }

    /** The tail of UpdatingGestureRecognizers: the manipulation group is
        attached when a swipe, pinch or pan recognizer is declared, except on
        a scroll view, where one warning per declared kind is logged instead. */
    method UpdateManipulationGestureRecognizers(c: NativeId)
      modifies this`subscriptions, this`log
      ensures subscriptions == old(subscriptions) + ManipulationOps(element, c)
      ensures log == old(log) + ScrollViewWarnings(element)
    {
      var gs := element.gestures;
      var hasSwipe, hasPinch, hasPan := HasSwipe(gs), HasPinch(gs), HasPan(gs);
      if !hasSwipe && !hasPinch && !hasPan {
        return;
      }
      if element.kind == ScrollView {
        ghost var before := log;
        ghost var pinch := if hasPinch then [PinchOnScrollView] else [];
        ghost var pan := if hasPan then [PanOnScrollView] else [];
        ghost var swipe := if hasSwipe then [SwipeOnScrollView] else [];
        if hasPinch { log := log + [PinchOnScrollView]; }
        assert log == before + pinch;
        if hasPan { log := log + [PanOnScrollView]; }
        assert log == before + pinch + pan;
        if hasSwipe { log := log + [SwipeOnScrollView]; }
        assert log == before + pinch + pan + swipe;
        AppendThree(before, pinch, pan, swipe);
        return;
      }
      Subscribe(c, ManipulationList);
    }

    /** The Container setter. */
    method SetContainer(value: Option<NativeId>)
      modifies this`container, this`subscriptions, this`canDrag, this`allowDrop, this`isTabStop, this`log
      ensures container == value
      ensures value == old(container) ==> subscriptions == old(subscriptions) && log == old(log)
      ensures value != old(container) ==>
        subscriptions == old(subscriptions) + ClearOps(old(container)) + Rederivation(element, value, control)
      ensures value != old(container) ==>
        log == old(log) + (if value.Some? && IsView(element) then ScrollViewWarnings(element) else [])
      ensures value == old(container) ==> Flags() == old(Flags())
      ensures value != old(container) ==> Flags() == RederivedFlags(element, value, old(Flags()))
    {
      if container == value {
        return;
      }
      ClearContainerEventHandlers();
      container := value;
      UpdatingGestureRecognizers();
    }

    /** The Control setter. */
    method SetControl(value: Option<NativeId>)
      modifies this`control, this`subscriptions, this`canDrag, this`allowDrop, this`isTabStop, this`log
      ensures control == value
      ensures value == old(control) ==> subscriptions == old(subscriptions)
      ensures value == old(control) || !PreventGestureBubbling(element.kind) || container.None? ==>
        log == old(log) && Flags() == old(Flags())
      ensures value != old(control) && (!PreventGestureBubbling(element.kind) || container.None?) ==>
        subscriptions == old(subscriptions) + DetachControlOps(old(control))
      ensures value != old(control) && PreventGestureBubbling(element.kind) && container.Some? ==>
        subscriptions == old(subscriptions) + DetachControlOps(old(control)) + Rederivation(element, container, value) &&
        log == old(log) + ScrollViewWarnings(element) &&
        Flags() == RederivedFlags(element, container, old(Flags()))
    {
      if control == value {
        return;
      }
      DetachControlEventHandlers();
      control := value;
      if PreventGestureBubbling(element.kind) {
        UpdatingGestureRecognizers();
      }
    }

    /** ModelGestureRecognizersOnCollectionChanged: the composite recognizer
        collection of the view changed, leaving `gestures` as the view's
        recognizers and `composite` as the composite collection. The handler
        is registered only on a view, so an element that is not a view is
        left alone. */
    method OnGestureRecognizersChanged(gestures: seq<Recognizer>, composite: seq<Recognizer>)
      modifies this`element, this`subscriptions, this`canDrag, this`allowDrop, this`isTabStop, this`log
      ensures !IsView(old(element)) ==>
        element == old(element) && subscriptions == old(subscriptions) && log == old(log) && Flags() == old(Flags())
      ensures IsView(old(element)) ==>
        element == old(element).(gestures := gestures, compositeGestures := composite) &&
        subscriptions == old(subscriptions) + Rederivation(element, container, control) &&
        log == old(log) + (if container.Some? then ScrollViewWarnings(element) else []) &&
        Flags() == RederivedFlags(element, container, old(Flags()))
    {
      if !IsView(element) {
        return;
      }
      element := element.(gestures := gestures, compositeGestures := composite);
      UpdatingGestureRecognizers();
    }
  }
}
