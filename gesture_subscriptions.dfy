/** Which native events the gesture dispatcher subscribes to, derived from
    which recognizer kinds the element declares (UpdatingGestureRecognizers
    and the helpers it calls), and what ClearContainerEventHandlers detaches. */
module GestureSubscriptions {
  import opened Wrappers
  import opened GestureTypes
  import opened GestureDispatch

  /** The handlers ClearContainerEventHandlers detaches from the container,
      in order. DragLeave, RightTapped, DoubleTapped and KeyDown are attached
      elsewhere but are not in this list. */
  const ClearedList: seq<Handler> := [
    DragStartingSub, DropCompletedSub, DragOverSub, DropSub, TapSub,
    ManipulationDeltaSub, ManipulationStartedSub, ManipulationCompletedSub,
    PointerPressedSub, PointerExitedSub, PointerReleasedSub, PointerCanceledSub,
    PgrEnteredSub, PgrExitedSub, PgrMovedSub]

  /** The handlers a control loses when it is replaced. */
  const ControlList: seq<Handler> := [ControlTapSub, ControlDoubleTapSub]

  /** The hover handlers attached whenever recognizers are re-derived. */
  const HoverList: seq<Handler> := [PgrEnteredSub, PgrExitedSub, PgrMovedSub]

  /** The handlers attached when the element declares a swipe, pinch or pan recognizer. */
  const ManipulationList: seq<Handler> := [
    ManipulationDeltaSub, ManipulationStartedSub, ManipulationCompletedSub,
    PointerPressedSub, PointerExitedSub, PointerReleasedSub, PointerCanceledSub]

  /** `+=` of each handler of `hs` on native element `k`, in order. */
  function Adds(k: NativeId, hs: seq<Handler>): (r: seq<SubOp>)
    ensures |r| == |hs|
    ensures forall i :: 0 <= i < |r| ==> r[i] == Added(k, hs[i])
  {
    seq(|hs|, i requires 0 <= i < |hs| => Added(k, hs[i]))
  }

  /** `-=` of each handler of `hs` on native element `k`, in order. */
  function Removes(k: NativeId, hs: seq<Handler>): (r: seq<SubOp>)
    ensures |r| == |hs|
    ensures forall i :: 0 <= i < |r| ==> r[i] == Removed(k, hs[i])
  {
    seq(|hs|, i requires 0 <= i < |hs| => Removed(k, hs[i]))
  }

  /** The subscription count of one handler after one more operation:
      `+=` adds one, `-=` removes one occurrence if there is one. */
  function Apply(n: nat, op: SubOp, k: NativeId, h: Handler): nat {
    if op.target != k || op.handler != h then n
    else if op.Added? then n + 1
    else if n == 0 then 0
    else n - 1
  }

  function CountFrom(n: nat, ops: seq<SubOp>, k: NativeId, h: Handler): nat
    decreases |ops|
  {
    if ops == [] then n else CountFrom(Apply(n, ops[0], k, h), ops[1..], k, h)
  }

  /** How many times `h` is subscribed on native element `k` after the
      operations `ops`, starting from no subscriptions. */
  function Count(ops: seq<SubOp>, k: NativeId, h: Handler): nat {
    CountFrom(0, ops, k, h)
  }

  function ClearOps(container: Option<NativeId>): seq<SubOp> {
    match container
    case None => []
    case Some(c) => Removes(c, ClearedList)
  }

  /** What the Control setter detaches from the control it replaces. */
  function DetachControlOps(control: Option<NativeId>): seq<SubOp> {
    match control
    case None => []
    case Some(k) => Removes(k, ControlList)
  }

  /** The `CanDrag` of the first drag recognizer, false when there is none. */
  function FirstCanDrag(gs: seq<Recognizer>): bool {
    if gs == [] then false
    else if gs[0].DragRecognizer? then gs[0].canDrag
    else FirstCanDrag(gs[1..])
  }

  /** The `AllowDrop` of the first drop recognizer, false when there is none. */
  function FirstAllowDrop(gs: seq<Recognizer>): bool {
    if gs == [] then false
    else if gs[0].DropRecognizer? then gs[0].allowDrop
    else FirstAllowDrop(gs[1..])
  }

  /** The container's CanDrag, AllowDrop and IsTabStop. */
  datatype ContainerFlags = ContainerFlags(canDrag: bool, allowDrop: bool, isTabStop: bool)

  /** The flags UpdatingGestureRecognizers leaves on the container: CanDrag
      and AllowDrop come from the first drag and drop recognizers, IsTabStop
      is set when a tap recognizer needs keyboard delegation and is never
      cleared; without a container or a view nothing is written. */
  function RederivedFlags(e: Element, container: Option<NativeId>, f: ContainerFlags): ContainerFlags {
    if container.None? || !IsView(e) then f
    else ContainerFlags(FirstCanDrag(e.gestures), FirstAllowDrop(e.gestures), f.isTabStop || e.tapNeedsDelegate)
  }

  predicate HasSwipe(gs: seq<Recognizer>) {
    exists i :: 0 <= i < |gs| && gs[i].SwipeRecognizer?
  }

  predicate HasPinch(gs: seq<Recognizer>) {
    exists i :: 0 <= i < |gs| && gs[i].PinchRecognizer?
  }

  predicate HasPan(gs: seq<Recognizer>) {
    exists i :: 0 <= i < |gs| && gs[i].PanRecognizer?
  }

  predicate HasManipulationGesture(gs: seq<Recognizer>) {
    HasSwipe(gs) || HasPinch(gs) || HasPan(gs)
  }

  /** Some tap recognizer in `gs` requires a number of taps in `counts`. */
  predicate HasTapRequiring(gs: seq<Recognizer>, counts: set<int>) {
    exists i :: 0 <= i < |gs| && gs[i].TapRecognizer? && gs[i].taps in counts
  }

  /** A single-tap recognizer exists on the view or on a child at the origin. */
  predicate WantsTap(e: Element) {
    HasTapRequiring(e.gestures, {1}) || HasTapRequiring(e.childTapsAtOrigin, {1})
  }

  /** A recognizer requiring one or two taps exists on the view or on a child at the origin. */
  predicate WantsDoubleTap(e: Element) {
    HasTapRequiring(e.gestures, {1, 2}) || HasTapRequiring(e.childTapsAtOrigin, {1, 2})
  }

  /** UpdateDragAndDropGestureRecognizers. */
  function DragDropOps(c: NativeId, gs: seq<Recognizer>): seq<SubOp> {
    (if FirstCanDrag(gs) then Adds(c, [DragStartingSub, DropCompletedSub]) else [])
    + (if FirstAllowDrop(gs) then Adds(c, [DragOverSub, DropSub, DragLeaveSub]) else [])
  }

  /** The single-tap block of UpdateTapGestureRecognizers: Tapped and
      RightTapped on the container, or, when no recognizer wants a single
      tap, the swallowing Tapped handler on a control that prevents bubbling. */
  function SingleTapOps(e: Element, c: NativeId, control: Option<NativeId>): seq<SubOp> {
    if WantsTap(e) then Adds(c, [TapSub, RightTapSub])
    else if control.Some? && PreventGestureBubbling(e.kind) then Adds(control.value, [ControlTapSub])
    else []
  }

  /** The double-tap block, the same shape for one- or two-tap recognizers. */
  function DoubleTapOps(e: Element, c: NativeId, control: Option<NativeId>): seq<SubOp> {
    if WantsDoubleTap(e) then Adds(c, [DoubleTapSub])
    else if control.Some? && PreventGestureBubbling(e.kind) then Adds(control.value, [ControlDoubleTapSub])
    else []
  }

  /** The key handler, attached when a tap recognizer needs the keyboard. */
  function KeyOps(e: Element, c: NativeId): seq<SubOp> {
    if e.tapNeedsDelegate then Adds(c, [KeyDownSub]) else []
  }

  /** UpdateTapGestureRecognizers: single taps, double taps, then the key handler. */
  function TapOps(e: Element, c: NativeId, control: Option<NativeId>): seq<SubOp> {
    SingleTapOps(e, c, control) + DoubleTapOps(e, c, control) + KeyOps(e, c)
  }

  /** The manipulation group, attached only off scroll views. */
  function ManipulationOps(e: Element, c: NativeId): seq<SubOp> {
    if !HasManipulationGesture(e.gestures) || e.kind == ScrollView then []
    else Adds(c, ManipulationList)
  }

  /** The warnings logged for manipulation recognizers declared on a scroll
      view: one per kind present, each at most once, none off scroll views. */
  function ScrollViewWarnings(e: Element): (ws: seq<Warning>)
    ensures PinchOnScrollView in ws <==> e.kind == ScrollView && HasPinch(e.gestures)
    ensures PanOnScrollView in ws <==> e.kind == ScrollView && HasPan(e.gestures)
    ensures SwipeOnScrollView in ws <==> e.kind == ScrollView && HasSwipe(e.gestures)
    ensures |ws| <= 3
  {
    if e.kind != ScrollView || !HasManipulationGesture(e.gestures) then []
    else
      (if HasPinch(e.gestures) then [PinchOnScrollView] else [])
      + (if HasPan(e.gestures) then [PanOnScrollView] else [])
      + (if HasSwipe(e.gestures) then [SwipeOnScrollView] else [])
  }

  /** Everything UpdatingGestureRecognizers attaches, in order, once the
      container has been cleared. */
  function Attachments(e: Element, c: NativeId, control: Option<NativeId>): seq<SubOp> {
    DragDropOps(c, e.gestures) + TapOps(e, c, control) + Adds(c, HoverList) + ManipulationOps(e, c)
  }

  /** The operations of UpdatingGestureRecognizers: nothing without a
      container or a view; otherwise the container is cleared, then the
      derived handlers are attached to the container and the control. */
  function Rederivation(e: Element, container: Option<NativeId>, control: Option<NativeId>): seq<SubOp> {
    if container.None? || !IsView(e) then []
    else ClearOps(container) + Attachments(e, container.value, control)
  }

  // ---------------------------------------------------------------------
  // Regrouping of appended logs. These lemmas stand for nothing in the
  // dispatcher; they only spare the solver the associativity steps when a
  // method appends to a log several times, and the empty prefix of a log
  // that starts out empty.

  lemma AppendAssociates<T>(s: seq<T>, a: seq<T>, b: seq<T>)
    ensures s + a + b == s + (a + b)
  {
  }

  lemma AppendToEmpty<T>(s: seq<T>)
    ensures [] + [] + s == s
  {
  }

  lemma AppendThree<T>(s: seq<T>, a: seq<T>, b: seq<T>, c: seq<T>)
    ensures s + a + b + c == s + (a + b + c)
  {
  }

  lemma AppendFive<T>(s: seq<T>, a: seq<T>, b: seq<T>, c: seq<T>, d: seq<T>, e: seq<T>)
    ensures s + a + b + c + d + e == s + (a + (b + c + d + e))
  {
  }
}
