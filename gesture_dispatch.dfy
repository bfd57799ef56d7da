/** What the Windows gesture dispatcher sends, as functions of its state and
    its input: the fan-out of one event to the recognizers of one kind, the
    tap-validity rule, the pressed-pointer list, and the session transitions
    of the manipulation handlers (pan, pinch, swipe). */
module GestureDispatch {
  import opened Wrappers
  import opened GestureTypes

  /** One fan-out of an event to a recognizer list: which recognizers take
      part and what each of them is sent. */
  datatype Dispatch =
    | SwipeDelta(x: real, y: real)
    | SwipeDone
    | PinchDelta(sendStarted: bool, scale: real, origin: Point)
    | PinchDone(success: bool)
    | PanDelta(touches: nat, sendStarted: bool, x: real, y: real, panId: int)
    | PanDone(touches: nat, success: bool, panId: int)
    | TapDispatch(event: TapEvent, source: TapSource)
    | PointerDispatch(phase: PointerPhase)

  /** Whether a tap recognizer with `taps` required taps and button mask
      `buttons` accepts a tap event of the given kind. */
  predicate ValidateGesture(event: TapEvent, taps: int, buttons: set<MouseButton>) {
    if event == RightTapped then
      // only single right clicks are supported
      if Secondary in buttons then taps == 1 else false
    else if Primary !in buttons then
      false
    else if event == DoubleTapped then
      taps == 1 || taps == 2
    else
      taps == 1
  }

  /** The callbacks that recognizer `r`, at position `i`, receives from `d`. */
  function Emit(d: Dispatch, i: nat, r: Recognizer): (out: seq<Callback>)
    ensures |out| <= 2
  {
    match d
    case SwipeDelta(x, y) =>
      if r.SwipeRecognizer? then [Swiped(i, x, y)] else []
    case SwipeDone =>
      if r.SwipeRecognizer? then [SwipeDetected(i, r.direction)] else []
    case PinchDelta(sendStarted, scale, origin) =>
      if r.PinchRecognizer? then
        (if sendStarted then [PinchStarted(i, origin)] else []) + [Pinched(i, scale, origin)]
      else []
    case PinchDone(success) =>
      if r.PinchRecognizer? then [if success then PinchEnded(i) else PinchCanceled(i)] else []
    case PanDelta(touches, sendStarted, x, y, id) =>
      if r.PanRecognizer? && r.touchPoints == touches then
        (if sendStarted then [PanStarted(i, id)] else []) + [Panned(i, x, y, id)]
      else []
    case PanDone(touches, success, id) =>
      if r.PanRecognizer? && r.touchPoints == touches then
        [if success then PanCompleted(i, id) else PanCanceled(i, id)]
      else []
    case TapDispatch(event, source) =>
      if r.TapRecognizer? && ValidateGesture(event, r.taps, r.buttons) then [TapSent(source, i)] else []
    case PointerDispatch(phase) =>
      if r.PointerRecognizer? then [PointerSent(phase, i)] else []
  }

  /** Every callback Emit produces names the recognizer it was sent to. */
  lemma EmitIndex(d: Dispatch, i: nat, r: Recognizer, c: Callback)
    requires c in Emit(d, i, r)
    ensures c.index == i
  {
  }

  /** The callbacks the first `n` recognizers of `gs` receive, in list order. */
  function Collect(d: Dispatch, gs: seq<Recognizer>, n: nat): (r: seq<Callback>)
    requires n <= |gs|
  {
    if n == 0 then [] else Collect(d, gs, n - 1) + Emit(d, n - 1, gs[n - 1])
  }

  /** The callbacks the whole list receives. */
  function Dispatched(d: Dispatch, gs: seq<Recognizer>): seq<Callback> {
    Collect(d, gs, |gs|)
  }

  // ---------------------------------------------------------------------
  // The pressed-pointer list

  predicate Distinct(s: seq<PointerId>) {
    forall i, j :: 0 <= i < j < |s| ==> s[i] != s[j]
  }

  /** `List.Remove`: drops the first occurrence of `id`, if any. */
  function RemoveFirst(s: seq<PointerId>, id: PointerId): (r: seq<PointerId>)
    ensures id !in s ==> r == s
    ensures id in s ==> |r| == |s| - 1
    ensures forall x :: x != id ==> (x in r <==> x in s)
    ensures forall x :: x in r ==> x in s
    ensures Distinct(s) ==> Distinct(r) && id !in r
  {
    if s == [] then []
    else if s[0] == id then
      assert Distinct(s) ==> id !in s[1..] by {
        if Distinct(s) {
          forall k | 0 <= k < |s[1..]| ensures s[1..][k] != id { assert s[k + 1] != s[0]; }
        }
      }
      s[1..]
    else
      var rest := RemoveFirst(s[1..], id);
      assert s == [s[0]] + s[1..];
      assert Distinct(s) ==> Distinct([s[0]] + rest) by {
        if Distinct(s) {
          assert Distinct(s[1..]) by {
            forall i, j | 0 <= i < j < |s[1..]| ensures s[1..][i] != s[1..][j] { assert s[i + 1] != s[j + 1]; }
          }
          assert s[0] !in s[1..] by {
            forall k | 0 <= k < |s[1..]| ensures s[1..][k] != s[0] { assert s[k + 1] != s[0]; }
          }
          assert s[0] !in rest;
          forall i, j | 0 <= i < j < |[s[0]] + rest| ensures ([s[0]] + rest)[i] != ([s[0]] + rest)[j] {
            if i == 0 { assert ([s[0]] + rest)[j] == rest[j - 1]; assert rest[j - 1] in rest; }
            else { assert ([s[0]] + rest)[i] == rest[i - 1] && ([s[0]] + rest)[j] == rest[j - 1]; }
          }
        }
      }
      [s[0]] + rest
  }

  /** A press adds the pointer id only when it is not already there. */
  function Pressed(fingers: seq<PointerId>, id: PointerId): (r: seq<PointerId>)
    ensures Distinct(fingers) ==> Distinct(r)
    ensures forall x :: x in r <==> x in fingers || x == id
    ensures |r| == if id in fingers then |fingers| else |fingers| + 1
  {
    if id in fingers then fingers else fingers + [id]
  }

  /** Release, cancel and exit remove the pointer id only when it is there. */
  function Lifted(fingers: seq<PointerId>, id: PointerId): (r: seq<PointerId>)
    requires Distinct(fingers)
    ensures Distinct(r)
    ensures forall x :: x in r <==> x in fingers && x != id
    ensures |r| == if id in fingers then |fingers| - 1 else |fingers|
  {
    if id in fingers then RemoveFirst(fingers, id) else fingers
  }

  // ---------------------------------------------------------------------
  // Manipulation sessions

  /** The dispatcher's session state; `panId` is the process-wide pan id. */
  datatype Session = Session(
    fingers: seq<PointerId>,
    isPanning: bool,
    isSwiping: bool,
    isPinching: bool,
    panStartedSent: bool,
    pinchStartedSent: bool,
    panId: int)

  /** The state after a handler ran, and the callbacks it sent. */
  datatype Transition = Transition(next: Session, out: seq<Callback>)

  function Idle(s: Session): Transition {
    Transition(s, [])
  }

  /** SwipeComplete: swipe recognizers detect their direction on success. */
  function SwipeCompletion(e: Element, s: Session, success: bool): Transition {
    if !IsView(e) || !s.isSwiping then Idle(s)
    else Transition(s.(isSwiping := false), if success then Dispatched(SwipeDone, e.gestures) else [])
  }

  /** PinchComplete: pinch recognizers are told the pinch ended or was canceled. */
  function PinchCompletion(e: Element, s: Session, success: bool): Transition {
    if !IsView(e) || !s.isPinching then Idle(s)
    else Transition(s.(isPinching := false), Dispatched(PinchDone(success), e.gestures))
  }

  /** PanComplete: pan recognizers whose touch points equal the current
      finger count are told the pan completed or was canceled; the pan id
      then advances. */
  function PanCompletion(e: Element, s: Session, success: bool): Transition {
    if !IsView(e) || !s.isPanning then Idle(s)
    else Transition(s.(isPanning := false, panId := s.panId + 1),
                    Dispatched(PanDone(|s.fingers|, success, s.panId), e.gestures))
  }

  /** Swipe, then pinch, then pan completion, as the pointer handlers run them. */
  function Completions(e: Element, s: Session, success: bool): (t: Transition)
    ensures t.next.fingers == s.fingers
  {
    var t1 := SwipeCompletion(e, s, success);
    var t2 := PinchCompletion(e, t1.next, success);
    var t3 := PanCompletion(e, t2.next, success);
    Transition(t3.next, t1.out + t2.out + t3.out)
  }

  /** HandleSwipe: ignored when more than one finger is down. */
  function SwipeDeltaStep(e: Element, s: Session, m: Manipulation): Transition {
    if |s.fingers| > 1 then Idle(s)
    else Transition(s.(isSwiping := true),
                    Dispatched(SwipeDelta(m.deltaX + m.cumulativeX, m.deltaY + m.cumulativeY), e.gestures))
  }

  /** HandlePinch: ignored when fewer than two fingers are down; the
      recognizers are reached only when the event has an origin. */
  function PinchDeltaStep(e: Element, s: Session, m: Manipulation): Transition {
    if |s.fingers| < 2 then Idle(s)
    else
      match m.origin
      case None => Transition(s.(isPinching := true), [])
      case Some(o) =>
        Transition(s.(isPinching := true, pinchStartedSent := true),
                   Dispatched(PinchDelta(!s.pinchStartedSent, m.scale, o), e.gestures))
  }

  /** HandlePan: pan recognizers whose touch points equal the finger count
      get "started" (first delta of the session only) and "panned". */
  function PanDeltaStep(e: Element, s: Session, m: Manipulation): Transition {
    Transition(s.(isPanning := true, panStartedSent := true),
               Dispatched(PanDelta(|s.fingers|, !s.panStartedSent,
                                   m.deltaX + m.cumulativeX, m.deltaY + m.cumulativeY, s.panId),
                          e.gestures))
  }

  predicate ValidSession(s: Session) {
    Distinct(s.fingers)
  }

  /** One input handled by the dispatcher. */
  function Step(e: Element, s: Session, input: Input): (t: Transition)
    requires ValidSession(s)
    ensures ValidSession(t.next)
  {
    match input
    case Press(id) => Idle(s.(fingers := Pressed(s.fingers, id)))
    case Release(id) => Completions(e, s.(fingers := Lifted(s.fingers, id)), true)
    case Cancel(id) => Completions(e, s.(fingers := Lifted(s.fingers, id)), false)
    case Exit(id) => Completions(e, s.(fingers := Lifted(s.fingers, id)), true)
    case ManipulationStarted =>
      if IsView(e) then Idle(s.(pinchStartedSent := false, panStartedSent := false)) else Idle(s)
    case ManipulationDelta(m) =>
      if !IsView(e) then Idle(s)
      else
        var t1 := SwipeDeltaStep(e, s, m);
        var t2 := PinchDeltaStep(e, t1.next, m);
        var t3 := PanDeltaStep(e, t2.next, m);
        Transition(t3.next, t1.out + t2.out + t3.out)
    case ManipulationCompleted => Completions(e, s, true)
  }

  /** A sequence of inputs handled one after the other. */
  function Run(e: Element, s: Session, inputs: seq<Input>): (t: Transition)
    requires ValidSession(s)
    ensures ValidSession(t.next)
    decreases |inputs|
  {
    if inputs == [] then Idle(s)
    else
      var first := Step(e, s, inputs[0]);
      var rest := Run(e, first.next, inputs[1..]);
      Transition(rest.next, first.out + rest.out)
  }

  // ---------------------------------------------------------------------
  // Taps, keys and hover

  /** OnTap: the tap recognizers of the child elements hit by the tap go
      first; the view's own are tried only when no child recognizer fired.
      `hit` is `None` when the tap position is unknown; `Some(children)`
      lists the recognizers of the children under the tap. */
  function TapOutcome(e: Element, event: TapEvent, hit: Option<seq<Recognizer>>): seq<Callback> {
    if !IsView(e) || hit.None? then []
    else
      var fromChildren := Dispatched(TapDispatch(event, FromChild), hit.value);
      if fromChildren != [] then fromChildren
      else Dispatched(TapDispatch(event, FromSelf), e.gestures)
  }

  /** _container_KeyDown: Enter and Space are handled as a tap. */
  function KeyOutcome(e: Element, key: Key, hit: Option<seq<Recognizer>>): seq<Callback> {
    if key == Enter || key == Space then TapOutcome(e, KeyActivated, hit) else []
  }

  /** HandlePgrPointerEvent: hover events go to every pointer recognizer of
      the composite collection. */
  function PointerOutcome(e: Element, phase: PointerPhase): seq<Callback> {
    if !IsView(e) then [] else Dispatched(PointerDispatch(phase), e.compositeGestures)
  }

  /** The element kinds whose control swallows its own tap events. */
  predicate PreventGestureBubbling(kind: ElementKind) {
    match kind
    case Button | CheckBox | DatePicker | Stepper | Slider | Switch
       | TimePicker | ImageButton | RadioButton => true
    case _ => false
  }
}
