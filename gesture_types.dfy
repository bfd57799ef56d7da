/** The vocabulary of the Windows gesture dispatcher: the recognizer
    descriptors a view declares, the view itself as the dispatcher sees it,
    the raw input events, the callbacks sent to recognizers, and the native
    event subscriptions the dispatcher makes. */
module GestureTypes {
  import opened Wrappers

  /** A pointer identifier as reported by the platform (an unsigned 32-bit id). */
  type PointerId = nat

  /** A native element (container or control) the dispatcher subscribes to. */
  type NativeId = nat

  /** The flags of a tap recognizer's `Buttons` mask. */
  datatype MouseButton = Primary | Secondary

  /** The flags of a swipe recognizer's `Direction`. */
  datatype Direction = Right | Left | Up | Down

  /** A point in the view's coordinate space; only passed along, never computed. */
  datatype Point = Point(x: real, y: real)

  /** A declared gesture recognizer, reduced to the configuration the dispatcher reads. */
  datatype Recognizer =
    | TapRecognizer(taps: int, buttons: set<MouseButton>)
    | PanRecognizer(touchPoints: int)
    | PinchRecognizer
    | SwipeRecognizer(direction: set<Direction>)
    | PointerRecognizer
    | DragRecognizer(canDrag: bool)
    | DropRecognizer(allowDrop: bool)

  /** The runtime type of the bound element, as far as the dispatcher tests it.
      `NonView` is a visual element that is not a `View` (it has no recognizers). */
  datatype ElementKind =
    | Button | CheckBox | DatePicker | Stepper | Slider | Switch | TimePicker
    | ImageButton | RadioButton | ScrollView | OtherView | NonView

  /** The bound element: its kind, its recognizer collection
      (`GestureRecognizers`), its composite recognizer collection (what
      `GetCompositeGestureRecognizers` returns; the hover handlers read this
      one), the tap recognizers of its child elements hit at the origin (used
      when choosing tap subscriptions) and whether a tap recognizer needs
      keyboard delegation. */
  datatype Element = Element(
    kind: ElementKind,
    gestures: seq<Recognizer>,
    compositeGestures: seq<Recognizer>,
    childTapsAtOrigin: seq<Recognizer>,
    tapNeedsDelegate: bool)

  predicate IsView(e: Element) {
    e.kind != NonView
  }

  /** The type of the routed event that reached the tap handler. */
  datatype TapEvent = Tapped | DoubleTapped | RightTapped | KeyActivated

  /** A keyboard key, as far as the key handler distinguishes it. */
  datatype Key = Enter | Space | OtherKey(code: int)

  /** The payload of a manipulation-delta event. `origin` is the pinch origin
      already transformed into the container and normalised; it is `None`
      when the event's original source is not a UI element. */
  datatype Manipulation = Manipulation(
    deltaX: real, deltaY: real,
    cumulativeX: real, cumulativeY: real,
    scale: real,
    origin: Option<Point>)

  /** Raw input delivered to the session handlers. */
  datatype Input =
    | Press(id: PointerId)
    | Release(id: PointerId)
    | Cancel(id: PointerId)
    | Exit(id: PointerId)
    | ManipulationStarted
    | ManipulationDelta(m: Manipulation)
    | ManipulationCompleted

  /** Where a fired tap recognizer came from. */
  datatype TapSource = FromChild | FromSelf

  /** The hover phases forwarded to pointer recognizers. */
  datatype PointerPhase = Entered | Exited | Moved

  /** A callback sent to the recognizer at position `index` of the list it was taken from. */
  datatype Callback =
    | PanStarted(index: nat, panId: int)
    | Panned(index: nat, x: real, y: real, panId: int)
    | PanCompleted(index: nat, panId: int)
    | PanCanceled(index: nat, panId: int)
    | PinchStarted(index: nat, origin: Point)
    | Pinched(index: nat, scale: real, origin: Point)
    | PinchEnded(index: nat)
    | PinchCanceled(index: nat)
    | Swiped(index: nat, x: real, y: real)
    | SwipeDetected(index: nat, direction: set<Direction>)
    | TapSent(source: TapSource, index: nat)
    | PointerSent(phase: PointerPhase, index: nat)

  /** One native event subscription: which handler of the dispatcher is
      attached to which event of a native element. */
  datatype Handler =
    | DragStartingSub        // DragStarting += HandleDragStarting
    | DropCompletedSub       // DropCompleted += HandleDropCompleted
    | DragOverSub            // DragOver += HandleDragOver
    | DropSub                // Drop += HandleDrop
    | DragLeaveSub           // DragLeave += HandleDragLeave
    | TapSub                 // Tapped += OnTap
    | RightTapSub            // RightTapped += OnTap
    | DoubleTapSub           // DoubleTapped += OnTap
    | ManipulationDeltaSub   // ManipulationDelta += OnManipulationDelta
    | ManipulationStartedSub // ManipulationStarted += OnManipulationStarted
    | ManipulationCompletedSub // ManipulationCompleted += OnManipulationCompleted
    | PointerPressedSub      // PointerPressed += OnPointerPressed
    | PointerExitedSub       // PointerExited += OnPointerExited
    | PointerReleasedSub     // PointerReleased += OnPointerReleased
    | PointerCanceledSub     // PointerCanceled += OnPointerCanceled
    | PgrEnteredSub          // PointerEntered += OnPgrPointerEntered
    | PgrExitedSub           // PointerExited += OnPgrPointerExited
    | PgrMovedSub            // PointerMoved += OnPgrPointerMoved
    | KeyDownSub             // KeyDown += _container_KeyDown
    | ControlTapSub          // control Tapped += HandleTapped
    | ControlDoubleTapSub    // control DoubleTapped += HandleDoubleTapped

  /** The warnings logged when manipulation gestures are declared on a scroll view. */
  datatype Warning = PinchOnScrollView | PanOnScrollView | SwipeOnScrollView

  /** One `+=` (Added) or `-=` (Removed) of a handler on an event of a native element. */
  datatype SubOp = Added(target: NativeId, handler: Handler) | Removed(target: NativeId, handler: Handler)
}
