/** What the gesture dispatcher promises, stated over the transition
    functions of GestureDispatch: who receives a fan-out, the finger-count
    guards, the completion outcomes, the pan id, "started" at most once per
    session, and tap precedence. */
module GestureProperties {
  import opened Wrappers
  import opened GestureTypes
  import opened GestureDispatch
  import opened GestureSubscriptions

  // ---------------------------------------------------------------------
  // Fan-out

  /** A callback is in a prefix fan-out exactly when the recognizer at its
      index lies in the prefix and was sent that callback. */
  lemma {:induction false} CollectMember(d: Dispatch, gs: seq<Recognizer>, n: nat, c: Callback)
    requires n <= |gs|
    ensures c in Collect(d, gs, n) <==> c.index < n && c in Emit(d, c.index, gs[c.index])
  {
    if n > 0 {
      CollectMember(d, gs, n - 1, c);
      var last := Emit(d, n - 1, gs[n - 1]);
      assert Collect(d, gs, n) == Collect(d, gs, n - 1) + last;
      if c in last {
        EmitIndex(d, n - 1, gs[n - 1], c);
      }
    }
  }

  /** The whole fan-out: each recognizer gets what Emit gives it, and nothing
      reaches an index outside the list. */
  lemma DispatchedMember(d: Dispatch, gs: seq<Recognizer>, c: Callback)
    ensures c in Dispatched(d, gs) <==> c.index < |gs| && c in Emit(d, c.index, gs[c.index])
  {
    CollectMember(d, gs, |gs|, c);
  }

  // ---------------------------------------------------------------------
  // Finger-count guards on deltas

  predicate IsPinchCallback(c: Callback) {
    c.PinchStarted? || c.Pinched? || c.PinchEnded? || c.PinchCanceled?
  }

  predicate IsSwipeCallback(c: Callback) {
    c.Swiped? || c.SwipeDetected?
  }

  predicate IsPanCallback(c: Callback) {
    c.PanStarted? || c.Panned? || c.PanCompleted? || c.PanCanceled?
  }

  /** Only a pinch fan-out produces pinch callbacks. */
  lemma PinchCallbacksFromPinch(d: Dispatch, gs: seq<Recognizer>, c: Callback)
    requires c in Dispatched(d, gs) && IsPinchCallback(c)
    ensures d.PinchDelta? || d.PinchDone?
  {
    DispatchedMember(d, gs, c);
  }

  /** Only a swipe fan-out produces swipe callbacks. */
  lemma SwipeCallbacksFromSwipe(d: Dispatch, gs: seq<Recognizer>, c: Callback)
    requires c in Dispatched(d, gs) && IsSwipeCallback(c)
    ensures d.SwipeDelta? || d.SwipeDone?
  {
    DispatchedMember(d, gs, c);
  }

  /** Only a pan fan-out produces pan callbacks. */
  lemma PanCallbacksFromPan(d: Dispatch, gs: seq<Recognizer>, c: Callback)
    requires c in Dispatched(d, gs) && IsPanCallback(c)
    ensures d.PanDelta? || d.PanDone?
  {
    DispatchedMember(d, gs, c);
  }

  /** HandleSwipe sends only swipe callbacks, and only with at most one finger down. */
  lemma SwipeDeltaKinds(e: Element, s: Session, m: Manipulation, c: Callback)
    requires c in SwipeDeltaStep(e, s, m).out
    ensures IsSwipeCallback(c) && |s.fingers| <= 1
  {
    DispatchedMember(SwipeDelta(m.deltaX + m.cumulativeX, m.deltaY + m.cumulativeY), e.gestures, c);
  }

  /** HandlePinch sends only pinch callbacks, and only with two fingers or more down. */
  lemma PinchDeltaKinds(e: Element, s: Session, m: Manipulation, c: Callback)
    requires c in PinchDeltaStep(e, s, m).out
    ensures IsPinchCallback(c) && |s.fingers| >= 2
  {
    DispatchedMember(PinchDelta(!s.pinchStartedSent, m.scale, m.origin.value), e.gestures, c);
  }

  /** HandlePan sends only pan callbacks. */
  lemma PanDeltaKinds(e: Element, s: Session, m: Manipulation, c: Callback)
    requires c in PanDeltaStep(e, s, m).out
    ensures IsPanCallback(c)
  {
    var x, y := m.deltaX + m.cumulativeX, m.deltaY + m.cumulativeY;
    DispatchedMember(PanDelta(|s.fingers|, !s.panStartedSent, x, y, s.panId), e.gestures, c);
  }

  /** A manipulation delta with fewer than two fingers down sends no pinch
      callback, and one with more than one finger down sends no swipe callback. */
  lemma DeltaFingerGuards(e: Element, s: Session, m: Manipulation, c: Callback)
    requires ValidSession(s)
    requires c in Step(e, s, ManipulationDelta(m)).out
    ensures |s.fingers| < 2 ==> !IsPinchCallback(c)
    ensures |s.fingers| > 1 ==> !IsSwipeCallback(c)
  {
    var t1 := SwipeDeltaStep(e, s, m);
    var t2 := PinchDeltaStep(e, t1.next, m);
    var t3 := PanDeltaStep(e, t2.next, m);
    assert Step(e, s, ManipulationDelta(m)).out == t1.out + t2.out + t3.out;
    assert t2.next.fingers == t1.next.fingers == s.fingers;
    if c in t1.out {
      SwipeDeltaKinds(e, s, m, c);
    } else if c in t2.out {
      PinchDeltaKinds(e, t1.next, m, c);
    } else {
      PanDeltaKinds(e, t2.next, m, c);
    }
  }

  /** A pan delta reaches exactly the pan recognizers whose touch points equal
      the number of fingers down, each with the session's pan id. */
  lemma PanDeltaReach(e: Element, s: Session, m: Manipulation, i: nat)
    ensures var x, y := m.deltaX + m.cumulativeX, m.deltaY + m.cumulativeY;
      Panned(i, x, y, s.panId) in PanDeltaStep(e, s, m).out
      <==> i < |e.gestures| && e.gestures[i].PanRecognizer? && e.gestures[i].touchPoints == |s.fingers|
  {
    var x, y := m.deltaX + m.cumulativeX, m.deltaY + m.cumulativeY;
    DispatchedMember(PanDelta(|s.fingers|, !s.panStartedSent, x, y, s.panId), e.gestures, Panned(i, x, y, s.panId));
  }

  /** A pan delta sends PanStarted, with the session's pan id, to exactly
      the pan recognizers it reaches, and only on the first delta of the
      session; afterwards the flag is set, whether or not any recognizer
      was reached. */
  lemma PanStartedOnFirstDelta(e: Element, s: Session, m: Manipulation, i: nat, id: int)
    ensures PanStarted(i, id) in PanDeltaStep(e, s, m).out
      <==> !s.panStartedSent && id == s.panId
           && i < |e.gestures| && e.gestures[i].PanRecognizer? && e.gestures[i].touchPoints == |s.fingers|
    ensures PanDeltaStep(e, s, m).next.panStartedSent
  {
    var x, y := m.deltaX + m.cumulativeX, m.deltaY + m.cumulativeY;
    DispatchedMember(PanDelta(|s.fingers|, !s.panStartedSent, x, y, s.panId), e.gestures, PanStarted(i, id));
  }

  /** A pinch delta sends PinchStarted, with the event's origin, to every
      pinch recognizer when two or more fingers are down, the event has an
      origin and the session has not sent it yet; the flag is then set, and
      it is left alone when the delta was ignored. */
  lemma PinchStartedOnFirstDelta(e: Element, s: Session, m: Manipulation, i: nat, o: Point)
    ensures PinchStarted(i, o) in PinchDeltaStep(e, s, m).out
      <==> |s.fingers| >= 2 && m.origin == Some(o) && !s.pinchStartedSent
           && i < |e.gestures| && e.gestures[i].PinchRecognizer?
    ensures PinchDeltaStep(e, s, m).next.pinchStartedSent
      == (s.pinchStartedSent || (|s.fingers| >= 2 && m.origin.Some?))
  {
    if |s.fingers| >= 2 && m.origin.Some? {
      DispatchedMember(PinchDelta(!s.pinchStartedSent, m.scale, m.origin.value), e.gestures, PinchStarted(i, o));
    }
  }

  // ---------------------------------------------------------------------
  // Completion

  predicate Completing(input: Input) {
    input.Release? || input.Cancel? || input.Exit? || input.ManipulationCompleted?
  }

  /** After release, cancel, exit or manipulation-completed on a view, no
      gesture is in progress any more; the pointer list is as Lifted leaves it. */
  lemma CompletionClearsFlags(e: Element, s: Session, input: Input)
    requires ValidSession(s) && Completing(input) && IsView(e)
    ensures var n := Step(e, s, input).next;
      !n.isPanning && !n.isSwiping && !n.isPinching
    ensures !input.ManipulationCompleted? ==> Step(e, s, input).next.fingers == Lifted(s.fingers, input.id)
  {
    match input
    case Release(id) => CompletionsClear(e, s.(fingers := Lifted(s.fingers, id)), true);
    case Cancel(id) => CompletionsClear(e, s.(fingers := Lifted(s.fingers, id)), false);
    case Exit(id) => CompletionsClear(e, s.(fingers := Lifted(s.fingers, id)), true);
    case ManipulationCompleted => CompletionsClear(e, s, true);
  }

  lemma CompletionsClear(e: Element, s: Session, success: bool)
    requires IsView(e)
    ensures var n := Completions(e, s, success).next;
      !n.isPanning && !n.isSwiping && !n.isPinching
  {
    var t1 := SwipeCompletion(e, s, success);
    var t2 := PinchCompletion(e, t1.next, success);
    assert !t2.next.isSwiping && !t2.next.isPinching;
  }

  /** A cancel never reports success: no swipe is detected, no pinch ends,
      no pan completes. */
  lemma CancelOnlyCancels(e: Element, s: Session, id: PointerId, c: Callback)
    requires ValidSession(s)
    requires c in Step(e, s, Cancel(id)).out
    ensures c.PinchCanceled? || c.PanCanceled?
  {
    var s1 := s.(fingers := Lifted(s.fingers, id));
    var t1 := SwipeCompletion(e, s1, false);
    var t2 := PinchCompletion(e, t1.next, false);
    var t3 := PanCompletion(e, t2.next, false);
    assert Step(e, s, Cancel(id)).out == t1.out + t2.out + t3.out;
    if c in t2.out {
      PinchCompletionKinds(e, t1.next, false, c);
    } else if c in t3.out {
      PanCompletionKinds(e, t2.next, false, c);
    }
  }

  /** SwipeComplete reports a detection on success and nothing on cancel. */
  lemma SwipeCompletionKinds(e: Element, s: Session, success: bool, c: Callback)
    requires c in SwipeCompletion(e, s, success).out
    ensures success && c.SwipeDetected?
  {
    DispatchedMember(SwipeDone, e.gestures, c);
  }

  lemma PinchCompletionKinds(e: Element, s: Session, success: bool, c: Callback)
    requires c in PinchCompletion(e, s, success).out
    ensures if success then c.PinchEnded? else c.PinchCanceled?
  {
    DispatchedMember(PinchDone(success), e.gestures, c);
  }

  lemma PanCompletionKinds(e: Element, s: Session, success: bool, c: Callback)
    requires c in PanCompletion(e, s, success).out
    ensures if success then c.PanCompleted? else c.PanCanceled?
    ensures c.index < |e.gestures| && e.gestures[c.index].PanRecognizer?
      && e.gestures[c.index].touchPoints == |s.fingers| && c.panId == s.panId
  {
    DispatchedMember(PanDone(|s.fingers|, success, s.panId), e.gestures, c);
  }

  /** What a successful completion sends: swipe detections, pinch ends and
      pan completions, the last only to pan recognizers whose touch points
      equal the fingers still down, with the session's pan id. */
  lemma SuccessfulCompletionOutcome(e: Element, s: Session, c: Callback)
    requires c in Completions(e, s, true).out
    ensures c.SwipeDetected? || c.PinchEnded? || c.PanCompleted?
    ensures c.PanCompleted? ==>
      c.index < |e.gestures| && e.gestures[c.index].PanRecognizer?
      && e.gestures[c.index].touchPoints == |s.fingers| && c.panId == s.panId
  {
    var t1 := SwipeCompletion(e, s, true);
    var t2 := PinchCompletion(e, t1.next, true);
    var t3 := PanCompletion(e, t2.next, true);
    assert Completions(e, s, true).out == t1.out + t2.out + t3.out;
    if c in t1.out {
      SwipeCompletionKinds(e, s, true, c);
    } else if c in t2.out {
      PinchCompletionKinds(e, t1.next, true, c);
    } else {
      assert t2.next.fingers == s.fingers && t2.next.panId == s.panId;
      PanCompletionKinds(e, t2.next, true, c);
    }
  }

  /** A release never reports a cancellation. PanCompleted goes only to pan
      recognizers whose touch points equal the number of fingers left after
      the released pointer was removed, and carries the session's pan id. */
  lemma ReleaseOutcome(e: Element, s: Session, id: PointerId, c: Callback)
    requires ValidSession(s)
    requires c in Step(e, s, Release(id)).out
    ensures c.SwipeDetected? || c.PinchEnded? || c.PanCompleted?
    ensures c.PanCompleted? ==>
      c.index < |e.gestures| && e.gestures[c.index].PanRecognizer?
      && e.gestures[c.index].touchPoints == |Lifted(s.fingers, id)| && c.panId == s.panId
  {
    SuccessfulCompletionOutcome(e, s.(fingers := Lifted(s.fingers, id)), c);
  }

  /** An exit completes like a release: it never reports a cancellation,
      and PanCompleted goes only to pan recognizers whose touch points equal
      the fingers left after the exited pointer was removed. */
  lemma ExitOutcome(e: Element, s: Session, id: PointerId, c: Callback)
    requires ValidSession(s)
    requires c in Step(e, s, Exit(id)).out
    ensures c.SwipeDetected? || c.PinchEnded? || c.PanCompleted?
    ensures c.PanCompleted? ==>
      c.index < |e.gestures| && e.gestures[c.index].PanRecognizer?
      && e.gestures[c.index].touchPoints == |Lifted(s.fingers, id)| && c.panId == s.panId
  {
    SuccessfulCompletionOutcome(e, s.(fingers := Lifted(s.fingers, id)), c);
  }

  /** Each completion does nothing unless its own gesture is in progress on
      a view: no callback, no change of state, the pan id included. */
  lemma CompletionIdleUnlessInProgress(e: Element, s: Session, success: bool)
    ensures !IsView(e) || !s.isSwiping ==> SwipeCompletion(e, s, success) == Idle(s)
    ensures !IsView(e) || !s.isPinching ==> PinchCompletion(e, s, success) == Idle(s)
    ensures !IsView(e) || !s.isPanning ==> PanCompletion(e, s, success) == Idle(s)
    ensures IsView(e) && s.isSwiping ==> SwipeCompletion(e, s, success).next == s.(isSwiping := false)
    ensures IsView(e) && s.isPinching ==> PinchCompletion(e, s, success).next == s.(isPinching := false)
    ensures IsView(e) && s.isPanning ==>
      PanCompletion(e, s, success).next == s.(isPanning := false, panId := s.panId + 1)
  {
  }

  /** A release, cancel, exit or manipulation-completed with no gesture in
      progress sends nothing; a pointer event only drops its pointer id. */
  lemma CompletingWithoutGestureIsQuiet(e: Element, s: Session, input: Input)
    requires ValidSession(s) && Completing(input)
    requires !s.isSwiping && !s.isPinching && !s.isPanning
    ensures Step(e, s, input).out == []
    ensures Step(e, s, input).next
      == if input.ManipulationCompleted? then s else s.(fingers := Lifted(s.fingers, input.id))
  {
    var s1 := if input.ManipulationCompleted? then s else s.(fingers := Lifted(s.fingers, input.id));
    var success := !input.Cancel?;
    CompletionIdleUnlessInProgress(e, s1, success);
    assert Step(e, s, input) == Completions(e, s1, success);
  }

  /** The pan id advances by one exactly when a completion ends an active pan
      on a view, whether it succeeded or was canceled; otherwise it stays. */
  lemma PanIdStep(e: Element, s: Session, input: Input)
    requires ValidSession(s)
    ensures Step(e, s, input).next.panId
      == s.panId + (if Completing(input) && IsView(e) && s.isPanning then 1 else 0)
  {
    if Completing(input) {
      PanIdOnCompletion(e, s, input);
    } else {
      PanIdOtherwise(e, s, input);
    }
  }

  lemma PanIdOnCompletion(e: Element, s: Session, input: Input)
    requires ValidSession(s) && Completing(input)
    ensures Step(e, s, input).next.panId == s.panId + (if IsView(e) && s.isPanning then 1 else 0)
  {
    match input
    case Release(id) => CompletionsPanId(e, s.(fingers := Lifted(s.fingers, id)), true);
    case Cancel(id) => CompletionsPanId(e, s.(fingers := Lifted(s.fingers, id)), false);
    case Exit(id) => CompletionsPanId(e, s.(fingers := Lifted(s.fingers, id)), true);
    case ManipulationCompleted => CompletionsPanId(e, s, true);
  }

  lemma PanIdOtherwise(e: Element, s: Session, input: Input)
    requires ValidSession(s) && !Completing(input)
    ensures Step(e, s, input).next.panId == s.panId
  {
    if input.ManipulationDelta? && IsView(e) {
      var t1 := SwipeDeltaStep(e, s, input.m);
      var t2 := PinchDeltaStep(e, t1.next, input.m);
      assert t2.next.panId == s.panId;
    }
  }

  /** The completion run by a pointer handler advances the pan id once
      exactly when a pan was active on a view. */
  lemma CompletionsPanId(e: Element, s: Session, success: bool)
    ensures Completions(e, s, success).next.panId == s.panId + (if IsView(e) && s.isPanning then 1 else 0)
  {
    var t1 := SwipeCompletion(e, s, success);
    var t2 := PinchCompletion(e, t1.next, success);
    assert t2.next.panId == s.panId && t2.next.isPanning == s.isPanning;
  }

  /** The pan id never goes back over any sequence of inputs. */
  lemma {:induction false} PanIdNeverDecreases(e: Element, s: Session, inputs: seq<Input>)
    requires ValidSession(s)
    ensures Run(e, s, inputs).next.panId >= s.panId
    decreases |inputs|
  {
    if inputs != [] {
      PanIdStep(e, s, inputs[0]);
      PanIdNeverDecreases(e, Step(e, s, inputs[0]).next, inputs[1..]);
    }
  }

  // ---------------------------------------------------------------------
  // "Started" at most once per session

  /** The two gestures with a "started" callback and a flag recording it was sent. */
  datatype Gesture = Pan | Pinch

  predicate IsStart(c: Callback, g: Gesture) {
    if g == Pan then c.PanStarted? else c.PinchStarted?
  }

  function StartSent(s: Session, g: Gesture): bool {
    if g == Pan then s.panStartedSent else s.pinchStartedSent
  }

  /** Whether a fan-out carries "started" callbacks of gesture `g`. */
  predicate SendsStart(d: Dispatch, g: Gesture) {
    if g == Pan then d.PanDelta? && d.sendStarted else d.PinchDelta? && d.sendStarted
  }

  /** How many "started" callbacks of gesture `g` recognizer `i` receives in `out`. */
  function Starts(out: seq<Callback>, g: Gesture, i: nat): nat {
    if out == [] then 0
    else (if IsStart(out[0], g) && out[0].index == i then 1 else 0) + Starts(out[1..], g, i)
  }

  lemma {:induction false} StartsAppend(a: seq<Callback>, b: seq<Callback>, g: Gesture, i: nat)
    ensures Starts(a + b, g, i) == Starts(a, g, i) + Starts(b, g, i)
  {
    if a == [] {
      assert a + b == b;
    } else {
      assert (a + b)[0] == a[0];
      assert (a + b)[1..] == a[1..] + b;
      StartsAppend(a[1..], b, g, i);
    }
  }

  /** No "started" callback for recognizer `i` means a count of zero. */
  lemma {:induction false} StartsNone(out: seq<Callback>, g: Gesture, i: nat)
    requires forall c :: c in out ==> !(IsStart(c, g) && c.index == i)
    ensures Starts(out, g, i) == 0
  {
    if out != [] {
      assert out[0] in out;
      assert forall c :: c in out[1..] ==> c in out;
      StartsNone(out[1..], g, i);
    }
  }

  /** One recognizer is sent at most one "started" callback by one fan-out,
      and none unless it is recognizer `i` and the fan-out sends "started". */
  lemma StartsEmit(d: Dispatch, j: nat, r: Recognizer, g: Gesture, i: nat)
    ensures Starts(Emit(d, j, r), g, i) <= 1
    ensures j != i || !SendsStart(d, g) ==> Starts(Emit(d, j, r), g, i) == 0
  {
    var out := Emit(d, j, r);
    if j != i || !SendsStart(d, g) {
      StartsNone(out, g, i);
    } else if out != [] {
      forall c | c in out[1..] ensures !(IsStart(c, g) && c.index == i) {
        assert |out| == 2 && c == out[1];
      }
      StartsNone(out[1..], g, i);
    }
  }

  /** One fan-out sends each recognizer at most one "started" callback, and
      none at all unless it is a delta that sends "started". */
  lemma {:induction false} StartsCollect(d: Dispatch, gs: seq<Recognizer>, n: nat, g: Gesture, i: nat)
    requires n <= |gs|
    ensures Starts(Collect(d, gs, n), g, i) <= 1
    ensures !SendsStart(d, g) ==> Starts(Collect(d, gs, n), g, i) == 0
  {
    if n > 0 {
      var prev := Collect(d, gs, n - 1);
      var last := Emit(d, n - 1, gs[n - 1]);
      assert Collect(d, gs, n) == prev + last;
      StartsCollect(d, gs, n - 1, g, i);
      StartsAppend(prev, last, g, i);
      StartsEmit(d, n - 1, gs[n - 1], g, i);
      if i == n - 1 {
        forall c | c in prev ensures !(IsStart(c, g) && c.index == i) {
          CollectMember(d, gs, n - 1, c);
        }
        StartsNone(prev, g, i);
      }
    }
  }

  /** A transition sends no "started" of gesture `g` and leaves its flag alone. */
  predicate StartNeutral(s: Session, t: Transition, g: Gesture, i: nat) {
    Starts(t.out, g, i) == 0 && StartSent(t.next, g) == StartSent(s, g)
  }

  /** A transition sends at most one "started" of gesture `g` to recognizer
      `i`, none once it was sent, marks it sent when it sends it, and never
      clears the flag. */
  predicate StartOnce(s: Session, t: Transition, g: Gesture, i: nat) {
    Starts(t.out, g, i) <= (if StartSent(s, g) then 0 else 1)
    && (StartSent(s, g) ==> StartSent(t.next, g))
    && (Starts(t.out, g, i) > 0 ==> StartSent(t.next, g))
  }

  /** Completions send no "started" callback and leave the "started" flags alone. */
  lemma CompletionStarts(e: Element, s: Session, success: bool, g: Gesture, i: nat)
    ensures StartNeutral(s, Completions(e, s, success), g, i)
  {
    var t1 := SwipeCompletion(e, s, success);
    var t2 := PinchCompletion(e, t1.next, success);
    var t3 := PanCompletion(e, t2.next, success);
    SwipeCompletionStarts(e, s, success, g, i);
    PinchCompletionStarts(e, t1.next, success, g, i);
    PanCompletionStarts(e, t2.next, success, g, i);
    StartsAppend(t1.out + t2.out, t3.out, g, i);
    StartsAppend(t1.out, t2.out, g, i);
  }

  lemma SwipeCompletionStarts(e: Element, s: Session, success: bool, g: Gesture, i: nat)
    ensures StartNeutral(s, SwipeCompletion(e, s, success), g, i)
  {
    StartsCollect(SwipeDone, e.gestures, |e.gestures|, g, i);
  }

  lemma PinchCompletionStarts(e: Element, s: Session, success: bool, g: Gesture, i: nat)
    ensures StartNeutral(s, PinchCompletion(e, s, success), g, i)
  {
    StartsCollect(PinchDone(success), e.gestures, |e.gestures|, g, i);
  }

  lemma PanCompletionStarts(e: Element, s: Session, success: bool, g: Gesture, i: nat)
    ensures StartNeutral(s, PanCompletion(e, s, success), g, i)
  {
    StartsCollect(PanDone(|s.fingers|, success, s.panId), e.gestures, |e.gestures|, g, i);
  }

  lemma SwipeDeltaStarts(e: Element, s: Session, m: Manipulation, g: Gesture, i: nat)
    ensures StartNeutral(s, SwipeDeltaStep(e, s, m), g, i)
  {
    var gs := e.gestures;
    StartsCollect(SwipeDelta(m.deltaX + m.cumulativeX, m.deltaY + m.cumulativeY), gs, |gs|, g, i);
  }

  lemma PinchDeltaStarts(e: Element, s: Session, m: Manipulation, g: Gesture, i: nat)
    ensures g == Pan ==> StartNeutral(s, PinchDeltaStep(e, s, m), g, i)
    ensures StartOnce(s, PinchDeltaStep(e, s, m), g, i)
  {
    var gs := e.gestures;
    if |s.fingers| >= 2 && m.origin.Some? {
      StartsCollect(PinchDelta(!s.pinchStartedSent, m.scale, m.origin.value), gs, |gs|, g, i);
    }
  }

  lemma PanDeltaStarts(e: Element, s: Session, m: Manipulation, g: Gesture, i: nat)
    ensures g == Pinch ==> StartNeutral(s, PanDeltaStep(e, s, m), g, i)
    ensures StartOnce(s, PanDeltaStep(e, s, m), g, i)
  {
    var gs := e.gestures;
    var x, y := m.deltaX + m.cumulativeX, m.deltaY + m.cumulativeY;
    StartsCollect(PanDelta(|s.fingers|, !s.panStartedSent, x, y, s.panId), gs, |gs|, g, i);
  }

  /** A manipulation delta sends at most one "started" per recognizer, none
      once it was sent, and sending it marks it sent. */
  lemma DeltaStarts(e: Element, s: Session, m: Manipulation, g: Gesture, i: nat)
    requires ValidSession(s)
    ensures StartOnce(s, Step(e, s, ManipulationDelta(m)), g, i)
  {
    if IsView(e) {
      var t1 := SwipeDeltaStep(e, s, m);
      var t2 := PinchDeltaStep(e, t1.next, m);
      var t3 := PanDeltaStep(e, t2.next, m);
      SwipeDeltaStarts(e, s, m, g, i);
      PinchDeltaStarts(e, t1.next, m, g, i);
      PanDeltaStarts(e, t2.next, m, g, i);
      StartsAppend(t1.out + t2.out, t3.out, g, i);
      StartsAppend(t1.out, t2.out, g, i);
    }
  }

  /** Over one input other than manipulation-started: at most one "started"
      per recognizer; none once it was sent; sending it marks it sent; and
      a sent flag stays set. */
  lemma StepStarts(e: Element, s: Session, input: Input, g: Gesture, i: nat)
    requires ValidSession(s) && !input.ManipulationStarted?
    ensures StartOnce(s, Step(e, s, input), g, i)
  {
    match input
    case Press(_) =>
    case ManipulationDelta(m) => DeltaStarts(e, s, m, g, i);
    case ManipulationCompleted => CompletionStarts(e, s, true, g, i);
    case Release(id) => CompletionStarts(e, s.(fingers := Lifted(s.fingers, id)), true, g, i);
    case Cancel(id) => CompletionStarts(e, s.(fingers := Lifted(s.fingers, id)), false, g, i);
    case Exit(id) => CompletionStarts(e, s.(fingers := Lifted(s.fingers, id)), true, g, i);
  }

  /** Within one manipulation session (no manipulation-started in between),
      each recognizer is sent PanStarted, and PinchStarted, at most once, and
      not at all when the session already sent it. */
  lemma {:induction false} StartedAtMostOnce(e: Element, s: Session, inputs: seq<Input>, g: Gesture, i: nat)
    requires ValidSession(s)
    requires forall k :: 0 <= k < |inputs| ==> !inputs[k].ManipulationStarted?
    ensures Starts(Run(e, s, inputs).out, g, i) <= (if StartSent(s, g) then 0 else 1)
    decreases |inputs|
  {
    if inputs != [] {
      var first := Step(e, s, inputs[0]);
      StepStarts(e, s, inputs[0], g, i);
      StartedAtMostOnce(e, first.next, inputs[1..], g, i);
      StartsAppend(first.out, Run(e, first.next, inputs[1..]).out, g, i);
    }
  }

  /** Manipulation-started on a view re-arms both "started" callbacks. */
  lemma ManipulationStartedRearms(e: Element, s: Session, g: Gesture)
    requires ValidSession(s) && IsView(e)
    ensures !StartSent(Step(e, s, ManipulationStarted).next, g)
    ensures Step(e, s, ManipulationStarted).out == []
  {
  }

  lemma DispatchedOne(d: Dispatch, r: Recognizer)
    ensures Dispatched(d, [r]) == Emit(d, 0, r)
  {
    assert Collect(d, [r], 1) == Collect(d, [r], 0) + Emit(d, 0, r);
  }

  /** The scenario's delta: one finger down, so the swipe flag is set (no
      swipe recognizer listens) and the single-touch pan recognizer gets
      "started" and "panned". */
  lemma OneFingerPanDelta(m: Manipulation, id: PointerId, panId: int)
    ensures var e := Element(OtherView, [PanRecognizer(1)], [PanRecognizer(1)], [], false);
      var s := Session([id], false, false, false, false, false, panId);
      var x, y := m.deltaX + m.cumulativeX, m.deltaY + m.cumulativeY;
      Step(e, s, ManipulationDelta(m))
        == Transition(Session([id], true, true, false, true, false, panId),
                      [PanStarted(0, panId), Panned(0, x, y, panId)])
  {
    var x, y := m.deltaX + m.cumulativeX, m.deltaY + m.cumulativeY;
    DispatchedOne(SwipeDelta(x, y), PanRecognizer(1));
    DispatchedOne(PanDelta(1, true, x, y, panId), PanRecognizer(1));
  }

  /** The scenario's release: the finger list empties before completion, so
      no recognizer matches zero touch points; the pan id still advances. */
  lemma OneFingerPanRelease(id: PointerId, panId: int)
    ensures var e := Element(OtherView, [PanRecognizer(1)], [PanRecognizer(1)], [], false);
      var s := Session([id], true, true, false, true, false, panId);
      Step(e, s, Release(id)) == Transition(Session([], false, false, false, true, false, panId + 1), [])
  {
    assert Lifted([id], id) == [];
    DispatchedOne(SwipeDone, PanRecognizer(1));
    DispatchedOne(PanDone(0, true, panId), PanRecognizer(1));
  }

  /** One finger pressed, a pan session started and moved, then the finger
      released: the single-touch pan recognizer gets "started" and "panned",
      but no "completed", because completion matches touch points against the
      finger count after the released pointer is gone. The pan id still advances. */
  lemma OneFingerPanReleaseSendsNoCompletion(m: Manipulation, id: PointerId, panId: int)
    ensures var e := Element(OtherView, [PanRecognizer(1)], [PanRecognizer(1)], [], false);
      var s := Session([], false, false, false, false, false, panId);
      var t := Run(e, s, [Press(id), ManipulationStarted, ManipulationDelta(m), Release(id)]);
      var x, y := m.deltaX + m.cumulativeX, m.deltaY + m.cumulativeY;
      t.out == [PanStarted(0, panId), Panned(0, x, y, panId)]
      && t.next.panId == panId + 1 && !t.next.isPanning && t.next.fingers == []
  {
    var e := Element(OtherView, [PanRecognizer(1)], [PanRecognizer(1)], [], false);
    var s := Session([], false, false, false, false, false, panId);
    var inputs := [Press(id), ManipulationStarted, ManipulationDelta(m), Release(id)];
    var s1 := Session([id], false, false, false, false, false, panId);
    var s3 := Session([id], true, true, false, true, false, panId);
    var s4 := Session([], false, false, false, true, false, panId + 1);
    var out := Step(e, s1, ManipulationDelta(m)).out;
    assert Step(e, s, Press(id)).next == s1;
    assert Step(e, s1, ManipulationStarted) == Idle(s1);
    OneFingerPanDelta(m, id, panId);
    OneFingerPanRelease(id, panId);
    assert Run(e, s3, inputs[3..]) == Transition(s4, []) by {
      assert inputs[3..][1..] == [];
    }
    assert Run(e, s1, inputs[2..]) == Transition(s4, out) by {
      assert inputs[2..][1..] == inputs[3..];
      assert out + [] == out;
    }
    assert Run(e, s1, inputs[1..]) == Transition(s4, out) by {
      assert inputs[1..][1..] == inputs[2..];
      assert [] + out == out;
    }
    assert [] + out == out;
  }

  // ---------------------------------------------------------------------
  // Taps

  /** A tap recognizer that fires for the event. */
  predicate TapFires(event: TapEvent, r: Recognizer) {
    r.TapRecognizer? && ValidateGesture(event, r.taps, r.buttons)
  }

  predicate AnyTapFires(event: TapEvent, gs: seq<Recognizer>) {
    exists i :: 0 <= i < |gs| && TapFires(event, gs[i])
  }

  /** The tap validity rule by event kind: a right tap needs the secondary
      button and a single tap; a double tap the primary button and one or two
      taps; a tap or a key activation the primary button and a single tap. */
  lemma TapValidity(event: TapEvent, taps: int, buttons: set<MouseButton>)
    ensures event == RightTapped ==> (ValidateGesture(event, taps, buttons) <==> Secondary in buttons && taps == 1)
    ensures event == DoubleTapped ==> (ValidateGesture(event, taps, buttons) <==> Primary in buttons && (taps == 1 || taps == 2))
    ensures event == Tapped || event == KeyActivated ==>
      (ValidateGesture(event, taps, buttons) <==> Primary in buttons && taps == 1)
    ensures ValidateGesture(Tapped, taps, buttons) ==> ValidateGesture(DoubleTapped, taps, buttons)
  {
  }

  /** A tap fan-out reaches exactly the tap recognizers that accept the event. */
  lemma TapReach(event: TapEvent, src: TapSource, gs: seq<Recognizer>, i: nat)
    ensures TapSent(src, i) in Dispatched(TapDispatch(event, src), gs) <==> i < |gs| && TapFires(event, gs[i])
  {
    DispatchedMember(TapDispatch(event, src), gs, TapSent(src, i));
  }

  /** A tap fan-out sends something exactly when some recognizer accepts the event. */
  lemma TapSentIff(event: TapEvent, src: TapSource, gs: seq<Recognizer>)
    ensures Dispatched(TapDispatch(event, src), gs) != [] <==> AnyTapFires(event, gs)
  {
    var out := Dispatched(TapDispatch(event, src), gs);
    if out != [] {
      var c := out[0];
      DispatchedMember(TapDispatch(event, src), gs, c);
      assert TapFires(event, gs[c.index]);
    }
    if AnyTapFires(event, gs) {
      var i :| 0 <= i < |gs| && TapFires(event, gs[i]);
      TapReach(event, src, gs, i);
    }
  }

  /** When a child recognizer under the tap accepts it, the children receive
      it and the view's own tap recognizers do not. */
  lemma ChildTapsFirst(e: Element, event: TapEvent, children: seq<Recognizer>, i: nat)
    requires IsView(e) && AnyTapFires(event, children)
    ensures TapSent(FromSelf, i) !in TapOutcome(e, event, Some(children))
    ensures TapSent(FromChild, i) in TapOutcome(e, event, Some(children)) <==> i < |children| && TapFires(event, children[i])
  {
    TapSentIff(event, FromChild, children);
    TapReach(event, FromChild, children, i);
    DispatchedMember(TapDispatch(event, FromChild), children, TapSent(FromSelf, i));
  }

  /** When no child recognizer accepts the tap, the view's own tap
      recognizers that accept it receive it. */
  lemma SelfTapsOtherwise(e: Element, event: TapEvent, children: seq<Recognizer>, i: nat)
    requires IsView(e) && !AnyTapFires(event, children)
    ensures TapSent(FromSelf, i) in TapOutcome(e, event, Some(children)) <==> i < |e.gestures| && TapFires(event, e.gestures[i])
    ensures TapSent(FromChild, i) !in TapOutcome(e, event, Some(children))
  {
    TapSentIff(event, FromChild, children);
    TapReach(event, FromSelf, e.gestures, i);
    DispatchedMember(TapDispatch(event, FromSelf), e.gestures, TapSent(FromChild, i));
  }

  /** The tap is marked handled exactly when a child or the view itself has a
      recognizer that accepts it; without a view or a position nothing fires. */
  lemma TapHandledIff(e: Element, event: TapEvent, hit: Option<seq<Recognizer>>)
    ensures TapOutcome(e, event, hit) != []
      <==> IsView(e) && hit.Some? && (AnyTapFires(event, hit.value) || AnyTapFires(event, e.gestures))
  {
    if IsView(e) && hit.Some? {
      TapSentIff(event, FromChild, hit.value);
      TapSentIff(event, FromSelf, e.gestures);
    }
  }

  /** Enter and Space act as a tap; other keys do nothing. */
  lemma KeyActsAsTap(e: Element, key: Key, hit: Option<seq<Recognizer>>)
    ensures KeyOutcome(e, key, hit) != []
      <==> (key == Enter || key == Space) && IsView(e) && hit.Some?
           && (AnyTapFires(KeyActivated, hit.value) || AnyTapFires(KeyActivated, e.gestures))
  {
    TapHandledIff(e, KeyActivated, hit);
  }

  /** A hover event reaches exactly the pointer recognizers of the view's
      composite collection, each once, with the event's phase; nothing else
      is sent, and nothing at all when the element is not a view. */
  lemma PointerReach(e: Element, phase: PointerPhase, c: Callback)
    ensures c in PointerOutcome(e, phase)
      <==> IsView(e) && c == PointerSent(phase, c.index)
           && c.index < |e.compositeGestures| && e.compositeGestures[c.index].PointerRecognizer?
  {
    DispatchedMember(PointerDispatch(phase), e.compositeGestures, c);
  }
}
