/** What the subscription bookkeeping of the gesture dispatcher leads to:
    how many times each handler is attached after a re-derivation, which
    handlers accumulate because ClearContainerEventHandlers never detaches
    them, and when the manipulation group and the scroll-view warnings appear. */
module SubscriptionProperties {
  import opened Wrappers
  import opened GestureTypes
  import opened GestureDispatch
  import opened GestureSubscriptions

  /** Truncated subtraction: what `m` saturating `-=` leave of `n` subscriptions. */
  function Sub(n: nat, m: nat): nat {
    if n >= m then n - m else 0
  }

  predicate AttachOnly(ops: seq<SubOp>) {
    forall i :: 0 <= i < |ops| ==> ops[i].Added?
  }

  lemma {:induction false} CountFromAppend(n: nat, a: seq<SubOp>, b: seq<SubOp>, k: NativeId, h: Handler)
    ensures CountFrom(n, a + b, k, h) == CountFrom(CountFrom(n, a, k, h), b, k, h)
    decreases |a|
  {
    if a == [] {
      assert a + b == b;
    } else {
      assert (a + b)[0] == a[0];
      assert (a + b)[1..] == a[1..] + b;
      CountFromAppend(Apply(n, a[0], k, h), a[1..], b, k, h);
    }
  }

  /** How often `h` occurs in `hs`. */
  function Occ(hs: seq<Handler>, h: Handler): nat {
    if hs == [] then 0 else (if hs[0] == h then 1 else 0) + Occ(hs[1..], h)
  }

  /** Only `+=`: the count grows by what the attachments alone would give. */
  lemma {:induction false} CountFromAttachOnly(n: nat, ops: seq<SubOp>, k: NativeId, h: Handler)
    requires AttachOnly(ops)
    ensures CountFrom(n, ops, k, h) == n + Count(ops, k, h)
    decreases |ops|
  {
    if ops != [] {
      assert AttachOnly(ops[1..]) by {
        forall i | 0 <= i < |ops[1..]| ensures ops[1..][i].Added? { assert ops[1..][i] == ops[i + 1]; }
      }
      var m := Apply(0, ops[0], k, h);
      CountFromAttachOnly(Apply(n, ops[0], k, h), ops[1..], k, h);
      CountFromAttachOnly(m, ops[1..], k, h);
    }
  }

  /** `+=` of the handlers `hs` on `t` adds each exactly as often as it occurs in `hs`. */
  lemma {:induction false} CountFromAdds(n: nat, t: NativeId, hs: seq<Handler>, k: NativeId, h: Handler)
    ensures CountFrom(n, Adds(t, hs), k, h) == n + if t == k then Occ(hs, h) else 0
    decreases |hs|
  {
    if hs != [] {
      var ops := Adds(t, hs);
      assert ops[1..] == Adds(t, hs[1..]);
      CountFromAdds(Apply(n, ops[0], k, h), t, hs[1..], k, h);
    }
  }

  /** Detaching every handler of `hs` from `t` in turn: each matching `-=`
      removes one subscription if there is one left. */
  lemma {:induction false} CountFromRemoves(n: nat, t: NativeId, hs: seq<Handler>, k: NativeId, h: Handler)
    ensures CountFrom(n, Removes(t, hs), k, h) == if t == k then Sub(n, Occ(hs, h)) else n
    decreases |hs|
  {
    if hs != [] {
      var ops := Removes(t, hs);
      assert ops[1..] == Removes(t, hs[1..]);
      CountFromRemoves(Apply(n, ops[0], k, h), t, hs[1..], k, h);
    }
  }

  lemma AttachOnlyAppend(a: seq<SubOp>, b: seq<SubOp>)
    requires AttachOnly(a) && AttachOnly(b)
    ensures AttachOnly(a + b)
  {
    forall i | 0 <= i < |a + b| ensures (a + b)[i].Added? {
      if i >= |a| { assert (a + b)[i] == b[i - |a|]; }
    }
  }

  /** Everything attached by a re-derivation after the clear is a `+=`. */
  lemma AttachmentsAttachOnly(e: Element, c: NativeId, control: Option<NativeId>)
    ensures AttachOnly(Attachments(e, c, control))
  {
    var dd, tap, hover, manip := DragDropOps(c, e.gestures), TapOps(e, c, control), Adds(c, HoverList), ManipulationOps(e, c);
    assert AttachOnly(dd) by {
      var a := if FirstCanDrag(e.gestures) then Adds(c, [DragStartingSub, DropCompletedSub]) else [];
      var b := if FirstAllowDrop(e.gestures) then Adds(c, [DragOverSub, DropSub, DragLeaveSub]) else [];
      AttachOnlyAppend(a, b);
    }
    assert AttachOnly(tap) by {
      var single, double, key := SingleTapOps(e, c, control), DoubleTapOps(e, c, control), KeyOps(e, c);
      AttachOnlyAppend(single, double);
      AttachOnlyAppend(single + double, key);
    }
    AttachOnlyAppend(dd, tap);
    AttachOnlyAppend(dd + tap, hover);
    AttachOnlyAppend(dd + tap + hover, manip);
  }

  /** Clearing the container and then attaching only: the clear takes one
      subscription of each listed handler, if any, and the attachments add theirs. */
  lemma ClearThenAttach(ops: seq<SubOp>, c: NativeId, attached: seq<SubOp>, h: Handler)
    requires AttachOnly(attached)
    ensures Count(ops + Removes(c, ClearedList) + attached, c, h)
      == Sub(Count(ops, c, h), Occ(ClearedList, h)) + Count(attached, c, h)
  {
    var cleared := Removes(c, ClearedList);
    CountFromAppend(0, ops + cleared, attached, c, h);
    CountFromAppend(0, ops, cleared, c, h);
    CountFromRemoves(Count(ops, c, h), c, ClearedList, c, h);
    CountFromAttachOnly(CountFrom(0, ops + cleared, c, h), attached, c, h);
  }

  /** The count of handler `h` on the container after a re-derivation: what
      the clear leaves of the old count, plus what is attached again. */
  lemma RederiveCount(ops: seq<SubOp>, e: Element, c: NativeId, control: Option<NativeId>, h: Handler)
    requires IsView(e)
    ensures Count(ops + Rederivation(e, Some(c), control), c, h)
      == Sub(Count(ops, c, h), Occ(ClearedList, h)) + Count(Attachments(e, c, control), c, h)
  {
    var cleared, attached := Removes(c, ClearedList), Attachments(e, c, control);
    assert Rederivation(e, Some(c), control) == cleared + attached;
    AppendAssociates(ops, cleared, attached);
    AttachmentsAttachOnly(e, c, control);
    ClearThenAttach(ops, c, attached, h);
  }

  /** The handlers ClearContainerEventHandlers leaves alone never lose a
      subscription on a re-derivation; they only gain. */
  lemma UnclearedHandlersOnlyGrow(ops: seq<SubOp>, e: Element, c: NativeId, control: Option<NativeId>, h: Handler)
    requires IsView(e) && h !in ClearedList
    ensures Count(ops + Rederivation(e, Some(c), control), c, h)
      == Count(ops, c, h) + Count(Attachments(e, c, control), c, h)
  {
    RederiveCount(ops, e, c, control, h);
    OccAbsent(ClearedList, h);
  }

  lemma {:induction false} OccAbsent(hs: seq<Handler>, h: Handler)
    requires h !in hs
    ensures Occ(hs, h) == 0
    decreases |hs|
  {
    if hs != [] {
      assert forall x :: x in hs[1..] ==> x in hs;
      OccAbsent(hs[1..], h);
    }
  }

  /** Counts of an attach-only tail add up. */
  lemma CountAppendAttachOnly(a: seq<SubOp>, b: seq<SubOp>, k: NativeId, h: Handler)
    requires AttachOnly(b)
    ensures Count(a + b, k, h) == Count(a, k, h) + Count(b, k, h)
  {
    CountFromAppend(0, a, b, k, h);
    CountFromAttachOnly(Count(a, k, h), b, k, h);
  }

  predicate NoDuplicates(hs: seq<Handler>) {
    forall i, j :: 0 <= i < j < |hs| ==> hs[i] != hs[j]
  }

  /** In a list without duplicates a handler occurs once if it is there at all. */
  lemma {:induction false} OccOfDistinct(hs: seq<Handler>, h: Handler)
    requires NoDuplicates(hs)
    ensures Occ(hs, h) == if h in hs then 1 else 0
    decreases |hs|
  {
    if hs != [] {
      assert NoDuplicates(hs[1..]) by {
        forall i, j | 0 <= i < j < |hs[1..]| ensures hs[1..][i] != hs[1..][j] {
          assert hs[1..][i] == hs[i + 1] && hs[1..][j] == hs[j + 1];
        }
      }
      OccOfDistinct(hs[1..], h);
      if hs[0] == h {
        assert h !in hs[1..] by {
          forall j | 0 <= j < |hs[1..]| ensures hs[1..][j] != h { assert hs[1..][j] == hs[j + 1]; }
        }
      } else {
        assert h in hs <==> h in hs[1..] by {
          assert hs == [hs[0]] + hs[1..];
        }
      }
    }
  }

  function Ind(b: bool): nat {
    if b then 1 else 0
  }

  lemma NoDuplicatesAppend(a: seq<Handler>, b: seq<Handler>)
    requires NoDuplicates(a) && NoDuplicates(b)
    requires forall x :: x in a ==> x !in b
    ensures NoDuplicates(a + b)
  {
    forall i, j | 0 <= i < j < |a + b| ensures (a + b)[i] != (a + b)[j] {
      if j >= |a| {
        assert (a + b)[j] == b[j - |a|];
        if i < |a| { assert (a + b)[i] == a[i] && a[i] in a && b[j - |a|] in b; } else { assert (a + b)[i] == b[i - |a|]; }
      }
    }
  }

  lemma ClearedListDistinct()
    ensures NoDuplicates(ClearedList)
  {
    var dragDropTap := [DragStartingSub, DropCompletedSub, DragOverSub, DropSub, TapSub];
    assert ClearedList == dragDropTap + ManipulationList + HoverList;
    NoDuplicatesAppend(dragDropTap, ManipulationList);
    NoDuplicatesAppend(dragDropTap + ManipulationList, HoverList);
  }

  lemma GroupListsDistinct()
    ensures NoDuplicates(HoverList) && NoDuplicates(ManipulationList)
  {
  }

  /** What one optional `+=` group contributes to the count of `h` on `k`. */
  function GroupCount(present: bool, t: NativeId, hs: seq<Handler>, k: NativeId, h: Handler): nat {
    Ind(present && t == k && h in hs)
  }

  lemma CountGroup(present: bool, t: NativeId, hs: seq<Handler>, k: NativeId, h: Handler)
    requires NoDuplicates(hs)
    ensures Count(if present then Adds(t, hs) else [], k, h) == GroupCount(present, t, hs, k, h)
    ensures AttachOnly(if present then Adds(t, hs) else [])
  {
    CountFromAdds(0, t, hs, k, h);
    OccOfDistinct(hs, h);
  }

  lemma DragDropCount(c: NativeId, gs: seq<Recognizer>, k: NativeId, h: Handler)
    ensures Count(DragDropOps(c, gs), k, h)
      == GroupCount(FirstCanDrag(gs), c, [DragStartingSub, DropCompletedSub], k, h)
       + GroupCount(FirstAllowDrop(gs), c, [DragOverSub, DropSub, DragLeaveSub], k, h)
  {
    var a := if FirstCanDrag(gs) then Adds(c, [DragStartingSub, DropCompletedSub]) else [];
    var b := if FirstAllowDrop(gs) then Adds(c, [DragOverSub, DropSub, DragLeaveSub]) else [];
    CountGroup(FirstCanDrag(gs), c, [DragStartingSub, DropCompletedSub], k, h);
    CountGroup(FirstAllowDrop(gs), c, [DragOverSub, DropSub, DragLeaveSub], k, h);
    CountAppendAttachOnly(a, b, k, h);
  }

  /** The single-tap block attaches Tapped and RightTapped to the container
      when a single tap is wanted, otherwise the control's swallowing handler. */
  lemma SingleTapCount(e: Element, c: NativeId, control: Option<NativeId>, k: NativeId, h: Handler)
    ensures Count(SingleTapOps(e, c, control), k, h)
      == GroupCount(WantsTap(e), c, [TapSub, RightTapSub], k, h)
       + GroupCount(!WantsTap(e) && control.Some? && PreventGestureBubbling(e.kind), control.GetOr(c), [ControlTapSub], k, h)
    ensures AttachOnly(SingleTapOps(e, c, control))
  {
    var swallow := !WantsTap(e) && control.Some? && PreventGestureBubbling(e.kind);
    CountGroup(WantsTap(e), c, [TapSub, RightTapSub], k, h);
    CountGroup(swallow, control.GetOr(c), [ControlTapSub], k, h);
  }

  /** The double-tap block, likewise. */
  lemma DoubleTapCount(e: Element, c: NativeId, control: Option<NativeId>, k: NativeId, h: Handler)
    ensures Count(DoubleTapOps(e, c, control), k, h)
      == GroupCount(WantsDoubleTap(e), c, [DoubleTapSub], k, h)
       + GroupCount(!WantsDoubleTap(e) && control.Some? && PreventGestureBubbling(e.kind), control.GetOr(c), [ControlDoubleTapSub], k, h)
    ensures AttachOnly(DoubleTapOps(e, c, control))
  {
    var swallow := !WantsDoubleTap(e) && control.Some? && PreventGestureBubbling(e.kind);
    CountGroup(WantsDoubleTap(e), c, [DoubleTapSub], k, h);
    CountGroup(swallow, control.GetOr(c), [ControlDoubleTapSub], k, h);
  }

  lemma TapCount(e: Element, c: NativeId, control: Option<NativeId>, k: NativeId, h: Handler)
    ensures var swallow := control.Some? && PreventGestureBubbling(e.kind);
      Count(TapOps(e, c, control), k, h)
      == GroupCount(WantsTap(e), c, [TapSub, RightTapSub], k, h)
       + GroupCount(!WantsTap(e) && swallow, control.GetOr(c), [ControlTapSub], k, h)
       + GroupCount(WantsDoubleTap(e), c, [DoubleTapSub], k, h)
       + GroupCount(!WantsDoubleTap(e) && swallow, control.GetOr(c), [ControlDoubleTapSub], k, h)
       + GroupCount(e.tapNeedsDelegate, c, [KeyDownSub], k, h)
  {
    var single, double, key := SingleTapOps(e, c, control), DoubleTapOps(e, c, control), KeyOps(e, c);
    SingleTapCount(e, c, control, k, h);
    DoubleTapCount(e, c, control, k, h);
    CountGroup(e.tapNeedsDelegate, c, [KeyDownSub], k, h);
    CountAppendAttachOnly(single, double, k, h);
    CountAppendAttachOnly(single + double, key, k, h);
  }

  /** How many times a re-derivation attaches `h` to native element `k`,
      group by group. */
  lemma AttachmentsCount(e: Element, c: NativeId, control: Option<NativeId>, k: NativeId, h: Handler)
    ensures Count(Attachments(e, c, control), k, h)
      == Count(DragDropOps(c, e.gestures), k, h) + Count(TapOps(e, c, control), k, h)
       + GroupCount(true, c, HoverList, k, h)
       + GroupCount(HasManipulationGesture(e.gestures) && e.kind != ScrollView, c, ManipulationList, k, h)
  {
    var dd, tap, hover, manip := DragDropOps(c, e.gestures), TapOps(e, c, control), Adds(c, HoverList), ManipulationOps(e, c);
    AttachmentsAttachOnly(e, c, control);
    GroupListsDistinct();
    CountGroup(true, c, HoverList, k, h);
    CountGroup(HasManipulationGesture(e.gestures) && e.kind != ScrollView, c, ManipulationList, k, h);
    assert AttachOnly(tap) && AttachOnly(dd + tap) by {
      assert Attachments(e, c, control) == dd + tap + hover + manip;
      forall i | 0 <= i < |dd + tap| ensures (dd + tap)[i].Added? {
        assert (dd + tap)[i] == Attachments(e, c, control)[i];
      }
      forall i | 0 <= i < |tap| ensures tap[i].Added? {
        assert tap[i] == (dd + tap)[|dd| + i];
      }
    }
    CountAppendAttachOnly(dd, tap, k, h);
    CountAppendAttachOnly(dd + tap, hover, k, h);
    CountAppendAttachOnly(dd + tap + hover, manip, k, h);
  }

  /** The count of `h` on the container after a re-derivation: the clear
      takes one subscription of each handler it lists, if there is one, and
      the attachments add theirs. */
  lemma RederivedCountOnContainer(ops: seq<SubOp>, e: Element, c: NativeId, control: Option<NativeId>, h: Handler)
    requires IsView(e)
    ensures Count(ops + Rederivation(e, Some(c), control), c, h)
      == Sub(Count(ops, c, h), Ind(h in ClearedList)) + Count(Attachments(e, c, control), c, h)
  {
    RederiveCount(ops, e, c, control, h);
    ClearedListDistinct();
    OccOfDistinct(ClearedList, h);
  }

  lemma ClearedListMembers()
    ensures TapSub in ClearedList && DragOverSub in ClearedList
    ensures RightTapSub !in ClearedList && DragLeaveSub !in ClearedList
  {
  }

  /** A view with a single-tap recognizer gets Tapped and RightTapped
      attached once each on the container. */
  lemma TapGroupAttachedOnce(e: Element, c: NativeId, control: Option<NativeId>)
    requires WantsTap(e)
    ensures Count(Attachments(e, c, control), c, TapSub) == 1
    ensures Count(Attachments(e, c, control), c, RightTapSub) == 1
  {
    AttachedOnContainer(e, c, control, TapSub);
    AttachedOnContainer(e, c, control, RightTapSub);
  }

  /** A view whose first drop recognizer allows drops gets DragOver and
      DragLeave attached once each on the container. */
  lemma DropGroupAttachedOnce(e: Element, c: NativeId, control: Option<NativeId>)
    requires FirstAllowDrop(e.gestures)
    ensures Count(Attachments(e, c, control), c, DragOverSub) == 1
    ensures Count(Attachments(e, c, control), c, DragLeaveSub) == 1
  {
    AttachedOnContainer(e, c, control, DragOverSub);
    AttachedOnContainer(e, c, control, DragLeaveSub);
  }

  /** The container count of a tap or drop handler, group by group. */
  lemma AttachedOnContainer(e: Element, c: NativeId, control: Option<NativeId>, h: Handler)
    requires h in [TapSub, RightTapSub, DragOverSub, DragLeaveSub]
    ensures Count(Attachments(e, c, control), c, h)
      == (if h == TapSub || h == RightTapSub then Ind(WantsTap(e)) else Ind(FirstAllowDrop(e.gestures)))
  {
    TapAndDropHandlersElsewhere(h);
    AttachmentsCount(e, c, control, c, h);
    DragDropCount(c, e.gestures, c, h);
    TapCount(e, c, control, c, h);
  }

  lemma TapAndDropHandlersElsewhere(h: Handler)
    requires h in [TapSub, RightTapSub, DragOverSub, DragLeaveSub]
    ensures h !in [DragStartingSub, DropCompletedSub] && h !in [DoubleTapSub] && h !in [KeyDownSub]
    ensures h !in [ControlTapSub] && h !in [ControlDoubleTapSub] && h !in HoverList && h !in ManipulationList
    ensures h in [TapSub, RightTapSub] <==> h == TapSub || h == RightTapSub
    ensures h in [DragOverSub, DropSub, DragLeaveSub] <==> h == DragOverSub || h == DragLeaveSub
  {
  }

  /** A re-derivation of a view with a single-tap recognizer leaves Tapped
      attached once on the container, if it was attached at most once before. */
  lemma TapStaysSingle(ops: seq<SubOp>, e: Element, c: NativeId, control: Option<NativeId>)
    requires IsView(e) && WantsTap(e) && Count(ops, c, TapSub) <= 1
    ensures Count(ops + Rederivation(e, Some(c), control), c, TapSub) == 1
  {
    RederivedCountOnContainer(ops, e, c, control, TapSub);
    ClearedListMembers();
    TapGroupAttachedOnce(e, c, control);
  }

  /** RightTapped is never detached: each re-derivation of a view with a
      single-tap recognizer adds one more RightTapped subscription. */
  lemma RightTapAccumulates(ops: seq<SubOp>, e: Element, c: NativeId, control: Option<NativeId>)
    requires IsView(e) && WantsTap(e)
    ensures Count(ops + Rederivation(e, Some(c), control), c, RightTapSub) == Count(ops, c, RightTapSub) + 1
  {
    RederivedCountOnContainer(ops, e, c, control, RightTapSub);
    ClearedListMembers();
    TapGroupAttachedOnce(e, c, control);
  }

  /** A re-derivation of a view whose first drop recognizer allows drops
      leaves DragOver attached once, if it was attached at most once before. */
  lemma DragOverStaysSingle(ops: seq<SubOp>, e: Element, c: NativeId, control: Option<NativeId>)
    requires IsView(e) && FirstAllowDrop(e.gestures) && Count(ops, c, DragOverSub) <= 1
    ensures Count(ops + Rederivation(e, Some(c), control), c, DragOverSub) == 1
  {
    RederivedCountOnContainer(ops, e, c, control, DragOverSub);
    ClearedListMembers();
    DropGroupAttachedOnce(e, c, control);
  }

  /** DragLeave is never detached: each re-derivation of a view whose first
      drop recognizer allows drops adds one more DragLeave subscription. */
  lemma DragLeaveAccumulates(ops: seq<SubOp>, e: Element, c: NativeId, control: Option<NativeId>)
    requires IsView(e) && FirstAllowDrop(e.gestures)
    ensures Count(ops + Rederivation(e, Some(c), control), c, DragLeaveSub) == Count(ops, c, DragLeaveSub) + 1
  {
    RederivedCountOnContainer(ops, e, c, control, DragLeaveSub);
    ClearedListMembers();
    DropGroupAttachedOnce(e, c, control);
  }

  /** Two re-derivations from no subscriptions: Tapped is attached once,
      RightTapped twice. */
  lemma RederiveTwice(e: Element, c: NativeId, control: Option<NativeId>)
    requires IsView(e) && WantsTap(e)
    ensures var once := Rederivation(e, Some(c), control);
      Count(once + once, c, TapSub) == 1 && Count(once + once, c, RightTapSub) == 2
  {
    var once := Rederivation(e, Some(c), control);
    assert [] + once == once;
    TapStaysSingle([], e, c, control);
    TapStaysSingle(once, e, c, control);
    RightTapAccumulates([], e, c, control);
    RightTapAccumulates(once, e, c, control);
  }

  /** The manipulation and press/release handlers are attached exactly when
      the view declares a swipe, pinch or pan recognizer and is not a
      scroll view; otherwise not at all. */
  lemma ManipulationAttachedIff(e: Element, c: NativeId, control: Option<NativeId>, h: Handler)
    requires h in ManipulationList
    ensures Count(Attachments(e, c, control), c, h)
      == if HasManipulationGesture(e.gestures) && e.kind != ScrollView then 1 else 0
  {
    ManipulationHandlersNowhereElse(h);
    AttachmentsCount(e, c, control, c, h);
    DragDropCount(c, e.gestures, c, h);
    TapCount(e, c, control, c, h);
  }

  lemma ManipulationHandlersNowhereElse(h: Handler)
    requires h in ManipulationList
    ensures h !in [DragStartingSub, DropCompletedSub] && h !in [DragOverSub, DropSub, DragLeaveSub]
    ensures h !in [TapSub, RightTapSub] && h !in [DoubleTapSub] && h !in [KeyDownSub]
    ensures h !in [ControlTapSub] && h !in [ControlDoubleTapSub] && h !in HoverList
    ensures Ind(h in ManipulationList) == 1
  {
  }

  /** A control that prevents bubbling swallows exactly the tap kinds no recognizer wants: its Tapped handler
      is attached iff no single-tap recognizer exists, its DoubleTapped
      handler iff no one- or two-tap recognizer exists. */
  lemma ControlSwallowsUnwantedTaps(e: Element, c: NativeId, k: NativeId)
    requires PreventGestureBubbling(e.kind)
    ensures Count(Attachments(e, c, Some(k)), k, ControlTapSub) == Ind(!WantsTap(e))
    ensures Count(Attachments(e, c, Some(k)), k, ControlDoubleTapSub) == Ind(!WantsDoubleTap(e))
  {
    SwallowingHandlerCount(e, c, k, ControlTapSub);
    SwallowingHandlerCount(e, c, k, ControlDoubleTapSub);
  }

  /** One swallowing handler at a time: only the tap block can attach it. */
  lemma SwallowingHandlerCount(e: Element, c: NativeId, k: NativeId, h: Handler)
    requires PreventGestureBubbling(e.kind) && h in ControlList
    ensures Count(Attachments(e, c, Some(k)), k, h)
      == Ind(if h == ControlTapSub then !WantsTap(e) else !WantsDoubleTap(e))
  {
    ControlHandlersElsewhere(h);
    AttachmentsCount(e, c, Some(k), k, h);
    DragDropCount(c, e.gestures, k, h);
    TapCount(e, c, Some(k), k, h);
  }

  lemma ControlHandlersElsewhere(h: Handler)
    requires h in ControlList
    ensures h !in [DragStartingSub, DropCompletedSub] && h !in [DragOverSub, DropSub, DragLeaveSub]
    ensures h !in [TapSub, RightTapSub] && h !in [DoubleTapSub] && h !in [KeyDownSub]
    ensures h !in HoverList && h !in ManipulationList
    ensures h in [ControlTapSub] <==> h == ControlTapSub
    ensures h in [ControlDoubleTapSub] <==> h == ControlDoubleTapSub
  {
  }

  /** Replacing the control detaches one Tapped and one DoubleTapped
      swallowing handler from the old control, if it has any. */
  lemma DetachControlCount(ops: seq<SubOp>, k: NativeId, h: Handler)
    requires h in ControlList
    ensures Count(ops + DetachControlOps(Some(k)), k, h) == Sub(Count(ops, k, h), 1)
  {
    assert DetachControlOps(Some(k)) == Removes(k, ControlList);
    CountAfterRemoves(ops, k, ControlList, h);
    assert Occ(ControlList, h) == 1 by {
      assert NoDuplicates(ControlList);
      OccOfDistinct(ControlList, h);
    }
  }

  lemma CountAfterRemoves(ops: seq<SubOp>, k: NativeId, hs: seq<Handler>, h: Handler)
    ensures Count(ops + Removes(k, hs), k, h) == Sub(Count(ops, k, h), Occ(hs, h))
  {
    CountFromAppend(0, ops, Removes(k, hs), k, h);
    CountFromRemoves(Count(ops, k, h), k, hs, k, h);
  }

  // ---------------------------------------------------------------------
  // The container's flags

  /** CanDrag is set exactly when the drag group is attached, AllowDrop
      exactly when the drop group is. */
  lemma FlagsMatchDragDropGroups(e: Element, c: NativeId, f: ContainerFlags)
    requires IsView(e)
    ensures RederivedFlags(e, Some(c), f).canDrag <==> Count(DragDropOps(c, e.gestures), c, DragStartingSub) == 1
    ensures RederivedFlags(e, Some(c), f).allowDrop <==> Count(DragDropOps(c, e.gestures), c, DragOverSub) == 1
  {
    DragDropCount(c, e.gestures, c, DragStartingSub);
    DragDropCount(c, e.gestures, c, DragOverSub);
  }

  /** IsTabStop is never cleared by a re-derivation; it becomes set exactly
      when a view on a container has a tap recognizer needing delegation. */
  lemma TabStopSticky(e: Element, container: Option<NativeId>, f: ContainerFlags)
    ensures RederivedFlags(e, container, f).isTabStop
      <==> f.isTabStop || (container.Some? && IsView(e) && e.tapNeedsDelegate)
  {
  }

  /** Re-deriving a second time with the same element and container leaves
      the flags as the first re-derivation left them. */
  lemma RederivedFlagsTwice(e: Element, container: Option<NativeId>, f: ContainerFlags)
    ensures RederivedFlags(e, container, RederivedFlags(e, container, f)) == RederivedFlags(e, container, f)
  {
  }
}
