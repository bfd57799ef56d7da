# Windows gesture dispatcher and carousel position bookkeeping, in Dafny

This project models two parts of the Windows platform layer of a cross-platform UI toolkit.

**GesturePlatformManager** binds a view's declared gesture recognizers to native WinUI events. The model covers:

- the pressed-pointer list;
- the swipe, pinch and pan session flags, and the "started was sent" flags;
- the process-wide pan id counter;
- the fan-out of callbacks to matching recognizers, in declaration order;
- tap validation, and child-over-self tap precedence;
- Enter and Space acting as a tap;
- the native event subscriptions made and removed on the container and the control;
- the Container and Control setters, and the re-derivation of subscriptions.

**CarouselViewHandler** keeps a carousel's Position and CurrentItem in step with the native list. The model covers:

- position validity;
- the guarded writes of Position and CurrentItem;
- the linear search for the current item;
- wrapping of the visible indexes when the carousel loops;
- the position chosen after the items source changes;
- saving and restoring the scroll bars around looping;
- the snap-point translations.

How the files divide the work:

- Event-driven state is a Dafny `class` whose methods change its fields: `GesturePlatform.GesturePlatformManager`, `GesturePlatform.PanIdCounter` and `CarouselHandler.CarouselViewHandler`.
- Each method is proved against a pure specification: `GestureDispatch.Step`, `GestureDispatch.Dispatched` and `GestureSubscriptions.Rederivation` for gestures; the functions of `CarouselModel` for the carousel.
- The promised properties are proved as lemmas over those functions, in `GestureProperties`, `SubscriptionProperties`, `CarouselModel` and `CarouselSnap`.

Representation choices:

- Recognizer callbacks are recorded in order in the manager's `trace`. Each callback carries the index of the recognizer it went to.
- Native subscriptions are kept as the ordered log of `+=` and `-=` operations. `GestureSubscriptions.Count` derives how many times a handler is attached to an element. A `-=` of a handler that is not attached does nothing, as with .NET events.
- Warnings go to `log`.
- The container's CanDrag, AllowDrop and IsTabStop are read together as `Flags()`. The constructor takes the container's own values before the dispatcher first writes them.
- The hover handlers read the view's composite recognizer collection, which the model keeps beside `GestureRecognizers` as `Element.compositeGestures`.
- Position writes on the carousel go to `positionWrites`.
- C#'s truncating `%` is written out as `CarouselModel.CsRemainder`. Dafny's own `%` is Euclidean.
- A C# exception is an `Err` result:
  - `DivideByZero` for `%=` by an item count of zero;
  - `VisibleItemNotFound` for a valid position without an item context.

Source behaviours the model follows, which a reader might not expect:

- **Pan completion and finger count.** PanComplete picks the pan recognizers using the finger count after the released pointer has been removed. So releasing the only finger of a one-finger pan sends no PanCompleted, although the pan id still advances. See `GestureProperties.OneFingerPanReleaseSendsNoCompletion`.
- **The pan "started" flag.** It is set after the first delta of a session even when no pan recognizer matched. See `GestureProperties.PanStartedOnFirstDelta`.
- **Handlers that accumulate.** ClearContainerEventHandlers does not detach these handlers that UpdatingGestureRecognizers attaches:
  - DragLeave;
  - RightTapped;
  - DoubleTapped;
  - KeyDown.

  So every re-derivation adds one more of each. See `SubscriptionProperties.RightTapAccumulates` and `SubscriptionProperties.DragLeaveAccumulates`.
- **Looping twice.** Enabling looping twice records the hidden scroll bars over the originals. A later disable then leaves them hidden. See `CarouselModel.LoopTwiceThenUnloopStaysHidden`.
- **A removal before the current item.** When an item before the current one is removed (not at index 0), the position is kept, so the item that moved into it becomes current. For example, with items a, b, c, d and c current at position 2, removing b makes d current. See `CarouselModel.PresentCurrentOtherwiseKeeps` and `CarouselModel.RemovalBeforeCurrentSelectsNext`.
- **A missing center item.** With exactly one item, wrapping turns the "no center item" index -1 into 0. See `CarouselModel.LoopKeepsMissingCenter`.

## Model

| member | source | states |
|---|---|---|
| GestureDispatch.RemoveFirst | src/Controls/src/Core/Platform/GestureManager/GesturePlatformManager.Windows.cs:446-481 | `List.Remove` of an id: absent means unchanged; present means exactly one element fewer, every other id kept, and a duplicate-free list stays duplicate-free without the id |
| GestureDispatch.Pressed | src/Controls/src/Core/Platform/GestureManager/GesturePlatformManager.Windows.cs:466-471 | a press adds the id only when absent, so the list never gains a duplicate and holds exactly the old ids plus the new one |
| GestureDispatch.Lifted | src/Controls/src/Core/Platform/GestureManager/GesturePlatformManager.Windows.cs:446-464 | release, cancel and exit remove exactly that id, and only if present; all other fingers stay |
| GestureDispatch.Emit | src/Controls/src/Core/Platform/GestureManager/GesturePlatformManager.Windows.cs:357-413 | one recognizer receives at most two callbacks from one fan-out (pan/pinch "started" then "changed") |
| GestureDispatch.EmitIndex | src/Controls/src/Core/Platform/GestureManager/GesturePlatformManager.Windows.cs:364-366 | every callback of a fan-out goes to the recognizer being visited |
| GestureDispatch.Completions | src/Controls/src/Core/Platform/GestureManager/GesturePlatformManager.Windows.cs:577-636 | SwipeComplete, PinchComplete and PanComplete never change the finger list |
| GestureDispatch.Step | src/Controls/src/Core/Platform/GestureManager/GesturePlatformManager.Windows.cs:420-481 | every pointer or manipulation event keeps the finger list free of duplicates |
| GestureDispatch.Run | src/Controls/src/Core/Platform/GestureManager/GesturePlatformManager.Windows.cs:420-481 | any sequence of events keeps the finger list free of duplicates |
| GestureSubscriptions.Adds | src/Controls/src/Core/Platform/GestureManager/GesturePlatformManager.Windows.cs:681-683 | `+=` of a handler list performs one attachment per handler, in order, on that element |
| GestureSubscriptions.Removes | src/Controls/src/Core/Platform/GestureManager/GesturePlatformManager.Windows.cs:301-321 | `-=` of a handler list performs one detachment per handler, in order, on that element |
| GestureSubscriptions.ScrollViewWarnings | src/Controls/src/Core/Platform/GestureManager/GesturePlatformManager.Windows.cs:692-702 | a pinch, pan or swipe warning is logged exactly when the view is a scroll view declaring that kind; at most three warnings |
| GestureProperties.CollectMember | src/Controls/src/Core/Platform/GestureManager/GesturePlatformManager.Windows.cs:364-366 | a callback is in a partial fan-out iff its recognizer was already visited and was sent that callback |
| GestureProperties.DispatchedMember | src/Controls/src/Core/Platform/GestureManager/GesturePlatformManager.Windows.cs:364-366 | a fan-out sends each recognizer exactly what its own kind and configuration call for, and nothing to anyone else |
| GestureProperties.PinchCallbacksFromPinch | src/Controls/src/Core/Platform/GestureManager/GesturePlatformManager.Windows.cs:388-413 | only a pinch fan-out produces pinch callbacks |
| GestureProperties.SwipeCallbacksFromSwipe | src/Controls/src/Core/Platform/GestureManager/GesturePlatformManager.Windows.cs:357-368 | only a swipe fan-out produces swipe callbacks |
| GestureProperties.PanCallbacksFromPan | src/Controls/src/Core/Platform/GestureManager/GesturePlatformManager.Windows.cs:370-386 | only a pan fan-out produces pan callbacks |
| GestureProperties.SwipeDeltaKinds | src/Controls/src/Core/Platform/GestureManager/GesturePlatformManager.Windows.cs:357-368 | HandleSwipe sends only swipe callbacks, and only with at most one finger down |
| GestureProperties.PinchDeltaKinds | src/Controls/src/Core/Platform/GestureManager/GesturePlatformManager.Windows.cs:388-413 | HandlePinch sends only pinch callbacks, and only with two or more fingers down |
| GestureProperties.PanDeltaKinds | src/Controls/src/Core/Platform/GestureManager/GesturePlatformManager.Windows.cs:370-386 | HandlePan sends only pan callbacks |
| GestureProperties.DeltaFingerGuards | src/Controls/src/Core/Platform/GestureManager/GesturePlatformManager.Windows.cs:357-435 | a manipulation delta with fewer than two fingers sends no pinch callback; with more than one it sends no swipe callback |
| GestureProperties.PanDeltaReach | src/Controls/src/Core/Platform/GestureManager/GesturePlatformManager.Windows.cs:370-386 | a pan delta reaches exactly the pan recognizers whose touch points equal the current finger count, with the summed translation and the current pan id |
| GestureProperties.PanStartedOnFirstDelta | src/Controls/src/Core/Platform/GestureManager/GesturePlatformManager.Windows.cs:370-386 | PanStarted, with the session's pan id, reaches a recognizer iff the delta is the first of the session and the recognizer is a pan recognizer whose touch points equal the finger count; afterwards the flag is set even when no recognizer was reached |
| GestureProperties.PinchStartedOnFirstDelta | src/Controls/src/Core/Platform/GestureManager/GesturePlatformManager.Windows.cs:388-413 | PinchStarted, with the event's origin, reaches a recognizer iff two or more fingers are down, the event has an origin, the session has not sent it yet and the recognizer is a pinch recognizer; the flag is set exactly when such a delta was handled |
| GestureProperties.CompletionClearsFlags | src/Controls/src/Core/Platform/GestureManager/GesturePlatformManager.Windows.cs:420-481 | after release, cancel, exit or manipulation-completed on a view no swipe, pinch or pan is in progress, and the finger list is the old one without that id |
| GestureProperties.CompletionsClear | src/Controls/src/Core/Platform/GestureManager/GesturePlatformManager.Windows.cs:577-636 | the three completions on a view leave no gesture in progress |
| GestureProperties.CancelOnlyCancels | src/Controls/src/Core/Platform/GestureManager/GesturePlatformManager.Windows.cs:446-454 | a pointer cancel sends only PinchCanceled and PanCanceled: no swipe detection, no pinch end, no pan completion |
| GestureProperties.SwipeCompletionKinds | src/Controls/src/Core/Platform/GestureManager/GesturePlatformManager.Windows.cs:577-592 | SwipeComplete sends swipe detections, and only on success |
| GestureProperties.PinchCompletionKinds | src/Controls/src/Core/Platform/GestureManager/GesturePlatformManager.Windows.cs:616-636 | PinchComplete sends PinchEnded on success and PinchCanceled otherwise |
| GestureProperties.PanCompletionKinds | src/Controls/src/Core/Platform/GestureManager/GesturePlatformManager.Windows.cs:594-614 | PanComplete sends PanCompleted on success and PanCanceled otherwise, only to pan recognizers matching the finger count, with the current pan id |
| GestureProperties.SuccessfulCompletionOutcome | src/Controls/src/Core/Platform/GestureManager/GesturePlatformManager.Windows.cs:577-636 | a successful completion sends only swipe detections, pinch ends and pan completions; each pan completion goes to a pan recognizer matching the finger count |
| GestureProperties.ReleaseOutcome | src/Controls/src/Core/Platform/GestureManager/GesturePlatformManager.Windows.cs:473-481 | a release never reports a cancellation; PanCompleted goes only to pan recognizers whose touch points equal the finger count after the release |
| GestureProperties.ExitOutcome | src/Controls/src/Core/Platform/GestureManager/GesturePlatformManager.Windows.cs:446-464 | an exit completes as a release does: no cancellation, and PanCompleted only to pan recognizers whose touch points equal the finger count after the exited pointer was removed |
| GestureProperties.CompletionIdleUnlessInProgress | src/Controls/src/Core/Platform/GestureManager/GesturePlatformManager.Windows.cs:577-636 | each of SwipeComplete, PinchComplete and PanComplete sends nothing and changes nothing, the pan id included, unless its own gesture is in progress on a view; when it is, it clears only its own flag (and PanComplete advances the pan id) |
| GestureProperties.CompletingWithoutGestureIsQuiet | src/Controls/src/Core/Platform/GestureManager/GesturePlatformManager.Windows.cs:420-481 | a release, cancel, exit or manipulation-completed with no gesture in progress sends nothing; the pointer events only drop their pointer id |
| GestureProperties.PanIdStep | src/Controls/src/Core/Platform/GestureManager/GesturePlatformManager.Windows.cs:594-614 | the pan id advances by exactly one when a completing event ends an active pan on a view, and otherwise stays |
| GestureProperties.PanIdOnCompletion | src/Controls/src/Core/Platform/GestureManager/GesturePlatformManager.Windows.cs:420-481 | a completing event advances the pan id exactly when a pan was active on a view |
| GestureProperties.PanIdOtherwise | src/Controls/src/Core/Platform/GestureManager/GesturePlatformManager.Windows.cs:427-471 | press, delta and manipulation-started never touch the pan id |
| GestureProperties.CompletionsPanId | src/Controls/src/Core/Platform/GestureManager/GesturePlatformManager.Windows.cs:594-614 | the completions advance the pan id once per ended pan |
| GestureProperties.PanIdNeverDecreases | src/Controls/src/Core/Platform/GestureManager/GesturePlatformManager.Windows.cs:612 | over any event sequence the pan id never goes back |
| GestureProperties.StartsEmit | src/Controls/src/Core/Platform/GestureManager/GesturePlatformManager.Windows.cs:377-412 | one fan-out sends one recognizer at most one "started" callback, and none unless it is a delta marked as first |
| GestureProperties.StartsCollect | src/Controls/src/Core/Platform/GestureManager/GesturePlatformManager.Windows.cs:377-412 | a whole fan-out sends each recognizer at most one "started" callback |
| GestureProperties.CompletionStarts | src/Controls/src/Core/Platform/GestureManager/GesturePlatformManager.Windows.cs:577-636 | completions send no "started" callback and leave the "started" flags alone |
| GestureProperties.PinchDeltaStarts | src/Controls/src/Core/Platform/GestureManager/GesturePlatformManager.Windows.cs:388-413 | HandlePinch sends PinchStarted at most once and then marks it sent; it never sends PanStarted |
| GestureProperties.PanDeltaStarts | src/Controls/src/Core/Platform/GestureManager/GesturePlatformManager.Windows.cs:370-386 | HandlePan sends PanStarted at most once and then marks it sent; it never sends PinchStarted |
| GestureProperties.DeltaStarts | src/Controls/src/Core/Platform/GestureManager/GesturePlatformManager.Windows.cs:427-435 | one manipulation delta sends each recognizer at most one "started" per gesture, none once sent, and sets the flag when it sends one |
| GestureProperties.StepStarts | src/Controls/src/Core/Platform/GestureManager/GesturePlatformManager.Windows.cs:420-481 | every event other than manipulation-started keeps the "started at most once" discipline |
| GestureProperties.StartedAtMostOnce | src/Controls/src/Core/Platform/GestureManager/GesturePlatformManager.Windows.cs:370-444 | within one manipulation session each recognizer receives PanStarted (and PinchStarted) at most once, and none if it was already sent |
| GestureProperties.ManipulationStartedRearms | src/Controls/src/Core/Platform/GestureManager/GesturePlatformManager.Windows.cs:437-444 | manipulation-started on a view clears both "started" flags and sends nothing |
| GestureProperties.OneFingerPanDelta | src/Controls/src/Core/Platform/GestureManager/GesturePlatformManager.Windows.cs:357-386 | with one finger and a one-finger pan recognizer, the first delta sends PanStarted then Panned and sets the swipe and pan flags |
| GestureProperties.OneFingerPanRelease | src/Controls/src/Core/Platform/GestureManager/GesturePlatformManager.Windows.cs:473-481 | releasing the only finger of that pan sends nothing, clears the flags and advances the pan id |
| GestureProperties.OneFingerPanReleaseSendsNoCompletion | src/Controls/src/Core/Platform/GestureManager/GesturePlatformManager.Windows.cs:594-614 | press, start, delta, release of a one-finger pan yields PanStarted and Panned but no PanCompleted, because the finger count is taken after removal |
| GestureProperties.TapValidity | src/Controls/src/Core/Platform/GestureManager/GesturePlatformManager.Windows.cs:555-573 | ValidateGesture: a right tap needs the secondary button and one tap; a double tap the primary button and one or two taps; a tap the primary button and one tap; every single-tap-valid recognizer is also double-tap-valid |
| GestureProperties.TapReach | src/Controls/src/Core/Platform/GestureManager/GesturePlatformManager.Windows.cs:538-553 | a tap fan-out reaches exactly the tap recognizers that ValidateGesture accepts |
| GestureProperties.TapSentIff | src/Controls/src/Core/Platform/GestureManager/GesturePlatformManager.Windows.cs:538-553 | ProcessGestureRecognizers sends something iff some recognizer accepts the event |
| GestureProperties.ChildTapsFirst | src/Controls/src/Core/Platform/GestureManager/GesturePlatformManager.Windows.cs:528-533 | when a child recognizer under the tap accepts it, exactly the accepting children are tapped and the view's own recognizers are not |
| GestureProperties.SelfTapsOtherwise | src/Controls/src/Core/Platform/GestureManager/GesturePlatformManager.Windows.cs:535-536 | when no child accepts the tap, exactly the view's own accepting tap recognizers fire |
| GestureProperties.TapHandledIff | src/Controls/src/Core/Platform/GestureManager/GesturePlatformManager.Windows.cs:517-553 | the tap is handled iff the element is a view, the position resolves and a child or the view itself has an accepting recognizer |
| GestureProperties.KeyActsAsTap | src/Controls/src/Core/Platform/GestureManager/GesturePlatformManager.Windows.cs:762-767 | a key press acts as a tap exactly for Enter and Space, and then as OnTap would |
| SubscriptionProperties.CountFromAdds | src/Controls/src/Core/Platform/GestureManager/GesturePlatformManager.Windows.cs:681-683 | `+=` of a list raises each handler's count on that element by its number of occurrences, and touches no other element |
| SubscriptionProperties.CountFromRemoves | src/Controls/src/Core/Platform/GestureManager/GesturePlatformManager.Windows.cs:301-321 | `-=` of a list lowers each handler's count on that element by its occurrences, never below zero |
| SubscriptionProperties.ClearThenAttach | src/Controls/src/Core/Platform/GestureManager/GesturePlatformManager.Windows.cs:677-679 | clearing the container and then only attaching removes one of each cleared handler and adds what was attached |
| SubscriptionProperties.RederiveCount | src/Controls/src/Core/Platform/GestureManager/GesturePlatformManager.Windows.cs:669-712 | after a re-derivation the container holds, per handler, what the clear left plus what was attached |
| SubscriptionProperties.UnclearedHandlersOnlyGrow | src/Controls/src/Core/Platform/GestureManager/GesturePlatformManager.Windows.cs:301-321 | handlers the clear does not list never lose an attachment through a re-derivation |
| SubscriptionProperties.DragDropCount | src/Controls/src/Core/Platform/GestureManager/GesturePlatformManager.Windows.cs:638-667 | the drag group is attached iff the first drag recognizer can drag, and the drop group iff the first drop recognizer allows drops |
| SubscriptionProperties.SingleTapCount | src/Controls/src/Core/Platform/GestureManager/GesturePlatformManager.Windows.cs:714-737 | Tapped and RightTapped go on the container iff a single tap is wanted; otherwise a bubbling-preventing control gets its swallowing Tapped handler |
| SubscriptionProperties.DoubleTapCount | src/Controls/src/Core/Platform/GestureManager/GesturePlatformManager.Windows.cs:739-751 | DoubleTapped goes on the container iff a double tap is wanted; otherwise a bubbling-preventing control gets its swallowing DoubleTapped handler |
| SubscriptionProperties.TapCount | src/Controls/src/Core/Platform/GestureManager/GesturePlatformManager.Windows.cs:714-760 | the tap re-derivation's attachments, per handler and element, including KeyDown when the tap needs a keyboard delegate |
| SubscriptionProperties.AttachmentsCount | src/Controls/src/Core/Platform/GestureManager/GesturePlatformManager.Windows.cs:678-711 | the attachments of a re-derivation: drag/drop, taps, the three hover handlers always, and the manipulation group only for a manipulation gesture on a non-scroll view |
| SubscriptionProperties.RederivedCountOnContainer | src/Controls/src/Core/Platform/GestureManager/GesturePlatformManager.Windows.cs:669-712 | a re-derivation on the container removes one of each cleared handler, if attached, then adds the attachments |
| SubscriptionProperties.TapStaysSingle | src/Controls/src/Core/Platform/GestureManager/GesturePlatformManager.Windows.cs:309 | a cleared handler (Tapped) stays attached exactly once across re-derivations |
| SubscriptionProperties.RightTapAccumulates | src/Controls/src/Core/Platform/GestureManager/GesturePlatformManager.Windows.cs:301-321 | RightTapped is never cleared, so each re-derivation adds one more |
| SubscriptionProperties.DragOverStaysSingle | src/Controls/src/Core/Platform/GestureManager/GesturePlatformManager.Windows.cs:307 | DragOver is cleared and re-added, so it stays attached exactly once |
| SubscriptionProperties.DragLeaveAccumulates | src/Controls/src/Core/Platform/GestureManager/GesturePlatformManager.Windows.cs:661-665 | DragLeave is never cleared, so each re-derivation adds one more |
| SubscriptionProperties.RederiveTwice | src/Controls/src/Core/Platform/GestureManager/GesturePlatformManager.Windows.cs:669-712 | two re-derivations from nothing leave Tapped attached once and RightTapped twice |
| SubscriptionProperties.ManipulationAttachedIff | src/Controls/src/Core/Platform/GestureManager/GesturePlatformManager.Windows.cs:685-711 | each manipulation and pointer handler is attached once iff a swipe, pinch or pan is declared and the view is not a scroll view, and otherwise not at all |
| SubscriptionProperties.ControlSwallowsUnwantedTaps | src/Controls/src/Core/Platform/GestureManager/GesturePlatformManager.Windows.cs:714-751 | a bubbling-preventing control, whether or not it is also the container, gets the swallowing Tapped handler iff no single tap is wanted, and the DoubleTapped one iff no double tap is wanted |
| SubscriptionProperties.DetachControlCount | src/Controls/src/Core/Platform/GestureManager/GesturePlatformManager.Windows.cs:104-108 | replacing the control detaches one Tapped and one DoubleTapped swallowing handler from the old control |
| SubscriptionProperties.FlagsMatchDragDropGroups | src/Controls/src/Core/Platform/GestureManager/GesturePlatformManager.Windows.cs:649-666 | CanDrag is set iff the drag group is attached, AllowDrop iff the drop group is |
| SubscriptionProperties.TabStopSticky | src/Controls/src/Core/Platform/GestureManager/GesturePlatformManager.Windows.cs:753-759 | a re-derivation never clears IsTabStop, and sets it iff a view on a container has a tap recognizer that needs a keyboard delegate |
| SubscriptionProperties.RederivedFlagsTwice | src/Controls/src/Core/Platform/GestureManager/GesturePlatformManager.Windows.cs:638-667 | re-deriving twice with the same element and container leaves the flags as once |
| GesturePlatform.PanIdCounter.Increment | src/Controls/src/Core/Platform/GestureManager/GesturePlatformManager.Windows.cs:612 | the shared pan id goes up by one |
| GesturePlatform.GesturePlatformManager.constructor | src/Controls/src/Core/Platform/GestureManager/GesturePlatformManager.Windows.cs:33-51 | the control is the platform view, the container is the container view or else the platform view; no pointer is down, no gesture is in progress and no "started" was sent; the subscriptions, warnings and container flags are one re-derivation on them |
| GesturePlatform.GesturePlatformManager.Send | src/Controls/src/Core/Platform/GestureManager/GesturePlatformManager.Windows.cs:364-366 | the loop over the recognizers appends exactly the fan-out, in declaration order |
| GesturePlatform.GesturePlatformManager.OnPointerPressed | src/Controls/src/Core/Platform/GestureManager/GesturePlatformManager.Windows.cs:466-471 | the session becomes Step's successor on a press, and the finger list stays duplicate-free |
| GesturePlatform.GesturePlatformManager.OnPointerReleased | src/Controls/src/Core/Platform/GestureManager/GesturePlatformManager.Windows.cs:473-481 | session and callbacks follow Step on a release: remove the id, then complete successfully |
| GesturePlatform.GesturePlatformManager.OnPointerCanceled | src/Controls/src/Core/Platform/GestureManager/GesturePlatformManager.Windows.cs:446-454 | session and callbacks follow Step on a cancel: remove the id, then complete unsuccessfully |
| GesturePlatform.GesturePlatformManager.OnPointerExited | src/Controls/src/Core/Platform/GestureManager/GesturePlatformManager.Windows.cs:456-464 | session and callbacks follow Step on an exit: remove the id, then complete successfully |
| GesturePlatform.GesturePlatformManager.OnManipulationStarted | src/Controls/src/Core/Platform/GestureManager/GesturePlatformManager.Windows.cs:437-444 | the session follows Step: both "started" flags are cleared on a view |
| GesturePlatform.GesturePlatformManager.OnManipulationDelta | src/Controls/src/Core/Platform/GestureManager/GesturePlatformManager.Windows.cs:427-435 | session and callbacks follow Step: swipe, then pinch, then pan |
| GesturePlatform.GesturePlatformManager.OnManipulationCompleted | src/Controls/src/Core/Platform/GestureManager/GesturePlatformManager.Windows.cs:420-425 | session and callbacks follow Step: the successful completions |
| GesturePlatform.GesturePlatformManager.HandleSwipe | src/Controls/src/Core/Platform/GestureManager/GesturePlatformManager.Windows.cs:357-368 | follows SwipeDeltaStep: with at most one finger, set swiping and send the summed translation to every swipe recognizer |
| GesturePlatform.GesturePlatformManager.HandlePan | src/Controls/src/Core/Platform/GestureManager/GesturePlatformManager.Windows.cs:370-386 | follows PanDeltaStep |
| GesturePlatform.GesturePlatformManager.HandlePinch | src/Controls/src/Core/Platform/GestureManager/GesturePlatformManager.Windows.cs:388-413 | follows PinchDeltaStep |
| GesturePlatform.GesturePlatformManager.CompleteAll | src/Controls/src/Core/Platform/GestureManager/GesturePlatformManager.Windows.cs:420-481 | follows Completions: swipe, pinch and pan completion in that order; with no gesture in progress nothing is sent and nothing changes |
| GesturePlatform.GesturePlatformManager.SwipeComplete | src/Controls/src/Core/Platform/GestureManager/GesturePlatformManager.Windows.cs:577-592 | follows SwipeCompletion; does nothing unless a swipe is in progress on a view, and otherwise ends it |
| GesturePlatform.GesturePlatformManager.PanComplete | src/Controls/src/Core/Platform/GestureManager/GesturePlatformManager.Windows.cs:594-614 | follows PanCompletion, including the shared pan id increment; sends nothing and leaves the pan id alone unless a pan is in progress on a view, and otherwise ends it |
| GesturePlatform.GesturePlatformManager.PinchComplete | src/Controls/src/Core/Platform/GestureManager/GesturePlatformManager.Windows.cs:616-636 | follows PinchCompletion; does nothing unless a pinch is in progress on a view, and otherwise ends it |
| GesturePlatform.GesturePlatformManager.OnTap | src/Controls/src/Core/Platform/GestureManager/GesturePlatformManager.Windows.cs:517-536 | appends exactly TapOutcome (children first, else the view's own) and reports handled iff something was sent |
| GesturePlatform.GesturePlatformManager.ProcessGestureRecognizers | src/Controls/src/Core/Platform/GestureManager/GesturePlatformManager.Windows.cs:538-553 | the loop taps exactly the accepting recognizers, in order, and returns whether any was tapped |
| GesturePlatform.GesturePlatformManager.OnKeyDown | src/Controls/src/Core/Platform/GestureManager/GesturePlatformManager.Windows.cs:762-767 | appends exactly KeyOutcome |
| GesturePlatform.GesturePlatformManager.OnPgrPointerEvent | src/Controls/src/Core/Platform/GestureManager/GesturePlatformManager.Windows.cs:483-506 | appends exactly PointerOutcome: the hover event goes to the pointer recognizers of the view's composite collection (see PointerReach) |
| GestureProperties.PointerReach | src/Controls/src/Core/Platform/GestureManager/GesturePlatformManager.Windows.cs:496-506 | a hover callback is sent iff the element is a view and the callback goes, with the event's phase, to a pointer recognizer of the composite collection |
| GesturePlatform.GesturePlatformManager.ClearContainerEventHandlers | src/Controls/src/Core/Platform/GestureManager/GesturePlatformManager.Windows.cs:301-321 | detaches the fifteen listed handlers from the container, if any |
| GesturePlatform.GesturePlatformManager.DetachControlEventHandlers | src/Controls/src/Core/Platform/GestureManager/GesturePlatformManager.Windows.cs:104-108 | detaches the swallowing Tapped and DoubleTapped handlers from the control, if any |
| GesturePlatform.GesturePlatformManager.UpdateDragAndDropGestureRecognizers | src/Controls/src/Core/Platform/GestureManager/GesturePlatformManager.Windows.cs:638-667 | CanDrag and AllowDrop come from the first drag and drop recognizers, and the matching groups are attached |
| GesturePlatform.GesturePlatformManager.UpdateTapGestureRecognizers | src/Controls/src/Core/Platform/GestureManager/GesturePlatformManager.Windows.cs:714-760 | attaches the tap handlers TapOps prescribes; IsTabStop becomes true when a keyboard delegate is needed and is otherwise left |
| GesturePlatform.GesturePlatformManager.UpdatingGestureRecognizers | src/Controls/src/Core/Platform/GestureManager/GesturePlatformManager.Windows.cs:669-712 | performs exactly Rederivation (nothing without a container or a view), logs the scroll-view warnings, and leaves the container flags as RederivedFlags says |
| GesturePlatform.GesturePlatformManager.UpdateManipulationGestureRecognizers | src/Controls/src/Core/Platform/GestureManager/GesturePlatformManager.Windows.cs:685-711 | attaches the manipulation group, or on a scroll view logs one warning per declared kind instead |
| GesturePlatform.GesturePlatformManager.SetContainer | src/Controls/src/Core/Platform/GestureManager/GesturePlatformManager.Windows.cs:53-67 | an unchanged value changes neither subscriptions, warnings nor container flags; otherwise the old container is cleared and the subscriptions and flags are re-derived on the new one |
| GesturePlatform.GesturePlatformManager.SetControl | src/Controls/src/Core/Platform/GestureManager/GesturePlatformManager.Windows.cs:96-117 | an unchanged value changes neither subscriptions, warnings nor container flags; otherwise the old control loses its swallowing handlers and, for bubbling-preventing views only, subscriptions and flags are re-derived |
| GesturePlatform.GesturePlatformManager.OnGestureRecognizersChanged | src/Controls/src/Core/Platform/GestureManager/GesturePlatformManager.Windows.cs:415-418 | on a view, the new recognizers are taken and subscriptions, warnings and container flags are re-derived for them; an element that is not a view is left alone |
| CarouselModel.ValidPositionIff | src/Controls/src/Core/Handlers/Items/CarouselViewHandler.Windows.cs:276-285 | a position is valid iff 0 <= position < ItemCount; with no items nothing is valid |
| CarouselModel.CsRemainder | src/Controls/src/Core/Handlers/Items/CarouselViewHandler.Windows.cs:129-141 | the C# remainder is smaller in size than the divisor and takes the sign of the dividend |
| CarouselModel.CsRemainderDivision | src/Controls/src/Core/Handlers/Items/CarouselViewHandler.Windows.cs:135-137 | the remainder is what the truncated quotient leaves over: a == (a / n) * n + a % n in C# terms |
| CarouselModel.CsRemainderSmall | src/Controls/src/Core/Handlers/Items/CarouselViewHandler.Windows.cs:135-137 | an index already within the item range is left unchanged |
| CarouselModel.LoopVisibleIndexes | src/Controls/src/Core/Handlers/Items/CarouselViewHandler.Windows.cs:129-141 | without looping the indexes are unchanged; with looping, each of first, center and last is replaced by its C# remainder by ItemCount, and zero items is an error |
| CarouselModel.LoopCenterIsValid | src/Controls/src/Core/Handlers/Items/CarouselViewHandler.Windows.cs:129-141 | a non-negative center index wraps to a valid position |
| CarouselModel.LoopWrapIdempotent | src/Controls/src/Core/Handlers/Items/CarouselViewHandler.Windows.cs:129-141 | wrapping already wrapped indexes changes nothing |
| CarouselModel.LoopKeepsMissingCenter | src/Controls/src/Core/Handlers/Items/CarouselViewHandler.Windows.cs:135-137 | the center index -1 stays -1 when wrapped, except with exactly one item, where it becomes 0 |
| CarouselModel.FirstIndexOfSpec | src/Controls/src/Core/Handlers/Items/CarouselViewHandler.Windows.cs:315-329 | the search result is the smallest index whose item context holds the item, or -1 exactly when none does |
| CarouselModel.CurrentItemFollowed | src/Controls/src/Core/Handlers/Items/CarouselViewHandler.Windows.cs:507-517 | when the current item survives an Add or a change starting at index 0, the chosen position is valid and holds it |
| CarouselModel.RemovedLastStepsBack | src/Controls/src/Core/Handlers/Items/CarouselViewHandler.Windows.cs:497-505 | when the current item is gone and the change started at the new count, the position steps back by one if it is positive |
| CarouselModel.MissingCurrentKeepsPosition | src/Controls/src/Core/Handlers/Items/CarouselViewHandler.Windows.cs:491-521 | when the current item is gone and the change did not start at the new count, the position stays |
| CarouselModel.PresentCurrentOtherwiseKeeps | src/Controls/src/Core/Handlers/Items/CarouselViewHandler.Windows.cs:491-521 | when the current item is still present and the change is not an insertion and does not start at index 0, the position stays wherever the item now is |
| CarouselModel.RemovalBeforeCurrentSelectsNext | src/Controls/src/Core/Handlers/Items/CarouselViewHandler.Windows.cs:491-521 | with items a, b, c, d and c current at position 2, removing b keeps position 2, which now holds d |
| CarouselModel.ForLoopWithoutViewer | src/Controls/src/Core/Handlers/Items/CarouselViewHandler.Windows.cs:432-435 | without a scroll viewer the scroll bar update changes nothing |
| CarouselModel.LoopHidesScrollBars | src/Controls/src/Core/Handlers/Items/CarouselViewHandler.Windows.cs:437-446 | enabling looping records both visibilities and hides both scroll bars |
| CarouselModel.UnloopWithoutRecordKeeps | src/Controls/src/Core/Handlers/Items/CarouselViewHandler.Windows.cs:447-459 | disabling looping with nothing recorded leaves the scroll bars as they are |
| CarouselModel.LoopThenUnloopRestores | src/Controls/src/Core/Handlers/Items/CarouselViewHandler.Windows.cs:430-460 | one enable followed by one disable restores the original scroll bars |
| CarouselModel.LoopTwiceThenUnloopStaysHidden | src/Controls/src/Core/Handlers/Items/CarouselViewHandler.Windows.cs:437-446 | two enables then a disable leave both scroll bars hidden, because the second enable records Hidden |
| CarouselSnap.GetWindowsSnapPointsType | src/Controls/src/Core/Handlers/Items/CarouselViewHandler.Windows.cs:376-389 | Mandatory maps to Mandatory and MandatorySingle to MandatorySingle, in both directions; the optional Windows types are never produced |
| CarouselSnap.GetWindowsSnapPointsAlignment | src/Controls/src/Core/Handlers/Items/CarouselViewHandler.Windows.cs:391-404 | Start maps to Near and End to Far, in both directions; everything else maps to Center |
| CarouselSnap.SnapPointsTypeRoundTrip | src/Controls/src/Core/Handlers/Items/CarouselViewHandler.Windows.cs:376-389 | every named type maps to the Windows type of the same meaning; any other value maps to None |
| CarouselSnap.SnapPointsAlignmentRoundTrip | src/Controls/src/Core/Handlers/Items/CarouselViewHandler.Windows.cs:391-404 | every named alignment maps to the Windows alignment of the same meaning; any other value maps to Center |
| CarouselHandler.CarouselViewHandler.SetCarouselViewPosition | src/Controls/src/Core/Handlers/Items/CarouselViewHandler.Windows.cs:287-301 | Position becomes p when p is valid, and otherwise stays; it is written only when p is valid and differs from the current position |
| CarouselHandler.CarouselViewHandler.SetCarouselViewCurrentItem | src/Controls/src/Core/Handlers/Items/CarouselViewHandler.Windows.cs:303-313 | an invalid position changes nothing; a valid one makes its item current, or fails with "visible item not found" when the slot has no item context |
| CarouselHandler.CarouselViewHandler.GetItemPositionInCarousel | src/Controls/src/Core/Handlers/Items/CarouselViewHandler.Windows.cs:315-329 | the loop returns the first index holding the item, or -1 |
| CarouselHandler.CarouselViewHandler.UpdatePosition | src/Controls/src/Core/Handlers/Items/CarouselViewHandler.Windows.cs:363-374 | with a collection view source and a valid Position, the item there becomes current; an out-of-range Position changes nothing |
| CarouselHandler.CarouselViewHandler.CarouselScrolled | src/Controls/src/Core/Handlers/Items/CarouselViewHandler.Windows.cs:462-477 | Position follows the center index unless it is -1, already the position, or invalid |
| CarouselHandler.CarouselViewHandler.OnCollectionItemsSourceChanged | src/Controls/src/Core/Handlers/Items/CarouselViewHandler.Windows.cs:491-521 | the chosen position's item becomes current and the carousel moves there; a missing item context aborts before Position is touched |
| CarouselHandler.CarouselViewHandler.UpdateScrollBarVisibilityForLoop | src/Controls/src/Core/Handlers/Items/CarouselViewHandler.Windows.cs:430-460 | the scroll viewer and the recorded visibilities become ForLoop of the old ones, whose properties are the lemmas above |

## Left out

- Dispose, and the Element setter's subscription to the recognizer collection's change event: these only wire and unwire the collection-changed handler. OnGestureRecognizersChanged models the handler itself.
- The bodies of the drag and drop handlers (HandleDragStarting, HandleDragOver, HandleDragLeave, HandleDrop, HandleDropCompleted): these cover data packaging, asynchronous drop delivery and exception logging through platform APIs. Only whether they are subscribed is modelled.
- The position resolvers passed with taps and pointer events, and the tap position lookup: these are coordinate transforms. A failed lookup is modelled as a hit-test result of `None`.
- Pinch origin normalisation: this is floating-point coordinate arithmetic. The origin is an opaque value carried along.
- The logger lookup: a missing logger drops warnings in the source, but the model always records them.
- Setting `ManipulationMode`, the container's `IsHitTestVisible` (set to true together with IsTabStop), and routed-event `Handled` flags, other than the `handled` result of OnTap.
- GesturePlatform.GesturePlatformManager.constructor: the ArgumentNullException thrown when the handler has no virtual view or no platform view is not modelled; the constructor takes the element and the platform view as values, so both are always present.
- GesturePlatform.GesturePlatformManager.Flags: CanDrag, AllowDrop and IsTabStop are kept once for the manager, not per native element. After the container is replaced, the model does not keep apart the values left on the old container from those of the new one; the new container starts from the flags last written.
- GesturePlatform.GesturePlatformManager.OnPgrPointerEvent: the composite recognizer collection is taken as a list. The case where it is not an observable collection (the property is then null) is not modelled.
- Re-entrant notifications (a Position or CurrentItem write triggering the property mappers while a handler method is running): the model treats each write as a plain field update.
- Concurrency: the shared pan id counter is modelled as one object that every manager references.
- Carousel native work: list and scroll viewer construction, styles, peak-area padding, item width and height clamps, ScrollIntoView and ScrollTo, the one-shot SizeChanged setup, drag and scroll flag forwarding, UpdateCurrentItem, UpdateCarouselViewInitialPosition, UpdateSnapPointsType and UpdateSnapPointsAlignment. These are native calls; the two snap mappings they use are modelled.
- ItemCount and GetItem belong to the items view base class, which is not part of this model. ItemCount is modelled as the length of the handler's `items` and GetItem(n) as `items[n]`. The count the changed collection reports is a separate parameter of OnCollectionItemsSourceChanged.
- ComputeVisibleIndexes' call to the base implementation is not part of this model. `CarouselModel.LoopVisibleIndexes` takes its result, the Loop setting and ItemCount as parameters.
- GestureDispatch.Emit: the fact that every callback goes to the visited recognizer is stated by the separate lemma `GestureDispatch.EmitIndex`, not in Emit's own contract.
- GestureSubscriptions.ScrollViewWarnings: states at most three warnings, one condition per kind, rather than that the three are distinct.
- GestureDispatch.Step: only finger-list validity is stated on Step itself. What each event does is in the GestureProperties lemmas.
- Integer widths: pointer ids are unsigned 32-bit and positions and the pan id are 32-bit in the source. No operation here comes near the bounds, so they are modelled unbounded.
