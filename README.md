# Touch routing in TouchBehaviorLib, modelled in Dafny

TouchBehaviorLib turns native pointer streams into one event model:
`Entered`, `Pressed`, `Moved`, `Released`, `Exited` and `Cancelled`. It
also makes up the "boundary hop" events `Exited` and `Entered` when a
finger slides from one view to another. This project models the engine
behind that on Android and iOS. That engine has two process-wide tables:

- a **view registry** from a native view to the behavior (Android) or
  gesture recognizer (iOS) handling it;
- an **ownership table** from a pointer or touch id to its current owner.
  The owner may be null, and a null owner differs from an absent entry.

Each native callback is a sequential step on those tables. The steps are
press, batched move, release and cancel.

## Structure

- `common.dfy`:
  - `Wrappers`: `Option`, where `None` is null.
  - `Geometry`: integer points, rectangles and a half-open `Contains`.
  - `TouchActions`:
    - `TouchActionType` and `TouchActionEventArgs`.
    - `Delivery`: one `OnTouchAction(sender, args)` call.
    - The consumer's handler, as the new value of the recipient behavior's `Capture`.
    - The .NET exceptions as `Fault`.
- `view_registry.dfy`: the registry, as a sequence in enumeration order.
  - The hit test's reference definition is `HitTest`: the last entry that
    hits wins.
  - `ScanForHit` is the scan loop both platforms run.
- `android_touch.dfy`: `TouchBehavior.Android.cs`.
  - Pure functions give each callback's effect on `(table, log, Capture)`.
  - The class `TouchBehaviors` holds the static dictionaries, plus each
    behavior's `_nativeView`, `_boundElement`, `_fromPixels` and `Capture`,
    keyed by the behavior's identity.
  - `FireEvent`, `CheckForBoundaryHop`, `OnTouch` and `OnTouchMove` are each
    proved equal to their function.
  - `Register`, `Unregister` and `SetCapture` state the new dictionaries and
    fields directly in their `ensures`.
- `android_touch_properties.dfy`: what the Android callbacks promise, proved
  about those functions.
- `ios_touch.dfy`: `TouchRecognizer.iOS.cs`, built the same way.
  - The class `TouchRecognizers` holds the static dictionaries, plus each
    recognizer's `_element`, `_uiView`, `_touchBehavior` and `_currentCapture`,
    and every behavior's `Capture`.
  - Its methods: the constructor as `NewRecognizer`, `Detach`,
    `TouchesBegan/Moved/Ended/Cancelled`, `CheckForBoundaryHop`, `FireEvent`.
- `ios_touch_properties.dfy`: what the iOS callbacks promise.

Object identity becomes natural-number ids: `ViewId`, `BehaviorId`,
`RecognizerId` and `ElementId`. Equal ids mean the same object, so `!=` on
ids is the source's reference comparison. An exception becomes a returned
`Fault`, and every change made before the throw stays in the state.

Platform behaviour the model preserves:

- **Android only fires on the originating behavior.** Every event, including
  a hop's `Exited` and `Entered`, goes to the behavior whose view raised the
  callback (`TouchTargetsSelf`).
- **iOS fires on the owners.** `Exited` goes to the previous owner and
  `Entered` to the hit. Each event is located in its recipient's own view
  (`HopEventsShape`, `FireEffect`).
- **Release re-runs the hit test; cancel does not.** iOS sends `Cancelled`
  to the recorded owner. Android fires it on this behavior whenever the
  entry is non-null, even with no view under the point (`CancelEffect`,
  `CancelledLog`).
- **Android reads `Capture` afresh for every pointer of a batched move.**
  iOS reads only `_currentCapture`. That snapshot is taken at construction
  and refreshed after the `TouchesBegan` loop, so a `Pressed` handler's
  change applies to the same touch's later events. Nothing a handler does
  during `TouchesMoved/Ended/Cancelled` changes that callback's routing
  (`BeganCaptureFollowsPressedHandler`, `*IgnoresLiveCapture`).
- **An uncaptured Android move hop-tests every pointer at one location.**
  That location is `screenPointerCoords`, computed from the action pointer
  and reassigned only by a captured pass. So after a handler releases
  `Capture` mid-batch, later pointers are tested where the releasing pointer
  was (`UncapturedMove`, `CaptureReleasedMidBatch`).


## Model

| member | source | states |
|---|---|---|
| ViewRegistry.Remove | TouchBehaviorLib/TouchRecognizer.iOS.cs:30 | `Remove(view)` keeps every other entry and drops only that view's; afterwards the view is unregistered; removing an absent view changes nothing |
| ViewRegistry.ScanForHit | TouchBehaviorLib/TouchBehavior.Android.cs:160-180 | the front-to-back scan that overwrites the hit on every containing view returns the hit test `HitTest` |
| ViewRegistry.HitTestIsLastHit | TouchBehaviorLib/TouchRecognizer.iOS.cs:128-138 | the hit is null iff no registered view contains the point; otherwise it is the owner of the last containing view in enumeration order, in both directions |
| ViewRegistry.HitTestAfterAdd | TouchBehaviorLib/TouchRecognizer.iOS.cs:25 | a newly registered view is scanned last, so it wins whenever it contains the point, and otherwise the hit is unchanged |
| ViewRegistry.HitTestAfterRemove | TouchBehaviorLib/TouchBehavior.Android.cs:36 | unregistering a view that does not contain the point leaves the hit unchanged |
| ViewRegistry.AddKeepsDistinct | TouchBehaviorLib/TouchBehavior.Android.cs:60 | `Add` of a view not yet registered keeps the registry's keys unique |
| ViewRegistry.RemoveKeepsDistinct | TouchBehaviorLib/TouchRecognizer.iOS.cs:30 | `Remove` keeps the registry's keys unique |
| ViewRegistry.RemoveKeepsOwners | TouchBehaviorLib/TouchRecognizer.iOS.cs:30 | `Remove` introduces no owner that was not registered before |
| AndroidTouch.TouchBehaviors.SetCapture | TouchBehaviorLib/TouchBehavior.shared.cs:12 | setting a behavior's Capture changes that behavior's flag only; dictionaries, fields and the event log are unchanged |
| AndroidTouch.TouchBehaviors.Register | TouchBehaviorLib/TouchBehavior.Android.cs:55-64 | element and view are recorded before `Add`; `Add` throws exactly when the non-null view is already registered; only a successful `Add` appends the view and sets `_fromPixels` |
| AndroidTouch.TouchBehaviors.Unregister | TouchBehaviorLib/TouchBehavior.Android.cs:34-38 | `ContainsKey` throws when no native view was set; otherwise the view is removed if present; the ownership table is untouched |
| AndroidTouch.TouchBehaviors.FireEvent | TouchBehaviorLib/TouchBehavior.Android.cs:194-206 | one delivery to this behavior's element at the point relative to its view and converted from pixels; then the handler sets this behavior's Capture |
| AndroidTouch.TouchBehaviors.CheckForBoundaryHop | TouchBehaviorLib/TouchBehavior.Android.cs:158-192 | the scan followed by the hop equals `BoundaryHop`, including the throw for an absent id |
| AndroidTouch.TouchBehaviors.OnTouchMove | TouchBehaviorLib/TouchBehavior.Android.cs:99-123 | the batched-move loop, with Capture re-read per pointer and `screenPointerCoords` reassigned only by captured passes, equals `MoveBatch`; a throw ends the loop |
| AndroidTouch.TouchBehaviors.OnTouch | TouchBehaviorLib/TouchBehavior.Android.cs:68-156 | the whole callback equals `Touch`, changing only the table, the log and this behavior's Capture |
| AndroidTouchProperties.ScreenPointToLocal | TouchBehaviorLib/TouchBehavior.Android.cs:194-202 | FireEvent's subtraction undoes OnTouch's screen offset: an event reports the pointer's view-relative position through `_fromPixels` |
| AndroidTouchProperties.HitAtIsLastContainingView | TouchBehaviorLib/TouchBehavior.Android.cs:160-180 | the hit is the behavior of the last registered view whose screen rectangle contains the point; views whose location query throws are never hit; null iff none contains it |
| AndroidTouchProperties.BoundaryHopEffect | TouchBehaviorLib/TouchBehavior.Android.cs:182-191 | throws iff the id is absent; nothing happens when the hit equals the entry; otherwise Exited iff the entry was non-null, then Entered iff the hit is non-null, and the entry becomes the hit, present even when null |
| AndroidTouchProperties.HopEventsShape | TouchBehaviorLib/TouchBehavior.Android.cs:184-188 | the hop's events are all fired on this behavior, in contact, at the tested point; with a null hit only Exited is possible |
| AndroidTouchProperties.PressEffect | TouchBehaviorLib/TouchBehavior.Android.cs:93-97 | exactly one Pressed in contact at the pointer's own position, then `id -> this`; an id already present throws after the event and the table is kept |
| AndroidTouchProperties.CapturedMoveBatch | TouchBehaviorLib/TouchBehavior.Android.cs:101-113 | while Capture stays on, one Moved per pointer in pointer-index order at each pointer's own position; the table is neither read nor written |
| AndroidTouchProperties.CapturedMove | TouchBehaviorLib/TouchBehavior.Android.cs:99-113 | a captured Move callback emits exactly those Moved events, no Entered or Exited, never throws and keeps the table |
| AndroidTouchProperties.SamplePatternMeetsMoveHypotheses | TouchBehaviorApp/MainPage.xaml.cs:38-56 | a consumer that changes Capture only on Pressed and Released, as the sample app's does, meets both hypotheses of the move lemmas: Moved keeps Capture, and Moved, Entered and Exited leave it off |
| AndroidTouchProperties.CaptureReleasedMidBatch | TouchBehaviorLib/TouchBehavior.Android.cs:105-116 | when a captured pass's handler releases Capture, the next pointer is hop-tested at the previous pointer's location |
| AndroidTouchProperties.UncapturedMoveStep | TouchBehaviorLib/TouchBehavior.Android.cs:114-120 | one uncaptured pass throws iff the id is absent; otherwise the entry becomes the hit and the hop's events are followed by Moved iff the hit is non-null |
| AndroidTouchProperties.UncapturedMoveTable | TouchBehaviorLib/TouchBehavior.Android.cs:114-120 | an uncaptured batch throws iff some pointer id is absent; no key is added or removed; each pointer ends owned by the hit at the one tested location; other entries are untouched |
| AndroidTouchProperties.UncapturedMoveLog | TouchBehaviorLib/TouchBehavior.Android.cs:114-120 | all events of an uncaptured batch are on this behavior, in contact, at the tested location; a null hit gives only Exited; a non-null hit gives a Moved for every pointer |
| AndroidTouchProperties.UncapturedMove | TouchBehaviorLib/TouchBehavior.Android.cs:86-120 | the callback-level statement of the two lemmas above, with the tested location being the action pointer's |
| AndroidTouchProperties.UpEffect | TouchBehaviorLib/TouchBehavior.Android.cs:125-140 | the id never keeps an entry; under Capture exactly one Released, not in contact; otherwise the hop throws iff the id is absent, and Released follows its events iff the hit is non-null |
| AndroidTouchProperties.CancelEffect | TouchBehaviorLib/TouchBehavior.Android.cs:142-154 | no hop; Cancelled, not in contact, iff Capture holds or the current entry is non-null; throws iff uncaptured and absent; the id is removed |
| AndroidTouchProperties.MoveBatchTargetsSelf | TouchBehaviorLib/TouchBehavior.Android.cs:101-121 | every event of any Move loop is fired on this behavior with its element as sender; only the batch's own entries can change; no key is added or removed |
| AndroidTouchProperties.TouchTargetsSelf | TouchBehaviorLib/TouchBehavior.Android.cs:194-205 | whatever the action, every event a callback emits (Entered and Exited included) goes to the originating behavior; entries of other pointers are untouched |
| IosTouch.TouchRecognizers.NewRecognizer | TouchBehaviorLib/TouchRecognizer.iOS.cs:18-26 | the snapshot starts as the behavior's Capture; `Add` throws exactly when the view is already registered, and nothing is registered then; otherwise the view is appended with the fresh recognizer |
| IosTouch.TouchRecognizers.SetCapture | TouchBehaviorLib/TouchBehavior.shared.cs:12 | setting a behavior's Capture changes that behavior's flag only; the touch table, the recognizers and the event log are unchanged |
| IosTouch.TouchRecognizers.Detach | TouchBehaviorLib/TouchRecognizer.iOS.cs:28-31 | the recognizer's view is removed and is unregistered afterwards (a no-op when already absent); nothing else changes |
| IosTouch.TouchRecognizers.FireEvent | TouchBehaviorLib/TouchRecognizer.iOS.cs:156-168 | one delivery to the recipient's element at the touch's location in the recipient's view; then the handler sets the recipient behavior's Capture |
| IosTouch.TouchRecognizers.CheckForBoundaryHop | TouchBehaviorLib/TouchRecognizer.iOS.cs:123-154 | the scan followed by the hop equals `BoundaryHop`, including the throw for an absent id |
| IosTouch.TouchRecognizers.TouchesBegan | TouchBehaviorLib/TouchRecognizer.iOS.cs:34-52 | the loop equals `BeganBatch`; afterwards `_currentCapture` is the behavior's Capture as the Pressed handlers left it |
| IosTouch.TouchRecognizers.TouchesMoved | TouchBehaviorLib/TouchRecognizer.iOS.cs:54-76 | the loop, under the snapshot taken before it, equals `MovedBatch`; a throw ends it |
| IosTouch.TouchRecognizers.TouchesEnded | TouchBehaviorLib/TouchRecognizer.iOS.cs:78-101 | the loop, under the snapshot, equals `EndedBatch` |
| IosTouch.TouchRecognizers.TouchesCancelled | TouchBehaviorLib/TouchRecognizer.iOS.cs:103-121 | the loop, under the snapshot, equals `CancelledBatch` |
| IosTouchProperties.HitOfIsLastContainingView | TouchBehaviorLib/TouchRecognizer.iOS.cs:128-138 | the hit is the recognizer of the last registered view whose bounds `(0,0,size)` contain the touch's location in it; null iff none does; a hit is a known recognizer |
| IosTouchProperties.FireEffect | TouchBehaviorLib/TouchRecognizer.iOS.cs:156-167 | FireEvent appends exactly one event, addressed to the chosen recognizer's element and located in that recognizer's view, with the given id, type and contact flag; the table is untouched and only that recognizer's behavior's Capture can change |
| IosTouchProperties.BoundaryHopEffect | TouchBehaviorLib/TouchRecognizer.iOS.cs:140-153 | throws iff the id is absent; nothing happens when the hit equals the owner; otherwise Exited to the old owner if non-null, then Entered to the hit if non-null, and the entry becomes the hit, even when null |
| IosTouchProperties.HopEventsShape | TouchBehaviorLib/TouchRecognizer.iOS.cs:142-150 | each hop event is in contact and addressed to its recipient, and is either Exited to the old owner or Entered to the hit |
| IosTouchProperties.BeganEffect | TouchBehaviorLib/TouchRecognizer.iOS.cs:38-48 | one Pressed to this recognizer per touch in set order; new ids become owned by it; existing entries are kept as they were |
| IosTouchProperties.BeganCaptureFollowsPressedHandler | TouchBehaviorLib/TouchRecognizer.iOS.cs:42-51 | when the Pressed handler sets Capture to a value, the behavior's Capture after the loop, and so the refreshed snapshot, is that value |
| IosTouchProperties.CapturedMoved | TouchBehaviorLib/TouchRecognizer.iOS.cs:62-65 | under the snapshot, one Moved per touch to this recognizer; no Entered or Exited; no throw; the table is unchanged |
| IosTouchProperties.CapturedEnded | TouchBehaviorLib/TouchRecognizer.iOS.cs:86-99 | under the snapshot, one Released (not in contact) per touch to this recognizer; no throw; every touch's entry is removed |
| IosTouchProperties.CapturedCancelled | TouchBehaviorLib/TouchRecognizer.iOS.cs:111-119 | under the snapshot, one Cancelled (not in contact) per touch to this recognizer; no throw; every touch's entry is removed |
| IosTouchProperties.MovedIgnoresLiveCapture | TouchBehaviorLib/TouchRecognizer.iOS.cs:62 | the table, the events and the throw of TouchesMoved do not depend on the behaviors' live Capture |
| IosTouchProperties.EndedIgnoresLiveCapture | TouchBehaviorLib/TouchRecognizer.iOS.cs:86 | the same for TouchesEnded |
| IosTouchProperties.CancelledIgnoresLiveCapture | TouchBehaviorLib/TouchRecognizer.iOS.cs:111 | the same for TouchesCancelled |
| IosTouchProperties.UncapturedMovedStep | TouchBehaviorLib/TouchRecognizer.iOS.cs:66-74 | one uncaptured pass throws iff the id is absent; otherwise the entry becomes the hit, and the hop's events are followed by Moved to the hit iff it is non-null |
| IosTouchProperties.UncapturedEndedStep | TouchBehaviorLib/TouchRecognizer.iOS.cs:90-99 | one uncaptured pass throws iff the id is absent; otherwise the hop's events are followed by Released (not in contact) to the hit iff it is non-null, and the id is removed |
| IosTouchProperties.UncapturedCancelledStep | TouchBehaviorLib/TouchRecognizer.iOS.cs:115-119 | no hop; throws iff the id is absent; otherwise Cancelled to the current owner iff it is non-null, and the id is removed |
| IosTouchProperties.UncapturedMovedTable | TouchBehaviorLib/TouchRecognizer.iOS.cs:58-75 | an uncaptured TouchesMoved throws iff some touch is absent; no key is added or removed; each touch ends owned by its own hit; other entries are untouched |
| IosTouchProperties.UncapturedMovedLog | TouchBehaviorLib/TouchRecognizer.iOS.cs:58-75 | only Moved, Entered and Exited, all in contact; Moved and Entered go to the touch's hit; with no throw, every touch with a non-null hit sends Moved to it |
| IosTouchProperties.UncapturedEndedLog | TouchBehaviorLib/TouchRecognizer.iOS.cs:82-100 | only Released (not in contact), Entered and Exited (in contact); Released and Entered go to the touch's hit; with no throw, every touch with a non-null hit sends Released to it |
| IosTouchProperties.EndedTable | TouchBehaviorLib/TouchRecognizer.iOS.cs:82-100 | under either snapshot, entries are only removed; with no throw, no touch of the callback keeps an entry; other touches keep theirs; for a set of touches, a throw happens iff uncaptured and some touch is absent |
| IosTouchProperties.CancelledLog | TouchBehaviorLib/TouchRecognizer.iOS.cs:107-120 | only Cancelled, not in contact: under the snapshot to this recognizer, otherwise to the touch's owner as recorded before the callback; every touch with a non-null owner is told |
| IosTouchProperties.CancelledTable | TouchBehaviorLib/TouchRecognizer.iOS.cs:107-120 | as `EndedTable`, for TouchesCancelled |

## Left out

- Windows (`TouchBehavior.Windows.cs`): it forwards native pointer events and the OS does enter/exit and capture, so there is no table logic. It is not part of this model.
- Lifecycle plumbing is not modelled, only its registry effects (`Register`, `Unregister`, `NewRecognizer`, `Detach`). This covers `OnAttachedTo`, the `HandlerChanged` subscription, the MauiContext null check, adding and removing the Touch handler or gesture recognizer, and the iOS glue in `TouchBehavior.iOS.cs`.
- Native geometry becomes parameters of each callback, because these are platform calls:
  - Android's `Screen`: a view's screen rectangle, or None when the location query throws.
  - iOS's `Scene`: `LocationInView` and `Frame.Size`.
- Doubles and `Context.FromPixels` become integers and an arbitrary `int -> int`, because floating point is out of scope. `Contains` is taken as half-open on both axes.
- `_screenLocationArray`, the shared scratch buffer, is modelled by the values read from it. Every read of it follows a fill of it.
- The registry is an explicit sequence. `Add` appends and `Remove` deletes in place. .NET does not promise this enumeration order (a freed slot can be reused), so "last wins" is relative to this sequence.
- The consumer's `TouchAction` handler is seen only through what it does to its behavior's `Capture`. Handlers that re-enter the library or attach and detach views are not modelled.
- AndroidTouch.TouchBehaviors.OnTouch: the sender view is taken to be the behavior's own `_nativeView`, to which the handler is subscribed. The `ThrowIfNull` checks (lines 70-72) and a null `androidView` are not modelled, since the platform never passes null.
- `MotionEventActions.Pointer1Up` is the `PointerUp` action. Every action the switch ignores is `OtherAction`.
- IosTouch.TouchRecognizers.FireEvent: `recognizer.View` is taken to be that recognizer's `_uiView`, the view it was created for. That fails once `OnDetachingFrom` has removed the recognizer from its view (`TouchBehavior.iOS.cs:56`). A detached owner still recorded in `_idToTouchCache` then gets its events located in window coordinates. The model does not capture that.
- Touch handles and pointer ids are unbounded integers. The source's `long` and `int` never wrap here.
- `base.Touches*` calls and other `UIGestureRecognizer` state are left out, because they are framework state outside these tables.
- Concurrency: there is no concurrency, since every callback runs to completion on the UI thread.
- IosTouchProperties.UncapturedMovedLog: at batch level it does not say which recipient each Exited has. `UncapturedMovedStep` pins it, one pass at a time.
- IosTouchProperties.UncapturedEndedLog: as for `UncapturedMovedLog`, Exited's recipient is pinned only by `UncapturedEndedStep`.
- IosTouchProperties.CancelledLog: its last clause, that every owner is told, is proved for distinct touches with no throw. An `NSSet` of touches is distinct.
- The sample app `MainPage.xaml.cs` (its page, labels and text output) is not modelled, only its handler's effect on `Capture`. Its Capture-on-Pressed pattern is the hypothesis of `BeganCaptureFollowsPressedHandler`, and `SamplePatternMeetsMoveHypotheses` shows that the pattern meets the Android move lemmas' hypotheses.
