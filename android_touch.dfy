/**
 * The Android touch behavior: `OnTouch` dispatch of a native MotionEvent,
 * the `CheckForBoundaryHop` hit test, `FireEvent`'s coordinate translation
 * and the view registry's register/unregister (TouchBehavior.Android.cs).
 *
 * The first half gives a callback's effect as pure functions of the state
 * before it; the class `TouchBehaviors` below holds the process's state and
 * runs the callbacks step by step, each method proved to agree with its
 * function.
 */
module AndroidTouch {
  import opened Wrappers
  import opened Geometry
  import opened TouchActions
  import opened ViewRegistry

  /** Opaque identity of an Android.Views.View. */
  type ViewId = nat

  /** `MotionEvent.GetPointerId`: one finger's id from its down to its up. */
  type PointerId = int

  /** `_idToBehaviorCache`: pointer id to owner, where the owner may be null. */
  type Table = map<PointerId, Option<BehaviorId>>

  /**
   * The native layout at the time of a callback: a view's on-screen
   * rectangle (`GetLocationOnScreen` with `Width` and `Height`), or None
   * when the location query throws because the view has been disposed.
   */
  type Screen = ViewId -> Option<IntRect>

  /** `MotionEvent.ActionMasked`, with every value the switch ignores folded into one. */
  datatype MotionAction = Down | PointerDown | Move | Up | PointerUp | Cancel | OtherAction

  /** Pointer i of a MotionEvent: `GetPointerId(i)`, `GetX(i)`, `GetY(i)` (view-relative). */
  datatype PointerSample = PointerSample(id: PointerId, x: int, y: int)

  datatype MotionEvent = MotionEvent(action: MotionAction, actionIndex: nat, pointers: seq<PointerSample>)

  /** Android's guarantee about every MotionEvent it delivers: `ActionIndex` names one of its pointers. */
  predicate WellFormed(ev: MotionEvent) {
    ev.actionIndex < |ev.pointers|
  }

  /** The view's screen rectangle contains the point; a view whose location query throws is skipped. */
  predicate ScreenHit(screen: Screen, p: Point, v: ViewId) {
    match screen(v)
    case None => false
    case Some(r) => Contains(r, p)
  }

  function Hits(screen: Screen, p: Point): ViewId -> bool {
    (v: ViewId) => ScreenHit(screen, p, v)
  }

  /**
   * What stays fixed during one OnTouch of behavior `self`: its bound
   * element, its view's screen origin, its `_fromPixels`, the registry, the
   * layout and the consumer.
   */
  datatype Env = Env(
    self: BehaviorId,
    element: ElementId,
    origin: Point,
    fromPixels: int -> int,
    registry: Registry<ViewId, BehaviorId>,
    screen: Screen,
    consumer: Consumer)

  /** What one OnTouch may change: the ownership table, the deliveries so far, and `self.Capture`. */
  datatype State = State(table: Table, log: seq<Delivery>, capture: bool)

  /** Screen coordinates of a pointer: the view's screen origin plus the pointer's view-relative position. */
  function ScreenPoint(e: Env, s: PointerSample): Point {
    Point(e.origin.x + s.x, e.origin.y + s.y)
  }

  /** `FireEvent`'s translation: subtract this view's screen origin, then convert from pixels. */
  function ToLocal(e: Env, p: Point): Point {
    Point(e.fromPixels(p.x - e.origin.x), e.fromPixels(p.y - e.origin.y))
  }

  function Args(e: Env, id: PointerId, kind: TouchActionType, p: Point, contact: bool): TouchActionEventArgs {
    TouchActionEventArgs(id, kind, ToLocal(e, p), contact)
  }

  /** `FireEvent`: deliver to this behavior's element, then let the consumer update `Capture`. */
  function Fire(e: Env, s: State, id: PointerId, kind: TouchActionType, p: Point, contact: bool): State {
    var args := Args(e, id, kind, p, contact);
    State(s.table, s.log + [Delivery(e.self, e.element, args)], e.consumer(e.self, args, s.capture))
  }

  /** The behavior whose view is hit at screen point p. */
  function HitAt(e: Env, p: Point): Option<BehaviorId> {
    HitTest(e.registry, Hits(e.screen, p))
  }

  /** `CheckForBoundaryHop(id, p)`. */
  function BoundaryHop(e: Env, s: State, id: PointerId, p: Point): Outcome<State> {
    var hit := HitAt(e, p);
    if id !in s.table then Outcome(s, Some(KeyNotFound))
    else if hit == s.table[id] then Outcome(s, None)
    else
      var s1 := if s.table[id].Some? then Fire(e, s, id, Exited, p, true) else s;
      var s2 := if hit.Some? then Fire(e, s1, id, Entered, p, true) else s1;
      Outcome(s2.(table := s2.table[id := hit]), None)
  }

  /**
   * One pass of the Move loop for `ptr`. `Capture` is read afresh for each
   * pointer; the captured branch reports the pointer's own location, the
   * uncaptured branch the current value `p` of `screenPointerCoords`.
   */
  function MoveStep(e: Env, s: State, ptr: PointerSample, p: Point): Outcome<State> {
    if s.capture then Outcome(Fire(e, s, ptr.id, Moved, ScreenPoint(e, ptr), true), None)
    else
      var o := BoundaryHop(e, s, ptr.id, p);
      if o.fault.Some? then o
      else if o.st.table[ptr.id].Some? then Outcome(Fire(e, o.st, ptr.id, Moved, p, true), None)
      else o
  }

  /**
   * The Move loop over the pointers still to be handled; an exception ends
   * it. `p` is `screenPointerCoords`: the action pointer's location computed
   * before the switch, overwritten by each captured pass with that pass's
   * pointer location, and never by an uncaptured one.
   */
  function MoveBatch(e: Env, s: State, ptrs: seq<PointerSample>, p: Point): Outcome<State>
    decreases |ptrs|
  {
    if ptrs == [] then Outcome(s, None)
    else
      var o := MoveStep(e, s, ptrs[0], p);
      var next := if s.capture then ScreenPoint(e, ptrs[0]) else p;
      if o.fault.Some? then o else MoveBatch(e, o.st, ptrs[1..], next)
  }

  /** The Up and Pointer1Up case. */
  function UpCase(e: Env, s: State, id: PointerId, p0: Point): Outcome<State> {
    var o :=
      if s.capture then Outcome(Fire(e, s, id, Released, p0, false), None)
      else
        var h := BoundaryHop(e, s, id, p0);
        if h.fault.None? && h.st.table[id].Some? then Outcome(Fire(e, h.st, id, Released, p0, false), None)
        else h;
    if o.fault.Some? then o else Outcome(o.st.(table := o.st.table - {id}), None)
  }

  /** The Cancel case: no hit test. */
  function CancelCase(e: Env, s: State, id: PointerId, p0: Point): Outcome<State> {
    if s.capture then
      var s1 := Fire(e, s, id, Cancelled, p0, false);
      Outcome(s1.(table := s1.table - {id}), None)
    else if id !in s.table then Outcome(s, Some(KeyNotFound))
    else
      var s1 := if s.table[id].Some? then Fire(e, s, id, Cancelled, p0, false) else s;
      Outcome(s1.(table := s1.table - {id}), None)
  }

  /** `OnTouch`: the whole effect of one native touch callback on behavior `e.self`. */
  function Touch(e: Env, s: State, ev: MotionEvent): Outcome<State>
    requires WellFormed(ev)
  {
    var ptr := ev.pointers[ev.actionIndex];
    var p0 := ScreenPoint(e, ptr);
    match ev.action
    case Down | PointerDown =>
      var s1 := Fire(e, s, ptr.id, Pressed, p0, true);
      if ptr.id in s1.table then Outcome(s1, Some(DuplicateKey))
      else Outcome(s1.(table := s1.table[ptr.id := Some(e.self)]), None)
    case Move => MoveBatch(e, s, ev.pointers, p0)
    case Up | PointerUp => UpCase(e, s, ptr.id, p0)
    case Cancel => CancelCase(e, s, ptr.id, p0)
    case OtherAction => Outcome(s, None)
  }

  /**
   * Every TouchBehavior of the process: the two static dictionaries, each
   * behavior's fields (`_nativeView`, `_boundElement`, `_fromPixels`,
   * `Capture`) keyed by its identity, and the deliveries made so far.
   */
  class TouchBehaviors {
    var viewToBehaviorCache: Registry<ViewId, BehaviorId>
    var idToBehaviorCache: Table
    var nativeView: map<BehaviorId, ViewId>
    var boundElement: map<BehaviorId, ElementId>
    var fromPixels: map<BehaviorId, int -> int>
    var captured: set<BehaviorId>   // the behaviors whose Capture is true
    var log: seq<Delivery>

    ghost predicate Valid()
      reads this
    {
      DistinctViews(viewToBehaviorCache)
    }

    /** The touch subscription is live: the handler-changed callback has set this behavior's fields. */
    ghost predicate Attached(self: BehaviorId)
      reads this
    {
      self in nativeView && self in boundElement && self in fromPixels
    }

    /** Attached, and the native view that raises the touch can be located on screen. */
    ghost predicate CanTouch(self: BehaviorId, screen: Screen)
      reads this
    {
      Attached(self) && screen(nativeView[self]).Some?
    }

    ghost function EnvOf(self: BehaviorId, screen: Screen, consumer: Consumer): Env
      reads this
      requires CanTouch(self, screen)
    {
      var r := screen(nativeView[self]).value;
      Env(self, boundElement[self], Point(r.x, r.y), fromPixels[self], viewToBehaviorCache, screen, consumer)
    }

    ghost function StateOf(self: BehaviorId): State
      reads this
    {
      State(idToBehaviorCache, log, self in captured)
    }

    /** Only the ownership table, the log and `self.Capture` changed. */
    twostate predicate OnlyTouchState(self: BehaviorId)
      reads this
    {
      && viewToBehaviorCache == old(viewToBehaviorCache)
      && nativeView == old(nativeView)
      && boundElement == old(boundElement)
      && fromPixels == old(fromPixels)
      && captured - {self} == old(captured) - {self}
    }

    constructor ()
      ensures Valid()
      ensures viewToBehaviorCache == [] && idToBehaviorCache == map[] && log == []
      ensures nativeView == map[] && boundElement == map[] && fromPixels == map[] && captured == {}
    {
      viewToBehaviorCache := [];
      idToBehaviorCache := map[];
      nativeView := map[];
      boundElement := map[];
      fromPixels := map[];
      captured := {};
      log := [];
    }

    /** The consumer sets `b.Capture` between callbacks. */
    method SetCapture(b: BehaviorId, on: bool)
      modifies this
      ensures captured == SetFlag(old(captured), b, on)
      ensures viewToBehaviorCache == old(viewToBehaviorCache) && idToBehaviorCache == old(idToBehaviorCache)
      ensures nativeView == old(nativeView) && boundElement == old(boundElement)
      ensures fromPixels == old(fromPixels) && log == old(log)
    {
      captured := SetFlag(captured, b, on);
    }

    /**
     * The registering part of `OnHandlerChanged`: the element and the
     * platform view (None when `ToPlatform` gives null) are recorded first;
     * for a non-null view `Add` then throws if the view is already
     * registered, and only otherwise are `_fromPixels` set and the touch
     * subscribed.
     */
    method Register(self: BehaviorId, element: ElementId, view: Option<ViewId>, pixels: int -> int)
      returns (fault: Option<Fault>)
      requires Valid()
      modifies this
      ensures Valid()
      ensures boundElement == old(boundElement)[self := element]
      ensures nativeView == if view.Some? then old(nativeView)[self := view.value] else old(nativeView) - {self}
      ensures fault == (if view.Some? && Registered(old(viewToBehaviorCache), view.value) then Some(DuplicateKey) else None)
      ensures view.Some? && fault.None? ==>
                viewToBehaviorCache == old(viewToBehaviorCache) + [(view.value, self)]
                && fromPixels == old(fromPixels)[self := pixels]
      ensures view.None? || fault.Some? ==>
                viewToBehaviorCache == old(viewToBehaviorCache) && fromPixels == old(fromPixels)
      ensures idToBehaviorCache == old(idToBehaviorCache) && captured == old(captured) && log == old(log)
    {
      boundElement := boundElement[self := element];
      fault := None;
      if view.None? {
        nativeView := nativeView - {self};
        return;
      }
      nativeView := nativeView[self := view.value];
      if Registered(viewToBehaviorCache, view.value) {
        fault := Some(DuplicateKey);
      } else {
        AddKeepsDistinct(viewToBehaviorCache, view.value, self);
        viewToBehaviorCache := viewToBehaviorCache + [(view.value, self)];
        fromPixels := fromPixels[self := pixels];
      }
    }

    /**
     * The unregistering part of `OnDetachingFrom`: `ContainsKey(_nativeView!)`
     * throws when no native view was ever set; otherwise the view's entry is
     * removed when present. The ownership table is left as it is.
     */
    method Unregister(self: BehaviorId) returns (fault: Option<Fault>)
      requires Valid()
      modifies this
      ensures Valid()
      ensures fault == (if self in old(nativeView) then None else Some(NullKey))
      ensures viewToBehaviorCache ==
                (if self in old(nativeView) then Remove(old(viewToBehaviorCache), old(nativeView)[self])
                 else old(viewToBehaviorCache))
      ensures self in old(nativeView) ==> !Registered(viewToBehaviorCache, old(nativeView)[self])
      ensures idToBehaviorCache == old(idToBehaviorCache) && captured == old(captured) && log == old(log)
      ensures nativeView == old(nativeView) && boundElement == old(boundElement) && fromPixels == old(fromPixels)
    {
      if self !in nativeView {
        return Some(NullKey);
      }
      var view := nativeView[self];
      if Registered(viewToBehaviorCache, view) {
        RemoveKeepsDistinct(viewToBehaviorCache, view);
        viewToBehaviorCache := Remove(viewToBehaviorCache, view);
      }
      fault := None;
    }

    /** `FireEvent(id, kind, p, contact)` on behavior `self`. */
    method FireEvent(self: BehaviorId, id: PointerId, kind: TouchActionType, p: Point, contact: bool,
                     screen: Screen, consumer: Consumer)
      requires CanTouch(self, screen)
      modifies this
      ensures OnlyTouchState(self)
      ensures StateOf(self) == Fire(old(EnvOf(self, screen, consumer)), old(StateOf(self)), id, kind, p, contact)
    {
      var r := screen(nativeView[self]).value;
      var x := p.x - r.x;
      var y := p.y - r.y;
      var scale := fromPixels[self];
      var args := TouchActionEventArgs(id, kind, Point(scale(x), scale(y)), contact);
      log := log + [Delivery(self, boundElement[self], args)];
      captured := SetFlag(captured, self, consumer(self, args, self in captured));
    }

    /** `CheckForBoundaryHop(id, p)` on behavior `self`. */
    method CheckForBoundaryHop(self: BehaviorId, id: PointerId, p: Point, screen: Screen, consumer: Consumer)
      returns (fault: Option<Fault>)
      requires CanTouch(self, screen)
      modifies this
      ensures OnlyTouchState(self)
      ensures Outcome(StateOf(self), fault) ==
                BoundaryHop(old(EnvOf(self, screen, consumer)), old(StateOf(self)), id, p)
    {
      ghost var e := EnvOf(self, screen, consumer);
      ghost var s0 := StateOf(self);
      var touchHit := ScanForHit(viewToBehaviorCache, Hits(screen, p));
      if id !in idToBehaviorCache {
        return Some(KeyNotFound);
      }
      var current := idToBehaviorCache[id];
      if touchHit != current {
        if current.Some? {
          FireEvent(self, id, Exited, p, true, screen, consumer);
        }
        ghost var s1 := StateOf(self);
        assert s1 == if s0.table[id].Some? then Fire(e, s0, id, Exited, p, true) else s0;
        if touchHit.Some? {
          FireEvent(self, id, Entered, p, true, screen, consumer);
        }
        idToBehaviorCache := idToBehaviorCache[id := touchHit];
      }
      fault := None;
    }

    /** The Move case of `OnTouch`: the loop over the batched pointers, `screenPointerCoords` starting at `start`. */
    method OnTouchMove(self: BehaviorId, ev: MotionEvent, start: Point, screen: Screen, consumer: Consumer)
      returns (fault: Option<Fault>)
      requires CanTouch(self, screen)
      modifies this
      ensures OnlyTouchState(self)
      ensures Outcome(StateOf(self), fault) ==
                MoveBatch(old(EnvOf(self, screen, consumer)), old(StateOf(self)), ev.pointers, start)
    {
      ghost var e := EnvOf(self, screen, consumer);
      ghost var s0 := StateOf(self);
      var r := screen(nativeView[self]).value;
      var screenPointerCoords := start;
      fault := None;
      var pointerIndex := 0;
      while pointerIndex < |ev.pointers|
        invariant 0 <= pointerIndex <= |ev.pointers|
        invariant OnlyTouchState(self)
        invariant fault.None?
        invariant MoveBatch(e, StateOf(self), ev.pointers[pointerIndex..], screenPointerCoords)
                  == MoveBatch(e, s0, ev.pointers, start)
      {
        assert ev.pointers[pointerIndex..][1..] == ev.pointers[pointerIndex + 1..];
        var id := ev.pointers[pointerIndex].id;
        if self in captured {
          screenPointerCoords := Point(r.x + ev.pointers[pointerIndex].x, r.y + ev.pointers[pointerIndex].y);
          FireEvent(self, id, Moved, screenPointerCoords, true, screen, consumer);
        } else {
          fault := CheckForBoundaryHop(self, id, screenPointerCoords, screen, consumer);
          if fault.Some? {
            break;
          }
          if idToBehaviorCache[id].Some? {
            FireEvent(self, id, Moved, screenPointerCoords, true, screen, consumer);
          }
        }
        pointerIndex := pointerIndex + 1;
      }
      assert fault.None? ==> ev.pointers[pointerIndex..] == [];
    }

    /** `OnTouch`: one native touch callback raised by behavior `self`'s view. */
    method OnTouch(self: BehaviorId, ev: MotionEvent, screen: Screen, consumer: Consumer)
      returns (fault: Option<Fault>)
      requires Valid() && CanTouch(self, screen) && WellFormed(ev)
      modifies this
      ensures Valid() && OnlyTouchState(self)
      ensures Outcome(StateOf(self), fault) == Touch(old(EnvOf(self, screen, consumer)), old(StateOf(self)), ev)
    {
      ghost var e := EnvOf(self, screen, consumer);
      ghost var s0 := StateOf(self);
      var pointerIndex := ev.actionIndex;
      var id := ev.pointers[pointerIndex].id;
      var r := screen(nativeView[self]).value;
      var screenPointerCoords := Point(r.x + ev.pointers[pointerIndex].x, r.y + ev.pointers[pointerIndex].y);
      fault := None;
      match ev.action {
        case Down | PointerDown =>
          FireEvent(self, id, Pressed, screenPointerCoords, true, screen, consumer);
          if id in idToBehaviorCache {
            fault := Some(DuplicateKey);
          } else {
            idToBehaviorCache := idToBehaviorCache[id := Some(self)];
          }
        case Move =>
          fault := OnTouchMove(self, ev, screenPointerCoords, screen, consumer);
        case Up | PointerUp =>
          if self in captured {
            FireEvent(self, id, Released, screenPointerCoords, false, screen, consumer);
          } else {
            fault := CheckForBoundaryHop(self, id, screenPointerCoords, screen, consumer);
            if fault.None? && idToBehaviorCache[id].Some? {
              FireEvent(self, id, Released, screenPointerCoords, false, screen, consumer);
            }
          }
          if fault.None? {
            idToBehaviorCache := idToBehaviorCache - {id};
          }
        case Cancel =>
          if self in captured {
            FireEvent(self, id, Cancelled, screenPointerCoords, false, screen, consumer);
          } else if id !in idToBehaviorCache {
            fault := Some(KeyNotFound);
          } else if idToBehaviorCache[id].Some? {
            FireEvent(self, id, Cancelled, screenPointerCoords, false, screen, consumer);
          }
          if fault.None? {
            idToBehaviorCache := idToBehaviorCache - {id};
          }
        case OtherAction =>
      }
    }
  }
}
