/**
 * The iOS touch recognizer (TouchRecognizer.iOS.cs): registry maintenance
 * in the constructor and `Detach`, the four `Touches*` callbacks,
 * `CheckForBoundaryHop` and `FireEvent`'s choice of recipient.
 *
 * As for Android, a callback's effect is first given as pure functions of
 * the state before it, and the class `TouchRecognizers` runs the callbacks
 * step by step, each method proved to agree with its function.
 */
module IosTouch {
  import opened Wrappers
  import opened Geometry
  import opened TouchActions
  import opened ViewRegistry

  /** Opaque identity of a UIView. */
  type ViewId = nat

  /** Opaque identity of a TouchRecognizer object. */
  type RecognizerId = nat

  /** `((IntPtr)touch.Handle).ToInt64()`. */
  type TouchId = int

  /** `_idToTouchCache`: touch id to owning recognizer, where the owner may be null. */
  type Table = map<TouchId, Option<RecognizerId>>

  /** The fields a TouchRecognizer never reassigns: `_element`, `_uiView`, `_touchBehavior`. */
  datatype Recognizer = Recognizer(element: ElementId, uiView: ViewId, behavior: BehaviorId)

  /**
   * The native side of a callback: `touch.LocationInView(view)` and the
   * size of `view.Frame`.
   */
  datatype Scene = Scene(
    locationInView: (TouchId, ViewId) -> Point,
    frameWidth: ViewId -> nat,
    frameHeight: ViewId -> nat)

  /** The touch lies inside the view's own bounds `(0, 0, Frame.Size)`. */
  predicate InBounds(scene: Scene, t: TouchId, v: ViewId) {
    Contains(IntRect(0, 0, scene.frameWidth(v), scene.frameHeight(v)), scene.locationInView(t, v))
  }

  function Hits(scene: Scene, t: TouchId): ViewId -> bool {
    (v: ViewId) => InBounds(scene, t, v)
  }

  /** What stays fixed during one callback on recognizer `self`. */
  datatype Env = Env(
    self: RecognizerId,
    registry: Registry<ViewId, RecognizerId>,
    recognizers: map<RecognizerId, Recognizer>,
    scene: Scene,
    consumer: Consumer)

  /** What a callback may change: the ownership table, the deliveries so far, and every behavior's Capture. */
  datatype State = State(table: Table, log: seq<Delivery>, captured: set<BehaviorId>)

  /** Every recognizer the callback can reach is an object with known fields. */
  predicate Known(e: Env, s: State) {
    && e.self in e.recognizers
    && OwnersIn(e.registry, e.recognizers.Keys)
    && forall t | t in s.table && s.table[t].Some? :: s.table[t].value in e.recognizers
  }

  function Args(e: Env, r: RecognizerId, id: TouchId, kind: TouchActionType, contact: bool): TouchActionEventArgs
    requires r in e.recognizers
  {
    TouchActionEventArgs(id, kind, e.scene.locationInView(id, e.recognizers[r].uiView), contact)
  }

  /** The delivery `FireEvent(r, id, kind, touch, contact)` makes: to r's element, located in r's view. */
  function DeliveryTo(e: Env, r: RecognizerId, id: TouchId, kind: TouchActionType, contact: bool): Delivery
    requires r in e.recognizers
  {
    Delivery(r, e.recognizers[r].element, Args(e, r, id, kind, contact))
  }

  /** `FireEvent`: deliver, then let r's behavior's consumer update that behavior's Capture. */
  function Fire(e: Env, s: State, r: RecognizerId, id: TouchId, kind: TouchActionType, contact: bool): State
    requires r in e.recognizers
  {
    var b := e.recognizers[r].behavior;
    var args := Args(e, r, id, kind, contact);
    State(s.table, s.log + [DeliveryTo(e, r, id, kind, contact)],
          SetFlag(s.captured, b, e.consumer(b, args, b in s.captured)))
  }

  /** The recognizer whose view's bounds contain touch t. */
  function HitOf(e: Env, t: TouchId): Option<RecognizerId> {
    HitTest(e.registry, Hits(e.scene, t))
  }

  /** `CheckForBoundaryHop(touch)`. */
  function BoundaryHop(e: Env, s: State, id: TouchId): (o: Outcome<State>)
    requires Known(e, s)
    ensures Known(e, o.st)
  {
    var hit := HitOf(e, id);
    if id !in s.table then Outcome(s, Some(KeyNotFound))
    else if hit == s.table[id] then Outcome(s, None)
    else
      var s1 := if s.table[id].Some? then Fire(e, s, s.table[id].value, id, Exited, true) else s;
      var s2 := if hit.Some? then Fire(e, s1, hit.value, id, Entered, true) else s1;
      Outcome(s2.(table := s2.table[id := hit]), None)
  }

  /** The loop of `TouchesBegan` over the touches still to be handled. */
  function BeganBatch(e: Env, s: State, touches: seq<TouchId>): (r: State)
    requires Known(e, s)
    ensures Known(e, r)
    decreases |touches|
  {
    if touches == [] then s
    else
      var t := touches[0];
      var s1 := Fire(e, s, e.self, t, Pressed, true);
      var s2 := if t !in s1.table then s1.(table := s1.table[t := Some(e.self)]) else s1;
      BeganBatch(e, s2, touches[1..])
  }

  /** One pass of the `TouchesMoved` loop, under the Capture snapshot `snap`. */
  function MovedStep(e: Env, snap: bool, s: State, t: TouchId): (o: Outcome<State>)
    requires Known(e, s)
    ensures Known(e, o.st)
  {
    if snap then Outcome(Fire(e, s, e.self, t, Moved, true), None)
    else
      var h := BoundaryHop(e, s, t);
      if h.fault.Some? then h
      else if h.st.table[t].Some? then Outcome(Fire(e, h.st, h.st.table[t].value, t, Moved, true), None)
      else h
  }

  function MovedBatch(e: Env, snap: bool, s: State, touches: seq<TouchId>): (o: Outcome<State>)
    requires Known(e, s)
    ensures Known(e, o.st)
    decreases |touches|
  {
    if touches == [] then Outcome(s, None)
    else
      var o := MovedStep(e, snap, s, touches[0]);
      if o.fault.Some? then o else MovedBatch(e, snap, o.st, touches[1..])
  }

  /** One pass of the `TouchesEnded` loop. */
  function EndedStep(e: Env, snap: bool, s: State, t: TouchId): (o: Outcome<State>)
    requires Known(e, s)
    ensures Known(e, o.st)
  {
    var o :=
      if snap then Outcome(Fire(e, s, e.self, t, Released, false), None)
      else
        var h := BoundaryHop(e, s, t);
        if h.fault.None? && h.st.table[t].Some? then Outcome(Fire(e, h.st, h.st.table[t].value, t, Released, false), None)
        else h;
    if o.fault.Some? then o else Outcome(o.st.(table := o.st.table - {t}), None)
  }

  function EndedBatch(e: Env, snap: bool, s: State, touches: seq<TouchId>): (o: Outcome<State>)
    requires Known(e, s)
    ensures Known(e, o.st)
    decreases |touches|
  {
    if touches == [] then Outcome(s, None)
    else
      var o := EndedStep(e, snap, s, touches[0]);
      if o.fault.Some? then o else EndedBatch(e, snap, o.st, touches[1..])
  }

  /** One pass of the `TouchesCancelled` loop: no hit test. */
  function CancelledStep(e: Env, snap: bool, s: State, t: TouchId): (o: Outcome<State>)
    requires Known(e, s)
    ensures Known(e, o.st)
  {
    if snap then
      var s1 := Fire(e, s, e.self, t, Cancelled, false);
      Outcome(s1.(table := s1.table - {t}), None)
    else if t !in s.table then Outcome(s, Some(KeyNotFound))
    else
      var s1 := if s.table[t].Some? then Fire(e, s, s.table[t].value, t, Cancelled, false) else s;
      Outcome(s1.(table := s1.table - {t}), None)
  }

  function CancelledBatch(e: Env, snap: bool, s: State, touches: seq<TouchId>): (o: Outcome<State>)
    requires Known(e, s)
    ensures Known(e, o.st)
    decreases |touches|
  {
    if touches == [] then Outcome(s, None)
    else
      var o := CancelledStep(e, snap, s, touches[0]);
      if o.fault.Some? then o else CancelledBatch(e, snap, o.st, touches[1..])
  }

  /**
   * Every TouchRecognizer of the process: the two static dictionaries, each
   * recognizer's fields keyed by its identity (`_currentCapture` kept as
   * the set of recognizers where it is true), the Capture of every
   * TouchBehavior, and the deliveries made so far.
   */
  class TouchRecognizers {
    var viewToRecognizerCache: Registry<ViewId, RecognizerId>
    var idToTouchCache: Table
    var recognizers: map<RecognizerId, Recognizer>
    var currentCapture: set<RecognizerId>
    var captured: set<BehaviorId>
    var log: seq<Delivery>
    var nextId: nat   // identities not yet given to any recognizer start here

    ghost predicate Valid()
      reads this
    {
      && DistinctViews(viewToRecognizerCache)
      && OwnersIn(viewToRecognizerCache, recognizers.Keys)
      && (forall t | t in idToTouchCache && idToTouchCache[t].Some? :: idToTouchCache[t].value in recognizers)
      && (forall r | r in recognizers :: r < nextId)
    }

    ghost function EnvOf(self: RecognizerId, scene: Scene, consumer: Consumer): Env
      reads this
    {
      Env(self, viewToRecognizerCache, recognizers, scene, consumer)
    }

    ghost function StateOf(): State
      reads this
    {
      State(idToTouchCache, log, captured)
    }

    /** Only the ownership table, the log and the behaviors' Capture changed. */
    twostate predicate OnlyTouchState()
      reads this
    {
      && viewToRecognizerCache == old(viewToRecognizerCache)
      && recognizers == old(recognizers)
      && currentCapture == old(currentCapture)
      && nextId == old(nextId)
    }

    lemma ValidIsKnown(self: RecognizerId, scene: Scene, consumer: Consumer)
      requires Valid() && self in recognizers
      ensures Known(EnvOf(self, scene, consumer), StateOf())
    {
    }

    constructor ()
      ensures Valid()
      ensures viewToRecognizerCache == [] && idToTouchCache == map[] && recognizers == map[]
      ensures currentCapture == {} && captured == {} && log == []
    {
      viewToRecognizerCache := [];
      idToTouchCache := map[];
      recognizers := map[];
      currentCapture := {};
      captured := {};
      log := [];
      nextId := 0;
    }

    /** The consumer sets `b.Capture` between callbacks. */
    method SetCapture(b: BehaviorId, on: bool)
      requires Valid()
      modifies this
      ensures Valid() && OnlyTouchState()
      ensures captured == SetFlag(old(captured), b, on)
      ensures idToTouchCache == old(idToTouchCache) && log == old(log)
    {
      captured := SetFlag(captured, b, on);
    }

    /**
     * `new TouchRecognizer(element, uiView, touchBehavior)`: a fresh
     * recognizer takes its `_currentCapture` from the behavior's Capture and
     * registers its view; `Add` throws (None here) when the view is already
     * registered, and nothing is registered then.
     */
    method NewRecognizer(element: ElementId, uiView: ViewId, behavior: BehaviorId) returns (r: Option<RecognizerId>)
      requires Valid()
      modifies this
      ensures Valid()
      ensures r.None? <==> Registered(old(viewToRecognizerCache), uiView)
      ensures r.None? ==>
                viewToRecognizerCache == old(viewToRecognizerCache) && recognizers == old(recognizers)
                && currentCapture == old(currentCapture)
      ensures r.Some? ==>
                && r.value !in old(recognizers)
                && recognizers == old(recognizers)[r.value := Recognizer(element, uiView, behavior)]
                && viewToRecognizerCache == old(viewToRecognizerCache) + [(uiView, r.value)]
                && currentCapture == SetFlag(old(currentCapture), r.value, behavior in captured)
      ensures idToTouchCache == old(idToTouchCache) && captured == old(captured) && log == old(log)
    {
      if Registered(viewToRecognizerCache, uiView) {
        return None;
      }
      var id := nextId;
      nextId := nextId + 1;
      recognizers := recognizers[id := Recognizer(element, uiView, behavior)];
      currentCapture := SetFlag(currentCapture, id, behavior in captured);
      AddKeepsDistinct(viewToRecognizerCache, uiView, id);
      viewToRecognizerCache := viewToRecognizerCache + [(uiView, id)];
      r := Some(id);
    }

    /** `Detach`: removes the entry of this recognizer's view; a no-op when it is absent. */
    method Detach(self: RecognizerId)
      requires Valid() && self in recognizers
      modifies this
      ensures Valid()
      ensures recognizers == old(recognizers) && currentCapture == old(currentCapture)
      ensures viewToRecognizerCache == Remove(old(viewToRecognizerCache), recognizers[self].uiView)
      ensures !Registered(viewToRecognizerCache, recognizers[self].uiView)
      ensures idToTouchCache == old(idToTouchCache) && captured == old(captured) && log == old(log)
    {
      RemoveKeepsDistinct(viewToRecognizerCache, recognizers[self].uiView);
      RemoveKeepsOwners(viewToRecognizerCache, recognizers[self].uiView, recognizers.Keys);
      viewToRecognizerCache := Remove(viewToRecognizerCache, recognizers[self].uiView);
    }

    /** `FireEvent(recognizer, id, kind, touch, contact)`. */
    method FireEvent(recognizer: RecognizerId, id: TouchId, kind: TouchActionType, contact: bool,
                     scene: Scene, consumer: Consumer)
      requires recognizer in recognizers
      modifies this
      ensures OnlyTouchState()
      ensures StateOf() == Fire(old(EnvOf(recognizer, scene, consumer)), old(StateOf()), recognizer, id, kind, contact)
    {
      var fields := recognizers[recognizer];
      var point := scene.locationInView(id, fields.uiView);
      var args := TouchActionEventArgs(id, kind, point, contact);
      log := log + [Delivery(recognizer, fields.element, args)];
      captured := SetFlag(captured, fields.behavior, consumer(fields.behavior, args, fields.behavior in captured));
    }

    /** `CheckForBoundaryHop(touch)`. */
    method CheckForBoundaryHop(id: TouchId, scene: Scene, consumer: Consumer, ghost self: RecognizerId)
      returns (fault: Option<Fault>)
      requires Valid() && self in recognizers
      modifies this
      ensures Valid() && OnlyTouchState()
      ensures Outcome(StateOf(), fault) == BoundaryHop(old(EnvOf(self, scene, consumer)), old(StateOf()), id)
    {
      ghost var e := EnvOf(self, scene, consumer);
      ghost var s0 := StateOf();
      var recognizerHit := ScanForHit(viewToRecognizerCache, Hits(scene, id));
      if id !in idToTouchCache {
        return Some(KeyNotFound);
      }
      var current := idToTouchCache[id];
      if recognizerHit != current {
        if current.Some? {
          FireEvent(current.value, id, Exited, true, scene, consumer);
        }
        ghost var s1 := StateOf();
        assert s1 == if s0.table[id].Some? then Fire(e, s0, s0.table[id].value, id, Exited, true) else s0;
        if recognizerHit.Some? {
          FireEvent(recognizerHit.value, id, Entered, true, scene, consumer);
        }
        idToTouchCache := idToTouchCache[id := recognizerHit];
      }
      fault := None;
    }

    /**
     * `TouchesBegan`: Pressed to this recognizer for every touch, ownership
     * for the touches not yet in the table, and then the Capture snapshot.
     */
    method TouchesBegan(self: RecognizerId, touches: seq<TouchId>, scene: Scene, consumer: Consumer)
      requires Valid() && self in recognizers
      modifies this
      ensures Valid()
      ensures viewToRecognizerCache == old(viewToRecognizerCache) && recognizers == old(recognizers)
      ensures nextId == old(nextId)
      ensures StateOf() == BeganBatch(old(EnvOf(self, scene, consumer)), old(StateOf()), touches)
      ensures currentCapture == SetFlag(old(currentCapture), self, recognizers[self].behavior in captured)
    {
      ghost var e := EnvOf(self, scene, consumer);
      ghost var s0 := StateOf();
      var i := 0;
      while i < |touches|
        invariant 0 <= i <= |touches|
        invariant Valid() && OnlyTouchState()
        invariant BeganBatch(e, StateOf(), touches[i..]) == BeganBatch(e, s0, touches)
      {
        assert touches[i..][1..] == touches[i + 1..];
        var id := touches[i];
        FireEvent(self, id, Pressed, true, scene, consumer);
        if id !in idToTouchCache {
          idToTouchCache := idToTouchCache[id := Some(self)];
        }
        i := i + 1;
      }
      currentCapture := SetFlag(currentCapture, self, recognizers[self].behavior in captured);
    }

    /** `TouchesMoved`, under this recognizer's Capture snapshot. */
    method TouchesMoved(self: RecognizerId, touches: seq<TouchId>, scene: Scene, consumer: Consumer)
      returns (fault: Option<Fault>)
      requires Valid() && self in recognizers
      modifies this
      ensures Valid() && OnlyTouchState()
      ensures Outcome(StateOf(), fault) ==
                MovedBatch(old(EnvOf(self, scene, consumer)), self in old(currentCapture), old(StateOf()), touches)
    {
      ghost var e := EnvOf(self, scene, consumer);
      ghost var s0 := StateOf();
      var snap := self in currentCapture;
      fault := None;
      var i := 0;
      while i < |touches|
        invariant 0 <= i <= |touches|
        invariant Valid() && OnlyTouchState()
        invariant fault.None?
        invariant MovedBatch(e, snap, StateOf(), touches[i..]) == MovedBatch(e, snap, s0, touches)
      {
        assert touches[i..][1..] == touches[i + 1..];
        var id := touches[i];
        if self in currentCapture {
          FireEvent(self, id, Moved, true, scene, consumer);
        } else {
          fault := CheckForBoundaryHop(id, scene, consumer, self);
          if fault.Some? {
            break;
          }
          var owner := idToTouchCache[id];
          if owner.Some? {
            FireEvent(owner.value, id, Moved, true, scene, consumer);
          }
        }
        i := i + 1;
      }
      assert fault.None? ==> touches[i..] == [];
    }

    /** `TouchesEnded`, under this recognizer's Capture snapshot. */
    method TouchesEnded(self: RecognizerId, touches: seq<TouchId>, scene: Scene, consumer: Consumer)
      returns (fault: Option<Fault>)
      requires Valid() && self in recognizers
      modifies this
      ensures Valid() && OnlyTouchState()
      ensures Outcome(StateOf(), fault) ==
                EndedBatch(old(EnvOf(self, scene, consumer)), self in old(currentCapture), old(StateOf()), touches)
    {
      ghost var e := EnvOf(self, scene, consumer);
      ghost var s0 := StateOf();
      var snap := self in currentCapture;
      fault := None;
      var i := 0;
      while i < |touches|
        invariant 0 <= i <= |touches|
        invariant Valid() && OnlyTouchState()
        invariant fault.None?
        invariant EndedBatch(e, snap, StateOf(), touches[i..]) == EndedBatch(e, snap, s0, touches)
      {
        assert touches[i..][1..] == touches[i + 1..];
        var id := touches[i];
        if self in currentCapture {
          FireEvent(self, id, Released, false, scene, consumer);
        } else {
          fault := CheckForBoundaryHop(id, scene, consumer, self);
          if fault.Some? {
            break;
          }
          var owner := idToTouchCache[id];
          if owner.Some? {
            FireEvent(owner.value, id, Released, false, scene, consumer);
          }
        }
        idToTouchCache := idToTouchCache - {id};
        i := i + 1;
      }
      assert fault.None? ==> touches[i..] == [];
    }

    /** `TouchesCancelled`, under this recognizer's Capture snapshot. */
    method TouchesCancelled(self: RecognizerId, touches: seq<TouchId>, scene: Scene, consumer: Consumer)
      returns (fault: Option<Fault>)
      requires Valid() && self in recognizers
      modifies this
      ensures Valid() && OnlyTouchState()
      ensures Outcome(StateOf(), fault) ==
                CancelledBatch(old(EnvOf(self, scene, consumer)), self in old(currentCapture), old(StateOf()), touches)
    {
      ghost var e := EnvOf(self, scene, consumer);
      ghost var s0 := StateOf();
      var snap := self in currentCapture;
      fault := None;
      var i := 0;
      while i < |touches|
        invariant 0 <= i <= |touches|
        invariant Valid() && OnlyTouchState()
        invariant fault.None?
        invariant CancelledBatch(e, snap, StateOf(), touches[i..]) == CancelledBatch(e, snap, s0, touches)
      {
        assert touches[i..][1..] == touches[i + 1..];
        var id := touches[i];
        if self in currentCapture {
          FireEvent(self, id, Cancelled, false, scene, consumer);
        } else {
          if id !in idToTouchCache {
            fault := Some(KeyNotFound);
            break;
          }
          var owner := idToTouchCache[id];
          if owner.Some? {
            FireEvent(owner.value, id, Cancelled, false, scene, consumer);
          }
        }
        idToTouchCache := idToTouchCache - {id};
        i := i + 1;
      }
      assert fault.None? ==> touches[i..] == [];
    }
  }
}
