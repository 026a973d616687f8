/**
 * What the Android touch behavior promises, proved about the functions of
 * module AndroidTouch (and so, through the methods' postconditions, about
 * the callbacks).
 */
module AndroidTouchProperties {
  import opened Wrappers
  import opened Geometry
  import opened TouchActions
  import opened ViewRegistry
  import opened AndroidTouch

  /** The view-relative, pixel-converted location of pointer `ptr`. */
  function Local(e: Env, ptr: PointerSample): Point {
    Point(e.fromPixels(ptr.x), e.fromPixels(ptr.y))
  }

  /** The set of pointer ids a MotionEvent carries. */
  function PointerIds(ptrs: seq<PointerSample>): set<PointerId> {
    set i | 0 <= i < |ptrs| :: ptrs[i].id
  }

  /** The consumer never turns this behavior's Capture off on a Moved event. */
  ghost predicate KeepsCaptureOnMove(e: Env) {
    forall a: TouchActionEventArgs | a.actionType == Moved :: e.consumer(e.self, a, true)
  }

  /**
   * The consumer does not turn this behavior's Capture on for the events a
   * Move loop can fire (Moved, Entered, Exited); what it does on Pressed or
   * Released is not constrained.
   */
  ghost predicate MoveEventsLeaveCaptureOff(e: Env) {
    forall a: TouchActionEventArgs | a.actionType == Moved || IsBoundary(a.actionType) :: !e.consumer(e.self, a, false)
  }

  /**
   * The sample app's handler, which sets Capture on Pressed, clears it on
   * Released and leaves it alone otherwise, meets both Move hypotheses.
   */
  lemma SamplePatternMeetsMoveHypotheses(e: Env)
    requires forall a: TouchActionEventArgs, c: bool | a.actionType != Pressed && a.actionType != Released ::
               e.consumer(e.self, a, c) == c
    ensures KeepsCaptureOnMove(e) && MoveEventsLeaveCaptureOff(e)
  {
  }

  /**
   * Reference definition of what a boundary hop emits, all on this behavior:
   * nothing when the hit is the current owner; otherwise Exited when there
   * was an owner and then Entered when there is a hit.
   */
  function HopEvents(e: Env, current: Option<BehaviorId>, hit: Option<BehaviorId>, id: PointerId, p: Point)
    : seq<Delivery>
  {
    if hit == current then []
    else
      (if current.Some? then [Delivery(e.self, e.element, Args(e, id, Exited, p, true))] else [])
      + (if hit.Some? then [Delivery(e.self, e.element, Args(e, id, Entered, p, true))] else [])
  }

  /** One Moved delivery per pointer, in pointer-index order, each at its own location. */
  function MovedDeliveries(e: Env, ptrs: seq<PointerSample>): (r: seq<Delivery>)
    ensures |r| == |ptrs|
  {
    seq(|ptrs|, i requires 0 <= i < |ptrs| =>
      Delivery(e.self, e.element, TouchActionEventArgs(ptrs[i].id, Moved, Local(e, ptrs[i]), true)))
  }

  /**
   * FireEvent's translation undoes the screen offset added in OnTouch: a
   * pointer's event reports its view-relative position through fromPixels.
   */
  lemma {:induction false} ScreenPointToLocal(e: Env, ptr: PointerSample)
    ensures ToLocal(e, ScreenPoint(e, ptr)) == Local(e, ptr)
  {
  }

  /**
   * The Android hit test: the behavior of the last registered view whose
   * screen rectangle contains the point; views that cannot be located are
   * never hit; None when no view contains the point.
   */
  lemma HitAtIsLastContainingView(e: Env, p: Point)
    ensures HitAt(e, p).None? <==>
              forall k | 0 <= k < |e.registry| :: !ScreenHit(e.screen, p, e.registry[k].0)
    ensures forall k | 0 <= k < |e.registry| && ScreenHit(e.screen, p, e.registry[k].0) ::
              (forall j | k < j < |e.registry| :: !ScreenHit(e.screen, p, e.registry[j].0))
                ==> HitAt(e, p) == Some(e.registry[k].1)
    ensures HitAt(e, p).Some? ==>
              exists k | 0 <= k < |e.registry| ::
                && e.screen(e.registry[k].0).Some?
                && Contains(e.screen(e.registry[k].0).value, p)
                && e.registry[k].1 == HitAt(e, p).value
                && forall j | k < j < |e.registry| :: !ScreenHit(e.screen, p, e.registry[j].0)
  {
    HitTestIsLastHit(e.registry, Hits(e.screen, p));
  }

  /**
   * The boundary hop: it throws exactly when the id has no entry; when the
   * hit is the current owner nothing happens; otherwise it emits HopEvents
   * and the entry becomes the hit, which stays present even when null.
   */
  lemma BoundaryHopEffect(e: Env, s: State, id: PointerId, p: Point)
    ensures var o := BoundaryHop(e, s, id, p);
      && (o.fault.Some? <==> id !in s.table)
      && (o.fault.Some? ==> o.st == s)
      && (id in s.table && HitAt(e, p) == s.table[id] ==> o.st == s)
      && (id in s.table ==>
            && o.st.log == s.log + HopEvents(e, s.table[id], HitAt(e, p), id, p)
            && o.st.table == s.table[id := HitAt(e, p)])
  {
  }

  /**
   * Press: exactly one Pressed, in contact, at the pointer's own location;
   * the pointer then belongs to this behavior, unless it already had an
   * entry, in which case `Add` throws after the event and the table is kept.
   */
  lemma PressEffect(e: Env, s: State, ev: MotionEvent)
    requires WellFormed(ev) && (ev.action == Down || ev.action == PointerDown)
    ensures var ptr := ev.pointers[ev.actionIndex]; var o := Touch(e, s, ev);
      && o.st.log == s.log + [Delivery(e.self, e.element, TouchActionEventArgs(ptr.id, Pressed, Local(e, ptr), true))]
      && o.fault == (if ptr.id in s.table then Some(DuplicateKey) else None)
      && o.st.table == (if ptr.id in s.table then s.table else s.table[ptr.id := Some(e.self)])
  {
    ScreenPointToLocal(e, ev.pointers[ev.actionIndex]);
  }

  lemma {:induction false} CapturedMoveBatch(e: Env, s: State, ptrs: seq<PointerSample>, p0: Point)
    requires s.capture && KeepsCaptureOnMove(e)
    ensures MoveBatch(e, s, ptrs, p0) == Outcome(State(s.table, s.log + MovedDeliveries(e, ptrs), true), None)
    decreases |ptrs|
  {
    if ptrs != [] {
      ScreenPointToLocal(e, ptrs[0]);
      var s1 := Fire(e, s, ptrs[0].id, Moved, ScreenPoint(e, ptrs[0]), true);
      var first := MovedDeliveries(e, ptrs)[0];
      assert s1 == State(s.table, s.log + [first], true);
      assert MoveStep(e, s, ptrs[0], p0) == Outcome(s1, None);
      CapturedMoveBatch(e, s1, ptrs[1..], ScreenPoint(e, ptrs[0]));
      assert MovedDeliveries(e, ptrs) == [first] + MovedDeliveries(e, ptrs[1..]);
      assert s1.log + MovedDeliveries(e, ptrs[1..]) == s.log + MovedDeliveries(e, ptrs);
    } else {
      assert s.log + MovedDeliveries(e, ptrs) == s.log;
      assert s == State(s.table, s.log, true);
    }
  }

  /**
   * Captured move: one Moved per pointer of the batch, in pointer-index
   * order, each at its own location; no Entered or Exited; the ownership
   * table is neither read nor written (an id without an entry is no error).
   */
  lemma CapturedMove(e: Env, s: State, ev: MotionEvent)
    requires WellFormed(ev) && ev.action == Move && s.capture && KeepsCaptureOnMove(e)
    ensures Touch(e, s, ev) == Outcome(State(s.table, s.log + MovedDeliveries(e, ev.pointers), true), None)
  {
    CapturedMoveBatch(e, s, ev.pointers, ScreenPoint(e, ev.pointers[ev.actionIndex]));
  }

  /** The consumer turns this behavior's Capture off on every Moved event. */
  ghost predicate ReleasesCaptureOnMove(e: Env) {
    forall a: TouchActionEventArgs, c: bool | a.actionType == Moved :: !e.consumer(e.self, a, c)
  }

  /**
   * A captured pass overwrites `screenPointerCoords`: when the handler of
   * pointer a's Moved releases Capture, the next pointer b is hop-tested at
   * a's location, not at the action pointer's.
   */
  lemma CaptureReleasedMidBatch(e: Env, s: State, a: PointerSample, b: PointerSample, p0: Point)
    requires s.capture && ReleasesCaptureOnMove(e) && b.id in s.table
    ensures var o := MoveBatch(e, s, [a, b], p0);
      && o.fault.None?
      && o.st.table == s.table[b.id := HitAt(e, ScreenPoint(e, a))]
  {
    var s1 := Fire(e, s, a.id, Moved, ScreenPoint(e, a), true);
    assert !s1.capture;
    assert [a, b][1..] == [b];
    assert MoveBatch(e, s, [a, b], p0) == MoveBatch(e, s1, [b], ScreenPoint(e, a));
    BoundaryHopEffect(e, s1, b.id, ScreenPoint(e, a));
    var step := MoveStep(e, s1, b, ScreenPoint(e, a));
    assert step.fault.None? && step.st.table == s.table[b.id := HitAt(e, ScreenPoint(e, a))];
    assert [b][1..] == [];
    assert MoveBatch(e, s1, [b], ScreenPoint(e, a)) == MoveBatch(e, step.st, [], ScreenPoint(e, a));
  }

  /** The events of a hop at p are all on this behavior, in contact, at p; with no hit they are Exited. */
  lemma HopEventsShape(e: Env, current: Option<BehaviorId>, hit: Option<BehaviorId>, id: PointerId, p: Point)
    ensures forall d | d in HopEvents(e, current, hit, id, p) ::
              d.recipient == e.self && d.sender == e.element && d.args.location == ToLocal(e, p) && d.args.isInContact
    ensures hit.None? ==> forall d | d in HopEvents(e, current, hit, id, p) :: d.args.actionType == Exited
  {
  }

  /** One uncaptured pass of the Move loop. */
  lemma UncapturedMoveStep(e: Env, s: State, ptr: PointerSample, p0: Point)
    requires !s.capture && MoveEventsLeaveCaptureOff(e)
    ensures var o := MoveStep(e, s, ptr, p0); var h := HitAt(e, p0);
      var moved := Delivery(e.self, e.element, Args(e, ptr.id, Moved, p0, true));
      && !o.st.capture
      && (o.fault.Some? <==> ptr.id !in s.table)
      && (o.fault.Some? ==> o.st == s)
      && (ptr.id in s.table ==>
            && o.st.table == s.table[ptr.id := h]
            && o.st.log == s.log + (HopEvents(e, s.table[ptr.id], h, ptr.id, p0) + (if h.Some? then [moved] else [])))
  {
    BoundaryHopEffect(e, s, ptr.id, p0);
  }

  /** The table side of an uncaptured Move loop. */
  lemma {:induction false} UncapturedMoveTable(e: Env, s: State, ptrs: seq<PointerSample>, p0: Point)
    requires !s.capture && MoveEventsLeaveCaptureOff(e)
    ensures var o := MoveBatch(e, s, ptrs, p0);
      && !o.st.capture
      && (o.fault.None? <==> forall i | 0 <= i < |ptrs| :: ptrs[i].id in s.table)
      && o.st.table.Keys == s.table.Keys
      && (forall id | id in s.table && id !in PointerIds(ptrs) :: o.st.table[id] == s.table[id])
      && (o.fault.None? ==> forall i | 0 <= i < |ptrs| :: o.st.table[ptrs[i].id] == HitAt(e, p0))
    decreases |ptrs|
  {
    if ptrs != [] {
      var id := ptrs[0].id;
      UncapturedMoveStep(e, s, ptrs[0], p0);
      var step := MoveStep(e, s, ptrs[0], p0);
      if id in s.table {
        UncapturedMoveTable(e, step.st, ptrs[1..], p0);
        assert forall i | 1 <= i < |ptrs| :: ptrs[i] == ptrs[1..][i - 1];
        assert PointerIds(ptrs) == {id} + PointerIds(ptrs[1..]);
      }
    }
  }

  /** The event side of an uncaptured Move loop. */
  lemma {:induction false} UncapturedMoveLog(e: Env, s: State, ptrs: seq<PointerSample>, p0: Point)
    requires !s.capture && MoveEventsLeaveCaptureOff(e)
    ensures var o := MoveBatch(e, s, ptrs, p0); var h := HitAt(e, p0);
      && Extends(o.st.log, s.log)
      && (forall d | d in Added(o.st.log, s.log) ::
            d.recipient == e.self && d.sender == e.element
            && d.args.location == ToLocal(e, p0) && d.args.isInContact)
      && (h.None? ==> forall d | d in Added(o.st.log, s.log) :: d.args.actionType == Exited)
      && (h.Some? && o.fault.None? ==>
            forall i | 0 <= i < |ptrs| ::
              Delivery(e.self, e.element, Args(e, ptrs[i].id, Moved, p0, true)) in Added(o.st.log, s.log))
    decreases |ptrs|
  {
    var o := MoveBatch(e, s, ptrs, p0);
    var h := HitAt(e, p0);
    if ptrs == [] {
      assert Added(o.st.log, s.log) == [];
    } else {
      var id := ptrs[0].id;
      UncapturedMoveStep(e, s, ptrs[0], p0);
      var step := MoveStep(e, s, ptrs[0], p0);
      if id in s.table {
        var s1 := step.st;
        var moved := Delivery(e.self, e.element, Args(e, id, Moved, p0, true));
        var here := HopEvents(e, s.table[id], h, id, p0) + (if h.Some? then [moved] else []);
        assert s1.log == s.log + here;
        assert Extends(s1.log, s.log) && Added(s1.log, s.log) == here;
        HopEventsShape(e, s.table[id], h, id, p0);
        assert o == MoveBatch(e, s1, ptrs[1..], p0);
        UncapturedMoveLog(e, s1, ptrs[1..], p0);
        AddedConcat(s.log, s1.log, o.st.log);
        assert forall i | 1 <= i < |ptrs| :: ptrs[i] == ptrs[1..][i - 1];
        if h.Some? {
          assert moved in here;
        }
      } else {
        assert o == step;
        assert Added(o.st.log, s.log) == [];
      }
    }
  }

  /**
   * Uncaptured move: every pointer of the batch is hop-tested and reported
   * at the single location of the action pointer; it throws exactly when
   * some pointer has no entry; each pointer ends owned by the behavior hit
   * at that location, and other entries are untouched; Moved is emitted
   * for every pointer when that hit is non-null and never when it is null.
   */
  lemma UncapturedMove(e: Env, s: State, ev: MotionEvent)
    requires WellFormed(ev) && ev.action == Move && !s.capture && MoveEventsLeaveCaptureOff(e)
    ensures var o := Touch(e, s, ev); var p0 := ScreenPoint(e, ev.pointers[ev.actionIndex]); var h := HitAt(e, p0);
      && (o.fault.None? <==> forall i | 0 <= i < |ev.pointers| :: ev.pointers[i].id in s.table)
      && o.st.table.Keys == s.table.Keys
      && (forall id | id in s.table && id !in PointerIds(ev.pointers) :: o.st.table[id] == s.table[id])
      && (o.fault.None? ==> forall i | 0 <= i < |ev.pointers| :: o.st.table[ev.pointers[i].id] == h)
      && Extends(o.st.log, s.log)
      && (forall d | d in Added(o.st.log, s.log) :: d.args.location == Local(e, ev.pointers[ev.actionIndex]))
      && (h.None? ==> forall d | d in Added(o.st.log, s.log) :: d.args.actionType == Exited)
      && (h.Some? && o.fault.None? ==>
            forall i | 0 <= i < |ev.pointers| ::
              Delivery(e.self, e.element, Args(e, ev.pointers[i].id, Moved, p0, true)) in Added(o.st.log, s.log))
  {
    var p0 := ScreenPoint(e, ev.pointers[ev.actionIndex]);
    UncapturedMoveTable(e, s, ev.pointers, p0);
    UncapturedMoveLog(e, s, ev.pointers, p0);
    ScreenPointToLocal(e, ev.pointers[ev.actionIndex]);
  }

  /**
   * Up: the id never keeps an entry. Under Capture, Released (not in
   * contact) is emitted unconditionally; otherwise the hop runs first, it
   * throws exactly when the id has no entry, and Released follows the hop's
   * events exactly when the hit is non-null.
   */
  lemma UpEffect(e: Env, s: State, ev: MotionEvent)
    requires WellFormed(ev) && (ev.action == Up || ev.action == PointerUp)
    ensures var ptr := ev.pointers[ev.actionIndex]; var o := Touch(e, s, ev);
      var p0 := ScreenPoint(e, ptr); var h := HitAt(e, p0);
      var released := Delivery(e.self, e.element, TouchActionEventArgs(ptr.id, Released, Local(e, ptr), false));
      && ptr.id !in o.st.table
      && o.st.table == s.table - {ptr.id}
      && (s.capture ==> o.fault.None? && o.st.log == s.log + [released])
      && (!s.capture ==> (o.fault.Some? <==> ptr.id !in s.table))
      && (!s.capture && ptr.id in s.table ==>
            o.st.log == s.log + HopEvents(e, s.table[ptr.id], h, ptr.id, p0) + (if h.Some? then [released] else []))
  {
    var ptr := ev.pointers[ev.actionIndex];
    ScreenPointToLocal(e, ptr);
    BoundaryHopEffect(e, s, ptr.id, ScreenPoint(e, ptr));
  }

  /**
   * Cancel: the hit test never runs, so no Entered or Exited; Cancelled is
   * emitted exactly when Capture holds or the current entry is non-null;
   * without Capture an id with no entry throws; the id never keeps an entry.
   */
  lemma CancelEffect(e: Env, s: State, ev: MotionEvent)
    requires WellFormed(ev) && ev.action == Cancel
    ensures var ptr := ev.pointers[ev.actionIndex]; var o := Touch(e, s, ev);
      var cancelled := Delivery(e.self, e.element, TouchActionEventArgs(ptr.id, Cancelled, Local(e, ptr), false));
      && o.st.table == s.table - {ptr.id}
      && (o.fault.Some? <==> !s.capture && ptr.id !in s.table)
      && o.st.log == s.log +
           (if s.capture || (ptr.id in s.table && s.table[ptr.id].Some?) then [cancelled] else [])
  {
    ScreenPointToLocal(e, ev.pointers[ev.actionIndex]);
  }

  lemma {:induction false} MoveBatchTargetsSelf(e: Env, s: State, ptrs: seq<PointerSample>, p0: Point)
    ensures var o := MoveBatch(e, s, ptrs, p0);
      && Extends(o.st.log, s.log)
      && (forall d | d in Added(o.st.log, s.log) :: d.recipient == e.self && d.sender == e.element)
      && o.st.table.Keys == s.table.Keys
      && (forall id | id in s.table && id !in PointerIds(ptrs) :: o.st.table[id] == s.table[id])
    decreases |ptrs|
  {
    var o := MoveBatch(e, s, ptrs, p0);
    if ptrs != [] {
      var step := MoveStep(e, s, ptrs[0], p0);
      BoundaryHopEffect(e, s, ptrs[0].id, p0);
      assert Extends(step.st.log, s.log);
      assert forall d | d in Added(step.st.log, s.log) :: d.recipient == e.self && d.sender == e.element;
      assert forall i | 1 <= i < |ptrs| :: ptrs[i] == ptrs[1..][i - 1];
      assert PointerIds(ptrs) == {ptrs[0].id} + PointerIds(ptrs[1..]);
      if step.fault.None? {
        MoveBatchTargetsSelf(e, step.st, ptrs[1..], if s.capture then ScreenPoint(e, ptrs[0]) else p0);
        AddedConcat(s.log, step.st.log, o.st.log);
      }
    } else {
      assert Added(o.st.log, s.log) == [];
    }
  }

  /**
   * Android targets the originating behavior: whatever the action, every
   * event a callback emits, Entered and Exited included, is fired on the
   * behavior whose view raised it, with its own element as sender; and the
   * callback touches no table entry but those of its own pointers.
   */
  lemma TouchTargetsSelf(e: Env, s: State, ev: MotionEvent)
    requires WellFormed(ev)
    ensures var o := Touch(e, s, ev);
      && Extends(o.st.log, s.log)
      && (forall d | d in Added(o.st.log, s.log) :: d.recipient == e.self && d.sender == e.element)
      && (forall id | id in s.table && id !in PointerIds(ev.pointers) :: id in o.st.table && o.st.table[id] == s.table[id])
      && (forall id | id in o.st.table && id !in PointerIds(ev.pointers) :: id in s.table)
  {
    var o := Touch(e, s, ev);
    var ptr := ev.pointers[ev.actionIndex];
    assert ptr.id in PointerIds(ev.pointers);
    match ev.action {
      case Move =>
        MoveBatchTargetsSelf(e, s, ev.pointers, ScreenPoint(e, ptr));
      case Up =>
        UpEffect(e, s, ev);
      case PointerUp =>
        UpEffect(e, s, ev);
      case _ =>
        assert Extends(o.st.log, s.log);
    }
  }
}
