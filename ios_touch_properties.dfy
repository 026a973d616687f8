/**
 * What the iOS touch recognizer promises, proved about the functions of
 * module IosTouch (and so, through the methods' postconditions, about the
 * callbacks).
 */
module IosTouchProperties {
  import opened Wrappers
  import opened Geometry
  import opened TouchActions
  import opened ViewRegistry
  import opened IosTouch

  /** The set of touch ids a callback carries. */
  function TouchIds(ts: seq<TouchId>): set<TouchId> {
    set i | 0 <= i < |ts| :: ts[i]
  }

  /** An NSSet holds every touch once. */
  predicate Distinct(ts: seq<TouchId>) {
    forall i, j | 0 <= i < j < |ts| :: ts[i] != ts[j]
  }

  /**
   * FireEvent's addressing: the event goes to a known recognizer, with that
   * recognizer's element as sender, located in that recognizer's own view.
   */
  predicate FiredOn(e: Env, d: Delivery) {
    && d.recipient in e.recognizers
    && d.sender == e.recognizers[d.recipient].element
    && d.args.location == e.scene.locationInView(d.args.id, e.recognizers[d.recipient].uiView)
  }

  /** One delivery of `kind` to this recognizer per touch, in order. */
  function SelfDeliveries(e: Env, ts: seq<TouchId>, kind: TouchActionType, contact: bool): (r: seq<Delivery>)
    requires e.self in e.recognizers
    ensures |r| == |ts|
  {
    seq(|ts|, i requires 0 <= i < |ts| => DeliveryTo(e, e.self, ts[i], kind, contact))
  }

  /**
   * Reference definition of what a boundary hop emits: nothing when the hit
   * is the current owner; otherwise Exited to the current owner when there
   * is one, then Entered to the hit when there is one.
   */
  function HopEvents(e: Env, current: Option<RecognizerId>, hit: Option<RecognizerId>, id: TouchId): seq<Delivery>
    requires current.Some? ==> current.value in e.recognizers
    requires hit.Some? ==> hit.value in e.recognizers
  {
    if hit == current then []
    else
      (if current.Some? then [DeliveryTo(e, current.value, id, Exited, true)] else [])
      + (if hit.Some? then [DeliveryTo(e, hit.value, id, Entered, true)] else [])
  }

  /** The consumer's handler sets the Capture of behavior `b` to `want` on every Pressed event. */
  ghost predicate PressedSetsCapture(consumer: Consumer, b: BehaviorId, want: bool) {
    forall a: TouchActionEventArgs, on: bool | a.actionType == Pressed :: consumer(b, a, on) == want
  }

  /** The table, the log and the fault agree: what the callback routed, apart from Capture. */
  predicate SameRouting(a: Outcome<State>, b: Outcome<State>) {
    a.st.table == b.st.table && a.st.log == b.st.log && a.fault == b.fault
  }

  lemma SelfDeliveriesCons(e: Env, ts: seq<TouchId>, kind: TouchActionType, contact: bool)
    requires e.self in e.recognizers && ts != []
    ensures SelfDeliveries(e, ts, kind, contact) ==
              [DeliveryTo(e, e.self, ts[0], kind, contact)] + SelfDeliveries(e, ts[1..], kind, contact)
  {
    assert SelfDeliveries(e, ts, kind, contact)[1..] == SelfDeliveries(e, ts[1..], kind, contact);
  }

  lemma TouchIdsCons(ts: seq<TouchId>)
    requires ts != []
    ensures TouchIds(ts) == {ts[0]} + TouchIds(ts[1..])
    ensures forall i | 1 <= i < |ts| :: ts[i] == ts[1..][i - 1]
  {
    assert forall i | 1 <= i < |ts| :: ts[i] == ts[1..][i - 1];
    assert forall t | t in TouchIds(ts[1..]) :: t in TouchIds(ts) by {
      forall t | t in TouchIds(ts[1..]) ensures t in TouchIds(ts) {
        var j :| 0 <= j < |ts[1..]| && ts[1..][j] == t;
        assert ts[j + 1] == t;
      }
    }
  }

  /**
   * The iOS hit test: the recognizer of the last registered view whose own
   * bounds contain the touch's location in that view; None when no view
   * does; a hit is always a known recognizer.
   */
  lemma HitOfIsLastContainingView(e: Env, t: TouchId)
    requires OwnersIn(e.registry, e.recognizers.Keys)
    ensures HitOf(e, t).None? <==>
              forall k | 0 <= k < |e.registry| :: !InBounds(e.scene, t, e.registry[k].0)
    ensures forall k | 0 <= k < |e.registry| && InBounds(e.scene, t, e.registry[k].0) ::
              (forall j | k < j < |e.registry| :: !InBounds(e.scene, t, e.registry[j].0))
                ==> HitOf(e, t) == Some(e.registry[k].1)
    ensures HitOf(e, t).Some? ==> HitOf(e, t).value in e.recognizers
  {
    HitTestIsLastHit(e.registry, Hits(e.scene, t));
  }

  lemma DeliveryToFiredOn(e: Env, r: RecognizerId, id: TouchId, kind: TouchActionType, contact: bool)
    requires r in e.recognizers
    ensures FiredOn(e, DeliveryTo(e, r, id, kind, contact))
  {
  }

  /**
   * FireEvent on recognizer r appends exactly one event, addressed to r and
   * carrying the given id, type and contact flag; it leaves the table alone
   * and can change the Capture of r's behavior only.
   */
  lemma FireEffect(e: Env, s: State, r: RecognizerId, id: TouchId, kind: TouchActionType, contact: bool)
    requires r in e.recognizers
    ensures var s1 := Fire(e, s, r, id, kind, contact); var b := e.recognizers[r].behavior;
      && s1.table == s.table
      && |s1.log| == |s.log| + 1 && s1.log[..|s.log|] == s.log
      && s1.captured - {b} == s.captured - {b}
      && (var d := s1.log[|s.log|];
          && FiredOn(e, d) && d.recipient == r
          && d.args.id == id && d.args.actionType == kind && d.args.isInContact == contact)
  {
  }

  /**
   * The boundary hop: it throws exactly when the touch has no entry; when
   * the hit is the current owner nothing happens; otherwise Exited goes to
   * the current owner, Entered to the hit, and the entry becomes the hit,
   * which stays present even when null.
   */
  lemma BoundaryHopEffect(e: Env, s: State, id: TouchId)
    requires Known(e, s)
    ensures var o := BoundaryHop(e, s, id); var h := HitOf(e, id);
      && (o.fault.Some? <==> id !in s.table)
      && (o.fault.Some? ==> o.st == s)
      && (id in s.table && h == s.table[id] ==> o.st == s)
      && (id in s.table ==>
            && o.st.table == s.table[id := h]
            && o.st.log == s.log + HopEvents(e, s.table[id], h, id))
  {
  }

  /** The events of a hop are addressed, in contact, and are Exited to the old owner or Entered to the hit. */
  lemma HopEventsShape(e: Env, current: Option<RecognizerId>, hit: Option<RecognizerId>, id: TouchId)
    requires current.Some? ==> current.value in e.recognizers
    requires hit.Some? ==> hit.value in e.recognizers
    ensures forall d | d in HopEvents(e, current, hit, id) ::
              && FiredOn(e, d) && d.args.id == id && d.args.isInContact
              && ((d.args.actionType == Exited && current == Some(d.recipient))
                  || (d.args.actionType == Entered && hit == Some(d.recipient)))
  {
  }

  /**
   * TouchesBegan: one Pressed per touch, in order, all to this recognizer;
   * the touches that had no entry now belong to this recognizer, and the
   * entries that existed are kept as they were.
   */
  lemma {:induction false} BeganEffect(e: Env, s: State, ts: seq<TouchId>)
    requires Known(e, s)
    ensures var r := BeganBatch(e, s, ts);
      && r.log == s.log + SelfDeliveries(e, ts, Pressed, true)
      && r.table.Keys == s.table.Keys + TouchIds(ts)
      && (forall t | t in s.table :: r.table[t] == s.table[t])
      && (forall t | t in r.table && t !in s.table :: r.table[t] == Some(e.self))
    decreases |ts|
  {
    if ts != [] {
      var t := ts[0];
      var s1 := Fire(e, s, e.self, t, Pressed, true);
      var s2 := if t !in s1.table then s1.(table := s1.table[t := Some(e.self)]) else s1;
      BeganEffect(e, s2, ts[1..]);
      SelfDeliveriesCons(e, ts, Pressed, true);
      TouchIdsCons(ts);
    } else {
      assert SelfDeliveries(e, ts, Pressed, true) == [];
      assert TouchIds(ts) == {};
    }
  }

  /**
   * The Capture a Pressed handler sets reaches the snapshot: after the
   * began loop, this recognizer's behavior's Capture is what the handler
   * set on the last Pressed, and TouchesBegan copies it into
   * `_currentCapture`.
   */
  lemma {:induction false} BeganCaptureFollowsPressedHandler(e: Env, s: State, ts: seq<TouchId>, want: bool)
    requires Known(e, s) && ts != []
    requires PressedSetsCapture(e.consumer, e.recognizers[e.self].behavior, want)
    ensures (e.recognizers[e.self].behavior in BeganBatch(e, s, ts).captured) == want
    decreases |ts|
  {
    var b := e.recognizers[e.self].behavior;
    var t := ts[0];
    var s1 := Fire(e, s, e.self, t, Pressed, true);
    assert e.consumer(b, Args(e, e.self, t, Pressed, true), b in s.captured) == want;
    assert (b in s1.captured) == want;
    var s2 := if t !in s1.table then s1.(table := s1.table[t := Some(e.self)]) else s1;
    if |ts| == 1 {
      assert BeganBatch(e, s, ts) == BeganBatch(e, s2, []);
    } else {
      BeganCaptureFollowsPressedHandler(e, s2, ts[1..], want);
    }
  }

  /**
   * Under Capture, TouchesMoved gives one Moved per touch to this
   * recognizer, in order, never throws, and neither reads nor writes the
   * ownership table.
   */
  lemma {:induction false} CapturedMoved(e: Env, s: State, ts: seq<TouchId>)
    requires Known(e, s)
    ensures var o := MovedBatch(e, true, s, ts);
      && o.fault.None?
      && o.st.table == s.table
      && o.st.log == s.log + SelfDeliveries(e, ts, Moved, true)
    decreases |ts|
  {
    if ts != [] {
      CapturedMoved(e, Fire(e, s, e.self, ts[0], Moved, true), ts[1..]);
      SelfDeliveriesCons(e, ts, Moved, true);
    } else {
      assert SelfDeliveries(e, ts, Moved, true) == [];
    }
  }

  /**
   * Under Capture, TouchesEnded gives one Released (not in contact) per
   * touch to this recognizer, in order, never throws, and removes every
   * touch's entry.
   */
  lemma {:induction false} CapturedEnded(e: Env, s: State, ts: seq<TouchId>)
    requires Known(e, s)
    ensures var o := EndedBatch(e, true, s, ts);
      && o.fault.None?
      && o.st.table == s.table - TouchIds(ts)
      && o.st.log == s.log + SelfDeliveries(e, ts, Released, false)
    decreases |ts|
  {
    if ts != [] {
      var s1 := Fire(e, s, e.self, ts[0], Released, false);
      CapturedEnded(e, s1.(table := s1.table - {ts[0]}), ts[1..]);
      SelfDeliveriesCons(e, ts, Released, false);
      TouchIdsCons(ts);
    } else {
      assert SelfDeliveries(e, ts, Released, false) == [];
      assert TouchIds(ts) == {};
    }
  }

  /**
   * Under Capture, TouchesCancelled gives one Cancelled (not in contact) per
   * touch to this recognizer, in order, never throws, and removes every
   * touch's entry.
   */
  lemma {:induction false} CapturedCancelled(e: Env, s: State, ts: seq<TouchId>)
    requires Known(e, s)
    ensures var o := CancelledBatch(e, true, s, ts);
      && o.fault.None?
      && o.st.table == s.table - TouchIds(ts)
      && o.st.log == s.log + SelfDeliveries(e, ts, Cancelled, false)
    decreases |ts|
  {
    if ts != [] {
      var s1 := Fire(e, s, e.self, ts[0], Cancelled, false);
      CapturedCancelled(e, s1.(table := s1.table - {ts[0]}), ts[1..]);
      SelfDeliveriesCons(e, ts, Cancelled, false);
      TouchIdsCons(ts);
    } else {
      assert SelfDeliveries(e, ts, Cancelled, false) == [];
      assert TouchIds(ts) == {};
    }
  }

  /**
   * The snapshot decides: a handler changing Capture during TouchesMoved
   * does not change where that callback's events go, since only
   * `_currentCapture` is read.
   */
  lemma {:induction false} MovedIgnoresLiveCapture(e: Env, snap: bool, s1: State, s2: State, ts: seq<TouchId>)
    requires Known(e, s1) && s1.table == s2.table && s1.log == s2.log
    ensures SameRouting(MovedBatch(e, snap, s1, ts), MovedBatch(e, snap, s2, ts))
    decreases |ts|
  {
    if ts != [] {
      var o1 := MovedStep(e, snap, s1, ts[0]);
      var o2 := MovedStep(e, snap, s2, ts[0]);
      assert SameRouting(o1, o2);
      if o1.fault.None? {
        MovedIgnoresLiveCapture(e, snap, o1.st, o2.st, ts[1..]);
      }
    }
  }

  /** As for TouchesMoved, TouchesEnded routes by the snapshot alone. */
  lemma {:induction false} EndedIgnoresLiveCapture(e: Env, snap: bool, s1: State, s2: State, ts: seq<TouchId>)
    requires Known(e, s1) && s1.table == s2.table && s1.log == s2.log
    ensures SameRouting(EndedBatch(e, snap, s1, ts), EndedBatch(e, snap, s2, ts))
    decreases |ts|
  {
    if ts != [] {
      var o1 := EndedStep(e, snap, s1, ts[0]);
      var o2 := EndedStep(e, snap, s2, ts[0]);
      assert SameRouting(o1, o2);
      if o1.fault.None? {
        EndedIgnoresLiveCapture(e, snap, o1.st, o2.st, ts[1..]);
      }
    }
  }

  /** As for TouchesMoved, TouchesCancelled routes by the snapshot alone. */
  lemma {:induction false} CancelledIgnoresLiveCapture(e: Env, snap: bool, s1: State, s2: State, ts: seq<TouchId>)
    requires Known(e, s1) && s1.table == s2.table && s1.log == s2.log
    ensures SameRouting(CancelledBatch(e, snap, s1, ts), CancelledBatch(e, snap, s2, ts))
    decreases |ts|
  {
    if ts != [] {
      var o1 := CancelledStep(e, snap, s1, ts[0]);
      var o2 := CancelledStep(e, snap, s2, ts[0]);
      assert SameRouting(o1, o2);
      if o1.fault.None? {
        CancelledIgnoresLiveCapture(e, snap, o1.st, o2.st, ts[1..]);
      }
    }
  }

  /**
   * One uncaptured pass of the moved loop: it throws exactly when the touch
   * has no entry; otherwise the entry becomes the hit, the hop's events are
   * emitted, then Moved to the hit when there is one.
   */
  lemma UncapturedMovedStep(e: Env, s: State, t: TouchId)
    requires Known(e, s)
    ensures var o := MovedStep(e, false, s, t); var h := HitOf(e, t);
      && (o.fault.Some? <==> t !in s.table)
      && (o.fault.Some? ==> o.st == s)
      && (t in s.table ==>
            && o.st.table == s.table[t := h]
            && o.st.log == s.log + HopEvents(e, s.table[t], h, t)
                 + (if h.Some? then [DeliveryTo(e, h.value, t, Moved, true)] else []))
  {
    BoundaryHopEffect(e, s, t);
  }

  /**
   * One uncaptured pass of the ended loop: it throws exactly when the touch
   * has no entry, and then leaves the entry alone; otherwise the hop's
   * events are emitted, then Released to the hit when there is one, and the
   * entry is removed.
   */
  lemma UncapturedEndedStep(e: Env, s: State, t: TouchId)
    requires Known(e, s)
    ensures var o := EndedStep(e, false, s, t); var h := HitOf(e, t);
      && (o.fault.Some? <==> t !in s.table)
      && (o.fault.Some? ==> o.st == s)
      && (t in s.table ==>
            && o.st.table == s.table - {t}
            && o.st.log == s.log + HopEvents(e, s.table[t], h, t)
                 + (if h.Some? then [DeliveryTo(e, h.value, t, Released, false)] else []))
  {
    BoundaryHopEffect(e, s, t);
    if t in s.table {
      assert s.table[t := HitOf(e, t)] - {t} == s.table - {t};
    }
  }

  /**
   * One uncaptured pass of the cancelled loop: no hit test, so no Entered or
   * Exited; it throws exactly when the touch has no entry; otherwise
   * Cancelled goes to the current owner when there is one and the entry is
   * removed.
   */
  lemma UncapturedCancelledStep(e: Env, s: State, t: TouchId)
    requires Known(e, s)
    ensures var o := CancelledStep(e, false, s, t);
      && (o.fault.Some? <==> t !in s.table)
      && (o.fault.Some? ==> o.st == s)
      && (t in s.table ==>
            && o.st.table == s.table - {t}
            && o.st.log == s.log
                 + (if s.table[t].Some? then [DeliveryTo(e, s.table[t].value, t, Cancelled, false)] else []))
  {
  }

  lemma DistinctTail(ts: seq<TouchId>)
    requires Distinct(ts) && ts != []
    ensures Distinct(ts[1..])
    ensures ts[0] !in TouchIds(ts[1..])
  {
  }

  /**
   * The table side of an uncaptured TouchesMoved: it throws exactly when
   * some touch has no entry; no entry is added or removed; each touch ends
   * owned by the recognizer hit at its own location, and the entries of
   * other touches are untouched.
   */
  lemma {:induction false} UncapturedMovedTable(e: Env, s: State, ts: seq<TouchId>)
    requires Known(e, s)
    ensures var o := MovedBatch(e, false, s, ts);
      && (o.fault.None? <==> forall i | 0 <= i < |ts| :: ts[i] in s.table)
      && o.st.table.Keys == s.table.Keys
      && (forall t | t in s.table && t !in TouchIds(ts) :: o.st.table[t] == s.table[t])
      && (o.fault.None? ==> forall i | 0 <= i < |ts| :: o.st.table[ts[i]] == HitOf(e, ts[i]))
    decreases |ts|
  {
    if ts != [] {
      var t := ts[0];
      UncapturedMovedStep(e, s, t);
      TouchIdsCons(ts);
      if t in s.table {
        var s1 := MovedStep(e, false, s, t).st;
        UncapturedMovedTable(e, s1, ts[1..]);
        var o := MovedBatch(e, false, s, ts);
        if o.fault.None? && t in TouchIds(ts[1..]) {
          var j :| 0 <= j < |ts[1..]| && ts[1..][j] == t;
          assert o.st.table[ts[1..][j]] == HitOf(e, ts[1..][j]);
        }
      }
    }
  }

  /**
   * The event side of an uncaptured TouchesMoved: only Moved, Entered and
   * Exited, all addressed and in contact; Moved and Entered go to the
   * recognizer hit by that touch; and, when nothing throws, every touch
   * with a hit sends Moved to it.
   */
  lemma {:induction false} UncapturedMovedLog(e: Env, s: State, ts: seq<TouchId>)
    requires Known(e, s)
    ensures var o := MovedBatch(e, false, s, ts);
      && Extends(o.st.log, s.log)
      && (forall d | d in Added(o.st.log, s.log) ::
            && FiredOn(e, d) && d.args.isInContact
            && (d.args.actionType == Moved || IsBoundary(d.args.actionType))
            && (d.args.actionType != Exited ==> HitOf(e, d.args.id) == Some(d.recipient)))
      && (o.fault.None? ==>
            forall i | 0 <= i < |ts| && HitOf(e, ts[i]).Some? ::
              DeliveryTo(e, HitOf(e, ts[i]).value, ts[i], Moved, true) in Added(o.st.log, s.log))
    decreases |ts|
  {
    var o := MovedBatch(e, false, s, ts);
    if ts == [] {
      assert Added(o.st.log, s.log) == [];
    } else {
      var t := ts[0];
      UncapturedMovedStep(e, s, t);
      var step := MovedStep(e, false, s, t);
      if t in s.table {
        var h := HitOf(e, t);
        HitOfIsLastContainingView(e, t);
        var s1 := step.st;
        var here := HopEvents(e, s.table[t], h, t)
          + (if h.Some? then [DeliveryTo(e, h.value, t, Moved, true)] else []);
        assert s1.log == s.log + here;
        assert Extends(s1.log, s.log) && Added(s1.log, s.log) == here;
        HopEventsShape(e, s.table[t], h, t);
        if h.Some? {
          DeliveryToFiredOn(e, h.value, t, Moved, true);
          assert DeliveryTo(e, h.value, t, Moved, true) in here;
        }
        assert o == MovedBatch(e, false, s1, ts[1..]);
        UncapturedMovedLog(e, s1, ts[1..]);
        AddedConcat(s.log, s1.log, o.st.log);
        TouchIdsCons(ts);
      } else {
        assert o == step;
        assert Added(o.st.log, s.log) == [];
      }
    }
  }

  /**
   * The event side of an uncaptured TouchesEnded: only Released (not in
   * contact) and Entered or Exited (in contact), all addressed; Released and
   * Entered go to the recognizer hit by that touch; and, when nothing
   * throws, every touch with a hit sends Released to it.
   */
  lemma {:induction false} UncapturedEndedLog(e: Env, s: State, ts: seq<TouchId>)
    requires Known(e, s)
    ensures var o := EndedBatch(e, false, s, ts);
      && Extends(o.st.log, s.log)
      && (forall d | d in Added(o.st.log, s.log) ::
            && FiredOn(e, d)
            && (d.args.actionType == Released || IsBoundary(d.args.actionType))
            && (d.args.isInContact <==> IsBoundary(d.args.actionType))
            && (d.args.actionType != Exited ==> HitOf(e, d.args.id) == Some(d.recipient)))
      && (o.fault.None? ==>
            forall i | 0 <= i < |ts| && HitOf(e, ts[i]).Some? ::
              DeliveryTo(e, HitOf(e, ts[i]).value, ts[i], Released, false) in Added(o.st.log, s.log))
    decreases |ts|
  {
    var o := EndedBatch(e, false, s, ts);
    if ts == [] {
      assert Added(o.st.log, s.log) == [];
    } else {
      var t := ts[0];
      UncapturedEndedStep(e, s, t);
      var step := EndedStep(e, false, s, t);
      if t in s.table {
        var h := HitOf(e, t);
        HitOfIsLastContainingView(e, t);
        var s1 := step.st;
        var here := HopEvents(e, s.table[t], h, t)
          + (if h.Some? then [DeliveryTo(e, h.value, t, Released, false)] else []);
        assert s1.log == s.log + here;
        assert Extends(s1.log, s.log) && Added(s1.log, s.log) == here;
        HopEventsShape(e, s.table[t], h, t);
        if h.Some? {
          DeliveryToFiredOn(e, h.value, t, Released, false);
          assert DeliveryTo(e, h.value, t, Released, false) in here;
        }
        assert o == EndedBatch(e, false, s1, ts[1..]);
        UncapturedEndedLog(e, s1, ts[1..]);
        AddedConcat(s.log, s1.log, o.st.log);
        TouchIdsCons(ts);
      } else {
        assert o == step;
        assert Added(o.st.log, s.log) == [];
      }
    }
  }

  /**
   * The table side of TouchesEnded, under either snapshot: entries are only
   * removed, never changed or added; when nothing throws no touch of the
   * callback keeps an entry, and other touches keep theirs; for distinct
   * touches it throws exactly when uncaptured and some touch has no entry.
   */
  lemma {:induction false} EndedTable(e: Env, snap: bool, s: State, ts: seq<TouchId>)
    requires Known(e, s)
    ensures var o := EndedBatch(e, snap, s, ts);
      && (forall t | t in o.st.table :: t in s.table && o.st.table[t] == s.table[t])
      && (forall t | t in s.table && t !in TouchIds(ts) :: t in o.st.table)
      && (o.fault.None? ==> forall i | 0 <= i < |ts| :: ts[i] !in o.st.table)
      && (Distinct(ts) ==> (o.fault.Some? <==> !snap && exists i | 0 <= i < |ts| :: ts[i] !in s.table))
    decreases |ts|
  {
    if ts != [] {
      var t := ts[0];
      var step := EndedStep(e, snap, s, t);
      if !snap {
        UncapturedEndedStep(e, s, t);
      }
      TouchIdsCons(ts);
      if step.fault.None? {
        assert step.st.table == s.table - {t};
        EndedTable(e, snap, step.st, ts[1..]);
        if Distinct(ts) {
          DistinctTail(ts);
        }
      }
    }
  }

  /**
   * TouchesCancelled, under either snapshot, never hit-tests: it emits only
   * Cancelled, not in contact and addressed; under Capture to this
   * recognizer, otherwise to each touch's owner in the table as it was;
   * for distinct touches with nothing thrown, every touch with a non-null
   * owner sends Cancelled to it.
   */
  lemma {:induction false} CancelledLog(e: Env, snap: bool, s: State, ts: seq<TouchId>)
    requires Known(e, s)
    ensures var o := CancelledBatch(e, snap, s, ts);
      && Extends(o.st.log, s.log)
      && (forall d | d in Added(o.st.log, s.log) ::
            && FiredOn(e, d) && d.args.actionType == Cancelled && !d.args.isInContact
            && (snap ==> d.recipient == e.self)
            && (!snap ==> d.args.id in s.table && s.table[d.args.id] == Some(d.recipient)))
      && (!snap && o.fault.None? && Distinct(ts) ==>
            forall i | 0 <= i < |ts| && ts[i] in s.table && s.table[ts[i]].Some? ::
              DeliveryTo(e, s.table[ts[i]].value, ts[i], Cancelled, false) in Added(o.st.log, s.log))
    decreases |ts|
  {
    var o := CancelledBatch(e, snap, s, ts);
    if ts == [] {
      assert Added(o.st.log, s.log) == [];
    } else {
      var t := ts[0];
      var step := CancelledStep(e, snap, s, t);
      if step.fault.None? {
        var s1 := step.st;
        var here := if snap || s.table[t].Some? then
            [DeliveryTo(e, if snap then e.self else s.table[t].value, t, Cancelled, false)]
          else [];
        assert s1.log == s.log + here;
        assert Extends(s1.log, s.log) && Added(s1.log, s.log) == here;
        if snap || s.table[t].Some? {
          DeliveryToFiredOn(e, if snap then e.self else s.table[t].value, t, Cancelled, false);
        }
        assert s1.table == s.table - {t};
        assert o == CancelledBatch(e, snap, s1, ts[1..]);
        CancelledLog(e, snap, s1, ts[1..]);
        AddedConcat(s.log, s1.log, o.st.log);
        TouchIdsCons(ts);
        if !snap && o.fault.None? && Distinct(ts) {
          DistinctTail(ts);
          forall i | 1 <= i < |ts| && ts[i] in s.table && s.table[ts[i]].Some?
            ensures DeliveryTo(e, s.table[ts[i]].value, ts[i], Cancelled, false) in Added(o.st.log, s.log)
          {
            assert ts[1..][i - 1] == ts[i] && ts[i] != t;
            assert s1.table[ts[i]] == s.table[ts[i]];
          }
        }
      } else {
        assert o == step;
        assert Added(o.st.log, s.log) == [];
      }
    }
  }

  /** The table side of TouchesCancelled is that of TouchesEnded. */
  lemma {:induction false} CancelledTable(e: Env, snap: bool, s: State, ts: seq<TouchId>)
    requires Known(e, s)
    ensures var o := CancelledBatch(e, snap, s, ts);
      && (forall t | t in o.st.table :: t in s.table && o.st.table[t] == s.table[t])
      && (forall t | t in s.table && t !in TouchIds(ts) :: t in o.st.table)
      && (o.fault.None? ==> forall i | 0 <= i < |ts| :: ts[i] !in o.st.table)
      && (Distinct(ts) ==> (o.fault.Some? <==> !snap && exists i | 0 <= i < |ts| :: ts[i] !in s.table))
    decreases |ts|
  {
    if ts != [] {
      var t := ts[0];
      var step := CancelledStep(e, snap, s, t);
      TouchIdsCons(ts);
      if step.fault.None? {
        assert step.st.table == s.table - {t};
        CancelledTable(e, snap, step.st, ts[1..]);
        if Distinct(ts) {
          DistinctTail(ts);
        }
      }
    }
  }
}
