/**
 * The process-wide view registry (`_viewToBehaviorCache` on Android,
 * `_viewToRecognizerCache` on iOS): a dictionary from native view to the
 * object that handles it, kept here as a sequence in enumeration order, since
 * the hit test's result depends on that order.
 */
module ViewRegistry {
  import opened Wrappers

  type Registry<V, O> = seq<(V, O)>

  /** `ContainsKey(v)`. */
  predicate Registered<V(==), O>(reg: Registry<V, O>, v: V) {
    exists k | 0 <= k < |reg| :: reg[k].0 == v
  }

  /** Dictionary keys are unique. */
  predicate DistinctViews<V(==), O>(reg: Registry<V, O>) {
    forall i, j | 0 <= i < j < |reg| :: reg[i].0 != reg[j].0
  }

  /** Every handler in the registry belongs to `known`. */
  predicate OwnersIn<V, O>(reg: Registry<V, O>, known: set<O>) {
    forall k | 0 <= k < |reg| :: reg[k].1 in known
  }

  /**
   * `Remove(v)`: drops the entry whose key is `v` and keeps the others; a
   * key that is absent leaves the registry as it was. That the hit test
   * over the others is unchanged is `HitTestAfterRemove`.
   */
  function Remove<V(==), O>(reg: Registry<V, O>, v: V): (r: Registry<V, O>)
    ensures forall k | 0 <= k < |r| :: r[k] in reg && r[k].0 != v
    ensures forall k | 0 <= k < |reg| && reg[k].0 != v :: reg[k] in r
    ensures !Registered(r, v)
    ensures !Registered(reg, v) ==> r == reg
    ensures |r| <= |reg|
  {
    if reg == [] then []
    else if reg[0].0 == v then Remove(reg[1..], v)
    else [reg[0]] + Remove(reg[1..], v)
  }

  /**
   * The hit test's reference definition: the handler of the LAST view, in
   * enumeration order, that `hits`; None when no view does.
   */
  function HitTest<V, O>(reg: Registry<V, O>, hits: V -> bool): (r: Option<O>)
    ensures r.Some? ==> exists k | 0 <= k < |reg| :: hits(reg[k].0) && reg[k].1 == r.value
  {
    if reg == [] then None
    else if hits(reg[|reg| - 1].0) then Some(reg[|reg| - 1].1)
    else HitTest(reg[..|reg| - 1], hits)
  }

  /**
   * The scan of `CheckForBoundaryHop`: walks the registry from the first
   * entry to the last and overwrites the hit whenever a view contains the
   * point.
   */
  method ScanForHit<V, O>(reg: Registry<V, O>, hits: V -> bool) returns (hit: Option<O>)
    ensures hit == HitTest(reg, hits)
  {
    hit := None;
    var i := 0;
    while i < |reg|
      invariant 0 <= i <= |reg|
      invariant hit == HitTest(reg[..i], hits)
    {
      assert reg[..i + 1][..i] == reg[..i];
      if hits(reg[i].0) {
        hit := Some(reg[i].1);
      }
      i := i + 1;
    }
    assert reg[..i] == reg;
  }

  /**
   * Last wins: the hit test answers the handler at position k exactly when
   * the view at k hits and no later one does, and it answers None exactly
   * when no view hits.
   */
  lemma {:induction false} HitTestIsLastHit<V, O>(reg: Registry<V, O>, hits: V -> bool)
    ensures HitTest(reg, hits).None? <==> forall k | 0 <= k < |reg| :: !hits(reg[k].0)
    ensures forall k | 0 <= k < |reg| && hits(reg[k].0) ::
              (forall j | k < j < |reg| :: !hits(reg[j].0)) ==> HitTest(reg, hits) == Some(reg[k].1)
    ensures HitTest(reg, hits).Some? ==>
              exists k | 0 <= k < |reg| :: hits(reg[k].0) && reg[k].1 == HitTest(reg, hits).value
                && forall j | k < j < |reg| :: !hits(reg[j].0)
  {
    if reg != [] {
      var n := |reg| - 1;
      var init := reg[..n];
      HitTestIsLastHit(init, hits);
      assert forall k | 0 <= k < n :: init[k] == reg[k];
      if !hits(reg[n].0) {
        if HitTest(init, hits).Some? {
          var k :| 0 <= k < n && hits(init[k].0) && init[k].1 == HitTest(init, hits).value
            && forall j | k < j < n :: !hits(init[j].0);
          assert hits(reg[k].0) && reg[k].1 == HitTest(reg, hits).value;
        }
      }
    }
  }

  /** A hit test on the registry with the handler of `v` placed last. */
  lemma {:induction false} HitTestAfterAdd<V, O>(reg: Registry<V, O>, v: V, o: O, hits: V -> bool)
    ensures HitTest(reg + [(v, o)], hits) == if hits(v) then Some(o) else HitTest(reg, hits)
  {
    var r := reg + [(v, o)];
    assert r[..|r| - 1] == reg;
  }

  /** Unregistering a view that does not hit does not change the hit. */
  lemma {:induction false} HitTestAfterRemove<V, O>(reg: Registry<V, O>, v: V, hits: V -> bool)
    requires !hits(v)
    ensures HitTest(Remove(reg, v), hits) == HitTest(reg, hits)
  {
    if reg != [] {
      HitTestAfterRemove(reg[1..], v, hits);
      var rest := Remove(reg[1..], v);
      if reg[0].0 == v {
        HitTestOfCons(reg[0], reg[1..], hits);
        assert [reg[0]] + reg[1..] == reg;
      } else {
        HitTestOfCons(reg[0], rest, hits);
        HitTestOfCons(reg[0], reg[1..], hits);
        assert [reg[0]] + reg[1..] == reg;
      }
    }
  }

  /** The hit test of a registry with one more entry in front. */
  lemma {:induction false} HitTestOfCons<V, O>(e: (V, O), reg: Registry<V, O>, hits: V -> bool)
    ensures HitTest([e] + reg, hits) ==
              if HitTest(reg, hits).Some? then HitTest(reg, hits)
              else if hits(e.0) then Some(e.1) else None
  {
    var r := [e] + reg;
    if reg == [] {
      assert r == [e];
      assert r[..0] == [];
    } else {
      assert r[..|r| - 1] == [e] + reg[..|reg| - 1];
      HitTestOfCons(e, reg[..|reg| - 1], hits);
    }
  }

  /** Adding a key that is not yet registered keeps the keys unique. */
  lemma AddKeepsDistinct<V, O>(reg: Registry<V, O>, v: V, o: O)
    requires DistinctViews(reg) && !Registered(reg, v)
    ensures DistinctViews(reg + [(v, o)])
  {
  }

  /** Removing a key keeps the keys unique. */
  lemma {:induction false} RemoveKeepsDistinct<V, O>(reg: Registry<V, O>, v: V)
    requires DistinctViews(reg)
    ensures DistinctViews(Remove(reg, v))
  {
    if reg != [] {
      RemoveKeepsDistinct(reg[1..], v);
      var rest := Remove(reg[1..], v);
      if reg[0].0 != v {
        assert !Registered(reg[1..], reg[0].0);
        assert forall k | 0 <= k < |rest| :: rest[k].0 != reg[0].0;
        var r := [reg[0]] + rest;
        forall i, j | 0 <= i < j < |r| ensures r[i].0 != r[j].0 {
          if i == 0 {
            assert r[j] == rest[j - 1];
          } else {
            assert r[i] == rest[i - 1] && r[j] == rest[j - 1];
          }
        }
      }
    }
  }

  /** Removing keeps the handlers within any set that held them. */
  lemma RemoveKeepsOwners<V, O>(reg: Registry<V, O>, v: V, known: set<O>)
    requires OwnersIn(reg, known)
    ensures OwnersIn(Remove(reg, v), known)
  {
    var r := Remove(reg, v);
    forall k | 0 <= k < |r| ensures r[k].1 in known {
      var j :| 0 <= j < |reg| && reg[j] == r[k];
    }
  }
}
