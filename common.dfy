/** The usual optional-value wrapper; `None` stands for the source's null. */
module Wrappers {
  datatype Option<+T> = None | Some(value: T)
}

/**
 * Points and rectangles. The source uses double-valued MAUI and CoreGraphics
 * types; here they are integer device units.
 */
module Geometry {
  datatype Point = Point(x: int, y: int)

  /** An axis-aligned rectangle given by its origin and its size. */
  datatype IntRect = IntRect(x: int, y: int, width: nat, height: nat)

  /**
   * The containment test shared by MAUI's `Rect.Contains` and CoreGraphics'
   * `CGRect.Contains`: the left and top edges are inside, the right and
   * bottom edges are not.
   */
  predicate Contains(r: IntRect, p: Point) {
    r.x <= p.x < r.x + r.width && r.y <= p.y < r.y + r.height
  }
}

/** The unified event model: TouchActionType, TouchActionEventArgs and the event callback. */
module TouchActions {
  import opened Wrappers
  import opened Geometry

  datatype TouchActionType = Entered | Pressed | Moved | Released | Exited | Cancelled

  datatype TouchActionEventArgs = TouchActionEventArgs(
    id: int,
    actionType: TouchActionType,
    location: Point,
    isInContact: bool)

  /** The framework element passed as `sender` to the consumer's handler. */
  type ElementId = nat

  /** Opaque identity of a TouchBehavior object. */
  type BehaviorId = nat

  /**
   * One call of `OnTouchAction(sender, args)`: the behavior (Android) or the
   * recognizer (iOS) it was fired on, the element passed as sender, and the
   * event.
   */
  datatype Delivery = Delivery(recipient: nat, sender: ElementId, args: TouchActionEventArgs)

  /**
   * The consumer's `TouchAction` handler, seen only through what it does to
   * the behavior it is subscribed to: `consumer(b, args, c)` is the value of
   * b's `Capture` after the handler has run on `args` while `Capture` was `c`.
   */
  type Consumer = (BehaviorId, TouchActionEventArgs, bool) -> bool

  /** The .NET exceptions the core can raise. */
  datatype Fault =
    | DuplicateKey   // Dictionary.Add with a key already present
    | KeyNotFound    // Dictionary indexer read with an absent key
    | NullKey        // Dictionary.ContainsKey(null)

  /** The state after a callback, and the exception that ended it, if any. */
  datatype Outcome<S> = Outcome(st: S, fault: Option<Fault>)

  /** The synthetic boundary events. */
  predicate IsBoundary(t: TouchActionType) {
    t == Entered || t == Exited
  }

  /** Set `b`'s membership in `s` to `on`: how a per-object bool field is kept as a set. */
  function SetFlag<T>(s: set<T>, b: T, on: bool): (r: set<T>)
    ensures b in r <==> on
    ensures r - {b} == s - {b}
  {
    if on then s + {b} else s - {b}
  }

  /** `log` is `before` with deliveries appended. */
  predicate Extends(log: seq<Delivery>, before: seq<Delivery>) {
    |before| <= |log| && log[..|before|] == before
  }

  /** The deliveries appended to `before`. */
  function Added(log: seq<Delivery>, before: seq<Delivery>): seq<Delivery>
    requires Extends(log, before)
  {
    log[|before|..]
  }

  /** Appending in two steps appends the concatenation. */
  lemma AddedConcat(a: seq<Delivery>, b: seq<Delivery>, c: seq<Delivery>)
    requires Extends(b, a) && Extends(c, b)
    ensures Extends(c, a)
    ensures Added(c, a) == Added(b, a) + Added(c, b)
  {
    assert c[..|a|] == c[..|b|][..|a|];
  }
}
