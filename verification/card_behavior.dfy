/** The card behaviour: which items belong to the collision and item
    behaviours, the one-shot pushes given to admitted items, and the choice of
    each push's angle and magnitude. The physics itself is not modelled. */
module CardBehavior {
  import opened Wrappers
  import opened FloatRandom

  /** `CGFloat.pi`: the double nearest to pi. */
  const Pi: real := 3.141592653589793

  datatype Point = Point(x: real, y: real)

  datatype Rect = Rect(origin: Point, width: real, height: real)

  function Center(r: Rect): Point {
    Point(r.origin.x + r.width / 2.0, r.origin.y + r.height / 2.0)
  }

  /** Where an item sits relative to the centre; y grows downwards, so "upper" means y below the centre's y. */
  datatype Quadrant = UpperLeft | UpperRight | LowerLeft | LowerRight | OnAxis

  function QuadrantOf(p: Point, c: Point): (q: Quadrant)
    ensures q == OnAxis <==> p.x == c.x || p.y == c.y
  {
    if p.x < c.x && p.y < c.y then UpperLeft
    else if p.x > c.x && p.y < c.y then UpperRight
    else if p.x < c.x && p.y > c.y then LowerLeft
    else if p.x > c.x && p.y > c.y then LowerRight
    else OnAxis
  }

  /** Lower end of the arc of angles that point from the quadrant toward the centre. */
  function ArcLow(q: Quadrant): real {
    match q
    case UpperLeft => 0.0
    case UpperRight => Pi / 2.0
    case LowerLeft => -Pi / 2.0
    case LowerRight => Pi
    case OnAxis => 0.0
  }

  /** Upper end of the arc: a quarter turn above the lower end, or a full turn on an axis. */
  function ArcHigh(q: Quadrant): real {
    if q == OnAxis then 2.0 * Pi else ArcLow(q) + Pi / 2.0
  }

  /** The push angle: drawn from the arc toward the centre of the reference bounds; 0, the push's default, without bounds. */
  function PushAngle(at: Point, bounds: Option<Rect>, t: Unit): (a: real)
    ensures bounds.None? ==> a == 0.0
    ensures bounds.Some? ==> var q := QuadrantOf(at, Center(bounds.value)); ArcLow(q) <= a <= ArcHigh(q)
  {
    match bounds
    case None => 0.0
    case Some(b) =>
      var c := Center(b);
      if at.x < c.x && at.y < c.y then Arc4Random(Pi / 2.0, t)
      else if at.x > c.x && at.y < c.y then Pi - Arc4Random(Pi / 2.0, t)
      else if at.x < c.x && at.y > c.y then -Arc4Random(Pi / 2.0, t)
      else if at.x > c.x && at.y > c.y then Pi + Arc4Random(Pi / 2.0, t)
      else Arc4Random(2.0 * Pi, t)
  }

  /** Every angle of the quadrant's arc is the result of some draw. */
  lemma PushAngleCoversArc(at: Point, b: Rect, a: real)
    requires ArcLow(QuadrantOf(at, Center(b))) <= a <= ArcHigh(QuadrantOf(at, Center(b)))
    ensures exists t: Unit :: PushAngle(at, Some(b), t) == a
  {
    var q := QuadrantOf(at, Center(b));
    match q
    case UpperLeft =>
      RandomInCovers(0.0, Pi / 2.0, a);
      var t: Unit :| RandomIn(0.0, Pi / 2.0, t) == a;
      assert PushAngle(at, Some(b), t) == a;
    case UpperRight =>
      RandomInCovers(0.0, Pi / 2.0, Pi - a);
      var t: Unit :| RandomIn(0.0, Pi / 2.0, t) == Pi - a;
      assert PushAngle(at, Some(b), t) == a;
    case LowerLeft =>
      RandomInCovers(0.0, Pi / 2.0, -a);
      var t: Unit :| RandomIn(0.0, Pi / 2.0, t) == -a;
      assert PushAngle(at, Some(b), t) == a;
    case LowerRight =>
      RandomInCovers(0.0, Pi / 2.0, a - Pi);
      var t: Unit :| RandomIn(0.0, Pi / 2.0, t) == a - Pi;
      assert PushAngle(at, Some(b), t) == a;
    case OnAxis =>
      RandomInCovers(0.0, 2.0 * Pi, a);
      var t: Unit :| RandomIn(0.0, 2.0 * Pi, t) == a;
      assert PushAngle(at, Some(b), t) == a;
  }

  /** The push magnitude: one plus a draw between 0 and 2. */
  function PushMagnitude(t: Unit): (m: real)
    ensures 1.0 <= m <= 3.0
  {
    1.0 + Arc4Random(2.0, t)
  }

  /** Every magnitude in [1, 3] is the result of some draw. */
  lemma PushMagnitudeCoversRange(m: real)
    requires 1.0 <= m <= 3.0
    ensures exists t: Unit :: PushMagnitude(t) == m
  {
    RandomInCovers(0.0, 2.0, m - 1.0);
    var t: Unit :| RandomIn(0.0, 2.0, t) == m - 1.0;
    assert PushMagnitude(t) == m;
  }

  /** The draws behind one push: the item's centre when it is admitted and the two uniform draws. */
  datatype PushDraw = PushDraw(at: Point, angle: Unit, magnitude: Unit)

  /** An instantaneous push that has not acted yet. */
  datatype Push = Push(item: nat, angle: real, magnitude: real)

  /** Fixed configuration of the child behaviours. */
  datatype Settings = Settings(
    translatesReferenceBoundsIntoBoundary: bool,
    allowsRotation: bool,
    elasticity: real,
    resistance: real)

  /** The behaviour: its settings, the members of the collision and item behaviours,
      and the pending pushes keyed by a creation number. */
  datatype Behavior = Behavior(
    settings: Settings,
    collision: set<nat>,
    items: set<nat>,
    pushes: map<nat, Push>,
    nextPush: nat)

  /** Creation numbers of pending pushes are below the next number to hand out. */
  ghost predicate Valid(b: Behavior) {
    forall id :: id in b.pushes ==> id < b.nextPush
  }

  /** The configured settings: the reference bounds are the boundary, no rotation, perfectly elastic, no resistance. */
  const Configured := Settings(true, false, 1.0, 0.0)

  /** `init`: both child behaviours configured and empty, no pushes. */
  function NewBehavior(): (b: Behavior)
    ensures Valid(b)
    ensures b.settings.elasticity == 1.0 && b.settings.resistance == 0.0
    ensures !b.settings.allowsRotation && b.settings.translatesReferenceBoundsIntoBoundary
    ensures b.collision == {} && b.items == {} && b.pushes == map[]
  {
    Behavior(Configured, {}, {}, map[], 0)
  }

  /** `addItem`: the item joins both child behaviours and receives one new pending push toward the centre. */
  function AddItem(b: Behavior, item: nat, bounds: Option<Rect>, draw: PushDraw): (r: Behavior)
    requires Valid(b)
    ensures Valid(r)
    ensures r.settings == b.settings
    ensures r.collision == b.collision + {item} && r.items == b.items + {item}
    ensures b.nextPush !in b.pushes && r.pushes.Keys == b.pushes.Keys + {b.nextPush}
    ensures |r.pushes| == |b.pushes| + 1
    ensures forall id :: id in b.pushes ==> r.pushes[id] == b.pushes[id]
    ensures r.pushes[b.nextPush] == Push(item, PushAngle(draw.at, bounds, draw.angle), PushMagnitude(draw.magnitude))
    ensures 1.0 <= r.pushes[b.nextPush].magnitude <= 3.0
  {
    var push := Push(item, PushAngle(draw.at, bounds, draw.angle), PushMagnitude(draw.magnitude));
    b.(collision := b.collision + {item},
       items := b.items + {item},
       pushes := b.pushes[b.nextPush := push],
       nextPush := b.nextPush + 1)
  }

  /** `removeItem`: the item leaves both child behaviours; pending pushes are left alone. */
  function RemoveItem(b: Behavior, item: nat): (r: Behavior)
    ensures r.settings == b.settings
    ensures r.collision == b.collision - {item} && r.items == b.items - {item}
    ensures r.pushes == b.pushes && r.nextPush == b.nextPush
    ensures Valid(b) ==> Valid(r)
  {
    b.(collision := b.collision - {item}, items := b.items - {item})
  }

  /** Removing an item right after adding it restores membership but keeps the push just created. */
  lemma RemoveAfterAdd(b: Behavior, item: nat, bounds: Option<Rect>, draw: PushDraw)
    requires Valid(b)
    ensures RemoveItem(AddItem(b, item, bounds, draw), item).collision == b.collision - {item}
    ensures RemoveItem(AddItem(b, item, bounds, draw), item).items == b.items - {item}
    ensures b.nextPush in RemoveItem(AddItem(b, item, bounds, draw), item).pushes
  {
  }

  /** The effect of a push's action: the push it delivered, if it was still pending, and the behaviour after. */
  datatype Acted = Acted(delivered: Option<Push>, behavior: Behavior)

  /** A push's action: the push is delivered and removes itself from the child behaviours. */
  function ActPush(b: Behavior, id: nat): (r: Acted)
    ensures id in b.pushes ==> r.delivered == Some(b.pushes[id])
    ensures id !in b.pushes ==> r == Acted(None, b)
    ensures r.behavior.pushes.Keys == b.pushes.Keys - {id}
    ensures forall k :: k in r.behavior.pushes ==> r.behavior.pushes[k] == b.pushes[k]
    ensures r.behavior.(pushes := b.pushes) == b
    ensures Valid(b) ==> Valid(r.behavior)
  {
    if id in b.pushes then Acted(Some(b.pushes[id]), b.(pushes := b.pushes - {id}))
    else Acted(None, b)
  }

  /** A push acts at most once: its second action delivers nothing and changes nothing. */
  lemma PushActsAtMostOnce(b: Behavior, id: nat)
    ensures ActPush(ActPush(b, id).behavior, id).delivered == None
    ensures ActPush(ActPush(b, id).behavior, id).behavior == ActPush(b, id).behavior
  {
  }
}
