/**
  The entity arena shared by the weapon, hit, bullet and level systems of the
  shooter: entity identifiers, the components the systems read and write, the
  events they exchange, and the two Bevy collaborators the systems lean on
  (the `Timer` and the physics collision layers).

  Bevy's `Commands` are modelled as direct updates of `World.entities`; a
  component that an entity lacks is `None` (or `false` for a marker).
*/
module Ecs {

  /** An entity identifier; the arena hands them out in increasing order. */
  type Entity = nat

  datatype Option<+T> = None | Some(value: T)

  /** An `f32` that is either positive infinity or a finite number, as the
      bullet fields `endurance` and `hit_limit` are used. */
  datatype Limit = Inf | Fin(v: real)

  /** `count as f32 <= limit`. */
  predicate WithinLimit(count: nat, limit: Limit) {
    limit.Inf? || count as real <= limit.v
  }

  /** A 2D transform: position and the heading (rotation about z, radians). */
  datatype Transform = Transform(x: real, y: real, heading: real)

  /** A point in the plane (`Vec2`), used for aim points. */
  datatype Point = Point(x: real, y: real)

  // ---------------------------------------------------------------------
  // bevy::time::Timer
  // ---------------------------------------------------------------------

  datatype TimerMode = Once | Repeating

  /** A timer: its duration and elapsed time in seconds, whether it has
      finished, and how many times it finished during the last tick. */
  datatype Timer = Timer(duration: real, elapsed: real, mode: TimerMode,
                         finished: bool, timesFinished: nat)

  const U32Max: nat := 0xFFFF_FFFF

  /** `Timer::from_seconds`. */
  function NewTimer(seconds: real, mode: TimerMode): Timer {
    Timer(seconds, 0.0, mode, false, 0)
  }

  /** `Timer::just_finished`: the last tick made the timer finish. */
  predicate JustFinished(t: Timer) {
    t.timesFinished > 0
  }

  /** `Timer::reset`. */
  function Reset(t: Timer): Timer {
    t.(elapsed := 0.0, finished := false, timesFinished := 0)
  }

  lemma QuotientAtLeastOne(e: real, d: real)
    requires 0.0 < d <= e
    ensures e / d >= 1.0
  {
  }

  /** `Timer::tick`: a finished one-shot timer stays put; otherwise the
      elapsed time grows by `dt` and, once it reaches the duration, a one-shot
      timer clamps at its duration and a repeating one wraps around. */
  function Tick(t: Timer, dt: real): (r: Timer)
    requires dt >= 0.0
    ensures r.duration == t.duration && r.mode == t.mode
    ensures JustFinished(r) <==> !(t.mode == Once && t.finished) && t.elapsed + dt >= t.duration
  {
    if t.mode == Once && t.finished then
      t.(timesFinished := 0)
    else
      var e := t.elapsed + dt;
      if e < t.duration then
        t.(elapsed := e, finished := false, timesFinished := 0)
      else if t.mode == Once then
        t.(elapsed := t.duration, finished := true, timesFinished := 1)
      else if t.duration <= 0.0 then
        t.(elapsed := 0.0, finished := true, timesFinished := U32Max)
      else
        QuotientAtLeastOne(e, t.duration);
        var k := (e / t.duration).Floor;
        t.(elapsed := e - k as real * t.duration, finished := true, timesFinished := k)
  }

  /** A one-shot timer just-finishes on at most one tick: once a tick has
      finished it, every later tick leaves it finished and silent. */
  lemma {:induction false} OnceFinishesOnce(t: Timer, dts: seq<real>)
    requires t.mode == Once && JustFinished(t) && t.finished
    requires forall i | 0 <= i < |dts| :: dts[i] >= 0.0
    ensures !JustFinished(TickAll(t, dts)) || dts == []
    ensures TickAll(t, dts).finished
  {
    if dts != [] {
      OnceFinishesOnce(t, dts[..|dts| - 1]);
    }
  }

  /** Ticks a timer once per element of `dts`. */
  function TickAll(t: Timer, dts: seq<real>): Timer
    requires forall i | 0 <= i < |dts| :: dts[i] >= 0.0
  {
    if dts == [] then t else Tick(TickAll(t, dts[..|dts| - 1]), dts[|dts| - 1])
  }

  // ---------------------------------------------------------------------
  // Bullets, weapons and events
  // ---------------------------------------------------------------------

  /** The behaviour variant of a bullet: the reflected `BulletType` object. */
  datatype BulletType =
    | Lane
    | Explode
    | Splash(count: nat, angle: real)
    | Lazer(length: real, width: real)

  /** The `Bullet` value copied into every bullet entity. */
  datatype Bullet = Bullet(lifeTime: real, endurance: Limit, hitLimit: Limit,
                           speed: real, cooldown: real, damage: real)

  /** One generation of a weapon: a bullet and its behaviour. */
  datatype Load = Load(bullet: Bullet, kind: BulletType)

  /** A weapon: its fire-rate multiplier and its generations. */
  datatype Weapon = Weapon(accelerate: real, loads: seq<Load>)

  /** `BulletSpawnEvent`: `holder` is the source's `by`, `weapon` its `with`. */
  datatype SpawnEvent = SpawnEvent(shooter: Transform, holder: Entity, weapon: Entity,
                                   load: Load, generation: nat)

  /** `BulletSucceedEvent`. */
  datatype SucceedEvent = SucceedEvent(weapon: Entity, generation: nat,
                                       bullet: Entity, transform: Transform)

  /** `BulletHitEvent`. */
  datatype HitEvent = HitEvent(bullet: Entity, target: Entity, at: Transform,
                               firstHit: bool)

  // ---------------------------------------------------------------------
  // Physics collaborator: collision layers and collider shapes
  // ---------------------------------------------------------------------

  datatype Layer = PlayerLayer | EnemyLayer | PlayerBulletLayer | EnemyBulletLayer

  /** `CollisionLayers::new(memberships, filters)`. */
  datatype CollisionLayers = CollisionLayers(memberships: set<Layer>, filters: set<Layer>)

  /** Two colliders may touch when each one's memberships meet the other's filters. */
  predicate Interact(a: CollisionLayers, b: CollisionLayers) {
    a.memberships * b.filters != {} && b.memberships * a.filters != {}
  }

  datatype Collider = Ball(radius: real) | Cuboid(width: real, length: real)

  datatype Movement = DirectionMove(heading: real) | PointMove(target: Point)

  // ---------------------------------------------------------------------
  // Components of one entity
  // ---------------------------------------------------------------------

  /** The components an entity carries. Markers are booleans; every other
      component is present exactly when it is `Some`. */
  datatype Comps = Comps(
    player: bool,                       // Player
    life: Option<int>,                  // Life
    transform: Option<Transform>,       // Transform
    aims: Option<Point>,                // Aims
    weapon: Option<Weapon>,             // Weapon
    parent: Option<Entity>,             // Parent (the weapon holder)
    shooting: bool,                     // IsShooting
    cooling: Option<Timer>,             // IsCoolingdown
    bullet: Option<Bullet>,             // Bullet
    kind: Option<BulletType>,           // LaneShot / ExplodeShot / SplashShot / LazerShot
    shooter: Option<Entity>,            // Shooter
    weaponRef: Option<Entity>,          // WeaponRef
    generation: Option<nat>,            // BulletGeneration
    hitCount: Option<map<Entity, nat>>, // HitCount
    initPosition: Option<Transform>,    // InitPosition
    lifeTime: Option<Timer>,            // LifeTime
    endurance: Option<Limit>,           // BulletEndurance
    beforeDespawn: bool,                // BulletBeforeDespawn
    layers: Option<CollisionLayers>,    // CollisionLayers
    collider: Option<Collider>,         // Collider
    dynamicBody: bool,                  // RigidBody::Dynamic
    movement: Option<Movement>,         // Movement
    speed: Option<real>                 // Movable { speed }
  )

  /** An entity with no components. */
  const Blank: Comps := Comps(false, None, None, None, None, None, false, None,
                              None, None, None, None, None, None, None, None, None,
                              false, None, None, false, None, None)

  /** The world: every live entity and its components. */
  class World {
    var entities: map<Entity, Comps>
    var nextId: Entity

    /** Every live entity was handed out before `nextId`. */
    ghost predicate Valid()
      reads this
    {
      forall e | e in entities :: e < nextId
    }

    constructor ()
      ensures Valid() && entities == map[] && nextId == 0
    {
      entities := map[];
      nextId := 0;
    }

    /** `commands.spawn(components)`: a fresh entity. */
    method Spawn(c: Comps) returns (e: Entity)
      requires Valid()
      modifies this
      ensures Valid() && e == old(nextId) && nextId == e + 1
      ensures e !in old(entities) && entities == old(entities)[e := c]
    {
      e := nextId;
      entities := entities[e := c];
      nextId := nextId + 1;
    }
  }
}
