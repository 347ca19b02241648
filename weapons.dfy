/**
  Weapon firing and cooldown: `shoot_system` and `cooldown_system` of
  src/main.rs. A weapon entity is a child of its holder; while it is flagged
  `IsShooting` and not `IsCoolingdown` it requests generation 0 of its loads
  and arms a one-shot cooldown timer.
*/
module Weapons {
  import opened Ecs

  /** A weapon whose fire-rate multiplier is positive and whose first load's cooldown is
      non-negative: the cooldown timer it arms then has a finite, non-negative
      duration (`Duration::from_secs_f32` panics otherwise). */
  predicate WellFormed(w: Weapon) {
    w.accelerate > 0.0 && (|w.loads| > 0 ==> w.loads[0].bullet.cooldown >= 0.0)
  }

  /** The entity matches `shoot_system`'s query (a `Weapon` with a `Parent`,
      flagged `IsShooting`, without `IsCoolingdown`) and has a first load. */
  predicate ReadyToFire(c: Comps) {
    c.weapon.Some? && c.parent.Some? && c.shooting && c.cooling.None?
    && |c.weapon.value.loads| > 0
  }

  /** What `shoot_system` demands of the world: every weapon about to fire is
      well formed and its holder has a `Transform` (the lookup is unwrapped). */
  predicate CanShoot(es: map<Entity, Comps>) {
    forall e | e in es && ReadyToFire(es[e]) ::
      WellFormed(es[e].weapon.value) && es[e].parent.value in es
      && es[es[e].parent.value].transform.Some?
  }

  /** The cooldown, in seconds, armed after firing generation 0:
      `cooldown * 100 / accelerate`. */
  function CooldownSeconds(w: Weapon): (s: real)
    requires WellFormed(w) && |w.loads| > 0
    ensures s >= 0.0
    ensures s * w.accelerate == w.loads[0].bullet.cooldown * 100.0
  {
    w.loads[0].bullet.cooldown * 100.0 / w.accelerate
  }

  /** Doubling the fire-rate multiplier halves the cooldown. */
  lemma AccelerateScalesFireRate(w: Weapon)
    requires WellFormed(w) && |w.loads| > 0
    ensures WellFormed(w.(accelerate := 2.0 * w.accelerate))
    ensures 2.0 * CooldownSeconds(w.(accelerate := 2.0 * w.accelerate)) == CooldownSeconds(w)
  {
    var w2 := w.(accelerate := 2.0 * w.accelerate);
    var s, s2 := CooldownSeconds(w), CooldownSeconds(w2);
    assert s2 * (2.0 * w.accelerate) == s * w.accelerate;
    assert (2.0 * s2 - s) * w.accelerate == 0.0;
  }

  /** The spawn request of a weapon that fires. */
  function Shot(es: map<Entity, Comps>, e: Entity): SpawnEvent
    requires CanShoot(es) && e in es && ReadyToFire(es[e])
  {
    var c := es[e];
    SpawnEvent(es[c.parent.value].transform.value, c.parent.value, e,
               c.weapon.value.loads[0], 0)
  }

  /** The requests `shoot_system` sends, visiting entities `0 .. n-1` in order. */
  function Shots(es: map<Entity, Comps>, n: nat): seq<SpawnEvent>
    requires CanShoot(es)
  {
    if n == 0 then []
    else Shots(es, n - 1) + (if n - 1 in es && ReadyToFire(es[n - 1]) then [Shot(es, n - 1)] else [])
  }

  /** The weapon after its pass through `shoot_system`: one that fired now
      cools down for `CooldownSeconds`; any other entity is left alone. */
  function AfterShot(c: Comps): Comps
    requires ReadyToFire(c) ==> WellFormed(c.weapon.value)
  {
    if ReadyToFire(c) then c.(cooling := Some(NewTimer(CooldownSeconds(c.weapon.value), Once)))
    else c
  }

  /** Every request comes from a weapon that is ready to fire and carries its
      first load at generation 0, its holder as `by`, the holder's transform
      and itself as `with`. */
  lemma {:induction false} ShotsComeFromReadyWeapons(es: map<Entity, Comps>, n: nat)
    requires CanShoot(es)
    ensures forall r | r in Shots(es, n) ::
      && r.weapon < n && r.weapon in es && ReadyToFire(es[r.weapon])
      && r.holder == es[r.weapon].parent.value
      && r.load == es[r.weapon].weapon.value.loads[0]
      && r.generation == 0
      && r.shooter == es[r.holder].transform.value
  {
    if n > 0 {
      ShotsComeFromReadyWeapons(es, n - 1);
      var tail := if n - 1 in es && ReadyToFire(es[n - 1]) then [Shot(es, n - 1)] else [];
      assert Shots(es, n) == Shots(es, n - 1) + tail;
      forall r | r in Shots(es, n)
        ensures r.weapon < n && r.weapon in es && ReadyToFire(es[r.weapon])
        ensures r.holder == es[r.weapon].parent.value
        ensures r.load == es[r.weapon].weapon.value.loads[0]
        ensures r.generation == 0
        ensures r.shooter == es[r.holder].transform.value
      {
        if r !in Shots(es, n - 1) {
          assert r in tail;
        }
      }
    }
  }

  /** Every weapon that is ready to fire sends its request. */
  lemma {:induction false} ReadyWeaponsShoot(es: map<Entity, Comps>, n: nat)
    requires CanShoot(es)
    ensures forall e | 0 <= e < n && e in es && ReadyToFire(es[e]) :: Shot(es, e) in Shots(es, n)
  {
    if n > 0 {
      ReadyWeaponsShoot(es, n - 1);
    }
  }

  /** The requests are ordered by weapon, so no weapon sends two. */
  lemma {:induction false} OneShotPerWeapon(es: map<Entity, Comps>, n: nat)
    requires CanShoot(es)
    ensures forall i, j | 0 <= i < j < |Shots(es, n)| :: Shots(es, n)[i].weapon < Shots(es, n)[j].weapon
  {
    if n > 0 {
      OneShotPerWeapon(es, n - 1);
      ShotsComeFromReadyWeapons(es, n - 1);
      var s := Shots(es, n - 1);
      forall i | 0 <= i < |s| ensures s[i].weapon < n - 1 {
        assert s[i] in s;
      }
    }
  }

  /** A weapon arms its cooldown exactly when it fires, and an entity with an
      empty `loads` never does. */
  lemma CooldownArmedIffFired(c: Comps)
    requires ReadyToFire(c) ==> WellFormed(c.weapon.value)
    ensures (AfterShot(c).cooling != c.cooling) <==> ReadyToFire(c)
    ensures c.weapon.Some? && c.weapon.value.loads == [] ==> AfterShot(c) == c
    ensures AfterShot(c).(cooling := c.cooling) == c
  {
  }

  /** The world once entities `0 .. n-1` have been through `shoot_system`. */
  function ShotBelow(es: map<Entity, Comps>, n: nat): map<Entity, Comps>
    requires CanShoot(es)
  {
    map e | e in es :: if e < n then AfterShot(es[e]) else es[e]
  }

  /** One step of the pass: entity `i` is still as it was, every holder's
      transform too, and the pass adds `i`'s shot, if any. */
  lemma ShootStep(es: map<Entity, Comps>, i: nat, cur: map<Entity, Comps>)
    requires CanShoot(es) && cur == ShotBelow(es, i)
    ensures (i in cur <==> i in es) && (i in es ==> cur[i] == es[i])
    ensures i in es && ReadyToFire(es[i]) ==>
      var h := es[i].parent.value;
      h in cur && cur[h].transform == es[h].transform
    ensures ShotBelow(es, i + 1) == if i in es && ReadyToFire(es[i]) then cur[i := AfterShot(es[i])] else cur
    ensures Shots(es, i + 1) == Shots(es, i) + if i in es && ReadyToFire(es[i]) then [Shot(es, i)] else []
  {
  }

  /** `shoot_system`: the cooldowns it inserts take effect once the pass is over. */
  method ShootSystem(w: World) returns (requests: seq<SpawnEvent>)
    requires w.Valid() && CanShoot(w.entities)
    modifies w
    ensures w.Valid() && w.nextId == old(w.nextId)
    ensures requests == Shots(old(w.entities), w.nextId)
    ensures w.entities == map e | e in old(w.entities) :: AfterShot(old(w.entities)[e])
  {
    ghost var es := w.entities;
    var n := w.nextId;
    var cur := w.entities;
    requests := [];
    var i := 0;
    assert cur == ShotBelow(es, 0);
    while i < n
      modifies {}
      invariant 0 <= i <= n
      invariant cur == ShotBelow(es, i)
      invariant requests == Shots(es, i)
    {
      ShootStep(es, i, cur);
      if i in cur {
        var c := cur[i];
        if c.weapon.Some? && c.parent.Some? && c.shooting && c.cooling.None? {
          var weapon := c.weapon.value;
          if |weapon.loads| > 0 {
            var holder := c.parent.value;
            var at := cur[holder].transform.value;
            requests := requests + [SpawnEvent(at, holder, i, weapon.loads[0], 0)];
            cur := cur[i := c.(cooling := Some(NewTimer(CooldownSeconds(weapon), Once)))];
          }
        }
      }
      i := i + 1;
    }
    assert cur == ShotBelow(es, n);
    w.entities := cur;
  }

  /** The weapon after `cooldown_system`: a cooling weapon's timer ticks, and
      `IsCoolingdown` is removed on the tick that finishes it. */
  function CooledDown(c: Comps, dt: real): Comps
    requires dt >= 0.0
  {
    if c.weapon.Some? && c.cooling.Some? then
      var t := Tick(c.cooling.value, dt);
      if JustFinished(t) then c.(cooling := None) else c.(cooling := Some(t))
    else c
  }

  /** `IsCoolingdown` is removed exactly when its timer just finished; only that
      component changes, and entities that are not cooling weapons are untouched. */
  lemma CooldownClearsOnlyWhenFinished(c: Comps, dt: real)
    requires dt >= 0.0
    ensures CooledDown(c, dt).(cooling := c.cooling) == c
    ensures (c.weapon.None? || c.cooling.None?) ==> CooledDown(c, dt) == c
    ensures c.cooling.Some? && CooledDown(c, dt).cooling.None?
        <==> c.weapon.Some? && c.cooling.Some? && JustFinished(Tick(c.cooling.value, dt))
  {
  }

  /** A shooting weapon with a first load is ready to fire after the cooldown
      pass exactly when it was not cooling or its cooldown finished on this tick. */
  lemma ReadyAgainWhenCooldownFinishes(c: Comps, dt: real)
    requires dt >= 0.0
    requires c.weapon.Some? && c.parent.Some? && c.shooting && |c.weapon.value.loads| > 0
    ensures ReadyToFire(CooledDown(c, dt))
        <==> c.cooling.None? || JustFinished(Tick(c.cooling.value, dt))
  {
  }

  /** The world once entities `0 .. n-1` have been through `cooldown_system`. */
  function CooledBelow(es: map<Entity, Comps>, dt: real, n: nat): map<Entity, Comps>
    requires dt >= 0.0
  {
    map e | e in es :: if e < n then CooledDown(es[e], dt) else es[e]
  }

  /** One step of the pass: entity `i` is still as it was, and changes only
      when the query matches it. */
  lemma CooldownStep(es: map<Entity, Comps>, dt: real, i: nat, cur: map<Entity, Comps>)
    requires dt >= 0.0 && cur == CooledBelow(es, dt, i)
    ensures (i in cur <==> i in es) && (i in es ==> cur[i] == es[i])
    ensures CooledBelow(es, dt, i + 1) == if i in es && es[i].weapon.Some? && es[i].cooling.Some? then cur[i := CooledDown(es[i], dt)] else cur
  {
  }

  /** `cooldown_system`. */
  method CooldownSystem(w: World, dt: real)
    requires w.Valid() && dt >= 0.0
    modifies w
    ensures w.Valid() && w.nextId == old(w.nextId)
    ensures w.entities == map e | e in old(w.entities) :: CooledDown(old(w.entities)[e], dt)
  {
    var es, n := w.entities, w.nextId;
    var cur := es;
    var i := 0;
    assert cur == CooledBelow(es, dt, 0);
    while i < n
      modifies {}
      invariant 0 <= i <= n
      invariant cur == CooledBelow(es, dt, i)
    {
      CooldownStep(es, dt, i, cur);
      if i in cur {
        var c := cur[i];
        if c.weapon.Some? && c.cooling.Some? {
          var t := Tick(c.cooling.value, dt);
          if JustFinished(t) {
            cur := cur[i := c.(cooling := None)];
          } else {
            cur := cur[i := c.(cooling := Some(t))];
          }
        }
      }
      i := i + 1;
    }
    assert cur == CooledBelow(es, dt, n);
    w.entities := cur;
  }
}
