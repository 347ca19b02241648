/**
  The bullet lifecycle of src/bullets.rs: `bullet_spawner` turns spawn
  requests into bullet entities, `bullet_succeed` turns succeed events into
  requests for the next generation of the weapon's loads, `bullet_lifetime`
  and `bullet_endurance` mark bullets for despawn, and `bullet_before_despawn`
  despawns them, chaining once more when their endurance is finite.
*/
module Bullets {
  import opened Ecs

  // ---------------------------------------------------------------------
  // bullet_spawner
  // ---------------------------------------------------------------------

  /** How many bullets one request spawns: `count` for a splash shot, else 1. */
  function Repeats(k: BulletType): nat {
    if k.Splash? then k.count else 1
  }

  /** The collision layers of the player (src/main.rs) and of a normal enemy. */
  const PlayerLayers: CollisionLayers := CollisionLayers({PlayerLayer}, {EnemyLayer, EnemyBulletLayer})
  const EnemyLayers: CollisionLayers := CollisionLayers({EnemyLayer}, {PlayerLayer, PlayerBulletLayer})

  /** The collision layers of a bullet fired by the player and by anyone else. */
  const PlayerBulletLayers: CollisionLayers := CollisionLayers({PlayerBulletLayer}, {EnemyLayer, EnemyBulletLayer})
  const EnemyBulletLayers: CollisionLayers := CollisionLayers({EnemyBulletLayer}, {PlayerLayer, PlayerBulletLayer})

  /** The request was sent by an entity marked `Player`. */
  predicate IsPlayer(es: map<Entity, Comps>, e: Entity) {
    e in es && es[e].player
  }

  /** The components of one bullet spawned for request `ev`. */
  function Fired(ev: SpawnEvent, byPlayer: bool): Comps {
    Blank.(initPosition := Some(ev.shooter), shooter := Some(ev.holder), weaponRef := Some(ev.weapon),
           generation := Some(ev.generation + 1), bullet := Some(ev.load.bullet),
           hitCount := Some(map[]), kind := Some(ev.load.kind), player := byPlayer,
           layers := Some(if byPlayer then PlayerBulletLayers else EnemyBulletLayers))
  }

  /** A player's bullet can touch enemies and enemy bullets but neither the
      player nor the player's bullets; any other bullet the other way round. */
  lemma FactionsCollideAcross(ev: SpawnEvent)
    ensures var l := Fired(ev, true).layers.value;
      Interact(l, EnemyLayers) && Interact(l, EnemyBulletLayers)
      && !Interact(l, PlayerLayers) && !Interact(l, PlayerBulletLayers)
    ensures var l := Fired(ev, false).layers.value;
      Interact(l, PlayerLayers) && Interact(l, PlayerBulletLayers)
      && !Interact(l, EnemyLayers) && !Interact(l, EnemyBulletLayers)
  {
    assert PlayerBulletLayer in PlayerBulletLayers.memberships * EnemyLayers.filters;
    assert EnemyLayer in EnemyLayers.memberships * PlayerBulletLayers.filters;
    assert PlayerBulletLayer in PlayerBulletLayers.memberships * EnemyBulletLayers.filters;
    assert EnemyBulletLayer in EnemyBulletLayers.memberships * PlayerBulletLayers.filters;
    assert EnemyBulletLayer in EnemyBulletLayers.memberships * PlayerLayers.filters;
    assert PlayerLayer in PlayerLayers.memberships * EnemyBulletLayers.filters;
    assert PlayerBulletLayers.memberships * PlayerLayers.filters == {};
    assert PlayerBulletLayers.memberships * PlayerBulletLayers.filters == {};
    assert EnemyBulletLayers.memberships * EnemyLayers.filters == {};
    assert EnemyBulletLayers.memberships * EnemyBulletLayers.filters == {};
  }

  function Copies(c: Comps, n: nat): seq<Comps> {
    seq(n, _ => c)
  }

  /** The bullets spawned for a run of requests, in spawn order. */
  function Batch(es: map<Entity, Comps>, events: seq<SpawnEvent>): seq<Comps> {
    if events == [] then []
    else
      var ev := events[|events| - 1];
      Batch(es, events[..|events| - 1]) + Copies(Fired(ev, IsPlayer(es, ev.holder)), Repeats(ev.load.kind))
  }

  /** Total number of bullets the requests ask for. */
  function Fanout(events: seq<SpawnEvent>): nat {
    if events == [] then 0 else Fanout(events[..|events| - 1]) + Repeats(events[|events| - 1].load.kind)
  }

  /** Requests are served one after the other: the bullets of `a + b` are those
      of `a` followed by those of `b`. */
  lemma {:induction false} BatchAppend(es: map<Entity, Comps>, a: seq<SpawnEvent>, b: seq<SpawnEvent>)
    ensures Batch(es, a + b) == Batch(es, a) + Batch(es, b)
    decreases |b|
  {
    if b == [] {
      assert a + b == a;
    } else {
      assert (a + b)[..|a + b| - 1] == a + b[..|b| - 1];
      assert (a + b)[|a + b| - 1] == b[|b| - 1];
      BatchAppend(es, a, b[..|b| - 1]);
    }
  }

  /** One request spawns `count` copies of its bullet for a splash shot and
      exactly one otherwise; in all `Fanout` bullets, each of them built from
      one of the requests. */
  lemma {:induction false} BatchShape(es: map<Entity, Comps>, events: seq<SpawnEvent>)
    ensures forall ev: SpawnEvent ::
      Batch(es, [ev]) == Copies(Fired(ev, IsPlayer(es, ev.holder)), if ev.load.kind.Splash? then ev.load.kind.count else 1)
    ensures |Batch(es, events)| == Fanout(events)
    ensures forall k | 0 <= k < |Batch(es, events)| :: exists j | 0 <= j < |events| ::
      Batch(es, events)[k] == Fired(events[j], IsPlayer(es, events[j].holder))
  {
    forall ev: SpawnEvent
      ensures Batch(es, [ev]) == Copies(Fired(ev, IsPlayer(es, ev.holder)), if ev.load.kind.Splash? then ev.load.kind.count else 1)
    {
      assert [ev][..0] == [];
    }
    if events != [] {
      var init, ev := events[..|events| - 1], events[|events| - 1];
      BatchShape(es, init);
      var b := Batch(es, events);
      forall k | 0 <= k < |b|
        ensures exists j | 0 <= j < |events| :: b[k] == Fired(events[j], IsPlayer(es, events[j].holder))
      {
        if k < |Batch(es, init)| {
          var j :| 0 <= j < |init| && Batch(es, init)[k] == Fired(init[j], IsPlayer(es, init[j].holder));
          assert events[j] == init[j];
        } else {
          assert events[|events| - 1] == ev;
        }
      }
    }
  }

  /** The world after entities `cs` are spawned with fresh ids from `base` on. */
  function Appended(es: map<Entity, Comps>, base: nat, cs: seq<Comps>): map<Entity, Comps> {
    if cs == [] then es else Appended(es, base, cs[..|cs| - 1])[base + |cs| - 1 := cs[|cs| - 1]]
  }

  /** Spawning keeps every existing entity as it was and gives the `k`-th new
      one the id `base + k`. */
  lemma {:induction false} AppendedSpawns(es: map<Entity, Comps>, base: nat, cs: seq<Comps>)
    requires forall e | e in es :: e < base
    ensures forall e :: e in Appended(es, base, cs) <==> e in es || base <= e < base + |cs|
    ensures forall e | e in es :: Appended(es, base, cs)[e] == es[e]
    ensures forall k | 0 <= k < |cs| :: Appended(es, base, cs)[base + k] == cs[k]
  {
    if cs != [] {
      AppendedSpawns(es, base, cs[..|cs| - 1]);
    }
  }

  /** Spawning `a` and then `b` is spawning `a + b`. */
  lemma {:induction false} AppendedConcat(es: map<Entity, Comps>, base: nat, a: seq<Comps>, b: seq<Comps>)
    ensures Appended(es, base, a + b) == Appended(Appended(es, base, a), base + |a|, b)
    decreases |b|
  {
    if b == [] {
      assert a + b == a;
    } else {
      assert (a + b)[..|a + b| - 1] == a + b[..|b| - 1];
      assert (a + b)[|a + b| - 1] == b[|b| - 1];
      AppendedConcat(es, base, a, b[..|b| - 1]);
    }
  }

  /** Serving request `i` after the ones before it. */
  lemma BatchStep(es: map<Entity, Comps>, events: seq<SpawnEvent>, i: nat)
    requires i < |events|
    ensures Batch(es, events[..i + 1])
         == Batch(es, events[..i]) + Copies(Fired(events[i], IsPlayer(es, events[i].holder)), Repeats(events[i].load.kind))
  {
    assert events[..i + 1][..i] == events[..i];
  }

  /** The inner loop of `bullet_spawner`: `n` copies of one bullet. */
  method SpawnCopies(w: World, bullet: Comps, n: nat)
    requires w.Valid()
    modifies w
    ensures w.Valid() && w.nextId == old(w.nextId) + n
    ensures w.entities == Appended(old(w.entities), old(w.nextId), Copies(bullet, n))
  {
    var r := 0;
    while r < n
      invariant 0 <= r <= n
      invariant w.Valid() && w.nextId == old(w.nextId) + r
      invariant w.entities == Appended(old(w.entities), old(w.nextId), Copies(bullet, r))
    {
      assert Copies(bullet, r + 1)[..r] == Copies(bullet, r);
      var _ := w.Spawn(bullet);
      r := r + 1;
    }
  }

  /** `bullet_spawner`. */
  method BulletSpawner(w: World, events: seq<SpawnEvent>)
    requires w.Valid()
    modifies w
    ensures w.Valid()
    ensures w.nextId == old(w.nextId) + |Batch(old(w.entities), events)|
    ensures w.entities == Appended(old(w.entities), old(w.nextId), Batch(old(w.entities), events))
  {
    ghost var es, base := w.entities, w.nextId;
    var players := set e | e in w.entities && w.entities[e].player;
    assert forall h :: h in players <==> IsPlayer(es, h);
    var i := 0;
    while i < |events|
      invariant 0 <= i <= |events|
      invariant w.Valid() && w.nextId == base + |Batch(es, events[..i])|
      invariant w.entities == Appended(es, base, Batch(es, events[..i]))
    {
      var ev := events[i];
      var bullet := Fired(ev, ev.holder in players);
      var repeats := if ev.load.kind.Splash? then ev.load.kind.count else 1;
      assert bullet == Fired(events[i], IsPlayer(es, events[i].holder)) && repeats == Repeats(events[i].load.kind);
      BatchStep(es, events, i);
      AppendedConcat(es, base, Batch(es, events[..i]), Copies(bullet, repeats));
      SpawnCopies(w, bullet, repeats);
      i := i + 1;
    }
    assert events[..i] == events;
  }

  // ---------------------------------------------------------------------
  // bullet_succeed
  // ---------------------------------------------------------------------

  /** What `bullet_succeed` unwraps: the event's weapon is live with `Weapon`
      and `Parent`. */
  predicate Succeeding(es: map<Entity, Comps>, ev: SucceedEvent) {
    ev.weapon in es && es[ev.weapon].weapon.Some? && es[ev.weapon].parent.Some?
  }

  /** The request for the weapon's load at index `generation`, if it has one. */
  function Successor(es: map<Entity, Comps>, ev: SucceedEvent): Option<SpawnEvent>
    requires Succeeding(es, ev)
  {
    var c := es[ev.weapon];
    var loads := c.weapon.value.loads;
    if ev.generation < |loads| then
      Some(SpawnEvent(ev.transform, c.parent.value, ev.weapon, loads[ev.generation], ev.generation))
    else None
  }

  predicate AllSucceeding(es: map<Entity, Comps>, evs: seq<SucceedEvent>) {
    forall k | 0 <= k < |evs| :: Succeeding(es, evs[k])
  }

  /** The requests of a run of succeed events. */
  function Successors(es: map<Entity, Comps>, evs: seq<SucceedEvent>): seq<SpawnEvent>
    requires AllSucceeding(es, evs)
  {
    if evs == [] then []
    else
      var s := Successor(es, evs[|evs| - 1]);
      Successors(es, evs[..|evs| - 1]) + (if s.Some? then [s.value] else [])
  }

  /** `bullet_succeed`. */
  method BulletSucceed(w: World, evs: seq<SucceedEvent>) returns (requests: seq<SpawnEvent>)
    requires AllSucceeding(w.entities, evs)
    ensures requests == Successors(w.entities, evs)
  {
    requests := [];
    var k := 0;
    while k < |evs|
      invariant 0 <= k <= |evs|
      invariant requests == Successors(w.entities, evs[..k])
    {
      assert evs[..k + 1][..k] == evs[..k];
      var ev := evs[k];
      var c := w.entities[ev.weapon];
      var loads := c.weapon.value.loads;
      if ev.generation < |loads| {
        requests := requests + [SpawnEvent(ev.transform, c.parent.value, ev.weapon, loads[ev.generation], ev.generation)];
      }
      k := k + 1;
    }
    assert evs[..k] == evs;
  }

  /** Generations walk the weapon's loads in order: a bullet spawned for a
      request of generation `g` stores `g + 1`, and when it succeeds its weapon
      asks for `loads[g + 1]` at generation `g + 1`, from the weapon's holder,
      or for nothing once `g + 1` is past the last load. */
  lemma ChainFollowsLoads(es: map<Entity, Comps>, ev: SpawnEvent, byPlayer: bool, b: Entity, at: Transform)
    requires Succeeding(es, SucceedEvent(ev.weapon, ev.generation + 1, b, at))
    ensures var c := Fired(ev, byPlayer);
      var s := SucceedEvent(c.weaponRef.value, c.generation.value, b, at);
      var loads := es[ev.weapon].weapon.value.loads;
      Succeeding(es, s)
      && (Successor(es, s).Some? <==> ev.generation + 1 < |loads|)
      && (Successor(es, s).Some? ==>
            Successor(es, s).value.load == loads[ev.generation + 1]
            && Successor(es, s).value.generation == ev.generation + 1
            && Successor(es, s).value.holder == es[ev.weapon].parent.value
            && Successor(es, s).value.weapon == ev.weapon)
  {
  }

  /** Every request of a run of succeed events comes from one of them, names
      that event's weapon and a load index below the weapon's `loads` length. */
  lemma {:induction false} SuccessorsStayInLoads(es: map<Entity, Comps>, evs: seq<SucceedEvent>)
    requires AllSucceeding(es, evs)
    ensures |Successors(es, evs)| <= |evs|
    ensures forall r | r in Successors(es, evs) ::
      r.weapon in es && es[r.weapon].weapon.Some?
      && r.generation < |es[r.weapon].weapon.value.loads|
      && r.load == es[r.weapon].weapon.value.loads[r.generation]
  {
    if evs != [] {
      SuccessorsStayInLoads(es, evs[..|evs| - 1]);
    }
  }

  // ---------------------------------------------------------------------
  // bullet_lifetime, bullet_endurance, bullet_before_despawn
  // ---------------------------------------------------------------------

  /** The entity after `bullet_lifetime`: its `LifeTime` ticks, and it is
      marked `BulletBeforeDespawn` on the tick that finishes the timer. */
  function Aged(c: Comps, dt: real): Comps
    requires dt >= 0.0
  {
    if c.lifeTime.Some? then
      var t := Tick(c.lifeTime.value, dt);
      c.(lifeTime := Some(t), beforeDespawn := c.beforeDespawn || JustFinished(t))
    else c
  }

  /** The world once entities `0 .. n-1` have been through `bullet_lifetime`. */
  function AgedBelow(es: map<Entity, Comps>, dt: real, n: nat): map<Entity, Comps>
    requires dt >= 0.0
  {
    map e | e in es :: if e < n then Aged(es[e], dt) else es[e]
  }

  /** One step of the pass: entity `i` is still as it was, and changes only
      when the query matches it. */
  lemma AgedStep(es: map<Entity, Comps>, dt: real, i: nat, cur: map<Entity, Comps>)
    requires dt >= 0.0 && cur == AgedBelow(es, dt, i)
    ensures (i in cur <==> i in es) && (i in es ==> cur[i] == es[i])
    ensures AgedBelow(es, dt, i + 1) == if i in es && es[i].lifeTime.Some? then cur[i := Aged(es[i], dt)] else cur
  {
  }

  /** `bullet_lifetime`. */
  method LifetimeSystem(w: World, dt: real)
    requires w.Valid() && dt >= 0.0
    modifies w
    ensures w.Valid() && w.nextId == old(w.nextId)
    ensures w.entities == map e | e in old(w.entities) :: Aged(old(w.entities)[e], dt)
  {
    var es, n := w.entities, w.nextId;
    var cur := es;
    var i := 0;
    assert cur == AgedBelow(es, dt, 0);
    while i < n
      modifies {}
      invariant 0 <= i <= n
      invariant cur == AgedBelow(es, dt, i)
    {
      AgedStep(es, dt, i, cur);
      if i in cur {
        var c := cur[i];
        if c.lifeTime.Some? {
          var t := Tick(c.lifeTime.value, dt);
          if JustFinished(t) {
            cur := cur[i := c.(lifeTime := Some(t), beforeDespawn := true)];
          } else {
            cur := cur[i := c.(lifeTime := Some(t))];
          }
        }
      }
      i := i + 1;
    }
    assert cur == AgedBelow(es, dt, n);
    w.entities := cur;
  }

  /** Elapsed time summed over ticks. */
  function Total(dts: seq<real>): real {
    if dts == [] then 0.0 else Total(dts[..|dts| - 1]) + dts[|dts| - 1]
  }

  predicate NonNegative(dts: seq<real>) {
    forall i | 0 <= i < |dts| :: dts[i] >= 0.0
  }

  /** A bullet after a run of `bullet_lifetime` ticks. */
  function AgedAll(c: Comps, dts: seq<real>): Comps
    requires NonNegative(dts)
  {
    if dts == [] then c else Aged(AgedAll(c, dts[..|dts| - 1]), dts[|dts| - 1])
  }

  /** A fresh bullet with life time `l` is marked for despawn exactly once the
      ticks add up to `l`, and its timer has then run to its end. */
  lemma {:induction false} MarkedWhenLifeTimeRunsOut(c: Comps, l: real, dts: seq<real>)
    requires c.lifeTime == Some(NewTimer(l, Once)) && !c.beforeDespawn && NonNegative(dts)
    ensures var a := AgedAll(c, dts);
      a.lifeTime.Some? && a.lifeTime.value.mode == Once && a.lifeTime.value.duration == l
      && (a.beforeDespawn <==> dts != [] && Total(dts) >= l)
      && (a.lifeTime.value.finished <==> dts != [] && Total(dts) >= l)
      && (!a.lifeTime.value.finished ==> a.lifeTime.value.elapsed == Total(dts))
  {
    if dts != [] {
      var init := dts[..|dts| - 1];
      MarkedWhenLifeTimeRunsOut(c, l, init);
      assert Total(dts) == Total(init) + dts[|dts| - 1];
    }
  }

  /** The entity after `bullet_endurance`: a negative endurance marks the
      bullet and removes its `BulletEndurance`; anything else is left alone. */
  function Exhausted(c: Comps): Comps {
    if c.endurance.Some? && c.endurance.value.Fin? && c.endurance.value.v < 0.0 then
      c.(beforeDespawn := true, endurance := None)
    else c
  }

  /** The world once entities `0 .. n-1` have been through `bullet_endurance`. */
  function ExhaustedBelow(es: map<Entity, Comps>, n: nat): map<Entity, Comps> {
    map e | e in es :: if e < n then Exhausted(es[e]) else es[e]
  }

  /** One step of the pass: entity `i` is still as it was, and changes only
      when the query matches it. */
  lemma ExhaustedStep(es: map<Entity, Comps>, i: nat, cur: map<Entity, Comps>)
    requires cur == ExhaustedBelow(es, i)
    ensures (i in cur <==> i in es) && (i in es ==> cur[i] == es[i])
    ensures ExhaustedBelow(es, i + 1) == if i in es && es[i].endurance.Some? && es[i].endurance.value.Fin? && es[i].endurance.value.v < 0.0 then cur[i := Exhausted(es[i])] else cur
  {
  }

  /** `bullet_endurance`. */
  method EnduranceSystem(w: World)
    requires w.Valid()
    modifies w
    ensures w.Valid() && w.nextId == old(w.nextId)
    ensures w.entities == map e | e in old(w.entities) :: Exhausted(old(w.entities)[e])
  {
    var es, n := w.entities, w.nextId;
    var cur := es;
    var i := 0;
    assert cur == ExhaustedBelow(es, 0);
    while i < n
      modifies {}
      invariant 0 <= i <= n
      invariant cur == ExhaustedBelow(es, i)
    {
      ExhaustedStep(es, i, cur);
      if i in cur {
        var c := cur[i];
        if c.endurance.Some? && c.endurance.value.Fin? && c.endurance.value.v < 0.0 {
          cur := cur[i := c.(beforeDespawn := true, endurance := None)];
        }
      }
      i := i + 1;
    }
    assert cur == ExhaustedBelow(es, n);
    w.entities := cur;
  }

  /** Only a strictly negative endurance marks the bullet: the 0 left by a
      whole budget used up does not, and an infinite one never does. */
  lemma ExhaustedOnlyBelowZero(c: Comps)
    ensures Exhausted(c).beforeDespawn != c.beforeDespawn || Exhausted(c).endurance != c.endurance
        <==> c.endurance.Some? && c.endurance.value.Fin? && c.endurance.value.v < 0.0
    ensures c.endurance == Some(Fin(0.0)) || c.endurance == Some(Inf) ==> Exhausted(c) == c
  {
  }

  /** The entity matches `bullet_before_despawn`'s query: a marked `Bullet`
      with `WeaponRef`, `BulletGeneration` and `Transform`. */
  predicate Despawning(c: Comps) {
    c.bullet.Some? && c.beforeDespawn && c.weaponRef.Some? && c.generation.Some? && c.transform.Some?
  }

  /** The succeed event a despawning bullet sends: one when its endurance is
      present and finite, none otherwise. */
  function LastSucceed(e: Entity, c: Comps): seq<SucceedEvent>
    requires Despawning(c)
  {
    if c.endurance.Some? && c.endurance.value.Fin? then
      [SucceedEvent(c.weaponRef.value, c.generation.value, e, c.transform.value)]
    else []
  }

  /** The succeed events of the despawning entities `0 .. n-1`. */
  function LastSucceeds(es: map<Entity, Comps>, n: nat): seq<SucceedEvent> {
    if n == 0 then []
    else LastSucceeds(es, n - 1) + (if n - 1 in es && Despawning(es[n - 1]) then LastSucceed(n - 1, es[n - 1]) else [])
  }

  /** `bullet_before_despawn`. */
  method BeforeDespawnSystem(w: World) returns (succeeds: seq<SucceedEvent>)
    requires w.Valid()
    modifies w
    ensures w.Valid() && w.nextId == old(w.nextId)
    ensures w.entities == map e | e in old(w.entities) && !Despawning(old(w.entities)[e]) :: old(w.entities)[e]
    ensures succeeds == LastSucceeds(old(w.entities), w.nextId)
  {
    ghost var es := w.entities;
    succeeds := [];
    var i := 0;
    while i < w.nextId
      invariant 0 <= i <= w.nextId == old(w.nextId)
      invariant forall e | e in w.entities :: e in es && w.entities[e] == es[e]
      invariant forall e | e in es :: e in w.entities <==> (e >= i || !Despawning(es[e]))
      invariant succeeds == LastSucceeds(es, i)
    {
      if i in w.entities {
        var c := w.entities[i];
        if c.bullet.Some? && c.beforeDespawn && c.weaponRef.Some? && c.generation.Some? && c.transform.Some? {
          if c.endurance.Some? && c.endurance.value.Fin? {
            succeeds := succeeds + [SucceedEvent(c.weaponRef.value, c.generation.value, i, c.transform.value)];
          }
          w.entities := w.entities - {i};
        }
      }
      i := i + 1;
    }
  }

  /** A bullet with infinite endurance never chains when it dies. */
  lemma InfiniteEnduranceNeverChains(e: Entity, c: Comps)
    requires Despawning(c) && c.endurance == Some(Inf)
    ensures LastSucceed(e, c) == []
  {
  }

  /** A bullet whose endurance went negative is marked and stripped of its
      endurance by `bullet_endurance`, so `bullet_before_despawn` despawns it
      without a succeed event; whereas a bullet whose life time ran out with a
      finite endurance of 0 or more chains exactly once, with its generation. */
  lemma ExhaustedDiesSilently(e: Entity, c: Comps)
    requires c.bullet.Some? && c.weaponRef.Some? && c.generation.Some? && c.transform.Some?
    ensures c.endurance.Some? && c.endurance.value.Fin? && c.endurance.value.v < 0.0 ==>
      Despawning(Exhausted(c)) && LastSucceed(e, Exhausted(c)) == []
    ensures c.beforeDespawn && c.endurance.Some? && c.endurance.value.Fin? && c.endurance.value.v >= 0.0 ==>
      Despawning(Exhausted(c))
      && LastSucceed(e, Exhausted(c)) == [SucceedEvent(c.weaponRef.value, c.generation.value, e, c.transform.value)]
  {
  }

  /** Each despawning bullet sends at most one succeed event, carrying its own
      generation and weapon. */
  lemma {:induction false} OneLastSucceedPerBullet(es: map<Entity, Comps>, n: nat)
    ensures |LastSucceeds(es, n)| <= n
    ensures forall s | s in LastSucceeds(es, n) ::
      s.bullet < n && s.bullet in es && Despawning(es[s.bullet])
      && es[s.bullet].generation == Some(s.generation) && es[s.bullet].weaponRef == Some(s.weapon)
      && es[s.bullet].endurance.Some? && es[s.bullet].endurance.value.Fin?
    ensures forall i, j | 0 <= i < j < |LastSucceeds(es, n)| ::
      LastSucceeds(es, n)[i].bullet < LastSucceeds(es, n)[j].bullet
  {
    if n > 0 {
      OneLastSucceedPerBullet(es, n - 1);
      var s := LastSucceeds(es, n - 1);
      forall i | 0 <= i < |s| ensures s[i].bullet < n - 1 {
        assert s[i] in s;
      }
    }
  }

  // ---------------------------------------------------------------------
  // The per-variant initializers
  // ---------------------------------------------------------------------

  /** The collider each variant's initializer inserts. */
  function ShapeOf(k: BulletType): Collider {
    match k
    case Lane => Ball(3.0)
    case Explode => Ball(50.0)
    case Splash(_, _) => Ball(3.0)
    case Lazer(length, width) => Cuboid(width, length)
  }

  /** A bullet still waiting for its initializer: it has `InitPosition`. */
  predicate Pending(c: Comps) {
    c.bullet.Some? && c.initPosition.Some? && c.kind.Some?
  }

  /** The bullet after its initializer: placed at `InitPosition`, given a
      one-shot `LifeTime` of `life_time` seconds, `BulletEndurance(endurance)`,
      its collider and (except for an explode shot) a dynamic body; its
      `InitPosition` is removed. */
  function Initialized(c: Comps): Comps
    requires Pending(c)
  {
    c.(transform := c.initPosition, lifeTime := Some(NewTimer(c.bullet.value.lifeTime, Once)),
       endurance := Some(c.bullet.value.endurance), collider := Some(ShapeOf(c.kind.value)),
       dynamicBody := if c.kind.value.Explode? then c.dynamicBody else true, initPosition := None)
  }

  /** A spawned bullet, once initialized, sits where its shooter stood, lives
      for its load's `life_time`, carries the load's endurance, generation
      `g + 1` and an empty `HitCount`, and is no longer waiting. */
  lemma SpawnedThenInitialized(ev: SpawnEvent, byPlayer: bool)
    ensures Pending(Fired(ev, byPlayer))
    ensures var c := Initialized(Fired(ev, byPlayer));
      !Pending(c)
      && c.transform == Some(ev.shooter)
      && c.lifeTime == Some(NewTimer(ev.load.bullet.lifeTime, Once)) && !JustFinished(c.lifeTime.value)
      && c.endurance == Some(ev.load.bullet.endurance)
      && c.generation == Some(ev.generation + 1) && c.hitCount == Some(map[])
      && c.shooter == Some(ev.holder) && c.weaponRef == Some(ev.weapon)
      && (c.dynamicBody <==> !ev.load.kind.Explode?)
      && !c.beforeDespawn && c.movement.None?
  {
  }

  /** The three initializers that place a bullet unconditionally. */
  datatype BodyTag = LaneTag | ExplodeTag | SplashTag

  predicate Tagged(t: BodyTag, k: BulletType) {
    match t
    case LaneTag => k.Lane?
    case ExplodeTag => k.Explode?
    case SplashTag => k.Splash?
  }

  /** The entity after the initializer for `t`. */
  function BodyInit(c: Comps, t: BodyTag): Comps {
    if Pending(c) && Tagged(t, c.kind.value) then Initialized(c) else c
  }

  /** Each initializer handles only its own variant and runs once per bullet:
      a second pass leaves every entity as the first one left it. */
  lemma BodyInitOnce(c: Comps, t: BodyTag, u: BodyTag)
    ensures BodyInit(BodyInit(c, t), u) == BodyInit(c, t) || (t != u && BodyInit(c, t) == c)
    ensures BodyInit(BodyInit(c, t), t) == BodyInit(c, t)
    ensures BodyInit(c, t) != c ==> Pending(c) && Tagged(t, c.kind.value)
  {
  }

  /** The world once entities `0 .. n-1` have been through the initializer for `t`. */
  function BodyBelow(es: map<Entity, Comps>, t: BodyTag, n: nat): map<Entity, Comps> {
    map e | e in es :: if e < n then BodyInit(es[e], t) else es[e]
  }

  /** One step of the pass: entity `i` is still as it was, and changes only
      when the query matches it. */
  lemma BodyStep(es: map<Entity, Comps>, t: BodyTag, i: nat, cur: map<Entity, Comps>)
    requires cur == BodyBelow(es, t, i)
    ensures (i in cur <==> i in es) && (i in es ==> cur[i] == es[i])
    ensures BodyBelow(es, t, i + 1) == if i in es && Pending(es[i]) && Tagged(t, es[i].kind.value) then cur[i := BodyInit(es[i], t)] else cur
  {
  }

  /** `lane_shot_bullet_initializer`, `explode_shot_bullet_initializer` and
      `splash_shot_bullet_initializer`, selected by `t`. */
  method BodyInitializer(w: World, t: BodyTag)
    requires w.Valid()
    modifies w
    ensures w.Valid() && w.nextId == old(w.nextId)
    ensures w.entities == map e | e in old(w.entities) :: BodyInit(old(w.entities)[e], t)
  {
    var es, n := w.entities, w.nextId;
    var cur := es;
    var i := 0;
    assert cur == BodyBelow(es, t, 0);
    while i < n
      modifies {}
      invariant 0 <= i <= n
      invariant cur == BodyBelow(es, t, i)
    {
      BodyStep(es, t, i, cur);
      if i in cur {
        var c := cur[i];
        if c.bullet.Some? && c.initPosition.Some? && c.kind.Some? {
          var matches := match t
            case LaneTag => c.kind.value.Lane?
            case ExplodeTag => c.kind.value.Explode?
            case SplashTag => c.kind.value.Splash?;
          if matches {
            var b := c.bullet.value;
            cur := cur[i := c.(transform := c.initPosition,
              lifeTime := Some(NewTimer(b.lifeTime, Once)), endurance := Some(b.endurance),
              collider := Some(ShapeOf(c.kind.value)),
              dynamicBody := if c.kind.value.Explode? then c.dynamicBody else true,
              initPosition := None)];
          }
        }
      }
      i := i + 1;
    }
    assert cur == BodyBelow(es, t, n);
    w.entities := cur;
  }

  // ---------------------------------------------------------------------
  // lazer_shot_bullet_initializer: one beam per shooter
  // ---------------------------------------------------------------------

  /** A laser waiting for its initializer (the initializer's query). */
  predicate PendingLazer(c: Comps) {
    Pending(c) && c.kind.value.Lazer? && c.shooter.Some?
  }

  /** An initialized laser (the `spawned_bullet` query: `LazerShot` and
      `Shooter`, without `InitPosition`). */
  predicate Beam(c: Comps) {
    c.kind.Some? && c.kind.value.Lazer? && c.initPosition.None? && c.shooter.Some?
  }

  /** The shooters that already have a beam, as the pass sees them: the query
      reads the world as it was before the pass's own commands. */
  function BeamShooters(es: map<Entity, Comps>): set<Entity> {
    set e | e in es && Beam(es[e]) :: es[e].shooter.value
  }

  /** A pending laser whose shooter already has a beam is despawned. */
  predicate Refused(es: map<Entity, Comps>, e: Entity)
    requires e in es
  {
    PendingLazer(es[e]) && es[e].shooter.value in BeamShooters(es)
  }

  /** The world after `lazer_shot_bullet_initializer`. */
  function LazerPass(es: map<Entity, Comps>): map<Entity, Comps> {
    map e | e in es && !Refused(es, e) :: if PendingLazer(es[e]) then Initialized(es[e]) else es[e]
  }

  /** The world once entities `0 .. n-1` have been through the pass. */
  function LazerBelow(es: map<Entity, Comps>, n: nat): map<Entity, Comps> {
    map e | e in es && !(e < n && Refused(es, e)) ::
      if e < n && PendingLazer(es[e]) then Initialized(es[e]) else es[e]
  }

  /** One step of the pass. */
  lemma LazerStep(es: map<Entity, Comps>, i: nat, cur: map<Entity, Comps>)
    requires cur == LazerBelow(es, i)
    ensures (i in cur <==> i in es) && (i in es ==> cur[i] == es[i])
    ensures i in es && Refused(es, i) ==> LazerBelow(es, i + 1) == cur - {i}
    ensures i in es && PendingLazer(es[i]) && !Refused(es, i) ==>
      LazerBelow(es, i + 1) == cur[i := Initialized(es[i])]
    ensures !(i in es && PendingLazer(es[i])) ==> LazerBelow(es, i + 1) == cur
  {
  }

  /** `lazer_shot_bullet_initializer`. */
  method LazerInitializer(w: World)
    requires w.Valid()
    modifies w
    ensures w.Valid() && w.nextId == old(w.nextId)
    ensures w.entities == LazerPass(old(w.entities))
  {
    ghost var es := w.entities;
    var shooters := set e | e in w.entities && Beam(w.entities[e]) :: w.entities[e].shooter.value;
    assert shooters == BeamShooters(es);
    var i := 0;
    assert w.entities == LazerBelow(es, 0);
    while i < w.nextId
      invariant 0 <= i <= w.nextId == old(w.nextId)
      invariant w.entities == LazerBelow(es, i)
    {
      LazerStep(es, i, w.entities);
      if i in w.entities {
        var c := w.entities[i];
        if c.bullet.Some? && c.initPosition.Some? && c.kind.Some? && c.kind.value.Lazer? && c.shooter.Some? {
          if c.shooter.value in shooters {
            w.entities := w.entities - {i};
          } else {
            var b := c.bullet.value;
            w.entities := w.entities[i := c.(transform := c.initPosition,
              lifeTime := Some(NewTimer(b.lifeTime, Once)), endurance := Some(b.endurance),
              collider := Some(ShapeOf(c.kind.value)), dynamicBody := true, initPosition := None)];
          }
        }
      }
      i := i + 1;
    }
    assert LazerBelow(es, i) == LazerPass(es);
  }

  /** No shooter has two beams. */
  predicate OneBeamEach(es: map<Entity, Comps>) {
    forall a, b | a in es && b in es && Beam(es[a]) && Beam(es[b]) && es[a].shooter == es[b].shooter :: a == b
  }

  /** No two lasers of the same shooter wait in the same pass. */
  predicate DistinctPendingShooters(es: map<Entity, Comps>) {
    forall a, b | a in es && b in es && PendingLazer(es[a]) && PendingLazer(es[b])
                  && es[a].shooter == es[b].shooter :: a == b
  }

  /** A waiting laser becomes a beam exactly when its shooter has none yet,
      and is despawned otherwise; while lasers of one shooter arrive in
      different passes, the pass keeps at most one beam per shooter. */
  lemma LazerKeepsOneBeamPerShooter(es: map<Entity, Comps>)
    ensures forall e | e in es && PendingLazer(es[e]) ::
      (e in LazerPass(es) <==> es[e].shooter.value !in BeamShooters(es))
      && (e in LazerPass(es) ==> Beam(LazerPass(es)[e]))
    ensures OneBeamEach(es) && DistinctPendingShooters(es) ==> OneBeamEach(LazerPass(es))
  {
    var r := LazerPass(es);
    if OneBeamEach(es) && DistinctPendingShooters(es) {
      forall a, b | a in r && b in r && Beam(r[a]) && Beam(r[b]) && r[a].shooter == r[b].shooter
        ensures a == b
      {
      }
    }
  }

  /** Two lasers of one shooter waiting in the same pass both become beams:
      the existence check reads the world before the pass. */
  lemma SamePassLazersBothInitialized(c: Comps)
    requires PendingLazer(c) && c.transform.None?
    ensures var es := map[0 := c, 1 := c];
      0 in LazerPass(es) && 1 in LazerPass(es)
      && Beam(LazerPass(es)[0]) && Beam(LazerPass(es)[1])
      && !OneBeamEach(LazerPass(es))
  {
    var es := map[0 := c, 1 := c];
    assert BeamShooters(es) == {};
  }

  // ---------------------------------------------------------------------
  // The move systems: Movement is inserted once
  // ---------------------------------------------------------------------

  /** `lane_shot_move_system`'s query: a lane shot with `Bullet` and
      `Transform` and no `Movement` yet. */
  predicate LaneReady(c: Comps) {
    c.kind == Some(Lane) && c.bullet.Some? && c.transform.Some? && c.movement.None?
  }

  /** A lane shot flies straight along the heading it was placed with. */
  function LaneLaunched(c: Comps): Comps {
    if LaneReady(c) then
      c.(movement := Some(DirectionMove(c.transform.value.heading)), speed := Some(c.bullet.value.speed))
    else c
  }

  /** A ready lane shot gets its straight-line movement along its heading
      and its bullet's speed, and no longer matches the query afterwards, so
      a second pass leaves it as it is. */
  lemma LaneLaunchedOnce(c: Comps)
    requires LaneReady(c)
    ensures LaneLaunched(c).movement == Some(DirectionMove(c.transform.value.heading))
    ensures LaneLaunched(c).speed == Some(c.bullet.value.speed)
    ensures !LaneReady(LaneLaunched(c))
    ensures LaneLaunched(LaneLaunched(c)) == LaneLaunched(c)
  {
  }

  /** The world once entities `0 .. n-1` have been through `lane_shot_move_system`. */
  function LaneBelow(es: map<Entity, Comps>, n: nat): map<Entity, Comps> {
    map e | e in es :: if e < n then LaneLaunched(es[e]) else es[e]
  }

  /** One step of the pass: entity `i` is still as it was, and changes only
      when the query matches it. */
  lemma LaneStep(es: map<Entity, Comps>, i: nat, cur: map<Entity, Comps>)
    requires cur == LaneBelow(es, i)
    ensures (i in cur <==> i in es) && (i in es ==> cur[i] == es[i])
    ensures LaneBelow(es, i + 1) == if i in es && LaneReady(es[i]) then cur[i := LaneLaunched(es[i])] else cur
  {
  }

  /** `lane_shot_move_system`. */
  method LaneMoveSystem(w: World)
    requires w.Valid()
    modifies w
    ensures w.Valid() && w.nextId == old(w.nextId)
    ensures w.entities == map e | e in old(w.entities) :: LaneLaunched(old(w.entities)[e])
  {
    var es, n := w.entities, w.nextId;
    var cur := es;
    var i := 0;
    assert cur == LaneBelow(es, 0);
    while i < n
      modifies {}
      invariant 0 <= i <= n
      invariant cur == LaneBelow(es, i)
    {
      LaneStep(es, i, cur);
      if i in cur {
        var c := cur[i];
        if c.kind == Some(Lane) && c.bullet.Some? && c.transform.Some? && c.movement.None? {
          cur := cur[i := c.(movement := Some(DirectionMove(c.transform.value.heading)),
                             speed := Some(c.bullet.value.speed))];
        }
      }
      i := i + 1;
    }
    assert cur == LaneBelow(es, n);
    w.entities := cur;
  }

  /** `splash_shot_move_system`'s query: a splash shot with `WeaponRef`,
      `Bullet` and `Transform` and no `Movement` yet. */
  predicate SplashReady(c: Comps) {
    c.kind.Some? && c.kind.value.Splash? && c.weaponRef.Some? && c.bullet.Some? && c.transform.Some?
    && c.movement.None?
  }

  /** What the splash system unwraps and samples: the bullet's weapon is live
      with `Weapon`, and its draw lies in `[-angle, angle)`, which
      `gen_range` requires to be non-empty. */
  predicate SplashDraws(es: map<Entity, Comps>, draws: map<Entity, real>) {
    forall e | e in es && SplashReady(es[e]) ::
      es[e].weaponRef.value in es && es[es[e].weaponRef.value].weapon.Some?
      && e in draws && -es[e].kind.value.angle <= draws[e] < es[e].kind.value.angle
  }

  /** The angle drawn for entity `e`. */
  function DrawFor(draws: map<Entity, real>, e: Entity): real {
    if e in draws then draws[e] else 0.0
  }

  /** A splash shot flies along its heading turned by its draw. */
  function SplashLaunched(c: Comps, draw: real): Comps {
    if SplashReady(c) then
      c.(movement := Some(DirectionMove(c.transform.value.heading + draw)), speed := Some(c.bullet.value.speed))
    else c
  }

  /** A splash bullet leaves within `angle` of the heading it was placed
      with, at its bullet's speed, and once it moves no later pass changes
      its direction, whatever is drawn. */
  lemma SplashStaysInCone(c: Comps, draw: real, later: real)
    requires SplashReady(c) && -c.kind.value.angle <= draw < c.kind.value.angle
    ensures var d := SplashLaunched(c, draw);
      d.movement.Some? && d.movement.value.DirectionMove?
      && -c.kind.value.angle <= d.movement.value.heading - c.transform.value.heading < c.kind.value.angle
      && d.speed == Some(c.bullet.value.speed)
      && SplashLaunched(d, later) == d && LaneLaunched(d) == d
  {
  }

  /** The world once entities `0 .. n-1` have been through `splash_shot_move_system`. */
  function SplashBelow(es: map<Entity, Comps>, draws: map<Entity, real>, n: nat): map<Entity, Comps> {
    map e | e in es :: if e < n then SplashLaunched(es[e], DrawFor(draws, e)) else es[e]
  }

  /** One step of the pass: entity `i` is still as it was, and changes only
      when the query matches it. */
  lemma SplashStep(es: map<Entity, Comps>, draws: map<Entity, real>, i: nat, cur: map<Entity, Comps>)
    requires cur == SplashBelow(es, draws, i)
    ensures (i in cur <==> i in es) && (i in es ==> cur[i] == es[i])
    ensures SplashBelow(es, draws, i + 1) == if i in es && SplashReady(es[i]) then cur[i := SplashLaunched(es[i], DrawFor(draws, i))] else cur
  {
  }

  /** `splash_shot_move_system`, with `draws[e]` the angle drawn for `e`. */
  method SplashMoveSystem(w: World, draws: map<Entity, real>)
    requires w.Valid() && SplashDraws(w.entities, draws)
    modifies w
    ensures w.Valid() && w.nextId == old(w.nextId)
    ensures w.entities == map e | e in old(w.entities) ::
      SplashLaunched(old(w.entities)[e], DrawFor(draws, e))
  {
    var es, n := w.entities, w.nextId;
    var cur := es;
    var i := 0;
    assert cur == SplashBelow(es, draws, 0);
    while i < n
      modifies {}
      invariant 0 <= i <= n
      invariant cur == SplashBelow(es, draws, i)
    {
      SplashStep(es, draws, i, cur);
      if i in cur {
        var c := cur[i];
        if c.kind.Some? && c.kind.value.Splash? && c.weaponRef.Some? && c.bullet.Some? && c.transform.Some?
           && c.movement.None? {
          var angle := draws[i];
          cur := cur[i := c.(movement := Some(DirectionMove(c.transform.value.heading + angle)),
                             speed := Some(c.bullet.value.speed))];
        }
      }
      i := i + 1;
    }
    assert cur == SplashBelow(es, draws, n);
    w.entities := cur;
  }

  /** `lazer_shot_move_system`'s query: an initialized laser with `Bullet`,
      `Transform` and `Shooter` and no `Aims` yet. */
  predicate LazerReady(c: Comps) {
    c.kind.Some? && c.kind.value.Lazer? && c.aims.None? && c.initPosition.None?
    && c.bullet.Some? && c.transform.Some? && c.shooter.Some?
  }

  /** What the laser system unwraps: every such laser's shooter is live with `Aims`. */
  predicate ShootersAim(es: map<Entity, Comps>) {
    forall e | e in es && LazerReady(es[e]) :: es[e].shooter.value in es && es[es[e].shooter.value].aims.Some?
  }

  /** A laser takes a copy of its shooter's aim point. */
  function Aimed(es: map<Entity, Comps>, c: Comps): Comps
    requires LazerReady(c) ==> c.shooter.value in es && es[c.shooter.value].aims.Some?
  {
    if LazerReady(c) then c.(aims := es[c.shooter.value].aims) else c
  }

  /** The aim point is copied once: a laser that has it keeps it through any
      later pass, whatever its shooter aims at by then. */
  lemma LazerAimCopiedOnce(es: map<Entity, Comps>, later: map<Entity, Comps>, c: Comps)
    requires LazerReady(c) && c.shooter.value in es && es[c.shooter.value].aims.Some?
    ensures Aimed(es, c).aims == es[c.shooter.value].aims
    ensures Aimed(later, Aimed(es, c)) == Aimed(es, c)
  {
  }

  /** The world once entities `0 .. n-1` have been through `lazer_shot_move_system`. */
  function AimedBelow(es: map<Entity, Comps>, n: nat): map<Entity, Comps>
    requires ShootersAim(es)
  {
    map e | e in es :: if e < n then Aimed(es, es[e]) else es[e]
  }

  /** One step of the pass: entity `i` is still as it was, and changes only
      when the query matches it. */
  lemma AimedStep(es: map<Entity, Comps>, i: nat, cur: map<Entity, Comps>)
    requires ShootersAim(es) && cur == AimedBelow(es, i)
    ensures (i in cur <==> i in es) && (i in es ==> cur[i] == es[i])
    ensures AimedBelow(es, i + 1) == if i in es && LazerReady(es[i]) then cur[i := Aimed(es, es[i])] else cur
  {
  }

  /** `lazer_shot_move_system`: the aim points are read from the world as it
      was before the pass. */
  method LazerMoveSystem(w: World)
    requires w.Valid() && ShootersAim(w.entities)
    modifies w
    ensures w.Valid() && w.nextId == old(w.nextId)
    ensures w.entities == map e | e in old(w.entities) :: Aimed(old(w.entities), old(w.entities)[e])
  {
    var es, n := w.entities, w.nextId;
    var cur := es;
    var i := 0;
    assert cur == AimedBelow(es, 0);
    while i < n
      modifies {}
      invariant 0 <= i <= n
      invariant cur == AimedBelow(es, i)
    {
      AimedStep(es, i, cur);
      if i in cur {
        var c := cur[i];
        if c.kind.Some? && c.kind.value.Lazer? && c.aims.None? && c.initPosition.None?
           && c.bullet.Some? && c.transform.Some? && c.shooter.Some? {
          cur := cur[i := c.(aims := es[c.shooter.value].aims)];
        }
      }
      i := i + 1;
    }
    assert cur == AimedBelow(es, n);
    w.entities := cur;
  }
}
