/**
  Hit accounting of src/main.rs: `HitCount` and `bullet_hit_system` (contacts
  become hit events, at most `hit_limit` per bullet and target),
  `bullet_hit_endurance_system` (first hits chain the next generation and wear
  the bullet's endurance), `hit_damage_system` and `life_dies_system`.
  Physics contacts are an input: for each bullet, the entities it touches, in
  the order the collision set yields them.
*/
module Hits {
  import opened Ecs

  // ---------------------------------------------------------------------
  // HitCount and bullet_hit_system
  // ---------------------------------------------------------------------

  /** How often the bullet has hit `t`; an absent entry reads as zero. */
  function Count(m: map<Entity, nat>, t: Entity): nat {
    if t in m then m[t] else 0
  }

  /** One bullet's pass over the entities it touches: each touched entity
      that has `Life` gets its count raised by one (inserted at 1), and a hit
      event is sent while the new count is within `hit_limit`, flagged as a
      first hit when the count is 1. */
  function Tally(counts: map<Entity, nat>, touching: seq<Entity>, hitable: set<Entity>,
                 limit: Limit, bullet: Entity, at: Transform): (map<Entity, nat>, seq<HitEvent>)
    decreases |touching|
  {
    if touching == [] then (counts, [])
    else
      var t := touching[0];
      if t !in hitable then Tally(counts, touching[1..], hitable, limit, bullet, at)
      else
        var n := Count(counts, t) + 1;
        var rest := Tally(counts[t := n], touching[1..], hitable, limit, bullet, at);
        (rest.0, (if WithinLimit(n, limit) then [HitEvent(bullet, t, at, n == 1)] else []) + rest.1)
  }

  /** Counts rise by exactly the number of times a target with `Life` was
      touched; targets without `Life` and untouched targets keep their counts,
      so no count ever decreases. */
  lemma {:induction false} TallyCounts(counts: map<Entity, nat>, touching: seq<Entity>, hitable: set<Entity>,
                                       limit: Limit, bullet: Entity, at: Transform, t: Entity)
    ensures Count(Tally(counts, touching, hitable, limit, bullet, at).0, t)
         == Count(counts, t) + (if t in hitable then multiset(touching)[t] else 0)
    ensures t in Tally(counts, touching, hitable, limit, bullet, at).0
        <==> t in counts || (t in hitable && t in touching)
    decreases |touching|
  {
    if touching != [] {
      var u := touching[0];
      assert touching == [u] + touching[1..];
      assert multiset(touching) == multiset{u} + multiset(touching[1..]);
      if u !in hitable {
        TallyCounts(counts, touching[1..], hitable, limit, bullet, at, t);
      } else {
        TallyCounts(counts[u := Count(counts, u) + 1], touching[1..], hitable, limit, bullet, at, t);
      }
    }
  }

  /** The hit events of a sequence that concern target `t`. */
  function EventsOn(hits: seq<HitEvent>, t: Entity): seq<HitEvent> {
    if hits == [] then []
    else EventsOn(hits[..|hits| - 1], t) + (if hits[|hits| - 1].target == t then [hits[|hits| - 1]] else [])
  }

  lemma {:induction false} EventsOnAppend(a: seq<HitEvent>, b: seq<HitEvent>, t: Entity)
    ensures EventsOn(a + b, t) == EventsOn(a, t) + EventsOn(b, t)
    decreases |b|
  {
    if b != [] {
      assert (a + b)[..|a + b| - 1] == a + b[..|b| - 1];
      assert (a + b)[|a + b| - 1] == b[|b| - 1];
      EventsOnAppend(a, b[..|b| - 1], t);
    } else {
      assert a + b == a;
    }
  }

  /** How many counts `k` with `a < k <= b` are within the limit. */
  function Allowed(a: nat, b: nat, limit: Limit): nat
    decreases b
  {
    if b <= a then 0 else Allowed(a, b - 1, limit) + (if WithinLimit(b, limit) then 1 else 0)
  }

  lemma {:induction false} AllowedSplit(a: nat, b: nat, c: nat, limit: Limit)
    requires a <= b <= c
    ensures Allowed(a, b, limit) + Allowed(b, c, limit) == Allowed(a, c, limit)
    decreases c
  {
    if b < c {
      AllowedSplit(a, b, c - 1, limit);
    }
  }

  /** Starting from no hits, at most `hit_limit` counts are within the limit. */
  lemma {:induction false} AllowedWithinLimit(b: nat, v: real)
    ensures Allowed(0, b, Fin(v)) <= b
    ensures Allowed(0, b, Fin(v)) as real <= (if v < 0.0 then 0.0 else v)
    decreases b
  {
    if b > 0 {
      AllowedWithinLimit(b - 1, v);
    }
  }

  /** The events a tally sends on target `t` are exactly one per count it
      passes through that is within the limit. */
  lemma {:induction false} TallyEventCount(counts: map<Entity, nat>, touching: seq<Entity>, hitable: set<Entity>,
                                           limit: Limit, bullet: Entity, at: Transform, t: Entity)
    ensures var r := Tally(counts, touching, hitable, limit, bullet, at);
      Count(counts, t) <= Count(r.0, t)
      && |EventsOn(r.1, t)| == Allowed(Count(counts, t), Count(r.0, t), limit)
    decreases |touching|
  {
    if touching != [] {
      var u := touching[0];
      if u !in hitable {
        TallyEventCount(counts, touching[1..], hitable, limit, bullet, at, t);
      } else {
        var n := Count(counts, u) + 1;
        var c1 := counts[u := n];
        var rest := Tally(c1, touching[1..], hitable, limit, bullet, at);
        var head := if WithinLimit(n, limit) then [HitEvent(bullet, u, at, n == 1)] else [];
        TallyEventCount(c1, touching[1..], hitable, limit, bullet, at, t);
        EventsOnAppend(head, rest.1, t);
        if u == t {
          assert EventsOn(head, t) == head by {
            if head != [] { assert head[..0] == []; }
          }
          AllowedSplit(Count(counts, t), n, Count(rest.0, t), limit);
        } else {
          assert EventsOn(head, t) == [] by {
            if head != [] { assert head[..0] == []; }
          }
        }
      }
    }
  }

  /** The contacts of one bullet on one tick. */
  datatype Contact = Contact(touching: seq<Entity>, hitable: set<Entity>, at: Transform)

  /** A bullet's hit counts and hit events over a run of ticks. */
  function TallyTicks(counts: map<Entity, nat>, ticks: seq<Contact>, limit: Limit, bullet: Entity)
    : (map<Entity, nat>, seq<HitEvent>)
  {
    if ticks == [] then (counts, [])
    else
      var before := TallyTicks(counts, ticks[..|ticks| - 1], limit, bullet);
      var last := ticks[|ticks| - 1];
      var now := Tally(before.0, last.touching, last.hitable, limit, bullet, last.at);
      (now.0, before.1 + now.1)
  }

  lemma {:induction false} TallyTicksEventCount(counts: map<Entity, nat>, ticks: seq<Contact>,
                                                limit: Limit, bullet: Entity, t: Entity)
    ensures var r := TallyTicks(counts, ticks, limit, bullet);
      Count(counts, t) <= Count(r.0, t)
      && |EventsOn(r.1, t)| == Allowed(Count(counts, t), Count(r.0, t), limit)
    decreases |ticks|
  {
    if ticks != [] {
      var before := TallyTicks(counts, ticks[..|ticks| - 1], limit, bullet);
      var last := ticks[|ticks| - 1];
      var now := Tally(before.0, last.touching, last.hitable, limit, bullet, last.at);
      TallyTicksEventCount(counts, ticks[..|ticks| - 1], limit, bullet, t);
      TallyEventCount(before.0, last.touching, last.hitable, limit, bullet, last.at, t);
      EventsOnAppend(before.1, now.1, t);
      AllowedSplit(Count(counts, t), Count(before.0, t), Count(now.0, t), limit);
    }
  }

  /** Over the whole life of a bullet, which starts with an empty `HitCount`,
      it sends at most `hit_limit` hit events to any one target; with
      `hit_limit = 1`, at most one, however many contacts follow. */
  lemma HitLimitBoundsEvents(ticks: seq<Contact>, v: real, bullet: Entity, t: Entity)
    ensures |EventsOn(TallyTicks(map[], ticks, Fin(v), bullet).1, t)| as real <= (if v < 0.0 then 0.0 else v)
    ensures v == 1.0 ==> |EventsOn(TallyTicks(map[], ticks, Fin(v), bullet).1, t)| <= 1
  {
    var r := TallyTicks(map[], ticks, Fin(v), bullet);
    TallyTicksEventCount(map[], ticks, Fin(v), bullet, t);
    AllowedWithinLimit(Count(r.0, t), v);
  }

  /** The events of a tally that are flagged as first hits. */
  function FirstHits(hits: seq<HitEvent>): seq<HitEvent> {
    if hits == [] then []
    else FirstHits(hits[..|hits| - 1]) + (if hits[|hits| - 1].firstHit then [hits[|hits| - 1]] else [])
  }

  lemma {:induction false} FirstHitsAppend(a: seq<HitEvent>, b: seq<HitEvent>)
    ensures FirstHits(a + b) == FirstHits(a) + FirstHits(b)
    decreases |b|
  {
    if b != [] {
      assert (a + b)[..|a + b| - 1] == a + b[..|b| - 1];
      assert (a + b)[|a + b| - 1] == b[|b| - 1];
      FirstHitsAppend(a, b[..|b| - 1]);
    } else {
      assert a + b == a;
    }
  }

  /** A tally flags a hit on `t` as the first exactly when the bullet had not
      hit `t` before and now has, and 1 is within the limit. */
  lemma {:induction false} FirstHitOnlyOnFirstContact(counts: map<Entity, nat>, touching: seq<Entity>,
                                                      hitable: set<Entity>, limit: Limit, bullet: Entity,
                                                      at: Transform, t: Entity)
    ensures var r := Tally(counts, touching, hitable, limit, bullet, at);
      |FirstHits(EventsOn(r.1, t))|
        == if Count(counts, t) == 0 && Count(r.0, t) > 0 && WithinLimit(1, limit) then 1 else 0
    decreases |touching|
  {
    if touching != [] {
      var u := touching[0];
      if u !in hitable {
        FirstHitOnlyOnFirstContact(counts, touching[1..], hitable, limit, bullet, at, t);
      } else {
        var n := Count(counts, u) + 1;
        var c1 := counts[u := n];
        var rest := Tally(c1, touching[1..], hitable, limit, bullet, at);
        var head := if WithinLimit(n, limit) then [HitEvent(bullet, u, at, n == 1)] else [];
        FirstHitOnlyOnFirstContact(c1, touching[1..], hitable, limit, bullet, at, t);
        TallyEventCount(c1, touching[1..], hitable, limit, bullet, at, t);
        EventsOnAppend(head, rest.1, t);
        FirstHitsAppend(EventsOn(head, t), EventsOn(rest.1, t));
        if head != [] {
          assert head[..0] == [];
          assert EventsOn(head, t) == if u == t then head else [];
          assert FirstHits(head) == if n == 1 then head else [];
        }
      }
    }
  }

  /** `bullet_hit_system`'s inner loop, for one bullet. */
  method TallyContacts(counts: map<Entity, nat>, touching: seq<Entity>, hitable: set<Entity>,
                       limit: Limit, bullet: Entity, at: Transform)
    returns (after: map<Entity, nat>, hits: seq<HitEvent>)
    ensures (after, hits) == Tally(counts, touching, hitable, limit, bullet, at)
  {
    after, hits := counts, [];
    var k := 0;
    while k < |touching|
      invariant 0 <= k <= |touching|
      invariant Tally(after, touching[k..], hitable, limit, bullet, at).0
             == Tally(counts, touching, hitable, limit, bullet, at).0
      invariant hits + Tally(after, touching[k..], hitable, limit, bullet, at).1
             == Tally(counts, touching, hitable, limit, bullet, at).1
    {
      var t := touching[k];
      assert touching[k..][1..] == touching[k + 1..];
      if t in hitable {
        var n := if t in after then after[t] + 1 else 1;
        after := after[t := n];
        if WithinLimit(n, limit) {
          hits := hits + [HitEvent(bullet, t, at, n == 1)];
        }
      }
      k := k + 1;
    }
    assert touching[k..] == [];
    assert Tally(after, touching[k..], hitable, limit, bullet, at) == (after, []);
    assert hits + [] == hits;
  }

  /** The entity matches `bullet_hit_system`'s query: a `Bullet` with a
      `HitCount` and a `Transform` (that is, one already initialized). */
  predicate Tallied(c: Comps) {
    c.bullet.Some? && c.hitCount.Some? && c.transform.Some?
  }

  /** The entities with `Life`: the ones a bullet can hit. */
  function Hitable(es: map<Entity, Comps>): set<Entity> {
    set e | e in es && es[e].life.Some?
  }

  function Touching(contacts: map<Entity, seq<Entity>>, e: Entity): seq<Entity> {
    if e in contacts then contacts[e] else []
  }

  /** One bullet's tally against this tick's contacts. */
  function TallyOf(es: map<Entity, Comps>, contacts: map<Entity, seq<Entity>>, e: Entity)
    : (map<Entity, nat>, seq<HitEvent>)
    requires e in es && Tallied(es[e])
  {
    var c := es[e];
    Tally(c.hitCount.value, Touching(contacts, e), Hitable(es), c.bullet.value.hitLimit, e, c.transform.value)
  }

  function AfterTally(es: map<Entity, Comps>, contacts: map<Entity, seq<Entity>>, e: Entity): Comps
    requires e in es
  {
    if Tallied(es[e]) then es[e].(hitCount := Some(TallyOf(es, contacts, e).0)) else es[e]
  }

  /** The hit events of bullets `0 .. n-1`, in that order. */
  function HitsBelow(es: map<Entity, Comps>, contacts: map<Entity, seq<Entity>>, n: nat): seq<HitEvent> {
    if n == 0 then []
    else HitsBelow(es, contacts, n - 1)
         + (if n - 1 in es && Tallied(es[n - 1]) then TallyOf(es, contacts, n - 1).1 else [])
  }

  /** The world once bullets `0 .. n-1` have been tallied. */
  function TalliedBelow(es: map<Entity, Comps>, contacts: map<Entity, seq<Entity>>, n: nat)
    : map<Entity, Comps>
  {
    map e | e in es :: if e < n then AfterTally(es, contacts, e) else es[e]
  }

  /** One step of `bullet_hit_system`'s loop, on the world. */
  lemma BulletHitStep(es: map<Entity, Comps>, contacts: map<Entity, seq<Entity>>, i: nat,
                      cur: map<Entity, Comps>)
    requires cur == TalliedBelow(es, contacts, i)
    ensures cur.Keys == es.Keys && (i in es ==> cur[i] == es[i])
    ensures TalliedBelow(es, contacts, i + 1)
         == if i in es && Tallied(es[i]) then cur[i := es[i].(hitCount := Some(TallyOf(es, contacts, i).0))]
            else cur
  {
  }

  /** One step of `bullet_hit_system`'s loop, on the events. */
  lemma HitsStep(es: map<Entity, Comps>, contacts: map<Entity, seq<Entity>>, i: nat)
    ensures HitsBelow(es, contacts, i + 1)
         == HitsBelow(es, contacts, i) + if i in es && Tallied(es[i]) then TallyOf(es, contacts, i).1 else []
  {
    if !(i in es && Tallied(es[i])) {
      assert HitsBelow(es, contacts, i) + [] == HitsBelow(es, contacts, i);
    }
  }

  /** `bullet_hit_system`'s loop body for entity `i`. */
  method TallyBullet(es: map<Entity, Comps>, contacts: map<Entity, seq<Entity>>, hitable: set<Entity>,
                     i: nat, cur: map<Entity, Comps>)
    returns (next: map<Entity, Comps>, more: seq<HitEvent>)
    requires hitable == Hitable(es) && cur == TalliedBelow(es, contacts, i)
    ensures next == TalliedBelow(es, contacts, i + 1)
    ensures HitsBelow(es, contacts, i + 1) == HitsBelow(es, contacts, i) + more
  {
    BulletHitStep(es, contacts, i, cur);
    HitsStep(es, contacts, i);
    next, more := cur, [];
    if i in cur {
      var c := cur[i];
      if c.bullet.Some? && c.hitCount.Some? && c.transform.Some? {
        var touching := if i in contacts then contacts[i] else [];
        var after;
        after, more := TallyContacts(c.hitCount.value, touching, hitable,
                                     c.bullet.value.hitLimit, i, c.transform.value);
        next := cur[i := c.(hitCount := Some(after))];
      }
    }
  }

  /** `bullet_hit_system`. */
  method BulletHitSystem(w: World, contacts: map<Entity, seq<Entity>>) returns (hits: seq<HitEvent>)
    requires w.Valid()
    modifies w
    ensures w.Valid() && w.nextId == old(w.nextId)
    ensures w.entities == map e | e in old(w.entities) :: AfterTally(old(w.entities), contacts, e)
    ensures hits == HitsBelow(old(w.entities), contacts, w.nextId)
  {
    var es, n, cur := w.entities, w.nextId, w.entities;
    var hitable := set e | e in cur && cur[e].life.Some?;
    assert hitable == Hitable(es);
    hits := [];
    var i := 0;
    assert cur == TalliedBelow(es, contacts, 0);
    while i < n
      modifies {}
      invariant 0 <= i <= n
      invariant cur == TalliedBelow(es, contacts, i)
      invariant hits == HitsBelow(es, contacts, i)
    {
      var more;
      cur, more := TallyBullet(es, contacts, hitable, i, cur);
      hits := hits + more;
      i := i + 1;
    }
    assert cur == TalliedBelow(es, contacts, n);
    w.entities := cur;
  }

  // ---------------------------------------------------------------------
  // bullet_hit_endurance_system
  // ---------------------------------------------------------------------

  /** The endurance rule applied on a first hit, with `u` the uniform draw in
      `[0, 1)` behind `gen_bool` (the trial succeeds when `u < endurance`):
      an endurance of 1 or more is a hit budget and drops by exactly 1; one
      in `[0, 1)` is a survival probability, left as it is when the bullet
      survives and set to -1 when it does not; a negative one (a bullet whose
      trial already failed) is left as it is. */
  function EnduranceAfterHit(e: Limit, u: real): (r: Limit)
    ensures r.Inf? <==> e.Inf?
    ensures e.Fin? ==> r.Fin? && r.v <= e.v
    ensures e.Fin? && e.v >= 1.0 ==> r.v == e.v - 1.0
    ensures e.Fin? && 0.0 <= e.v < 1.0 ==> (r == e <==> u < e.v) && (r != e ==> r.v == -1.0)
    ensures e.Fin? && e.v < 0.0 ==> r == e
  {
    match e
    case Inf => Inf
    case Fin(v) =>
      if v >= 1.0 then Fin(v - 1.0)
      else if v < 0.0 || u < v then e
      else Fin(-1.0)
  }

  /** The endurance rule as the source writes it: `None` where `gen_bool`
      panics, because `Bernoulli::new` rejects a negative probability. */
  function EnduranceAsWritten(e: Limit, u: real): (r: Option<Limit>)
    ensures r.None? <==> e.Fin? && e.v < 0.0
    ensures r.Some? ==> r.value == EnduranceAfterHit(e, u)
  {
    match e
    case Inf => Some(Inf)
    case Fin(v) =>
      if v >= 1.0 then Some(Fin(v - 1.0))
      else if v < 0.0 then None
      else if u < v then Some(e)
      else Some(Fin(-1.0))
  }

  /** The two rules agree on every endurance the trial accepts. */
  lemma AsWrittenAgreesOnValidProbabilities(e: Limit, u: real)
    requires e.Fin? ==> e.v >= 0.0
    ensures EnduranceAsWritten(e, u) == Some(EnduranceAfterHit(e, u))
  {
  }

  /** One bullet touching two targets on the same tick gets two first-hit
      events; when the first trial fails, the second one is drawn with
      probability -1 and the source's `gen_bool` panics. */
  lemma SecondFirstHitPanicsAsWritten(b: Entity, at: Transform)
    ensures var r := Tally(map[], [1, 2], {1, 2}, Inf, b, at);
      r.1 == [HitEvent(b, 1, at, true), HitEvent(b, 2, at, true)]
    ensures EnduranceAsWritten(Fin(0.5), 0.75) == Some(Fin(-1.0))
    ensures EnduranceAsWritten(Fin(-1.0), 0.25) == None
  {
    assert [1, 2][1..] == [2];
    assert [2][1..] == [];
  }

  /** Endurance after a run of first hits with draws `us`. */
  function Worn(e: Limit, us: seq<real>): (r: Limit)
    ensures r.Inf? <==> e.Inf?
    ensures r.Fin? ==> r.v <= e.v
  {
    if us == [] then e else EnduranceAfterHit(Worn(e, us[..|us| - 1]), us[|us| - 1])
  }

  lemma WornStep(e: Limit, us: seq<real>, u: real)
    ensures Worn(e, us + [u]) == EnduranceAfterHit(Worn(e, us), u)
  {
    assert (us + [u])[..|us|] == us;
  }

  /** The last event wears only its own bullet, and only when it is a first hit. */
  lemma EnduredStep(es: map<Entity, Comps>, hits: seq<HitEvent>, us: seq<real>, e: Entity)
    requires e in es && |us| == |hits| > 0
    requires var h := hits[|hits| - 1]; h.firstHit && h.bullet == e ==> es[e].endurance.Some?
    ensures var k := |hits| - 1;
      var c := Endured(es, hits[..k], us[..k], e);
      Endured(es, hits, us, e)
        == if hits[k].firstHit && hits[k].bullet == e then
             c.(endurance := Some(EnduranceAfterHit(c.endurance.value, us[k])))
           else c
  {
    var k := |hits| - 1;
    var d := DrawsOn(hits[..k], us[..k], e);
    assert DrawsOn(hits, us, e) == d + (if hits[k].firstHit && hits[k].bullet == e then [us[k]] else []);
    if es[e].endurance.Some? {
      WornStep(es[e].endurance.value, d, us[k]);
      if !(hits[k].firstHit && hits[k].bullet == e) {
        assert d + [] == d;
      }
    }
  }

  /** Every entity after the events. */
  function EnduredAll(es: map<Entity, Comps>, hits: seq<HitEvent>, us: seq<real>): map<Entity, Comps>
    requires |us| == |hits|
  {
    map e | e in es :: Endured(es, hits, us, e)
  }

  lemma EnduredAllStep(es: map<Entity, Comps>, hits: seq<HitEvent>, us: seq<real>)
    requires |us| == |hits| > 0 && EnduresHits(es, hits)
    ensures var k := |hits| - 1;
      var before := EnduredAll(es, hits[..k], us[..k]);
      var h := hits[k];
      before.Keys == es.Keys
      && EnduredAll(es, hits, us)
         == if h.firstHit then
              before[h.bullet := before[h.bullet].(endurance :=
                Some(EnduranceAfterHit(before[h.bullet].endurance.value, us[k])))]
            else before
  {
    var k := |hits| - 1;
    assert EnduresHit(es, hits[k]);
    forall e | e in es
      ensures Endured(es, hits, us, e) == var c := Endured(es, hits[..k], us[..k], e);
        if hits[k].firstHit && hits[k].bullet == e then
          c.(endurance := Some(EnduranceAfterHit(c.endurance.value, us[k])))
        else c
    {
      EnduredStep(es, hits, us, e);
    }
  }

  predicate Draws(us: seq<real>) {
    forall i | 0 <= i < |us| :: 0.0 <= us[i] < 1.0
  }

  /** A bullet with a whole endurance `n` survives `n` first hits, losing 1
      each time, and is doomed (endurance -1) on the next, whatever the draws:
      with endurance 0 the trial `gen_bool(0)` always fails. */
  lemma {:induction false} WholeEnduranceIsAHitBudget(n: nat, us: seq<real>)
    requires Draws(us)
    ensures |us| <= n ==> Worn(Fin(n as real), us) == Fin((n - |us|) as real)
    ensures |us| == n + 1 ==> Worn(Fin(n as real), us) == Fin(-1.0)
  {
    if us != [] {
      WholeEnduranceIsAHitBudget(n, us[..|us| - 1]);
    }
  }

  /** A doomed bullet stays doomed: further first hits leave a negative
      endurance as it is and draw no trial. */
  lemma {:induction false} DoomedStaysDoomed(v: real, us: seq<real>)
    requires v < 0.0
    ensures Worn(Fin(v), us) == Fin(v)
  {
    if us != [] {
      DoomedStaysDoomed(v, us[..|us| - 1]);
    }
  }

  /** An endurance `p` in `[0, 1)` is a survival probability per first hit:
      it is unchanged while every draw succeeds, and -1 from the first failed
      draw on. */
  lemma {:induction false} FractionalEnduranceIsAProbability(p: real, us: seq<real>)
    requires 0.0 <= p < 1.0 && Draws(us)
    ensures (forall i | 0 <= i < |us| :: us[i] < p) ==> Worn(Fin(p), us) == Fin(p)
    ensures (exists i | 0 <= i < |us| :: us[i] >= p) ==> Worn(Fin(p), us) == Fin(-1.0)
  {
    if us != [] {
      var init := us[..|us| - 1];
      FractionalEnduranceIsAProbability(p, init);
      if exists i | 0 <= i < |init| :: init[i] >= p {
        DoomedStaysDoomed(-1.0, [us[|us| - 1]]);
      }
    }
  }

  /** What `bullet_hit_endurance_system` unwraps for a first-hit event: the
      bullet is live with `WeaponRef`, `BulletEndurance`, `Transform` and
      `BulletGeneration`, and its weapon is live. */
  predicate EnduresHit(es: map<Entity, Comps>, h: HitEvent) {
    h.firstHit ==>
      h.bullet in es && es[h.bullet].bullet.Some? && es[h.bullet].weaponRef.Some?
      && es[h.bullet].endurance.Some? && es[h.bullet].transform.Some?
      && es[h.bullet].generation.Some?
      && es[h.bullet].weaponRef.value in es && es[es[h.bullet].weaponRef.value].weapon.Some?
  }

  predicate EnduresHits(es: map<Entity, Comps>, hits: seq<HitEvent>) {
    forall k | 0 <= k < |hits| :: EnduresHit(es, hits[k])
  }

  /** The draws of the first-hit events on bullet `b`, in order. */
  function DrawsOn(hits: seq<HitEvent>, us: seq<real>, b: Entity): seq<real>
    requires |us| == |hits|
  {
    if hits == [] then []
    else
      var k := |hits| - 1;
      DrawsOn(hits[..k], us[..k], b) + (if hits[k].firstHit && hits[k].bullet == b then [us[k]] else [])
  }

  /** The bullet after the events: its endurance worn by its own first hits. */
  function Endured(es: map<Entity, Comps>, hits: seq<HitEvent>, us: seq<real>, e: Entity): Comps
    requires e in es && |us| == |hits|
  {
    var c := es[e];
    if c.endurance.Some? then c.(endurance := Some(Worn(c.endurance.value, DrawsOn(hits, us, e)))) else c
  }

  /** The succeed events of a run of hit events: one per first hit, carrying
      the bullet's weapon, its stored generation and its transform. */
  function Succeeds(es: map<Entity, Comps>, hits: seq<HitEvent>): seq<SucceedEvent>
    requires EnduresHits(es, hits)
  {
    if hits == [] then []
    else
      Succeeds(es, hits[..|hits| - 1]) + SucceedOf(es, hits[|hits| - 1])
  }

  /** The succeed event of one hit event: one for a first hit, none otherwise. */
  function SucceedOf(es: map<Entity, Comps>, h: HitEvent): seq<SucceedEvent>
    requires EnduresHit(es, h)
  {
    if h.firstHit then
      var c := es[h.bullet];
      [SucceedEvent(c.weaponRef.value, c.generation.value, h.bullet, c.transform.value)]
    else []
  }

  /** Every first hit sends exactly one succeed event, whether or not the
      bullet then dies, and each carries the generation stored on its bullet. */
  lemma {:induction false} SucceedOnEveryFirstHit(es: map<Entity, Comps>, hits: seq<HitEvent>)
    requires EnduresHits(es, hits)
    ensures |Succeeds(es, hits)| == |FirstHits(hits)|
    ensures forall s | s in Succeeds(es, hits) ::
      s.bullet in es && es[s.bullet].generation == Some(s.generation)
      && es[s.bullet].weaponRef == Some(s.weapon)
  {
    if hits != [] {
      var init, h := hits[..|hits| - 1], hits[|hits| - 1];
      SucceedOnEveryFirstHit(es, init);
      assert hits == init + [h];
      FirstHitsAppend(init, [h]);
      assert [h][..0] == [];
    }
  }

  /** One step of `bullet_hit_endurance_system`'s loop, read off the state
      after the earlier events. */
  lemma EnduranceStep(es: map<Entity, Comps>, hits: seq<HitEvent>, us: seq<real>, k: nat,
                      cur: map<Entity, Comps>)
    requires k < |hits| == |us| && EnduresHits(es, hits) && cur == EnduredAll(es, hits[..k], us[..k])
    ensures var h := hits[k];
      h.firstHit ==>
        h.bullet in cur && cur[h.bullet].weaponRef.Some? && cur[h.bullet].generation.Some?
        && cur[h.bullet].transform.Some? && cur[h.bullet].endurance.Some?
    ensures var h := hits[k];
      EnduredAll(es, hits[..k + 1], us[..k + 1])
        == if h.firstHit then
             cur[h.bullet := cur[h.bullet].(endurance :=
               Some(EnduranceAfterHit(cur[h.bullet].endurance.value, us[k])))]
           else cur
    ensures var h := hits[k];
      Succeeds(es, hits[..k + 1])
        == Succeeds(es, hits[..k])
           + if h.firstHit then
               var c := cur[h.bullet];
               [SucceedEvent(c.weaponRef.value, c.generation.value, h.bullet, c.transform.value)]
             else []
  {
    var h := hits[k];
    assert hits[..k + 1][..k] == hits[..k] && us[..k + 1][..k] == us[..k];
    assert EnduresHits(es, hits[..k + 1]);
    EnduredAllStep(es, hits[..k + 1], us[..k + 1]);
    assert Succeeds(es, hits[..k + 1]) == Succeeds(es, hits[..k]) + SucceedOf(es, h);
    if h.firstHit {
      assert EnduresHit(es, h);
      assert cur[h.bullet] == Endured(es, hits[..k], us[..k], h.bullet);
    }
  }

  /** `bullet_hit_endurance_system`, with `us[k]` the draw for `hits[k]`. */
  method HitEnduranceSystem(w: World, hits: seq<HitEvent>, us: seq<real>)
    returns (succeeds: seq<SucceedEvent>)
    requires w.Valid() && |us| == |hits| && Draws(us)
    requires EnduresHits(w.entities, hits)
    modifies w
    ensures w.Valid() && w.nextId == old(w.nextId)
    ensures w.entities == EnduredAll(old(w.entities), hits, us)
    ensures succeeds == Succeeds(old(w.entities), hits)
  {
    ghost var es := w.entities;
    succeeds := [];
    var k := 0;
    assert w.entities == EnduredAll(es, hits[..0], us[..0]);
    while k < |hits|
      invariant 0 <= k <= |hits|
      invariant w.nextId == old(w.nextId) && w.entities.Keys == es.Keys
      invariant w.entities == EnduredAll(es, hits[..k], us[..k])
      invariant succeeds == Succeeds(es, hits[..k])
    {
      var h := hits[k];
      EnduranceStep(es, hits, us, k, w.entities);
      if h.firstHit {
        var c := w.entities[h.bullet];
        succeeds := succeeds + [SucceedEvent(c.weaponRef.value, c.generation.value, h.bullet, c.transform.value)];
        w.entities := w.entities[h.bullet := c.(endurance := Some(EnduranceAfterHit(c.endurance.value, us[k])))];
      }
      k := k + 1;
    }
    assert hits[..k] == hits && us[..k] == us;
  }

  // ---------------------------------------------------------------------
  // hit_damage_system and life_dies_system
  // ---------------------------------------------------------------------

  /** `f32::ceil`: the least whole number not below `d`. */
  function Ceil(d: real): (r: int)
    ensures (r - 1) as real < d <= r as real
  {
    -((-d).Floor)
  }

  /** What `hit_damage_system` unwraps: the bullet of every event that lands
      on a live target is live with a `Bullet`. */
  predicate DamageResolves(es: map<Entity, Comps>, hits: seq<HitEvent>) {
    forall k | 0 <= k < |hits| && hits[k].target in es && es[hits[k].target].life.Some? ::
      hits[k].bullet in es && es[hits[k].bullet].bullet.Some?
  }

  /** The life that the events take from target `t`: `ceil(damage)` per event. */
  function DamageTo(es: map<Entity, Comps>, hits: seq<HitEvent>, t: Entity): int
    requires t in es && es[t].life.Some? && DamageResolves(es, hits)
  {
    if hits == [] then 0
    else
      var h := hits[|hits| - 1];
      DamageTo(es, hits[..|hits| - 1], t)
        + (if h.target == t then Ceil(es[h.bullet].bullet.value.damage) else 0)
  }

  /** Damage adds up over consecutive batches of events. */
  lemma {:induction false} DamageAdds(es: map<Entity, Comps>, a: seq<HitEvent>, b: seq<HitEvent>, t: Entity)
    requires t in es && es[t].life.Some? && DamageResolves(es, a + b)
    ensures DamageResolves(es, a) && DamageResolves(es, b)
    ensures DamageTo(es, a + b, t) == DamageTo(es, a, t) + DamageTo(es, b, t)
    decreases |b|
  {
    assert forall k | 0 <= k < |a| :: (a + b)[k] == a[k];
    assert forall k | 0 <= k < |b| :: (a + b)[|a| + k] == b[k];
    if b != [] {
      assert (a + b)[..|a + b| - 1] == a + b[..|b| - 1];
      assert (a + b)[|a + b| - 1] == b[|b| - 1];
      DamageAdds(es, a, b[..|b| - 1], t);
    } else {
      assert a + b == a;
    }
  }

  /** With non-negative damage, hits never heal: `t` loses no life or more,
      and at least one point once some event on it has positive damage. */
  lemma {:induction false} DamageNeverHeals(es: map<Entity, Comps>, hits: seq<HitEvent>, t: Entity)
    requires t in es && es[t].life.Some? && DamageResolves(es, hits)
    requires forall h | h in hits && h.target == t :: es[h.bullet].bullet.value.damage >= 0.0
    ensures DamageTo(es, hits, t) >= 0
    ensures (exists h | h in hits :: h.target == t && es[h.bullet].bullet.value.damage > 0.0)
        ==> DamageTo(es, hits, t) > 0
  {
    if hits != [] {
      var init := hits[..|hits| - 1];
      assert forall h | h in init :: h in hits;
      assert DamageResolves(es, init) by {
        assert forall k | 0 <= k < |init| :: init[k] == hits[k];
      }
      DamageNeverHeals(es, init, t);
    }
  }

  /** The entity after the events: a target with `Life` loses `DamageTo`. */
  function Damaged(es: map<Entity, Comps>, hits: seq<HitEvent>, e: Entity): Comps
    requires e in es && DamageResolves(es, hits)
  {
    var c := es[e];
    if c.life.Some? then c.(life := Some(c.life.value - DamageTo(es, hits, e))) else c
  }

  /** The world after the events. */
  function DamagedAll(es: map<Entity, Comps>, hits: seq<HitEvent>): map<Entity, Comps>
    requires DamageResolves(es, hits)
  {
    map e | e in es :: Damaged(es, hits, e)
  }

  /** One event of the pass: its target, if it has `Life`, loses the
      `ceil(damage)` of its bullet, which the pass has left as it was. */
  lemma DamageStep(es: map<Entity, Comps>, hits: seq<HitEvent>, k: nat, cur: map<Entity, Comps>)
    requires k < |hits| && DamageResolves(es, hits)
    requires DamageResolves(es, hits[..k]) && cur == DamagedAll(es, hits[..k])
    ensures DamageResolves(es, hits[..k + 1])
    ensures var h := hits[k];
      (h.target in cur <==> h.target in es)
      && (h.target in es ==> cur[h.target].life.Some? == es[h.target].life.Some?)
      && (h.target in es && es[h.target].life.Some? ==>
            h.bullet in cur && cur[h.bullet].bullet == es[h.bullet].bullet
            && DamagedAll(es, hits[..k + 1])
               == cur[h.target := cur[h.target].(life := Some(cur[h.target].life.value - Ceil(es[h.bullet].bullet.value.damage)))])
      && (!(h.target in es && es[h.target].life.Some?) ==> DamagedAll(es, hits[..k + 1]) == cur)
  {
    assert forall j | 0 <= j < k + 1 :: hits[..k + 1][j] == hits[j];
    assert hits[..k + 1][..k] == hits[..k];
  }

  /** `hit_damage_system`. */
  method HitDamageSystem(w: World, hits: seq<HitEvent>)
    requires w.Valid() && DamageResolves(w.entities, hits)
    modifies w
    ensures w.Valid() && w.nextId == old(w.nextId)
    ensures w.entities == map e | e in old(w.entities) :: Damaged(old(w.entities), hits, e)
  {
    ghost var es := w.entities;
    var k := 0;
    assert hits[..0] == [];
    assert w.entities == DamagedAll(es, hits[..0]);
    while k < |hits|
      invariant 0 <= k <= |hits|
      invariant DamageResolves(es, hits[..k])
      invariant w.nextId == old(w.nextId) && w.entities.Keys == es.Keys
      invariant w.entities == DamagedAll(es, hits[..k])
    {
      var h := hits[k];
      DamageStep(es, hits, k, w.entities);
      if h.target in w.entities && w.entities[h.target].life.Some? {
        var c := w.entities[h.target];
        var dmg := w.entities[h.bullet].bullet.value.damage;
        w.entities := w.entities[h.target := c.(life := Some(c.life.value - Ceil(dmg)))];
      }
      k := k + 1;
    }
    assert hits[..k] == hits;
  }

  /** `life_dies_system`'s test: the entity has `Life` at or below 0. */
  predicate Dead(c: Comps) {
    c.life.Some? && c.life.value <= 0
  }

  /** `life_dies_system`: despawns exactly the entities whose life is at or
      below 0 and leaves every other entity as it was. */
  method LifeDiesSystem(w: World)
    requires w.Valid()
    modifies w
    ensures w.Valid() && w.nextId == old(w.nextId)
    ensures w.entities == map e | e in old(w.entities) && !Dead(old(w.entities)[e]) :: old(w.entities)[e]
  {
    ghost var es := w.entities;
    var i := 0;
    while i < w.nextId
      invariant 0 <= i <= w.nextId == old(w.nextId)
      invariant forall e | e in w.entities :: e in es && w.entities[e] == es[e]
      invariant forall e | e in es :: e in w.entities <==> (e >= i || !Dead(es[e]))
    {
      if i in w.entities && w.entities[i].life.Some? && w.entities[i].life.value <= 0 {
        w.entities := w.entities - {i};
      }
      i := i + 1;
    }
  }

  /** A hit target is despawned by the next `life_dies_system` exactly when
      the `ceil(damage)` it took reaches its remaining life. */
  lemma LethalDamage(es: map<Entity, Comps>, hits: seq<HitEvent>, t: Entity)
    requires t in es && es[t].life.Some? && DamageResolves(es, hits)
    ensures Dead(Damaged(es, hits, t)) <==> DamageTo(es, hits, t) >= es[t].life.value
  {
  }
}
