/**
  The level spawner of src/levels.rs: `level_enemy_spawner` picks one
  enemy descriptor at random, weighted by its remaining `amount`, decrements
  it, spawns one enemy, and paces the next spawn by how many of the level's
  enemies are alive; `level_boss_spawner` arms the boss timer once every
  amount has run out.
*/
module Levels {
  import opened Ecs

  datatype EnemyClass = Normal(strength: nat) | Boss

  /** `EnemyDescriptor`: which enemy, its class, and how many are left to spawn. */
  datatype EnemyDescriptor = EnemyDescriptor(enemy: string, kind: EnemyClass, amount: nat)

  /** The enemy entity the spawner creates: its type name, `NormalClass`
      strength and `InitPosition`. */
  datatype EnemySpawn = EnemySpawn(enemy: string, strength: nat, at: Transform)

  /** The weight of a descriptor in the pick: its amount, or 0 for a boss. */
  function Weight(d: EnemyDescriptor): nat {
    if d.kind.Normal? then d.amount else 0
  }

  /** `remains`: the amounts of the non-boss descriptors, summed. */
  function Remains(descs: seq<EnemyDescriptor>): nat {
    if descs == [] then 0 else Weight(descs[0]) + Remains(descs[1..])
  }

  /** The amounts of all descriptors, summed. */
  function SumAll(descs: seq<EnemyDescriptor>): nat {
    if descs == [] then 0 else descs[0].amount + SumAll(descs[1..])
  }

  lemma {:induction false} RemainsPrefix(descs: seq<EnemyDescriptor>, i: nat)
    requires i < |descs|
    ensures Remains(descs[..i + 1]) == Remains(descs[..i]) + Weight(descs[i])
    ensures Remains(descs[..i + 1]) <= Remains(descs)
  {
    if i == 0 {
      assert descs[..1][1..] == [];
      assert descs[..0] == [];
      RemainsAtMostSum(descs);
    } else {
      assert descs[..i + 1][1..] == descs[1..][..i];
      assert descs[..i][1..] == descs[1..][..i - 1];
      RemainsPrefix(descs[1..], i - 1);
    }
  }

  lemma {:induction false} RemainsAtMostSum(descs: seq<EnemyDescriptor>)
    ensures descs != [] ==> Weight(descs[0]) <= Remains(descs)
    ensures Remains(descs) <= SumAll(descs)
  {
    if descs != [] {
      RemainsAtMostSum(descs[1..]);
    }
  }

  /** The pick: walking the descriptors, each normal one takes its amount off
      `next`, and the first that takes it below zero is chosen. Bosses are
      skipped, as `remains` leaves them out. */
  function Pick(descs: seq<EnemyDescriptor>, next: nat): (r: Option<nat>)
    ensures r.Some? ==> r.value < |descs| && descs[r.value].kind.Normal? && descs[r.value].amount > 0
  {
    if descs == [] then None
    else if descs[0].kind.Normal? && next < descs[0].amount then Some(0)
    else
      Shift(Pick(descs[1..], next - Weight(descs[0])), 1)
  }

  /** An index found in a suffix, as an index of the whole sequence. */
  function Shift(p: Option<nat>, k: nat): Option<nat> {
    if p.None? then None else Some(p.value + k)
  }

  lemma RemainsCons(descs: seq<EnemyDescriptor>, i: nat)
    requires 1 <= i <= |descs|
    ensures Remains(descs[..i]) == Weight(descs[0]) + Remains(descs[1..][..i - 1])
  {
    assert descs[..i][1..] == descs[1..][..i - 1];
  }

  /** Some descriptor is picked exactly when the draw is below `remains`. */
  lemma {:induction false} PickFound(descs: seq<EnemyDescriptor>, next: nat)
    ensures Pick(descs, next).Some? <==> next < Remains(descs)
  {
    if descs != [] && !(descs[0].kind.Normal? && next < descs[0].amount) {
      PickFound(descs[1..], next - Weight(descs[0]));
    }
  }

  /** The picked descriptor `i` is the one whose band
      `[Remains(descs[..i]), Remains(descs[..i + 1]))` holds the draw. */
  lemma {:induction false} PickInBand(descs: seq<EnemyDescriptor>, next: nat)
    ensures Pick(descs, next).Some? ==>
      var i := Pick(descs, next).value;
      Remains(descs[..i]) <= next < Remains(descs[..i + 1])
  {
    if descs != [] {
      RemainsPrefix(descs, 0);
      assert descs[..0] == [];
      if !(descs[0].kind.Normal? && next < descs[0].amount) && Pick(descs, next).Some? {
        var n := next - Weight(descs[0]);
        PickInBand(descs[1..], n);
        var j := Pick(descs[1..], n).value;
        RemainsCons(descs, j + 1);
        RemainsCons(descs, j + 2);
      }
    }
  }

  /** Conversely, a draw in the band of a descriptor picks that descriptor. */
  lemma {:induction false} BandPicks(descs: seq<EnemyDescriptor>, next: nat, i: nat)
    requires i < |descs| && Remains(descs[..i]) <= next < Remains(descs[..i + 1])
    ensures Pick(descs, next) == Some(i)
  {
    RemainsPrefix(descs, i);
    if i == 0 {
      assert descs[..0] == [];
    } else {
      RemainsPrefix(descs, 0);
      assert descs[..0] == [];
      RemainsCons(descs, i);
      RemainsCons(descs, i + 1);
      assert descs[1..][i - 1] == descs[i];
      BandPicks(descs[1..], next - Weight(descs[0]), i - 1);
    }
  }

  /** The pick is weighted by amount: of the `remains` equally likely draws,
      exactly `amount` pick a normal descriptor, and none picks a boss. */
  lemma PickIsWeighted(descs: seq<EnemyDescriptor>, i: nat)
    requires i < |descs|
    ensures |DrawsPicking(descs, i)| == Weight(descs[i])
  {
    RemainsPrefix(descs, i);
    var lo := Remains(descs[..i]);
    var band := DrawsPicking(descs, i);
    IntervalSize(lo, Weight(descs[i]));
    forall n: nat ensures n in band <==> n in Interval(lo, Weight(descs[i])) {
      PickInBand(descs, n);
      if lo <= n < lo + Weight(descs[i]) {
        BandPicks(descs, n, i);
      }
    }
    assert band == Interval(lo, Weight(descs[i]));
    assert |band| == Weight(descs[i]);
  }

  /** The legal draws that pick descriptor `i`. */
  function DrawsPicking(descs: seq<EnemyDescriptor>, i: nat): set<nat> {
    set n: nat | n < Remains(descs) && Pick(descs, n) == Some(i)
  }

  /** The draws `lo, lo + 1, ..., lo + k - 1`. */
  function Interval(lo: nat, k: nat): set<nat> {
    if k == 0 then {} else Interval(lo, k - 1) + {lo + k - 1}
  }

  lemma {:induction false} IntervalSize(lo: nat, k: nat)
    ensures |Interval(lo, k)| == k
    ensures forall n :: n in Interval(lo, k) <==> lo <= n < lo + k
  {
    if k > 0 {
      IntervalSize(lo, k - 1);
    }
  }

  /** The walk as the source writes it: every descriptor, boss or not, takes
      its amount off `next`. */
  function PickAsWritten(descs: seq<EnemyDescriptor>, next: nat): (r: Option<nat>)
    ensures r.Some? ==> r.value < |descs| && descs[r.value].amount > 0
  {
    if descs == [] then None
    else if next < descs[0].amount then Some(0)
    else
      match PickAsWritten(descs[1..], next - descs[0].amount)
      case None => None
      case Some(j) => Some(j + 1)
  }

  /** With a boss listed before a normal enemy, the only legal draw lands on
      the boss, and the source then reaches `unreachable!()`; the corrected
      pick chooses the normal enemy. */
  lemma BossPickPanicsAsWritten()
    ensures var descs := [EnemyDescriptor("boss", Boss, 1), EnemyDescriptor("normal", Normal(1), 1)];
      Remains(descs) == 1
      && PickAsWritten(descs, 0) == Some(0) && descs[0].kind.Boss?
      && Pick(descs, 0) == Some(1)
  {
    var descs := [EnemyDescriptor("boss", Boss, 1), EnemyDescriptor("normal", Normal(1), 1)];
    assert descs[1..] == [EnemyDescriptor("normal", Normal(1), 1)];
    assert descs[1..][1..] == [];
  }

  /** A boss listed first also shifts which normal enemy the source spawns:
      its amount is taken off the draw though its entry is never chosen, so
      the draw 1 lands on the first normal enemy in the source and on the
      second one in the corrected pick. */
  lemma BossShiftsPickAsWritten()
    ensures var descs := [EnemyDescriptor("boss", Boss, 1), EnemyDescriptor("a", Normal(1), 1),
                          EnemyDescriptor("b", Normal(1), 1)];
      Remains(descs) == 2
      && PickAsWritten(descs, 1) == Some(1) && descs[1].kind.Normal?
      && Pick(descs, 1) == Some(2)
  {
    var descs := [EnemyDescriptor("boss", Boss, 1), EnemyDescriptor("a", Normal(1), 1),
                  EnemyDescriptor("b", Normal(1), 1)];
    assert descs[1..] == [EnemyDescriptor("a", Normal(1), 1), EnemyDescriptor("b", Normal(1), 1)];
    assert descs[1..][1..] == [EnemyDescriptor("b", Normal(1), 1)];
    assert descs[1..][1..][1..] == [];
  }

  /** The two walks agree on a level without bosses. */
  lemma {:induction false} PickAsWrittenWithoutBosses(descs: seq<EnemyDescriptor>, next: nat)
    requires forall i | 0 <= i < |descs| :: descs[i].kind.Normal?
    ensures PickAsWritten(descs, next) == Pick(descs, next)
  {
    if descs != [] && next >= descs[0].amount {
      PickAsWrittenWithoutBosses(descs[1..], next - descs[0].amount);
    }
  }

  /** The descriptors after one enemy of descriptor `i` is spawned. */
  function Decremented(descs: seq<EnemyDescriptor>, i: nat): seq<EnemyDescriptor>
    requires i < |descs| && descs[i].amount > 0
  {
    descs[i := descs[i].(amount := descs[i].amount - 1)]
  }

  /** Spawning one enemy lowers the total amount and `remains` by exactly 1
      and leaves every other descriptor as it was. */
  lemma {:induction false} DecrementedLowersByOne(descs: seq<EnemyDescriptor>, i: nat)
    requires i < |descs| && descs[i].amount > 0 && descs[i].kind.Normal?
    ensures SumAll(Decremented(descs, i)) == SumAll(descs) - 1
    ensures Remains(Decremented(descs, i)) == Remains(descs) - 1
    ensures forall j | 0 <= j < |descs| && j != i :: Decremented(descs, i)[j] == descs[j]
  {
    if i > 0 {
      DecrementedLowersByOne(descs[1..], i - 1);
      assert Decremented(descs, i)[1..] == Decremented(descs[1..], i - 1);
    }
  }

  /** The spawn interval for `count` live enemies of the level. */
  function SpawnInterval(count: nat, limit: nat): real {
    if count < limit then 0.6 else if count < 2 * limit then 2.0 else 6.0
  }

  /** The more enemies are alive, the slower the level spawns. */
  lemma SlowerWithMoreEnemies(c1: nat, c2: nat, limit: nat)
    requires c1 <= c2
    ensures SpawnInterval(c1, limit) <= SpawnInterval(c2, limit)
    ensures SpawnInterval(c1, limit) in {0.6, 2.0, 6.0}
  {
  }

  /** The spawn timer set to interval `d`: reset only when its duration changes. */
  function Paced(t: Timer, d: real): (r: Timer)
    ensures r.duration == d && r.mode == t.mode
    ensures r == t <==> t.duration == d
    ensures r != t ==> r.elapsed == 0.0 && !r.finished
  {
    if t.duration != d then Reset(t).(duration := d) else t
  }

  /** A level's spawning state. */
  datatype LevelState = LevelState(isSpawning: bool, enemyToSpawn: seq<EnemyDescriptor>,
                                   waveEnemyLimit: nat, spawnTimer: Timer, bossTimer: Option<Timer>)

  /** One `level_enemy_spawner` tick: `dt` seconds, `draw` for `next`, `(x, y)`
      for the spawn position, and `live` enemies of this level alive. */
  function SpawnerStep(s: LevelState, dt: real, draw: nat, x: real, y: real, live: nat)
    : (LevelState, Option<EnemySpawn>)
    requires dt >= 0.0
  {
    if !s.isSpawning then (s, None)
    else
      var t := Tick(s.spawnTimer, dt);
      if JustFinished(t) && Remains(s.enemyToSpawn) == 0 then (s.(spawnTimer := t), None)
      else
        var paced := s.(spawnTimer := Paced(t, SpawnInterval(live, s.waveEnemyLimit)));
        var p := if JustFinished(t) then Pick(s.enemyToSpawn, draw) else None;
        if p.None? then (paced, None)
        else
          var d := s.enemyToSpawn[p.value];
          (paced.(enemyToSpawn := Decremented(s.enemyToSpawn, p.value)),
           Some(EnemySpawn(d.enemy, d.kind.strength, Transform(x, y, 0.0))))
  }

  /** A tick whose timer finishes with enemies left and a legal draw spawns
      exactly one normal enemy, of the descriptor whose band holds the draw,
      decrements that descriptor alone, and lowers the total by exactly 1;
      otherwise no enemy spawns and no amount changes. Only the descriptors
      and the spawn timer ever change. */
  lemma SpawnsExactlyOne(s: LevelState, dt: real, draw: nat, x: real, y: real, live: nat)
    requires dt >= 0.0
    ensures var (r, spawned) := SpawnerStep(s, dt, draw, x, y, live);
      r.isSpawning == s.isSpawning && r.waveEnemyLimit == s.waveEnemyLimit && r.bossTimer == s.bossTimer
      && (spawned.Some? <==> s.isSpawning && JustFinished(Tick(s.spawnTimer, dt)) && draw < Remains(s.enemyToSpawn))
      && (spawned.None? ==> r.enemyToSpawn == s.enemyToSpawn)
      && (spawned.Some? ==>
            exists i | 0 <= i < |s.enemyToSpawn| ::
              s.enemyToSpawn[i].kind.Normal? && s.enemyToSpawn[i].amount > 0
              && Remains(s.enemyToSpawn[..i]) <= draw < Remains(s.enemyToSpawn[..i + 1])
              && r.enemyToSpawn == Decremented(s.enemyToSpawn, i)
              && spawned.value == EnemySpawn(s.enemyToSpawn[i].enemy, s.enemyToSpawn[i].kind.strength,
                                             Transform(x, y, 0.0)))
      && (spawned.Some? ==> SumAll(r.enemyToSpawn) == SumAll(s.enemyToSpawn) - 1
                            && Remains(r.enemyToSpawn) == Remains(s.enemyToSpawn) - 1)
  {
    var (r, spawned) := SpawnerStep(s, dt, draw, x, y, live);
    PickFound(s.enemyToSpawn, draw);
    PickInBand(s.enemyToSpawn, draw);
    if spawned.Some? {
      var i := Pick(s.enemyToSpawn, draw).value;
      DecrementedLowersByOne(s.enemyToSpawn, i);
    }
  }

  /** A level that is not spawning does nothing; a finished tick with nothing
      left to spawn only ticks the timer and keeps the old interval; any other
      tick leaves the timer at the interval for the live-enemy count. */
  lemma SpawnerPacing(s: LevelState, dt: real, draw: nat, x: real, y: real, live: nat)
    requires dt >= 0.0
    ensures !s.isSpawning ==> SpawnerStep(s, dt, draw, x, y, live) == (s, None)
    ensures s.isSpawning && JustFinished(Tick(s.spawnTimer, dt)) && Remains(s.enemyToSpawn) == 0 ==>
      SpawnerStep(s, dt, draw, x, y, live).0.spawnTimer == Tick(s.spawnTimer, dt)
    ensures s.isSpawning && !(JustFinished(Tick(s.spawnTimer, dt)) && Remains(s.enemyToSpawn) == 0) ==>
      SpawnerStep(s, dt, draw, x, y, live).0.spawnTimer.duration == SpawnInterval(live, s.waveEnemyLimit)
  {
  }

  /** Some descriptor is a boss. */
  predicate HasBoss(descs: seq<EnemyDescriptor>) {
    exists i | 0 <= i < |descs| :: descs[i].kind.Boss?
  }

  /** One `level_boss_spawner` tick. */
  function BossStep(s: LevelState, dt: real): LevelState
    requires dt >= 0.0
  {
    if s.bossTimer.Some? then s.(bossTimer := Some(Tick(s.bossTimer.value, dt)))
    else if HasBoss(s.enemyToSpawn) && SumAll(s.enemyToSpawn) == 0 then s.(bossTimer := Some(NewTimer(10.0, Once)))
    else s
  }

  /** The 10-second boss timer is armed exactly when there is none, some
      descriptor is a boss and every amount, the bosses' included, is 0; so a
      boss listed with a positive amount keeps it from ever being armed, since
      the enemy spawner never decrements a boss. */
  lemma BossTimerArming(s: LevelState, dt: real, draw: nat, x: real, y: real, live: nat)
    requires dt >= 0.0
    ensures BossStep(s, dt).(bossTimer := s.bossTimer) == s
    ensures s.bossTimer.None? ==>
      (BossStep(s, dt).bossTimer == Some(NewTimer(10.0, Once)) <==>
         HasBoss(s.enemyToSpawn) && SumAll(s.enemyToSpawn) == 0)
    ensures (exists i | 0 <= i < |s.enemyToSpawn| :: s.enemyToSpawn[i].kind.Boss? && s.enemyToSpawn[i].amount > 0)
      ==> SumAll(s.enemyToSpawn) > 0
          && (var r := SpawnerStep(s, dt, draw, x, y, live).0;
              forall i | 0 <= i < |s.enemyToSpawn| && s.enemyToSpawn[i].kind.Boss? ::
                r.enemyToSpawn[i] == s.enemyToSpawn[i])
  {
    if exists i | 0 <= i < |s.enemyToSpawn| :: s.enemyToSpawn[i].kind.Boss? && s.enemyToSpawn[i].amount > 0 {
      var i :| 0 <= i < |s.enemyToSpawn| && s.enemyToSpawn[i].kind.Boss? && s.enemyToSpawn[i].amount > 0;
      SumAllAtLeast(s.enemyToSpawn, i);
    }
    var r := SpawnerStep(s, dt, draw, x, y, live);
    if r.1.Some? {
      DecrementedLowersByOne(s.enemyToSpawn, Pick(s.enemyToSpawn, draw).value);
    }
  }

  lemma {:induction false} SumAllAtLeast(descs: seq<EnemyDescriptor>, i: nat)
    requires i < |descs|
    ensures descs[i].amount <= SumAll(descs)
  {
    if i > 0 {
      SumAllAtLeast(descs[1..], i - 1);
    }
  }

  /** The pick from descriptor `i` on, one descriptor at a time. */
  lemma PickFrom(descs: seq<EnemyDescriptor>, i: nat, next: nat)
    requires i < |descs|
    ensures descs[i].kind.Normal? && next < descs[i].amount ==> Shift(Pick(descs[i..], next), i) == Some(i)
    ensures !(descs[i].kind.Normal? && next < descs[i].amount) ==>
      Shift(Pick(descs[i..], next), i) == Shift(Pick(descs[i + 1..], next - Weight(descs[i])), i + 1)
  {
    assert descs[i..][0] == descs[i];
    assert descs[i..][1..] == descs[i + 1..];
  }

  /** The descriptor walk of `level_enemy_spawner`: `next` starts at the draw
      and each normal descriptor takes its amount off it until it drops below
      zero. */
  method Walk(descs: seq<EnemyDescriptor>, draw: nat) returns (p: Option<nat>)
    ensures p == Pick(descs, draw)
  {
    var next: int := draw;
    var i := 0;
    assert descs[0..] == descs;
    while i < |descs|
      invariant 0 <= i <= |descs| && next >= 0
      invariant Pick(descs, draw) == Shift(Pick(descs[i..], next), i)
    {
      var d := descs[i];
      PickFrom(descs, i, next);
      ghost var rest := next - Weight(d);
      if d.kind.Normal? {
        next := next - d.amount;
        if next < 0 {
          return Some(i);
        }
      }
      assert next == rest;
      i := i + 1;
    }
    assert descs[i..] == [];
    return None;
  }

  /** A level: the `LevelInfo`, `NextSpawnTimer` and `BossSpawnTimer` of one
      level entity. */
  class Level {
    var isSpawning: bool
    var enemyToSpawn: seq<EnemyDescriptor>
    var waveEnemyLimit: nat
    var spawnTimer: Timer
    var bossTimer: Option<Timer>

    function State(): LevelState
      reads this
    {
      LevelState(isSpawning, enemyToSpawn, waveEnemyLimit, spawnTimer, bossTimer)
    }

    /** `spawn_level`: a spawning level with a repeating one-second timer. */
    constructor (descs: seq<EnemyDescriptor>, limit: nat)
      ensures State() == LevelState(true, descs, limit, NewTimer(1.0, Repeating), None)
    {
      isSpawning := true;
      enemyToSpawn := descs;
      waveEnemyLimit := limit;
      spawnTimer := NewTimer(1.0, Repeating);
      bossTimer := None;
    }

    /** `level_enemy_spawner` for this level. */
    method EnemySpawnerTick(dt: real, draw: nat, x: real, y: real, live: nat) returns (spawned: Option<EnemySpawn>)
      requires dt >= 0.0
      modifies this
      ensures (State(), spawned) == SpawnerStep(old(State()), dt, draw, x, y, live)
    {
      spawned := None;
      if !isSpawning {
        return;
      }
      spawnTimer := Tick(spawnTimer, dt);
      if JustFinished(spawnTimer) {
        if Remains(enemyToSpawn) == 0 {
          return;
        }
        var p := Walk(enemyToSpawn, draw);
        if p.Some? {
          var d := enemyToSpawn[p.value];
          enemyToSpawn := enemyToSpawn[p.value := d.(amount := d.amount - 1)];
          spawned := Some(EnemySpawn(d.enemy, d.kind.strength, Transform(x, y, 0.0)));
        }
      }
      var interval := if live < waveEnemyLimit then 0.6 else if live < 2 * waveEnemyLimit then 2.0 else 6.0;
      if spawnTimer.duration != interval {
        spawnTimer := Reset(spawnTimer).(duration := interval);
      }
    }

    /** `level_boss_spawner` for this level. */
    method BossSpawnerTick(dt: real)
      requires dt >= 0.0
      modifies this
      ensures State() == BossStep(old(State()), dt)
    {
      if bossTimer.Some? {
        bossTimer := Some(Tick(bossTimer.value, dt));
      } else if HasBoss(enemyToSpawn) && SumAll(enemyToSpawn) == 0 {
        bossTimer := Some(NewTimer(10.0, Once));
      }
    }
  }
}
