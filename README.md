# Bullets, weapons and levels of a Bevy shooter, in Dafny

This project models the game-logic core of a top-down shooter written in Rust
on the Bevy engine. It covers:

- weapon firing and cooldown (`shoot_system`, `cooldown_system`);
- hit accounting: `HitCount` and `bullet_hit_system`, first hits and the
  endurance rule of `bullet_hit_endurance_system`, damage
  (`hit_damage_system`) and death (`life_dies_system`);
- the bullet lifecycle of `src/bullets.rs`:
  - spawn fan-out (`bullet_spawner`);
  - generation chaining (`bullet_succeed`);
  - despawn marking (`bullet_lifetime`, `bullet_endurance`);
  - the succeed event sent at death (`bullet_before_despawn`);
  - the four per-variant initializers, including the laser's "one beam per
    shooter" rule;
  - the move systems that insert `Movement` only once;
- the level spawner of `src/levels.rs`:
  - the weighted pick of an enemy descriptor, its decrement and the
    spawn-interval bands (`level_enemy_spawner`);
  - the arming of the boss timer (`level_boss_spawner`).

The entities live in an arena, `Ecs.World`. It maps entity ids to records of
optional components (`Ecs.Comps`). Bevy `Commands` become updates of that map.
A query visits the live entities in ascending id order. A system that defers
its commands reads the world as it was before the pass and writes the new
world when the pass ends. A system that mutates components in place
(`&mut`) writes them as it goes.

Each system is a method. Its postcondition ties the new world, and the events
it sends, to a function of the old world. The lemmas prove what
the game relies on about those functions. Everything outside the logic
becomes an input:

- physics contacts: for each bullet, the sequence of entities it touches;
- the Bernoulli draws, splash angles, spawn positions and level draws;
- the frame time `dt`;
- the live-enemy count of a level.

The files are:

- `ecs.dfy`: entities, components, events, collision layers, Bevy's `Timer`,
  and the `World` arena;
- `weapons.dfy`: `shoot_system` and `cooldown_system`;
- `hits.dfy`: hit counting, endurance, damage and death;
- `bullets.dfy`: the bullet lifecycle, initializers and move systems;
- `levels.dfy`: the level spawner, with `Levels.Level` as the level entity's
  mutable state.

The model follows the code in these behaviours:

- An endurance of 1 becomes 0 after a first hit, and the bullet lives on.
  `bullet_endurance` marks only a strictly negative endurance.
- A laser copies its shooter's `Aims` once, when `lazer_shot_move_system`
  first sees it. It does not follow later changes of the aim.
- The boss timer is armed only when every amount is 0, the bosses' included.
  The enemy spawner never decrements a boss, so a boss listed with a positive
  amount keeps the timer from ever being armed (`Levels.BossTimerArming`).

## Model

| member | source | states |
|---|---|---|
| Ecs.Tick | src/main.rs:705 | Ticking keeps a timer's duration and mode. It just-finishes exactly when it is not an already finished one-shot timer and the elapsed time plus `dt` reaches the duration. |
| Ecs.OnceFinishesOnce | src/bullets.rs:152-155 | After a one-shot timer has just finished, no later tick makes it just-finish again, and it stays finished. |
| Ecs.World.Spawn | src/bullets.rs:56-63 | `commands.spawn` adds one entity under a fresh id and leaves every other entity as it was. |
| Weapons.CooldownSeconds | src/main.rs:689-694 | The armed cooldown is non-negative, and multiplied by `accelerate` it gives `loads[0].cooldown * 100`. |
| Weapons.AccelerateScalesFireRate | src/main.rs:692 | Doubling a weapon's `accelerate` halves its cooldown. |
| Weapons.ShotsComeFromReadyWeapons | src/main.rs:671-687 | Every spawn request comes from a weapon that is shooting, not cooling down, and has a non-empty `loads`. It carries `loads[0]`, generation 0, the weapon's parent as `by`, the parent's transform and the weapon as `with`. |
| Weapons.ReadyWeaponsShoot | src/main.rs:677-687 | Every weapon that is ready to fire sends its request. |
| Weapons.OneShotPerWeapon | src/main.rs:677-696 | The requests are strictly ordered by weapon, so no weapon fires twice in one pass. |
| Weapons.CooldownArmedIffFired | src/main.rs:678-695 | A weapon arms `IsCoolingdown` exactly when it fires. An empty `loads` arms nothing. No other component changes. |
| Weapons.ShootSystem | src/main.rs:671-697 | The requests sent are `Shots` of the old world. Every weapon that fired is cooling down afterwards. |
| Weapons.CooldownClearsOnlyWhenFinished | src/main.rs:699-709 | `IsCoolingdown` is removed exactly when its timer just finished. Only that component changes, and entities that are not cooling weapons are untouched. |
| Weapons.ReadyAgainWhenCooldownFinishes | src/main.rs:699-709 | After the cooldown pass, a shooting weapon with loads is ready to fire exactly when it was not cooling or its timer just finished. |
| Weapons.CooldownSystem | src/main.rs:699-709 | Every entity becomes `CooledDown` of its old self. Nothing is spawned or despawned. |
| Hits.TallyCounts | src/main.rs:727-735 | A target's count rises by the number of times it was touched if it has `Life`, and is otherwise unchanged. Counts never decrease, and an entry appears exactly for touched targets with `Life`. |
| Hits.TallyEventCount | src/main.rs:731-744 | The hit events on a target are exactly one per new count that lies within `hit_limit`. |
| Hits.TallyTicksEventCount | src/main.rs:725-748 | The per-target event count of the previous row holds over any run of ticks. |
| Hits.HitLimitBoundsEvents | src/main.rs:737-743 | Over a bullet's whole life, it sends at most `hit_limit` hit events to one target. With `hit_limit = 1` it sends at most one. |
| Hits.FirstHitOnlyOnFirstContact | src/main.rs:731-743 | A tally sends one first-hit event on a target exactly when the bullet had not hit it before, hits it now, and 1 is within the limit. Otherwise it sends none. |
| Hits.TallyContacts | src/main.rs:728-745 | The in-place loop over one bullet's contacts computes `Tally`. |
| Hits.TallyBullet | src/main.rs:726-746 | One bullet's pass advances the world and the hit events by exactly that bullet's tally. |
| Hits.BulletHitSystem | src/main.rs:714-749 | Every bullet's `HitCount` becomes its tally against this tick's contacts. The events are the bullets' tallies in order. |
| Hits.EnduranceAfterHit | src/main.rs:789-795 | On a first hit, infinite endurance stays infinite. An endurance of 1 or more drops by exactly 1. One in `[0, 1)` is kept exactly when the draw is below it, and otherwise becomes -1. A negative one is left as it is. Endurance never grows. |
| Hits.EnduranceAsWritten | src/main.rs:789-795 | The code's rule fails (`gen_bool` panics) exactly when the endurance is negative. Otherwise it gives the corrected rule's result. |
| Hits.Worn | src/main.rs:789-795 | Through any run of first hits, an infinite endurance stays infinite, a finite one stays finite, and it never grows. |
| Hits.AsWrittenAgreesOnValidProbabilities | src/main.rs:789-795 | The corrected endurance rule agrees with the code whenever the endurance is not negative. |
| Hits.SecondFirstHitPanicsAsWritten | src/main.rs:789-791 | One bullet touching two targets in one tick sends two first hits. After a failed first trial, the code's second trial is drawn with probability -1, where `gen_bool` panics. |
| Hits.WholeEnduranceIsAHitBudget | src/main.rs:789-795 | A whole endurance `n` survives `n` first hits, losing 1 each time. The next first hit leaves it at -1. |
| Hits.DoomedStaysDoomed | src/main.rs:789-792 | A negative endurance stays as it is through any number of further first hits. |
| Hits.FractionalEnduranceIsAProbability | src/main.rs:789-792 | An endurance `p` in `[0, 1)` stays `p` while every draw is below `p`, and becomes -1 once a draw is not. |
| Hits.SucceedOnEveryFirstHit | src/main.rs:773-787 | There is exactly one succeed event per first hit, whether or not the bullet then dies. Each event carries the bullet's weapon and stored generation. |
| Hits.HitEnduranceSystem | src/main.rs:759-797 | Each bullet's endurance is worn by its own first hits, in event order. The succeed events are `Succeeds` of the events. |
| Hits.Ceil | src/main.rs:807 | `ceil(d)` is the least integer not below `d`. |
| Hits.DamageAdds | src/main.rs:804-809 | The damage taken by a target adds up over consecutive batches of events. |
| Hits.DamageNeverHeals | src/main.rs:804-809 | With non-negative damage, events never raise a life. An event with positive damage lowers it by at least 1. |
| Hits.HitDamageSystem | src/main.rs:799-810 | Every target with `Life` loses `ceil(damage)` per event aimed at it. Events on targets without `Life` change nothing. |
| Hits.LifeDiesSystem | src/main.rs:142-148 | Despawns exactly the entities whose `Life` is at most 0, and keeps every other entity unchanged. |
| Hits.LethalDamage | src/main.rs:142-148 | After the damage pass, a target is dead exactly when the damage it took reaches its old life. |
| Bullets.Fired | src/bullets.rs:56-75 | The components of a new bullet. `Bullets.FactionsCollideAcross` states its collision layers and `Bullets.SpawnedThenInitialized` what the initializer makes of it. |
| Bullets.FactionsCollideAcross | src/bullets.rs:65-75 | A player's bullet interacts with enemies and enemy bullets, and with neither the player nor the player's bullets. Any other bullet is the mirror image. |
| Bullets.BatchAppend | src/bullets.rs:38-77 | Requests are served one after the other: the bullets of `a + b` are those of `a` followed by those of `b`. |
| Bullets.BatchShape | src/bullets.rs:41-63 | One request spawns `count` copies for a splash shot and 1 otherwise. A run of requests spawns `Fanout` bullets, each built from one of its requests. |
| Bullets.AppendedSpawns | src/bullets.rs:55-63 | Spawning keeps every old entity and gives the `k`-th new bullet the id `base + k`. |
| Bullets.SpawnCopies | src/bullets.rs:55-76 | The `for _ in 0..repeats` loop adds exactly `repeats` copies under consecutive fresh ids. |
| Bullets.BulletSpawner | src/bullets.rs:33-78 | The world gains exactly the bullets of `Batch` under fresh ids. Old entities are unchanged. |
| Bullets.BulletSucceed | src/bullets.rs:87-105 | The requests sent are `Successors` of the succeed events. |
| Bullets.ChainFollowsLoads | src/bullets.rs:94-103 | A bullet spawned at generation `g` stores `g + 1`. When it succeeds, its weapon requests `loads[g + 1]` from the weapon's parent, exactly when `g + 1 < len(loads)`. |
| Bullets.SuccessorsStayInLoads | src/bullets.rs:92-104 | There is at most one request per succeed event. Each request names a load index inside its weapon's `loads` and carries that load. |
| Bullets.LifetimeSystem | src/bullets.rs:147-157 | Every `LifeTime` ticks, and its bullet is marked exactly on the tick that finishes the timer. |
| Bullets.MarkedWhenLifeTimeRunsOut | src/bullets.rs:152-155 | A fresh bullet is marked for despawn exactly once its ticks add up to its `life_time`. |
| Bullets.EnduranceSystem | src/bullets.rs:161-170 | Every bullet with a negative endurance is marked and loses `BulletEndurance`. Every other entity is unchanged. |
| Bullets.ExhaustedOnlyBelowZero | src/bullets.rs:162-168 | Only a strictly negative endurance marks a bullet. An endurance of 0 or an infinite one does not. |
| Bullets.BeforeDespawnSystem | src/bullets.rs:109-143 | Despawns exactly the marked bullets. The succeed events are `LastSucceeds` of the old world. |
| Bullets.InfiniteEnduranceNeverChains | src/bullets.rs:131-138 | A dying bullet with infinite endurance sends no succeed event. |
| Bullets.ExhaustedDiesSilently | src/bullets.rs:131-140 | A bullet whose endurance went negative dies without a succeed event. A bullet marked with a finite endurance of 0 or more sends exactly one. |
| Bullets.OneLastSucceedPerBullet | src/bullets.rs:123-142 | Each dying bullet sends at most one succeed event, with its own weapon and generation, in id order. |
| Bullets.Initialized | src/bullets.rs:218-233 | A bullet after its initializer. Its contents are stated by `Bullets.SpawnedThenInitialized`. |
| Bullets.SpawnedThenInitialized | src/bullets.rs:218-233 | An initialized bullet sits at its shooter's transform. It has a fresh one-shot `LifeTime` of `life_time`, its load's endurance, generation `g + 1` and an empty `HitCount`, and no `InitPosition`. |
| Bullets.BodyInitOnce | src/bullets.rs:212-235 | The lane, explode and splash initializers each change only bullets of their own variant, and a second run changes nothing. |
| Bullets.BodyInitializer | src/bullets.rs:212-235 | The initializer (lane here; explode at 264-287, splash at 324-347) initializes exactly its waiting bullets and leaves every other entity as it was. |
| Bullets.LazerInitializer | src/bullets.rs:374-416 | The world becomes `LazerPass` of the old world. |
| Bullets.LazerKeepsOneBeamPerShooter | src/bullets.rs:387-412 | A waiting laser is initialized exactly when its shooter has no beam yet, and is despawned otherwise. If each shooter's lasers arrive in different passes, no shooter ever has two beams. |
| Bullets.SamePassLazersBothInitialized | src/bullets.rs:377-392 | Two lasers of one shooter waiting in the same pass both become beams, because the check reads the world before the pass. |
| Bullets.LaneLaunchedOnce | src/bullets.rs:195-210 | A ready lane shot gets a straight move along its heading and its bullet's speed. It then no longer matches the query, so a second pass leaves it as it is. |
| Bullets.LaneMoveSystem | src/bullets.rs:195-210 | Every lane shot without `Movement` gets a straight move along its heading at its bullet's speed. Nothing else changes. |
| Bullets.SplashStaysInCone | src/bullets.rs:310-320 | A splash bullet leaves within `angle` of its heading at its bullet's speed. Later passes never change its direction. |
| Bullets.SplashMoveSystem | src/bullets.rs:302-322 | Every splash shot without `Movement` gets its heading turned by its own draw. Nothing else changes. |
| Bullets.LazerAimCopiedOnce | src/bullets.rs:361-372 | A laser takes a copy of its shooter's aim point, and later passes never change it. |
| Bullets.LazerMoveSystem | src/bullets.rs:361-373 | Every initialized laser without `Aims` gets its shooter's aim point as the world had it before the pass. |
| Levels.Pick | src/levels.rs:81-89 | A pick is a normal descriptor that has enemies left. |
| Levels.PickFound | src/levels.rs:71-84 | Some descriptor is picked exactly when the draw is below `remains`. |
| Levels.PickInBand | src/levels.rs:81-86 | The picked descriptor `i` is the one whose band of running sums holds the draw. |
| Levels.BandPicks | src/levels.rs:81-86 | A draw in descriptor `i`'s band picks `i`. |
| Levels.PickIsWeighted | src/levels.rs:71-86 | Of the `remains` legal draws, exactly `amount` pick a given normal descriptor, and none picks a boss. |
| Levels.PickAsWritten | src/levels.rs:81-89 | The code's walk, where bosses also take their amount off `next`, picks a descriptor that has enemies left. |
| Levels.BossPickPanicsAsWritten | src/levels.rs:71-89 | With a boss listed before a normal enemy, the only legal draw lands the code's walk on the boss, where it reaches `unreachable!()`. The corrected pick chooses the normal enemy. |
| Levels.BossShiftsPickAsWritten | src/levels.rs:71-89 | With a boss listed before two normal enemies, the draw 1 makes the code's walk pick the first normal enemy, while the corrected pick chooses the second. |
| Levels.PickAsWrittenWithoutBosses | src/levels.rs:71-89 | On a level without bosses, the code's walk and the corrected pick agree on every draw. |
| Levels.DecrementedLowersByOne | src/levels.rs:83-85 | Spawning lowers the picked amount, the total and `remains` by exactly 1. Every other descriptor is unchanged. |
| Levels.SlowerWithMoreEnemies | src/levels.rs:114-133 | The interval is 0.6, 2 or 6 seconds, and it never shrinks as the live-enemy count grows. |
| Levels.Paced | src/levels.rs:116-130 | The timer gets the interval as its duration. It is left as it was exactly when the duration already matches, and is reset otherwise. |
| Levels.SpawnsExactlyOne | src/levels.rs:64-108 | An enemy spawns exactly when the level is spawning, the timer just finished and the draw is below `remains`. It is the picked descriptor's enemy, and that descriptor alone is decremented, by 1. Otherwise no amount changes. |
| Levels.SpawnerPacing | src/levels.rs:66-133 | A level that is not spawning does nothing. A finished tick with no normal enemy left keeps its interval. Every other tick sets the interval band for the live-enemy count. |
| Levels.BossTimerArming | src/levels.rs:145-157 | A 10-second one-shot boss timer is armed exactly when there is none yet, some descriptor is a boss and every amount is 0. A boss listed with enemies left blocks it for good, since the enemy spawner never decrements a boss. |
| Levels.Walk | src/levels.rs:81-106 | The loop that walks the descriptors with a decreasing `next` computes the corrected `Pick`, which skips bosses. |
| Levels.Level.constructor | src/main.rs:237-251 | A new level is spawning, with its descriptors, its wave limit, a repeating 1-second spawn timer and no boss timer. |
| Levels.Level.EnemySpawnerTick | src/levels.rs:53-135 | The level's new state and the spawned enemy are `SpawnerStep` of its old state, with the corrected pick. |
| Levels.Level.BossSpawnerTick | src/levels.rs:139-160 | The level's new state is `BossStep` of its old state. |

## Left out

- Rendering (meshes, sprites, materials, the camera) is left out. The initializers keep only the state the logic reads: the transform, `LifeTime`, `BulletEndurance`, the collider shape and the dynamic-body flag.
- Physics is left out. Contacts are an input, and colliders and rigid bodies are tags. `move_system`, `aim_system`, `player_enemy_shock_system`, enemy targeting and forced moves are float vector geometry outside this model.
- Input handling, `main`'s wiring and the system schedule are left out. Each system is modelled as one step on its own.
- Randomness is left out. Every random outcome is a parameter:
  - the Bernoulli draw `u` of `gen_bool` (the trial succeeds when `u < p`);
  - the splash angle, the spawn position and the level's draw;
  - `randomize_weapons`, which only picks weapons at random.
- Ecs.Tick: times are exact reals, not nanosecond `Duration`s. A repeating timer with duration 0 reports `u32::MAX` finishes, as Bevy does.
- Floats are reals. NaN and rounding are not modelled, and `endurance`/`hit_limit` are either infinite or a finite real.
- Hits.HitDamageSystem: life is an unbounded integer, so the `as i32` cast of the damage and i32 overflow of `life` are not modelled.
- Levels.PickFound: amounts are unbounded, so an overflow of the `u32` sum behind `remains` is not modelled.
- Levels.BossTimerArming: amounts are unbounded, so an overflow of the `u32` sum in `level_boss_spawner` (src/levels.rs:153) is not modelled either.
- Bullets.BodyInitializer: `Timer::from_seconds` panics on a negative `life_time` (src/bullets.rs:228, 280, 340). The model does not capture that abort: such a bullet gets a one-shot `LifeTime` that finishes on its first tick.
- Bullets.LazerInitializer: `Timer::from_seconds` panics on a negative `life_time` (src/bullets.rs:407). The model does not capture that abort: such a laser gets a one-shot `LifeTime` that finishes on its first tick.
- The `.unwrap()` and `gen_bool`/`gen_range` preconditions whose failure aborts the program are preconditions of the system methods, for example `CanShoot`, `EnduresHits`, `DamageResolves`, `SplashDraws` and `ShootersAim`. `Duration::from_secs_f32` panics on a negative cooldown, so `WellFormed` asks for a positive `accelerate` and a non-negative cooldown on the first load, the only one the shooting system reads.
- A query's iteration order is taken as ascending entity ids. Bevy leaves it unspecified, so statements about event order hold for that order.
- Hits.BulletHitSystem: `CollidingEntities` is a set, while the model takes each bullet's contacts as a sequence, which is more general. The `is_empty()` guard needs no branch, since an empty sequence tallies to nothing.
- `explode_shot_move_system` has an empty body and so has no member. An explode shot never gets `Movement`, and `Bullets.SpawnedThenInitialized` states that it has no dynamic body either.
- The spawned enemy is returned as an `EnemySpawn` value (type name, strength and position). It is not added to a world. `enemies::type_dispatch`, the `Enemy`/`Character`/`LevelRef` markers and enemy behaviour are not part of this model.
- Levels.Level.EnemySpawnerTick: the live-enemy count of the level is a parameter, not a query over the world. The tick also uses the corrected pick of the src/levels.rs:71-89 finding. Where a boss is listed before normal enemies, the code picks differently or panics.
- Levels.Walk: implements the corrected pick of the src/levels.rs:71-89 finding, not the code's walk. That walk is `Levels.PickAsWritten`.
- Hits.HitEnduranceSystem: follows the corrected endurance rule of the src/main.rs:789-791 finding. Where the code's next first hit on a doomed bullet panics in `gen_bool(-1.0)`, the model keeps the endurance at -1.
- The boss timer's expiry has an empty body in the code, so `BossStep` only ticks the timer. `LEVEL_TIME_BASE`, `CurrentWave`, `SpawnedCounter` and `LevelInfo.id` are unused by the logic and left out.
- Bullets.LazerKeepsOneBeamPerShooter: "one beam per shooter" is proved only when no two lasers of one shooter wait in the same pass. `Bullets.SamePassLazersBothInitialized` shows that the code keeps both otherwise.

## Findings

| source | as written | input that shows it | evidently intended | confidence | as-written member | corrected member |
|---|---|---|---|---|---|---|
| src/main.rs:789-791 | `gen_bool(endurance)` is called for every first hit while the endurance is below 1, including a negative one left by an earlier failed trial | a bullet with endurance 0.5 touches targets 1 and 2 on one tick; the first trial fails with draw 0.75 and sets -1; the second first hit calls `gen_bool(-1.0)`, which panics | a bullet whose trial already failed stays doomed and is not drawn again | high; not executed | Hits.EnduranceAsWritten, Hits.SecondFirstHitPanicsAsWritten | Hits.EnduranceAfterHit, Hits.DoomedStaysDoomed, Hits.HitEnduranceSystem |
| src/levels.rs:71-89 | `remains` leaves bosses out, but the walk subtracts every descriptor's amount, bosses included | descriptors `[boss ×1, normal ×1]`: `remains` is 1, the draw is 0, the walk stops on the boss and reaches `unreachable!()`. With `[boss ×1, a ×1, b ×1]` and draw 1, the walk picks `a` where the weighted pick gives `b` | the walk skips bosses, so each normal descriptor is picked with weight `amount` | high; not executed | Levels.PickAsWritten, Levels.BossPickPanicsAsWritten, Levels.BossShiftsPickAsWritten | Levels.Pick, Levels.PickIsWeighted |
