# Combat core of a Unity 2D brawler, modelled in Dafny

This project models the four components that hold the combat rules of a small Unity
brawler and proves properties about them:

- `Health` (module `HealthModel`, `health.dfy`): an integer health counter. Its one mutation
  path is `TakeDamage`, which raises the notifications `OnDamaged`, `OnHealthChanged(new)`
  and `OnDeath`. The class keeps the counter in `current` and every notification it has
  raised, in order, in `events`.
- `EnemyAttackRange` (module `EnemyAttackRangeModel`, `enemy_attack_range.dfy`): the enemy's
  trigger volume. It tracks `PlayerInRange` and caches the player's `Health`, updating both
  on enter and exit callbacks. A colliding object is a record: a player-tag flag and an
  optional `Health` identity (an integer standing for reference identity).
- `PlayerPunch` (module `PlayerPunchModel`, `player_punch.dfy`): the player's melee attack.
  It has the punch gate in `Update`, the part of `PunchRoutine` before its wait (flags,
  facing-dependent hitbox offset, one overlap check), the end of the routine, and
  `TryHitNow`/`TryDamage`. The last two scan the reused 8-entry overlap buffer (an `array`
  of optional colliders) and damage at most one `Health`.
- `EnemyController` (module `EnemyControllerModel`, `enemy_controller.dfy`): the enemy's
  state machine. It holds `_isDead`, `_isHurt`, the `_attackRoutine` slot and the pending
  `HurtRoutine`s. Each coroutine is an explicit countdown: the attack slot is `Idle`,
  `WindUp(ticksLeft)` or `Cooldown(ticksLeft)`, and each pending hurt routine is one entry
  of `hurtTimers`.

Each class has the source's fields, and methods whose bodies follow the source's branches.
Each method's postcondition ties the new state to a pure step function of the old state
(`AfterDamage`/`EventsOf`, `Enter`/`Exit`, `FirstTarget`, `UpdateStep`/`ResumeStep`/
`DamagedStep`/`DeathStep`). Lemmas about those functions state what holds over any series
of calls: death is announced once, the tracker holds the last player to enter, and there
is at most one strike per attack cycle. They also show that damage cancels a pending strike,
that death is final, that a strike comes `attackDelay` frames after its cycle starts, that
the cooldown then holds the slot for `attackCooldown` frames, and that a stun lasts exactly
`HURT_TICKS` frames after the hit that began it.

Conventions of the model:
- Time is counted in frames of 100 ms (ticks). A `WaitForSeconds(d)` lasts `d` ticks, at least
  one (`Common.Ticks`), because Unity resumes a waiting coroutine no earlier than the next
  frame. `HurtRoutine`'s fixed 0.3 s is `EnemyControllerModel.HURT_TICKS` = 3.
- A frame has an update phase, where every component's `Update` runs, followed by a
  coroutine phase, where waiting coroutines resume. The enemy's inputs are these phases as
  separate steps (`EnemyControllerModel.Input`: `UpdatePhase`, `CoroutinePhase`) plus the notifications of
  its own `Health` (`Heard`), in any order. A hit from `PlayerPunch.Update` may reach the
  enemy before or after its own `Update` in the same frame.
- Every pending wait is a countdown of coroutine phases, decremented once per phase. A wait
  that begins in an update phase (the punch, the wind-up, a stun) starts from
  `Common.WaitFromUpdate(d)` = `d + 1`: the coroutine phase of that same frame comes before
  any time has passed, so it is counted too, and the routine resumes in the coroutine phase
  `d` frames later. The cooldown begins inside a coroutine phase and starts from `d`.
- Distances are natural numbers in hundredths of a unit, so `stopDistance + 0.1f` is
  `stopDistance + STRIKE_SLACK` with `STRIKE_SLACK` = 10. The hitbox offset and the root's
  horizontal scale are `real`.
- `GetComponent`/`GetComponentInParent` lookups are given references: a collider record
  carries its `Health` (or none), and the enemy's per-frame inputs say whether a player is
  assigned, its distance, and its `Health`.
- `isStrongEnemy`, drawn with `Random.value` in `Start`, is a field of `EnemyControllerModel.Config`.
- The enemy subscribes to its own `Health` in `Start` (`OnDeath`, `OnDamaged`). This is
  `EnemyController.Notify`, with `EnemyControllerModel.Hear` as its specification. It delivers each
  recorded `HealthModel.Event` to the matching handler. `HealthChanged` has no handler there.

Behaviours of the code worth noting:
- `OnTriggerEnter2D` always overwrites the cached `Health` with the entering player's, even
  when another player's `Health` is already cached. `EnemyAttackRangeModel.CachedIsLastEntered` proves
  that the cache holds the most recent claiming entry that has not exited since.
- `OnDamaged` on an already stunned enemy starts another `HurtRoutine` and never stops the
  earlier ones. The first routine to finish clears `_isHurt`, so a second hit does not
  restart the stun: the stun ends when the oldest pending routine finishes. The model keeps
  all pending routines (`hurtTimers`, oldest first), and `EnemyControllerModel.RepeatedHitDoesNotRestartStun`
  shows the effect.
- `maxHealth` is not required to be positive. A `Health` built with `maxHealth <= 0` starts
  dead and ignores all damage.
- `EnemyController` never reads `EnemyAttackRange`. The enemy's decisions use only the
  distance to the player.

## Model

| member | source | states |
|---|---|---|
| HealthModel.AtLeastZero | Assets/Scripts/Health.cs:37-40 | `Mathf.Max(0, x)`: the result is non-negative, at least `x`, and is either `x` or 0 |
| HealthModel.AfterDamage | Assets/Scripts/Health.cs:32-40 | a dead counter (`<= 0`) is unchanged; a live one ends between 0 and its old value; it reaches 0 exactly when `amount >= current`; otherwise it drops by exactly `amount`; non-positive damage changes nothing |
| HealthModel.EventsOf | Assets/Scripts/Health.cs:43-53 | a dead counter announces nothing; a live one announces `Damaged` and then `HealthChanged(new value)`; `Death` is announced, last, exactly when a live counter reaches 0 |
| HealthModel.Health.constructor | Assets/Scripts/Health.cs:21-26 | health starts at `maxHealth` with no notifications; `IsDead` holds exactly when `maxHealth <= 0` |
| HealthModel.Health.IsDead | Assets/Scripts/Health.cs:14 | the counter is dead exactly when every further `TakeDamage` would announce nothing, and a dead counter is left as it is by any damage |
| HealthModel.Health.TakeDamage | Assets/Scripts/Health.cs:32-54 | the new counter is `AfterDamage(old counter, amount)`, and exactly `EventsOf(old counter, amount)` is appended to the notification log |
| HealthModel.DeadIgnoresDamage | Assets/Scripts/Health.cs:34 | after any series of calls on a dead counter, the counter is unchanged and nothing is announced |
| HealthModel.HealthNeverRises | Assets/Scripts/Health.cs:36-40 | over any series of calls, health never rises, and a counter that starts non-negative never goes negative |
| HealthModel.DeathAnnouncedOnce | Assets/Scripts/Health.cs:32-54 | over any series of calls, `Death` is announced once if a live counter ended at 0, and never otherwise |
| HealthModel.DeathIsLast | Assets/Scripts/Health.cs:34-53 | when `Death` appears in the log of a series of calls, it is the last notification: nothing is announced after death |
| HealthModel.DeathOnFirstZero | Assets/Scripts/Health.cs:49-53 | call `i` of a series announces `Death` exactly when the counter was alive before it and is 0 after it |
| HealthModel.ZeroDamageStillAnnounces | Assets/Scripts/Health.cs:37-47 | `TakeDamage(0)` on a live counter leaves it unchanged, announces no death, and still announces `Damaged` and `HealthChanged` |
| HealthModel.ThirtyThenEighty | Assets/Scripts/Health.cs:32-54 | a 100-point counter hit for 30 then 80 ends at 0 and announces `Death` once, on the second call |
| EnemyAttackRangeModel.Enter | Assets/Scripts/EnemyAttackRange.cs:10-23 | an entry that is not player-tagged, or has no `Health`, changes nothing; otherwise the player is in range and its `Health` replaces any cached one; the flag stays in step with the cache |
| EnemyAttackRangeModel.Exit | Assets/Scripts/EnemyAttackRange.cs:25-38 | the tracker either stays as it was or becomes empty; it becomes empty exactly when a player-tagged collider leaves with the cached `Health`; the flag stays in step with the cache |
| EnemyAttackRangeModel.EnemyAttackRange.constructor | Assets/Scripts/EnemyAttackRange.cs:7-8 | a new tracker is empty: not in range, nothing cached |
| EnemyAttackRangeModel.EnemyAttackRange.OnTriggerEnter2D | Assets/Scripts/EnemyAttackRange.cs:10-23 | the fields after the callback are `Enter` of the fields before |
| EnemyAttackRangeModel.EnemyAttackRange.OnTriggerExit2D | Assets/Scripts/EnemyAttackRange.cs:25-38 | the fields after the callback are `Exit` of the fields before |
| EnemyAttackRangeModel.EnterThenExitEmpties | Assets/Scripts/EnemyAttackRange.cs:19-34 | a player with a `Health` that enters and then leaves returns the tracker to empty, whatever it held before |
| EnemyAttackRangeModel.ReplayConsistent | Assets/Scripts/EnemyAttackRange.cs:7-38 | after any series of callbacks, `PlayerInRange` holds exactly when a `Health` is cached |
| EnemyAttackRangeModel.CachedIsLastEntered | Assets/Scripts/EnemyAttackRange.cs:10-38 | after any series of callbacks, `h` is cached exactly when `h` came with the most recent claiming entry and has not left since (both directions) |
| EnemyAttackRangeModel.InRangeIffHeld | Assets/Scripts/EnemyAttackRange.cs:7-38 | after any series of callbacks, `PlayerInRange` holds exactly when some claiming entry is still in force |
| PlayerPunchModel.FirstTarget | Assets/Scripts/PlayerPunch.cs:84-110 | the chosen index holds a non-null, non-trigger collider with a `Health` other than the player's own, and no earlier entry does; no index is chosen exactly when no entry qualifies |
| PlayerPunchModel.Sign | Assets/Scripts/PlayerPunch.cs:65 | `Mathf.Sign`: the result is +1 or -1, and it is +1 exactly for zero and positive inputs |
| PlayerPunchModel.HitboxOffset | Assets/Scripts/PlayerPunch.cs:65-68 | the offset has the configured magnitude, and (for a non-zero setting) is positive exactly when the player faces right (scale `>= 0`) and negative exactly when it faces left |
| PlayerPunchModel.PlayerPunch.constructor | Assets/Scripts/PlayerPunch.cs:18-48 | no punch is running, the hitbox is disabled, and the 8-entry buffer is fresh and empty |
| PlayerPunchModel.PlayerPunch.TryDamage | Assets/Scripts/PlayerPunch.cs:99-110 | a collider that passes the filter, met before any hit of this punch, sets the hit flag and takes `damage` once through `TakeDamage`; anything else changes nothing |
| PlayerPunchModel.PlayerPunch.TryHitNow | Assets/Scripts/PlayerPunch.cs:84-97 | with no hit yet, the hit flag ends true exactly when `FirstTarget` finds an entry; that entry's `Health` alone takes `damage`, once, and every other `Health` in the buffer is untouched; after a hit nothing changes |
| PlayerPunchModel.PlayerPunch.BeginPunch | Assets/Scripts/PlayerPunch.cs:59-76 | the punch is running, the hitbox is enabled at `HitboxOffset(scale, hitboxOffsetX)`, the wait is set to end `attackDuration` frames later (`WaitFromUpdate(attackDuration)` coroutine phases, this frame's included), and the overlap check has damaged at most the first valid target |
| PlayerPunchModel.PlayerPunch.Update | Assets/Scripts/PlayerPunch.cs:50-57 | a punch starts exactly when the button is pressed, no punch is running and the player is not dead; otherwise nothing changes; the invariant (hitbox enabled exactly while a punch is running) is kept |
| PlayerPunchModel.PlayerPunch.Resume | Assets/Scripts/PlayerPunch.cs:78-81 | each coroutine phase shortens the punch's wait by one; when it ends the hitbox is disabled and `isAttacking` is false; without a running punch nothing changes |
| EnemyControllerModel.SpawnedSatisfiesInv | Assets/Scripts/EnemyController.cs:26-28 | a new controller (not dead, not hurt, empty slot, collider on) satisfies the invariant |
| EnemyControllerModel.UpdateStep | Assets/Scripts/EnemyController.cs:63-95 | dead, hurt or no player: nothing happens; the enemy moves exactly when alive, unhurt, with a player beyond `stopDistance`, and moving cancels the attack cycle; within `stopDistance` a cycle starts only in an empty slot, with a wind-up that ends `attackDelay` frames later; only the slot changes; the invariant is kept |
| EnemyControllerModel.Countdown | Assets/Scripts/EnemyController.cs:187-190 | one coroutine phase for the pending `HurtRoutine` waits: no wait is added and every wait left is at least one phase (what is left is stated exactly by the two lemmas below) |
| EnemyControllerModel.CountdownShortensAll | Assets/Scripts/EnemyController.cs:187-190 | when no pending hurt wait is over, every one is exactly one phase shorter, in the same order, and none is removed |
| EnemyControllerModel.CountdownCounts | Assets/Scripts/EnemyController.cs:187-190 | in general, the pending waits of `v >= 1` phases afterwards are exactly (as a multiset) the waits of `v + 1` phases before; waits that were over are gone |
| EnemyControllerModel.CountdownWithin | Assets/Scripts/EnemyController.cs:187-190 | waits all within `m` phases become waits all within `m - 1` |
| EnemyControllerModel.ResumeStep | Assets/Scripts/EnemyController.cs:136-191 | a strike happens exactly when the wind-up ends while the enemy is alive and unhurt, the player is present, its `Health` is alive and the distance is at most `stopDistance + 0.1`; its damage is `strongDamage` for a strong enemy and `normalDamage` otherwise; a wind-up or cooldown with more than one phase left is one phase shorter, a finished wind-up becomes a full `attackCooldown` cooldown whether or not it strikes, and a finished cooldown frees the slot; an empty slot stays empty; the enemy stays hurt exactly when it was hurt and no pending `HurtRoutine` finishes in this phase, and every pending hurt wait counts down (`Countdown`); the invariant is kept |
| EnemyControllerModel.DamagedStep | Assets/Scripts/EnemyController.cs:162-184 | a dead enemy is unchanged; a live one becomes hurt, its attack slot is emptied and one more hurt wait starts that ends `HURT_TICKS` frames later; the invariant is kept |
| EnemyControllerModel.DeathStep | Assets/Scripts/EnemyController.cs:193-216 | the enemy is dead, its attack slot is empty and its collider disabled; hurt state is untouched; the invariant is kept |
| EnemyControllerModel.HitCancelsStrike | Assets/Scripts/EnemyController.cs:162-173 | one `TakeDamage` on a live enemy's live `Health` leaves it hurt with an empty slot, dead exactly when its health reached 0, and the next coroutine phase strikes nobody |
| EnemyControllerModel.RunKeepsInv | Assets/Scripts/EnemyController.cs:63-216 | the invariant holds after any series of update phases, coroutine phases and notifications, in any order |
| EnemyControllerModel.AtMostOneStrikePerCycle | Assets/Scripts/EnemyController.cs:89-158 | over any series of inputs, strikes plus a wind-up still pending never exceed cycles started plus a wind-up pending at the start |
| EnemyControllerModel.StrikesFromSpawn | Assets/Scripts/EnemyController.cs:89-158 | from spawn, strikes never outnumber the attack cycles `Update` started |
| EnemyControllerModel.DeathIsFinal | Assets/Scripts/EnemyController.cs:193-202 | once dead with an empty slot, after any series of inputs the enemy is still dead and has not moved, started a cycle or struck |
| EnemyControllerModel.WindUpRunsItsCourse | Assets/Scripts/EnemyController.cs:137-155 | on an enemy neither dead nor stunned, with the player in reach and nothing heard, a wind-up with `n` phases left is still a wind-up with `n - k` left, with no strike, chase or new cycle, after `k < n` coroutine phases and any `Update`s between them; the `n`-th phase ends it in one strike check (a strike exactly when `StrikeLands` holds in that phase) and begins the full cooldown |
| EnemyControllerModel.AttackWaitsAttackDelay | Assets/Scripts/EnemyController.cs:89-155 | after `Update` starts a cycle within reach, and while the player stays in reach with the enemy's `Update` running every frame, the coroutine phases of that frame and the next `attackDelay - 1` frames strike nobody and keep the wind-up; the phase `attackDelay` frames later strikes exactly when `StrikeLands` holds |
| EnemyControllerModel.CooldownRunsItsCourse | Assets/Scripts/EnemyController.cs:155-158 | with the player in reach and nothing heard, a cooldown with `n` phases left keeps the slot busy (`n - k` left, no strike, chase or new cycle) through `k < n` coroutine phases and any `Update`s between them, and the `n`-th phase frees the slot |
| EnemyControllerModel.HurtWearsOff | Assets/Scripts/EnemyController.cs:187-190 | with every pending hurt wait within `m` phases, `m` or more coroutine phases with nothing heard leave the enemy unhurt |
| EnemyControllerModel.HurtPersists | Assets/Scripts/EnemyController.cs:187-190 | a stunned enemy whose pending hurt waits all exceed the number of coroutine phases that pass, with nothing heard, is still stunned |
| EnemyControllerModel.HurtLastsAtMostHurtTicks | Assets/Scripts/EnemyController.cs:183-190 | from any reachable state, `HURT_TICKS + 1` coroutine phases with nothing heard (that of the frame of the last hit and `HURT_TICKS` more) end the stun |
| EnemyControllerModel.StunLastsHurtTicks | Assets/Scripts/EnemyController.cs:162-190 | after one hit on a live enemy with no stun pending, it is still stunned exactly while at most `HURT_TICKS` coroutine phases have passed: through the frame of the hit and the next `HURT_TICKS - 1`, and no longer `HURT_TICKS` frames after the hit |
| EnemyControllerModel.RepeatedHitDoesNotRestartStun | Assets/Scripts/EnemyController.cs:162-190 | with hits in frames 0 and 2, the enemy is still stunned at the end of frame 2 and free at the end of frame 3: the first hit's routine ends the stun one frame after the second hit |
| EnemyControllerModel.EnemyController.constructor | Assets/Scripts/EnemyController.cs:26-28 | the controller starts in the spawned state, which satisfies the invariant |
| EnemyControllerModel.EnemyController.Update | Assets/Scripts/EnemyController.cs:63-95 | the new state and whether the enemy chased are `UpdateStep` of the old state |
| EnemyControllerModel.EnemyController.ResumeCoroutines | Assets/Scripts/EnemyController.cs:121-191 | one coroutine phase: the new state is `ResumeStep` of the old; when it strikes, the player's `Health` takes exactly that damage through `TakeDamage`, and otherwise it is untouched |
| EnemyControllerModel.EnemyController.OnDamaged | Assets/Scripts/EnemyController.cs:162-184 | the new state is `DamagedStep` of the old |
| EnemyControllerModel.EnemyController.OnDeath | Assets/Scripts/EnemyController.cs:193-216 | the new state is `DeathStep` of the old |
| EnemyControllerModel.EnemyController.Notify | Assets/Scripts/EnemyController.cs:55-60 | a notification from the enemy's own `Health` runs the subscribed handler: `Damaged` gives `DamagedStep`, `Death` gives `DeathStep`, `HealthChanged` changes nothing |

## Left out

- Animator triggers and booleans, sprite flip and tint, and `Debug.Log`/`LogHealthToConsole`: presentation only.
- `MoveTowardsPlayer`'s vector arithmetic (normalisation, `moveSpeed * Time.deltaTime`): the model records only that the enemy moved (`chased`). Distances are inputs to each frame.
- `Random.value` in `EnemyController.Start`: `isStrongEnemy` is a given configuration value.
- `WaitForSeconds` wall-clock semantics and variable frame times: frames are a fixed 100 ms step and waits are whole frames.
- EnemyControllerModel.ResumeStep: float distances and the `0.1f` slack are exact hundredths of a unit, so float rounding at the boundary is not modelled.
- PlayerPunchModel.HitboxOffset: `float` is modelled as exact `real`, so rounding is not modelled.
- `hitbox.Overlap` and its contact filter: the overlap query is the physics engine's. The model takes the buffer contents and the returned count as given (`count <= 8`), and keeps `TryDamage`'s own trigger check.
- A missing `BoxCollider2D` in `PlayerPunch.Start`: the model assumes the hitbox exists.
- A missing `Collider2D` in `EnemyController.OnDeath`: the model assumes the enemy has one (`colliderEnabled`).
- `AttackRoutine`'s early exit when dead or without a player (`EnemyController.cs:123-127`) is not modelled. `Update` starts the routine only after checking the same conditions in the same call, so the exit cannot fire. (Were it to fire, `_attackRoutine` would keep the finished routine's handle.)
- `HurtRoutine`s keep running after death; the model does the same. Nothing reads `isHurt` once the enemy is dead.
- What the player's own `Health` subscribers do when an enemy strikes (UI, movement freeze): those scripts are not part of this model.
- `GameUI.cs`, `HUD.cs`, `HealthBar.cs`, `GameManager.cs`, `CameraFollow.cs`, `EnemySpawner.cs`, `PlayerMovement.cs`, `Collectable.cs`: UI, engine glue, randomness and physics, not part of this model.
