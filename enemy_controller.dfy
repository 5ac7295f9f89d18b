/** The `EnemyController` component: chase or attack each frame, one attack cycle at a
    time (wind-up, strike check, cooldown), stun on damage, and death. Coroutines are
    explicit countdowns advanced once per frame, in the frame's coroutine phase. */
module EnemyControllerModel {
  import opened Common
  import opened HealthModel

  /** `HurtRoutine`'s fixed 0.3 s wait, at 100 ms per tick. */
  const HURT_TICKS: Ticks := 3

  /** The 0.1 unit of slack the strike check adds to `stopDistance`, in hundredths of a unit. */
  const STRIKE_SLACK: nat := 10

  /** The `_attackRoutine` slot: empty, or the running `AttackRoutine` waiting out its
      `attackDelay` (wind-up) or its `attackCooldown`, with the coroutine phases left in that
      wait. The wind-up begins in `Update`, so it counts down from `WaitFromUpdate(attackDelay)`;
      the cooldown begins inside the routine, so it counts down from `attackCooldown`. */
  datatype Phase = Idle | WindUp(ticksLeft: nat) | Cooldown(ticksLeft: nat)

  /** Serialized settings. Distances are in hundredths of a unit. `isStrongEnemy` is drawn
      at random in `Start`; here it is given. */
  datatype Config = Config(
    stopDistance: nat,
    attackDelay: Ticks,
    attackCooldown: Ticks,
    normalDamage: int,
    strongDamage: int,
    isStrongEnemy: bool)

  /** The controller's state. `hurtTimers` holds one countdown per pending `HurtRoutine`,
      oldest first; these routines are never stopped, so several may be pending at once. */
  datatype State = State(
    isDead: bool,
    isHurt: bool,
    attack: Phase,
    hurtTimers: seq<nat>,
    colliderEnabled: bool)

  const Spawned := State(false, false, Idle, [], true)

  /** What every reachable state satisfies. */
  predicate Inv(s: State, cfg: Config)
  {
    && (s.isDead || s.isHurt ==> s.attack == Idle)
    && (s.isHurt ==> s.hurtTimers != [])
    && AllWithin(s.hurtTimers, WaitFromUpdate(HURT_TICKS))
    && (s.attack.WindUp? ==> 1 <= s.attack.ticksLeft <= WaitFromUpdate(cfg.attackDelay))
    && (s.attack.Cooldown? ==> 1 <= s.attack.ticksLeft <= cfg.attackCooldown)
    && (s.colliderEnabled <==> !s.isDead)
  }

  lemma SpawnedSatisfiesInv(cfg: Config)
    ensures Inv(Spawned, cfg)
  {
  }

  /** The damage `AttackRoutine` deals: `strongDamage` for a strong enemy, else `normalDamage`. */
  function StrikeDamage(cfg: Config): int
  {
    if cfg.isStrongEnemy then cfg.strongDamage else cfg.normalDamage
  }

  /** The result of one `Update`: the new state, and whether the enemy moved toward the player. */
  datatype Moved = Moved(next: State, chased: bool)

  /** `Update`, given whether a player is assigned and its distance. */
  function UpdateStep(s: State, cfg: Config, hasPlayer: bool, distance: nat): (r: Moved)
    ensures s.isDead || s.isHurt || !hasPlayer ==> r == Moved(s, false)
    ensures r.chased <==> !s.isDead && !s.isHurt && hasPlayer && distance > cfg.stopDistance
    ensures r.chased ==> r.next.attack == Idle
    ensures !r.chased && r.next != s ==> s.attack == Idle && r.next.attack == WindUp(WaitFromUpdate(cfg.attackDelay))
    ensures !s.isDead && !s.isHurt && hasPlayer && distance <= cfg.stopDistance ==> r.next.attack != Idle
    ensures r.next == s.(attack := r.next.attack)
    ensures Inv(s, cfg) ==> Inv(r.next, cfg)
  {
    if s.isDead || s.isHurt || !hasPlayer then Moved(s, false)
    else if distance > cfg.stopDistance then Moved(s.(attack := Idle), true)
    else if s.attack == Idle then Moved(s.(attack := WindUp(WaitFromUpdate(cfg.attackDelay))), false)
    else Moved(s, false)
  }

  /** Every countdown is between 1 and `m` coroutine phases. */
  predicate AllWithin(timers: seq<nat>, m: int)
  {
    forall i :: 0 <= i < |timers| ==> 1 <= timers[i] <= m
  }

  /** Every countdown is more than `k` coroutine phases. */
  predicate AllAbove(timers: seq<nat>, k: nat)
  {
    forall i :: 0 <= i < |timers| ==> timers[i] > k
  }

  /** Whether some pending `HurtRoutine` finishes its wait in this coroutine phase. */
  predicate Expires(timers: seq<nat>)
  {
    exists i :: 0 <= i < |timers| && timers[i] <= 1
  }

  /** Every pending `HurtRoutine` waits one coroutine phase less; those whose wait is over
      finish and leave the list. `CountdownShortensAll` and `CountdownCounts` state what
      is left. */
  function Countdown(timers: seq<nat>): (r: seq<nat>)
    ensures |r| <= |timers|
    ensures forall i :: 0 <= i < |r| ==> r[i] >= 1
  {
    if timers == [] then []
    else if timers[0] <= 1 then Countdown(timers[1..])
    else [timers[0] - 1] + Countdown(timers[1..])
  }

  /** When no wait is over, every pending wait is one phase shorter, in the same order. */
  lemma {:induction false} CountdownShortensAll(timers: seq<nat>)
    requires !Expires(timers)
    ensures var r := Countdown(timers);
      |r| == |timers| && forall i :: 0 <= i < |r| ==> r[i] == timers[i] - 1
  {
    if timers != [] {
      assert !Expires(timers[1..]);
      CountdownShortensAll(timers[1..]);
      var r := Countdown(timers);
      assert timers[0] > 1;
      forall i | 0 <= i < |r| ensures r[i] == timers[i] - 1 {
        if i > 0 {
          assert r[i] == Countdown(timers[1..])[i - 1] && timers[1..][i - 1] == timers[i];
        }
      }
    }
  }

  /** In general, the waits of `v` phases left afterwards are exactly the waits of `v + 1`
      phases before, and those of one phase or less are gone. */
  lemma {:induction false} CountdownCounts(timers: seq<nat>)
    ensures forall v :: v >= 1 ==> multiset(Countdown(timers))[v] == multiset(timers)[v + 1]
  {
    if timers != [] {
      CountdownCounts(timers[1..]);
      forall v | v >= 1 ensures multiset(Countdown(timers))[v] == multiset(timers)[v + 1] {
        CountdownHeadCount(timers, Countdown(timers[1..]), v);
      }
    }
  }

  /** A countdown leaves every wait at least one phase shorter than the longest before it. */
  lemma CountdownWithin(timers: seq<nat>, m: int)
    requires AllWithin(timers, m)
    ensures AllWithin(Countdown(timers), m - 1)
  {
    CountdownCounts(timers);
  }

  /** How many countdowns of `v` phases one step of `Countdown` leaves, given the count
      `rest` that the tail leaves. */
  lemma CountdownHeadCount(timers: seq<nat>, rest: seq<nat>, v: nat)
    requires timers != [] && v >= 1
    requires multiset(rest)[v] == multiset(timers[1..])[v + 1]
    ensures multiset(if timers[0] <= 1 then rest else [timers[0] - 1] + rest)[v] == multiset(timers)[v + 1]
  {
    assert timers == [timers[0]] + timers[1..];
    assert multiset(timers) == multiset{timers[0]} + multiset(timers[1..]);
    if timers[0] > 1 {
      assert multiset([timers[0] - 1] + rest) == multiset{timers[0] - 1} + multiset(rest);
    }
  }

  /** The result of one coroutine phase: the new state, and the damage dealt to the player
      if `AttackRoutine` struck. */
  datatype Resumed = Resumed(next: State, strike: Option<int>)

  /** Whether `AttackRoutine`, at the end of its wind-up, deals damage. */
  predicate StrikeLands(s: State, cfg: Config, hasPlayer: bool, distance: nat, targetAlive: bool)
  {
    !s.isDead && !s.isHurt && hasPlayer && targetAlive && distance <= cfg.stopDistance + STRIKE_SLACK
  }

  /** One coroutine phase: `AttackRoutine`'s current wait, then every `HurtRoutine`.
      `targetAlive` says whether the player has a `Health` that is not dead. */
  function ResumeStep(s: State, cfg: Config, hasPlayer: bool, distance: nat, targetAlive: bool): (r: Resumed)
    ensures r.strike.Some? <==> s.attack.WindUp? && s.attack.ticksLeft <= 1 && StrikeLands(s, cfg, hasPlayer, distance, targetAlive)
    ensures r.strike.Some? ==> r.strike.value == StrikeDamage(cfg)
    ensures r.strike.Some? ==> r.next.attack == Cooldown(cfg.attackCooldown)
    ensures s.attack == Idle ==> r.next.attack == Idle
    ensures s.attack.WindUp? && s.attack.ticksLeft > 1 ==> r.next.attack == WindUp(s.attack.ticksLeft - 1)
    ensures s.attack.WindUp? && s.attack.ticksLeft <= 1 ==> r.next.attack == Cooldown(cfg.attackCooldown)
    ensures s.attack.Cooldown? && s.attack.ticksLeft > 1 ==> r.next.attack == Cooldown(s.attack.ticksLeft - 1)
    ensures s.attack.Cooldown? && s.attack.ticksLeft <= 1 ==> r.next.attack == Idle
    ensures r.next.attack == Idle ==> s.attack == Idle || (s.attack.Cooldown? && s.attack.ticksLeft <= 1)
    ensures r.next.attack.WindUp? ==> s.attack.WindUp? && r.next.attack.ticksLeft < s.attack.ticksLeft
    ensures r.next.isDead == s.isDead && r.next.colliderEnabled == s.colliderEnabled
    ensures r.next.isHurt == (s.isHurt && !Expires(s.hurtTimers))
    ensures r.next.hurtTimers == Countdown(s.hurtTimers)
    ensures Inv(s, cfg) ==> Inv(r.next, cfg)
  {
    var (attack, strike) :=
      match s.attack
      case Idle => (Idle, None)
      case WindUp(n) =>
        if n > 1 then (WindUp(n - 1), None)
        else (Cooldown(cfg.attackCooldown),
              if StrikeLands(s, cfg, hasPlayer, distance, targetAlive) then Some(StrikeDamage(cfg)) else None)
      case Cooldown(n) =>
        if n > 1 then (Cooldown(n - 1), None) else (Idle, None);
    var isHurt := s.isHurt && !Expires(s.hurtTimers);
    assert AllWithin(s.hurtTimers, WaitFromUpdate(HURT_TICKS)) ==>
           AllWithin(Countdown(s.hurtTimers), WaitFromUpdate(HURT_TICKS)) by {
      if AllWithin(s.hurtTimers, WaitFromUpdate(HURT_TICKS)) {
        CountdownWithin(s.hurtTimers, WaitFromUpdate(HURT_TICKS));
      }
    }
    Resumed(s.(attack := attack, isHurt := isHurt, hurtTimers := Countdown(s.hurtTimers)), strike)
  }

  /** `OnDamaged`: a live enemy is stunned, its attack cycle is cancelled and a new
      `HurtRoutine` starts; a dead one ignores the call. */
  function DamagedStep(s: State): (r: State)
    ensures s.isDead ==> r == s
    ensures !s.isDead ==> r.isHurt && r.attack == Idle && r.hurtTimers == s.hurtTimers + [WaitFromUpdate(HURT_TICKS)]
    ensures r.isDead == s.isDead && r.colliderEnabled == s.colliderEnabled
    ensures forall cfg :: Inv(s, cfg) ==> Inv(r, cfg)
  {
    if s.isDead then s
    else s.(isHurt := true, attack := Idle, hurtTimers := s.hurtTimers + [WaitFromUpdate(HURT_TICKS)])
  }

  /** `OnDeath`: the enemy is dead, its attack cycle is cancelled and its collider is disabled. */
  function DeathStep(s: State): (r: State)
    ensures r.isDead && r.attack == Idle && !r.colliderEnabled
    ensures r.isHurt == s.isHurt && r.hurtTimers == s.hurtTimers
    ensures forall cfg :: Inv(s, cfg) ==> Inv(r, cfg)
  {
    s.(isDead := true, attack := Idle, colliderEnabled := false)
  }

  /** The controller's subscriptions to its own `Health`: `OnDamaged` and `OnDeath`;
      `HealthChanged` has no handler here. */
  function Hear(s: State, ev: Event): State
  {
    match ev
    case Damaged => DamagedStep(s)
    case Death => DeathStep(s)
    case HealthChanged(_) => s
  }

  function HearAll(s: State, evs: seq<Event>): State
    decreases |evs|
  {
    if evs == [] then s else HearAll(Hear(s, evs[0]), evs[1..])
  }

  /** A hit on a live enemy (one `TakeDamage` on its live `Health`) leaves it stunned with
      its attack slot empty, dead exactly when the hit emptied its health, and the strike
      its wind-up was heading for never lands. */
  lemma HitCancelsStrike(s: State, cfg: Config, health: int, amount: int,
                         hasPlayer: bool, distance: nat, targetAlive: bool)
    requires !s.isDead && health > 0
    ensures var t := HearAll(s, EventsOf(health, amount));
      && t.isHurt && t.attack == Idle
      && (t.isDead <==> AfterDamage(health, amount) == 0)
      && ResumeStep(t, cfg, hasPlayer, distance, targetAlive).strike == None
  {
    var es := EventsOf(health, amount);
    var s1 := DamagedStep(s);
    assert HearAll(s, es) == HearAll(s1, es[1..]);
    assert HearAll(s1, es[1..]) == HearAll(s1, es[2..]);
    if Death in es {
      assert es[2..] == [Death];
      assert HearAll(s1, es[2..]) == HearAll(DeathStep(s1), []);
    } else {
      assert es[2..] == [];
    }
  }

  /** One input to the controller. A frame is its update phase, where `Update` runs and
      where hits reach the enemy (from `PlayerPunch.Update`, before or after this `Update`),
      followed by its coroutine phase. The model accepts the inputs in any order. */
  datatype Input =
    | UpdatePhase(hasPlayer: bool, distance: nat)
    | CoroutinePhase(hasPlayer: bool, distance: nat, targetAlive: bool)
    | Heard(ev: Event)

  /** The state after a series of inputs, with how many strikes landed, how many attack
      cycles `Update` started and how many times the enemy moved. */
  datatype Trace = Trace(final: State, strikes: nat, starts: nat, moves: nat)

  function Run(s: State, cfg: Config, inputs: seq<Input>): Trace
    decreases |inputs|
  {
    if inputs == [] then Trace(s, 0, 0, 0)
    else
      match inputs[0]
      case Heard(ev) => Run(Hear(s, ev), cfg, inputs[1..])
      case UpdatePhase(hasPlayer, distance) =>
        var moved := UpdateStep(s, cfg, hasPlayer, distance);
        var rest := Run(moved.next, cfg, inputs[1..]);
        Trace(rest.final,
              rest.strikes,
              rest.starts + (if s.attack == Idle && moved.next.attack != Idle then 1 else 0),
              rest.moves + (if moved.chased then 1 else 0))
      case CoroutinePhase(hasPlayer, distance, targetAlive) =>
        var resumed := ResumeStep(s, cfg, hasPlayer, distance, targetAlive);
        var rest := Run(resumed.next, cfg, inputs[1..]);
        Trace(rest.final, rest.strikes + (if resumed.strike.Some? then 1 else 0), rest.starts, rest.moves)
  }

  /** The invariant holds after any series of inputs. */
  lemma {:induction false} RunKeepsInv(s: State, cfg: Config, inputs: seq<Input>)
    requires Inv(s, cfg)
    ensures Inv(Run(s, cfg, inputs).final, cfg)
    decreases |inputs|
  {
    if inputs != [] {
      match inputs[0]
      case Heard(ev) =>
        RunKeepsInv(Hear(s, ev), cfg, inputs[1..]);
      case UpdatePhase(hasPlayer, distance) =>
        RunKeepsInv(UpdateStep(s, cfg, hasPlayer, distance).next, cfg, inputs[1..]);
      case CoroutinePhase(hasPlayer, distance, targetAlive) =>
        RunKeepsInv(ResumeStep(s, cfg, hasPlayer, distance, targetAlive).next, cfg, inputs[1..]);
    }
  }

  function Pending(s: State): nat
  {
    if s.attack.WindUp? then 1 else 0
  }

  /** Damage is dealt at most once per attack cycle: strikes never outnumber the cycles
      started, counting a wind-up already under way at the start. */
  lemma {:induction false} AtMostOneStrikePerCycle(s: State, cfg: Config, inputs: seq<Input>)
    ensures var t := Run(s, cfg, inputs);
      t.strikes + Pending(t.final) <= t.starts + Pending(s)
    decreases |inputs|
  {
    if inputs != [] {
      match inputs[0]
      case Heard(ev) =>
        AtMostOneStrikePerCycle(Hear(s, ev), cfg, inputs[1..]);
      case UpdatePhase(hasPlayer, distance) =>
        AtMostOneStrikePerCycle(UpdateStep(s, cfg, hasPlayer, distance).next, cfg, inputs[1..]);
      case CoroutinePhase(hasPlayer, distance, targetAlive) =>
        AtMostOneStrikePerCycle(ResumeStep(s, cfg, hasPlayer, distance, targetAlive).next, cfg, inputs[1..]);
    }
  }

  /** From spawn, every strike belongs to its own attack cycle. */
  lemma StrikesFromSpawn(cfg: Config, inputs: seq<Input>)
    ensures Run(Spawned, cfg, inputs).strikes <= Run(Spawned, cfg, inputs).starts
  {
    AtMostOneStrikePerCycle(Spawned, cfg, inputs);
  }

  /** Once dead, an enemy stays dead and never moves, starts an attack or strikes again. */
  lemma {:induction false} DeathIsFinal(s: State, cfg: Config, inputs: seq<Input>)
    requires s.isDead && s.attack == Idle
    ensures var t := Run(s, cfg, inputs);
      t.final.isDead && t.strikes == 0 && t.starts == 0 && t.moves == 0
    decreases |inputs|
  {
    if inputs != [] {
      match inputs[0]
      case Heard(ev) =>
        DeathIsFinal(Hear(s, ev), cfg, inputs[1..]);
      case UpdatePhase(hasPlayer, distance) =>
        DeathIsFinal(UpdateStep(s, cfg, hasPlayer, distance).next, cfg, inputs[1..]);
      case CoroutinePhase(hasPlayer, distance, targetAlive) =>
        DeathIsFinal(ResumeStep(s, cfg, hasPlayer, distance, targetAlive).next, cfg, inputs[1..]);
    }
  }

  /** The player stays within reach: nothing is heard, and every `Update` finds no player or
      one within `stopDistance`, so it neither chases nor cancels the attack cycle. */
  predicate StaysInReach(inputs: seq<Input>, cfg: Config)
  {
    forall i :: 0 <= i < |inputs| ==>
      && !inputs[i].Heard?
      && (inputs[i].UpdatePhase? ==> !inputs[i].hasPlayer || inputs[i].distance <= cfg.stopDistance)
  }

  lemma StaysInReachTail(inputs: seq<Input>, cfg: Config)
    requires inputs != [] && StaysInReach(inputs, cfg)
    ensures StaysInReach(inputs[1..], cfg)
  {
    forall i | 0 <= i < |inputs[1..]|
      ensures !inputs[1..][i].Heard?
      ensures inputs[1..][i].UpdatePhase? ==> !inputs[1..][i].hasPlayer || inputs[1..][i].distance <= cfg.stopDistance
    {
      assert inputs[1..][i] == inputs[i + 1];
    }
  }

  /** Inputs that end with a coroutine phase hold at least one. */
  lemma {:induction false} EndsWithPhase(inputs: seq<Input>)
    requires inputs != [] && inputs[|inputs| - 1].CoroutinePhase?
    ensures Phases(inputs) >= 1
    decreases |inputs|
  {
    if !inputs[0].CoroutinePhase? {
      assert inputs[1..][|inputs[1..]| - 1] == inputs[|inputs| - 1];
      EndsWithPhase(inputs[1..]);
    }
  }

  /** A wind-up with `n` phases left, on an enemy neither dead nor stunned and with the
      player in reach, stays a wind-up with no strike, chase or new cycle through fewer than
      `n` coroutine phases, whatever `Update`s run between them. The `n`-th phase ends it in
      one strike check and begins the cooldown. */
  lemma {:induction false} WindUpRunsItsCourse(s: State, cfg: Config, inputs: seq<Input>)
    requires s.attack.WindUp? && s.attack.ticksLeft >= 1 && !s.isDead && !s.isHurt
    requires StaysInReach(inputs, cfg) && Phases(inputs) <= s.attack.ticksLeft
    requires Phases(inputs) == s.attack.ticksLeft ==> inputs[|inputs| - 1].CoroutinePhase?
    ensures var t := Run(s, cfg, inputs);
      && t.starts == 0 && t.moves == 0
      && (Phases(inputs) < s.attack.ticksLeft ==>
            t.final.attack == WindUp(s.attack.ticksLeft - Phases(inputs)) && t.strikes == 0)
      && (Phases(inputs) == s.attack.ticksLeft ==>
            var c := inputs[|inputs| - 1];
            && t.final.attack == Cooldown(cfg.attackCooldown)
            && t.strikes == (if StrikeLands(s, cfg, c.hasPlayer, c.distance, c.targetAlive) then 1 else 0))
    decreases |inputs|
  {
    if inputs != [] {
      StaysInReachTail(inputs, cfg);
      var c := inputs[0];
      var rest := inputs[1..];
      if c.UpdatePhase? {
        assert UpdateStep(s, cfg, c.hasPlayer, c.distance) == Moved(s, false);
        if Phases(inputs) == s.attack.ticksLeft {
          assert rest != [] && rest[|rest| - 1] == inputs[|inputs| - 1];
        }
        WindUpRunsItsCourse(s, cfg, rest);
      } else if s.attack.ticksLeft > 1 {
        var next := ResumeStep(s, cfg, c.hasPlayer, c.distance, c.targetAlive).next;
        if Phases(inputs) == s.attack.ticksLeft {
          assert rest != [] && rest[|rest| - 1] == inputs[|inputs| - 1];
        }
        WindUpRunsItsCourse(next, cfg, rest);
      } else if rest != [] {
        assert rest[|rest| - 1] == inputs[|inputs| - 1];
        EndsWithPhase(rest);
      }
    }
  }

  /** A cooldown with `n` phases left, with the player in reach, keeps the slot busy through
      fewer than `n` coroutine phases, whatever `Update`s run between them, and the `n`-th
      phase frees it; no strike and no new cycle come in between. */
  lemma {:induction false} CooldownRunsItsCourse(s: State, cfg: Config, inputs: seq<Input>)
    requires s.attack.Cooldown? && s.attack.ticksLeft >= 1
    requires StaysInReach(inputs, cfg) && Phases(inputs) <= s.attack.ticksLeft
    requires Phases(inputs) == s.attack.ticksLeft ==> inputs[|inputs| - 1].CoroutinePhase?
    ensures var t := Run(s, cfg, inputs);
      && t.strikes == 0 && t.starts == 0 && t.moves == 0
      && (Phases(inputs) < s.attack.ticksLeft ==>
            t.final.attack == Cooldown(s.attack.ticksLeft - Phases(inputs)))
      && (Phases(inputs) == s.attack.ticksLeft ==> t.final.attack == Idle)
    decreases |inputs|
  {
    if inputs != [] {
      StaysInReachTail(inputs, cfg);
      var c := inputs[0];
      var rest := inputs[1..];
      if c.UpdatePhase? {
        assert UpdateStep(s, cfg, c.hasPlayer, c.distance).next == s;
        if Phases(inputs) == s.attack.ticksLeft {
          assert rest != [] && rest[|rest| - 1] == inputs[|inputs| - 1];
        }
        CooldownRunsItsCourse(s, cfg, rest);
      } else if s.attack.ticksLeft > 1 {
        var next := ResumeStep(s, cfg, c.hasPlayer, c.distance, c.targetAlive).next;
        if Phases(inputs) == s.attack.ticksLeft {
          assert rest != [] && rest[|rest| - 1] == inputs[|inputs| - 1];
        }
        CooldownRunsItsCourse(next, cfg, rest);
      } else if rest != [] {
        assert rest[|rest| - 1] == inputs[|inputs| - 1];
        EndsWithPhase(rest);
      }
    }
  }

  /** An attack cycle `Update` starts within reach strikes no earlier than `attackDelay`
      frames later, while the player stays in reach: not in the coroutine phases of the
      starting frame and the next `attackDelay - 1` frames, and in the phase of the frame
      `attackDelay` after, when the strike check passes. */
  lemma AttackWaitsAttackDelay(s: State, cfg: Config, distance: nat, inputs: seq<Input>)
    requires !s.isDead && !s.isHurt && s.attack == Idle && distance <= cfg.stopDistance
    requires StaysInReach(inputs, cfg) && Phases(inputs) <= cfg.attackDelay + 1
    requires Phases(inputs) == cfg.attackDelay + 1 ==> inputs[|inputs| - 1].CoroutinePhase?
    ensures var t := Run(s, cfg, [UpdatePhase(true, distance)] + inputs);
      && t.starts == 1
      && (Phases(inputs) <= cfg.attackDelay ==> t.strikes == 0 && t.final.attack.WindUp?)
      && (Phases(inputs) == cfg.attackDelay + 1 ==>
            var c := inputs[|inputs| - 1];
            t.strikes == (if StrikeLands(s, cfg, c.hasPlayer, c.distance, c.targetAlive) then 1 else 0))
  {
    var started := UpdateStep(s, cfg, true, distance).next;
    assert ([UpdatePhase(true, distance)] + inputs)[1..] == inputs;
    WindUpRunsItsCourse(started, cfg, inputs);
  }

  /** Nothing is heard: no hit, no death. */
  predicate Undisturbed(inputs: seq<Input>)
  {
    forall i :: 0 <= i < |inputs| ==> !inputs[i].Heard?
  }

  /** The number of coroutine phases among the inputs. */
  function Phases(inputs: seq<Input>): nat
    decreases |inputs|
  {
    if inputs == [] then 0
    else (if inputs[0].CoroutinePhase? then 1 else 0) + Phases(inputs[1..])
  }

  lemma UndisturbedTail(inputs: seq<Input>)
    requires inputs != [] && Undisturbed(inputs)
    ensures !inputs[0].Heard? && Undisturbed(inputs[1..])
  {
  }

  /** While nothing is heard, a stun whose pending waits are all within `m` coroutine
      phases is over once `m` coroutine phases have passed. */
  lemma {:induction false} HurtWearsOff(s: State, cfg: Config, inputs: seq<Input>, m: nat)
    requires Undisturbed(inputs) && Phases(inputs) >= m
    requires s.isHurt ==> s.hurtTimers != []
    requires AllWithin(s.hurtTimers, m)
    ensures !Run(s, cfg, inputs).final.isHurt
    decreases |inputs|
  {
    if inputs != [] {
      UndisturbedTail(inputs);
      var f := inputs[0];
      if f.UpdatePhase? {
        HurtWearsOff(UpdateStep(s, cfg, f.hasPlayer, f.distance).next, cfg, inputs[1..], m);
      } else {
        var next := ResumeStep(s, cfg, f.hasPlayer, f.distance, f.targetAlive).next;
        var m' := if m == 0 then 0 else m - 1;
        CountdownWithin(s.hurtTimers, m);
        HurtWearsOff(next, cfg, inputs[1..], m');
      }
    }
  }

  /** While nothing is heard, a stun whose pending waits all exceed the number of coroutine
      phases still lasts after them. */
  lemma {:induction false} HurtPersists(s: State, cfg: Config, inputs: seq<Input>)
    requires Undisturbed(inputs) && s.isHurt && AllAbove(s.hurtTimers, Phases(inputs))
    ensures Run(s, cfg, inputs).final.isHurt
    decreases |inputs|
  {
    if inputs != [] {
      UndisturbedTail(inputs);
      var f := inputs[0];
      if f.UpdatePhase? {
        HurtPersists(UpdateStep(s, cfg, f.hasPlayer, f.distance).next, cfg, inputs[1..]);
      } else {
        var next := ResumeStep(s, cfg, f.hasPlayer, f.distance, f.targetAlive).next;
        assert !Expires(s.hurtTimers);
        CountdownShortensAll(s.hurtTimers);
        HurtPersists(next, cfg, inputs[1..]);
      }
    }
  }

  /** The stun of an enemy in a reachable state is over after `HURT_TICKS + 1` undisturbed
      coroutine phases: the phase of the frame of the last hit, and `HURT_TICKS` frames
      after it. */
  lemma HurtLastsAtMostHurtTicks(s: State, cfg: Config, inputs: seq<Input>)
    requires Inv(s, cfg)
    requires Undisturbed(inputs) && Phases(inputs) >= HURT_TICKS + 1
    ensures !Run(s, cfg, inputs).final.isHurt
  {
    HurtWearsOff(s, cfg, inputs, WaitFromUpdate(HURT_TICKS));
  }

  /** A single hit on a live enemy with no `HurtRoutine` pending stuns it through exactly
      `HURT_TICKS + 1` coroutine phases: those of the frame of the hit and of the next
      `HURT_TICKS - 1` frames leave it stunned, the one `HURT_TICKS` frames after the hit
      ends the stun. */
  lemma StunLastsHurtTicks(s: State, cfg: Config, inputs: seq<Input>)
    requires Inv(s, cfg) && !s.isDead && s.hurtTimers == []
    requires Undisturbed(inputs)
    ensures Run(s, cfg, [Heard(Damaged)] + inputs).final.isHurt <==> Phases(inputs) <= HURT_TICKS
  {
    var hit := DamagedStep(s);
    assert ([Heard(Damaged)] + inputs)[1..] == inputs;
    assert hit.hurtTimers == [WaitFromUpdate(HURT_TICKS)];
    if Phases(inputs) <= HURT_TICKS {
      HurtPersists(hit, cfg, inputs);
    } else {
      HurtWearsOff(hit, cfg, inputs, WaitFromUpdate(HURT_TICKS));
    }
  }

  /** A second hit does not restart the stun: the `HurtRoutine` of the first hit still
      ends it. With hits in frames 0 and 2, the enemy is stunned through frame 2 and free
      in frame 3, one frame after the second hit rather than `HURT_TICKS`. */
  lemma RepeatedHitDoesNotRestartStun(cfg: Config, c0: Input, c1: Input, c2: Input, c3: Input)
    requires c0.CoroutinePhase? && c1.CoroutinePhase? && c2.CoroutinePhase? && c3.CoroutinePhase?
    ensures Run(Spawned, cfg, [Heard(Damaged), c0, c1, Heard(Damaged), c2]).final.isHurt
    ensures !Run(Spawned, cfg, [Heard(Damaged), c0, c1, Heard(Damaged), c2, c3]).final.isHurt
  {
    var s1 := DamagedStep(Spawned);
    assert s1.isHurt && s1.hurtTimers == [4];
    var s2 := ResumeStep(s1, cfg, c0.hasPlayer, c0.distance, c0.targetAlive).next;
    assert !Expires([4]) && Countdown([4]) == [3];
    assert s2.isHurt && s2.hurtTimers == [3];
    var s3 := ResumeStep(s2, cfg, c1.hasPlayer, c1.distance, c1.targetAlive).next;
    assert !Expires([3]) && Countdown([3]) == [2];
    assert s3.isHurt && s3.hurtTimers == [2];
    var s4 := DamagedStep(s3);
    assert s4.isHurt && s4.hurtTimers == [2, 4];
    var s5 := ResumeStep(s4, cfg, c2.hasPlayer, c2.distance, c2.targetAlive).next;
    assert !Expires([2, 4]) && Countdown([2, 4]) == [1, 3];
    assert s5.isHurt && s5.hurtTimers == [1, 3];
    var s6 := ResumeStep(s5, cfg, c3.hasPlayer, c3.distance, c3.targetAlive).next;
    assert Expires([1, 3]);
    assert !s6.isHurt;
    assert Run(s5, cfg, [c3]).final == s6;
    assert Run(s4, cfg, [c2]).final == s5;
    assert Run(s4, cfg, [c2, c3]).final == s6;
    assert Run(s3, cfg, [Heard(Damaged), c2]).final == s5;
    assert Run(s3, cfg, [Heard(Damaged), c2, c3]).final == s6;
    assert Run(s2, cfg, [c1, Heard(Damaged), c2]).final == s5;
    assert Run(s2, cfg, [c1, Heard(Damaged), c2, c3]).final == s6;
    assert Run(s1, cfg, [c0, c1, Heard(Damaged), c2]).final == s5;
    assert Run(s1, cfg, [c0, c1, Heard(Damaged), c2, c3]).final == s6;
  }

  class EnemyController {
    const cfg: Config
    var isDead: bool
    var isHurt: bool
    /** `_attackRoutine`. */
    var attack: Phase
    /** The pending `HurtRoutine` coroutines, as coroutine phases left, oldest first. */
    var hurtTimers: seq<nat>
    var colliderEnabled: bool

    function Snapshot(): State
      reads this
    {
      State(isDead, isHurt, attack, hurtTimers, colliderEnabled)
    }

    constructor (cfg: Config)
      ensures this.cfg == cfg && Snapshot() == Spawned && Inv(Snapshot(), cfg)
    {
      this.cfg := cfg;
      isDead, isHurt := false, false;
      attack := Idle;
      hurtTimers := [];
      colliderEnabled := true;
    }

    /** `Update`; `chased` says whether `MoveTowardsPlayer` ran. */
    method Update(hasPlayer: bool, distance: nat) returns (chased: bool)
      modifies this
      ensures Moved(Snapshot(), chased) == UpdateStep(old(Snapshot()), cfg, hasPlayer, distance)
    {
      chased := false;
      if isDead || isHurt || !hasPlayer {
        return;
      }
      if distance > cfg.stopDistance {
        chased := true;
        if attack != Idle {
          attack := Idle;
        }
      } else {
        if attack == Idle {
          attack := WindUp(WaitFromUpdate(cfg.attackDelay));
        }
      }
    }

    /** The coroutine phase of one frame: `AttackRoutine` and every `HurtRoutine`. At the end
        of the wind-up the strike re-checks the enemy, the player's `Health` and the distance,
        then damages it. */
    method ResumeCoroutines(hasPlayer: bool, distance: nat, playerHealth: Health?)
      modifies this, playerHealth
      ensures var r := ResumeStep(old(Snapshot()), cfg, hasPlayer, distance,
                                  playerHealth != null && old(playerHealth.current) > 0);
        && Snapshot() == r.next
        && (r.strike.Some? ==>
              && playerHealth.current == AfterDamage(old(playerHealth.current), r.strike.value)
              && playerHealth.events == old(playerHealth.events) + EventsOf(old(playerHealth.current), r.strike.value))
        && (r.strike.None? && playerHealth != null ==> unchanged(playerHealth))
    {
      match attack {
        case Idle =>
        case WindUp(n) =>
          if n > 1 {
            attack := WindUp(n - 1);
          } else {
            if !isDead && !isHurt && hasPlayer {
              if playerHealth != null && !playerHealth.IsDead() {
                if distance <= cfg.stopDistance + STRIKE_SLACK {
                  var damage := StrikeDamage(cfg);
                  playerHealth.TakeDamage(damage);
                }
              }
            }
            attack := Cooldown(cfg.attackCooldown);
          }
        case Cooldown(n) =>
          if n > 1 {
            attack := Cooldown(n - 1);
          } else {
            attack := Idle;
          }
      }
      var finished := Expires(hurtTimers);
      hurtTimers := Countdown(hurtTimers);
      if finished {
        isHurt := false;
      }
    }

    method OnDamaged()
      modifies this
      ensures Snapshot() == DamagedStep(old(Snapshot()))
    {
      if isDead {
        return;
      }
      isHurt := true;
      if attack != Idle {
        attack := Idle;
      }
      hurtTimers := hurtTimers + [WaitFromUpdate(HURT_TICKS)];
    }

    method OnDeath()
      modifies this
      ensures Snapshot() == DeathStep(old(Snapshot()))
    {
      isDead := true;
      if attack != Idle {
        attack := Idle;
      }
      colliderEnabled := false;
    }

    /** Delivery of one notification from the enemy's own `Health` to the handlers
        `Start` subscribed. */
    method Notify(ev: Event)
      modifies this
      ensures Snapshot() == Hear(old(Snapshot()), ev)
    {
      match ev {
        case Damaged => OnDamaged();
        case Death => OnDeath();
        case HealthChanged(_) =>
      }
    }
  }
}
