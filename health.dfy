/** The `Health` component: an integer health counter whose only mutation path is
    `TakeDamage`, and the three notifications it raises. */
module HealthModel {

  /** A notification raised by `Health`, as its listeners receive it. */
  datatype Event = Damaged | HealthChanged(value: int) | Death

  /** `Mathf.Max(0, x)`. */
  function AtLeastZero(x: int): (r: int)
    ensures r >= 0 && r >= x
    ensures r == x || r == 0
  {
    if x < 0 then 0 else x
  }

  /** The health left after one `TakeDamage(amount)` call on a counter at `current`. */
  function AfterDamage(current: int, amount: int): (r: int)
    ensures current <= 0 ==> r == current
    ensures current > 0 ==> 0 <= r <= current
    ensures current > 0 ==> (r == 0 <==> amount >= current)
    ensures current > 0 && 0 <= amount < current ==> r == current - amount
    ensures amount <= 0 ==> r == current
  {
    if current <= 0 then current
    else AtLeastZero(current - AtLeastZero(amount))
  }

  /** The notifications one `TakeDamage(amount)` call raises on a counter at `current`, in order. */
  function EventsOf(current: int, amount: int): (es: seq<Event>)
    ensures current <= 0 <==> es == []
    ensures current > 0 ==> |es| >= 2 && es[0] == Damaged && es[1] == HealthChanged(AfterDamage(current, amount))
    ensures Death in es <==> current > 0 && AfterDamage(current, amount) == 0
    ensures Death in es ==> |es| == 3 && es[2] == Death
    ensures Death !in es ==> |es| <= 2
  {
    if current <= 0 then []
    else
      var next := AfterDamage(current, amount);
      [Damaged, HealthChanged(next)] + (if next <= 0 then [Death] else [])
  }

  class Health {
    const maxHealth: int
    var current: int
    /** Every notification raised so far, oldest first. */
    var events: seq<Event>

    /** `Awake`: the counter starts full and nothing has been announced. */
    constructor (maxHealth: int)
      ensures this.maxHealth == maxHealth
      ensures current == maxHealth && events == []
      ensures IsDead() <==> maxHealth <= 0
    {
      this.maxHealth := maxHealth;
      current := maxHealth;
      events := [];
    }

    /** `IsDead`: the counter is used up, so every further `TakeDamage` leaves it as it is
        and announces nothing; while alive, any call announces at least `Damaged`. */
    predicate IsDead()
      reads this
      ensures IsDead() <==> forall amount :: EventsOf(current, amount) == []
      ensures IsDead() ==> forall amount :: AfterDamage(current, amount) == current
    {
      assert current > 0 ==> EventsOf(current, 0) != [];
      current <= 0
    }

    method TakeDamage(damageAmount: int)
      modifies this
      ensures current == AfterDamage(old(current), damageAmount)
      ensures events == old(events) + EventsOf(old(current), damageAmount)
    {
      if IsDead() {
        return;
      }
      var amount := AtLeastZero(damageAmount);
      current := AtLeastZero(current - amount);
      events := events + [Damaged];
      events := events + [HealthChanged(current)];
      if current <= 0 {
        current := 0;
        events := events + [Death];
      }
    }
  }

  /** The counter and the notifications after a series of `TakeDamage` calls. */
  datatype History = History(health: int, log: seq<Event>)

  function Replay(current: int, amounts: seq<int>): History
  {
    if amounts == [] then History(current, [])
    else
      var rest := Replay(AfterDamage(current, amounts[0]), amounts[1..]);
      History(rest.health, EventsOf(current, amounts[0]) + rest.log)
  }

  /** How many `Death` notifications a log holds. */
  function Deaths(log: seq<Event>): nat
  {
    multiset(log)[Death]
  }

  /** A dead counter stays as it is and announces nothing, whatever damage follows. */
  lemma {:induction false} DeadIgnoresDamage(current: int, amounts: seq<int>)
    requires current <= 0
    ensures Replay(current, amounts) == History(current, [])
  {
    if amounts != [] {
      DeadIgnoresDamage(current, amounts[1..]);
    }
  }

  /** `TakeDamage` never raises health and never takes a live counter below zero. */
  lemma {:induction false} HealthNeverRises(current: int, amounts: seq<int>)
    ensures Replay(current, amounts).health <= current
    ensures current >= 0 ==> Replay(current, amounts).health >= 0
  {
    if amounts != [] {
      HealthNeverRises(AfterDamage(current, amounts[0]), amounts[1..]);
    }
  }

  /** Over any series of calls, `Death` is announced once if and only if a live counter
      reached zero, and never otherwise. */
  lemma {:induction false} DeathAnnouncedOnce(current: int, amounts: seq<int>)
    ensures var h := Replay(current, amounts);
      Deaths(h.log) == if current > 0 && h.health == 0 then 1 else 0
  {
    if amounts != [] {
      var next := AfterDamage(current, amounts[0]);
      var rest := Replay(next, amounts[1..]);
      DeathAnnouncedOnce(next, amounts[1..]);
      if next <= 0 {
        DeadIgnoresDamage(next, amounts[1..]);
      }
      assert Replay(current, amounts).log == EventsOf(current, amounts[0]) + rest.log;
      assert Death in EventsOf(current, amounts[0]) ==> multiset(EventsOf(current, amounts[0]))[Death] == 1 by {
        if Death in EventsOf(current, amounts[0]) {
          assert EventsOf(current, amounts[0]) == [Damaged, HealthChanged(0), Death];
        }
      }
    }
  }

  /** Nothing is announced after `Death`: when it occurs it is the last notification. */
  lemma {:induction false} DeathIsLast(current: int, amounts: seq<int>)
    ensures var log := Replay(current, amounts).log;
      Death in log ==> log[|log| - 1] == Death
  {
    if amounts != [] {
      var next := AfterDamage(current, amounts[0]);
      var es := EventsOf(current, amounts[0]);
      var rest := Replay(next, amounts[1..]);
      DeathIsLast(next, amounts[1..]);
      if Death in es {
        DeadIgnoresDamage(next, amounts[1..]);
      }
      if Death in es + rest.log && rest.log != [] {
        assert Death in rest.log;
      }
    }
  }

  /** The health before call `i` of a series. */
  function HealthBefore(current: int, amounts: seq<int>, i: nat): int
    requires i <= |amounts|
  {
    Replay(current, amounts[..i]).health
  }

  lemma {:induction false} ReplayStepsOnce(current: int, amounts: seq<int>, i: nat)
    requires i < |amounts|
    ensures HealthBefore(current, amounts, i + 1) == AfterDamage(HealthBefore(current, amounts, i), amounts[i])
  {
    var next := AfterDamage(current, amounts[0]);
    if i == 0 {
      assert amounts[..1] == [amounts[0]] && amounts[..1][1..] == [];
      assert amounts[..0] == [];
      assert Replay(next, []) == History(next, []);
      assert HealthBefore(current, amounts, 1) == Replay(next, amounts[..1][1..]).health;
    } else {
      assert amounts[..i + 1][1..] == amounts[1..][..i];
      assert amounts[..i][1..] == amounts[1..][..i - 1];
      assert HealthBefore(current, amounts, i + 1) == HealthBefore(next, amounts[1..], i);
      assert HealthBefore(current, amounts, i) == HealthBefore(next, amounts[1..], i - 1);
      ReplayStepsOnce(next, amounts[1..], i - 1);
    }
  }

  /** Call `i` of a series announces `Death` exactly when it is the call on which the
      counter first reaches zero: it was alive before the call and is zero after it. */
  lemma DeathOnFirstZero(current: int, amounts: seq<int>, i: nat)
    requires i < |amounts|
    ensures Death in EventsOf(HealthBefore(current, amounts, i), amounts[i])
        <==> HealthBefore(current, amounts, i) > 0 && HealthBefore(current, amounts, i + 1) == 0
  {
    ReplayStepsOnce(current, amounts, i);
  }

  /** `TakeDamage(0)` on a live counter changes nothing and announces no death, yet still
      announces `Damaged` and `HealthChanged`. */
  lemma ZeroDamageStillAnnounces(current: int)
    requires current > 0
    ensures AfterDamage(current, 0) == current
    ensures EventsOf(current, 0) == [Damaged, HealthChanged(current)]
  {
  }

  /** A 100-point counter hit for 30 and then 80 ends at 0 (clamped from -10) and
      announces its death once, on the second call. */
  lemma ThirtyThenEighty()
    ensures Replay(100, [30, 80]) == History(0, [Damaged, HealthChanged(70), Damaged, HealthChanged(0), Death])
  {
  }
}
