/** The `PlayerPunch` component: the punch gate, the facing-dependent hitbox and the
    single-target hit resolution over the reused overlap buffer. */
module PlayerPunchModel {
  import opened Common
  import opened HealthModel

  /** Capacity of the reused overlap buffer `_hits`. */
  const BUFFER_SIZE := 8

  /** A collider written into the overlap buffer: whether it is a trigger, and the `Health`
      found on it or its parents (null when there is none). */
  datatype Collider2D = Collider2D(isTrigger: bool, health: Health?)

  /** `TryDamage`'s filter: a solid collider whose `Health` exists and is not the player's own. */
  predicate Damageable(c: Collider2D, self: Health?)
  {
    !c.isTrigger && c.health != null && c.health != self
  }

  /** A buffer entry that `TryHitNow` would damage: non-null and passing the filter. */
  predicate IsTarget(entry: Option<Collider2D>, self: Health?)
  {
    entry.Some? && Damageable(entry.value, self)
  }

  /** The index of the entry a punch damages: the first one, in buffer order, that passes every filter. */
  function FirstTarget(hits: seq<Option<Collider2D>>, self: Health?): (k: Option<nat>)
    ensures k.Some? ==> k.value < |hits| && IsTarget(hits[k.value], self)
    ensures k.Some? ==> forall j :: 0 <= j < k.value ==> !IsTarget(hits[j], self)
    ensures k.None? <==> forall j :: 0 <= j < |hits| ==> !IsTarget(hits[j], self)
  {
    if hits == [] then None
    else if IsTarget(hits[0], self) then Some(0)
    else
      match FirstTarget(hits[1..], self)
      case None => None
      case Some(k) => Some(k + 1)
  }

  /** The non-null `Health` references held by a buffer. */
  function HealthsIn(buf: seq<Option<Collider2D>>): (hs: set<Health>)
    ensures forall k :: 0 <= k < |buf| && buf[k].Some? && buf[k].value.health != null ==> buf[k].value.health in hs
  {
    if buf == [] then {}
    else
      var first: set<Health> := if buf[0].Some? && buf[0].value.health != null then {buf[0].value.health} else {};
      first + HealthsIn(buf[1..])
  }

  /** `Mathf.Sign`: +1 for zero and positive values, -1 for negative ones. */
  function Sign(x: real): (s: real)
    ensures s == 1.0 || s == -1.0
    ensures s == 1.0 <==> x >= 0.0
  {
    if x >= 0.0 then 1.0 else -1.0
  }

  function Abs(x: real): (r: real)
    ensures r >= 0.0 && (r == x || r == -x)
  {
    if x < 0.0 then -x else x
  }

  /** The hitbox's horizontal offset for a punch: the configured distance, on the side the
      player faces (the sign of the root's horizontal scale). */
  function HitboxOffset(scaleX: real, offsetX: real): (off: real)
    ensures Abs(off) == Abs(offsetX)
    ensures offsetX != 0.0 ==> (off > 0.0 <==> scaleX >= 0.0)
    ensures offsetX != 0.0 ==> (off < 0.0 <==> scaleX < 0.0)
  {
    Sign(scaleX) * Abs(offsetX)
  }

  class PlayerPunch {
    const playerHealth: Health?
    const hitboxOffsetX: real
    const damage: int
    const attackDuration: Ticks
    /** `_hits`: the overlap query writes its results here. */
    const hits: array<Option<Collider2D>>

    var isAttacking: bool
    var hitThisPunch: bool
    var hitboxEnabled: bool
    var hitboxOffset: real
    /** Coroutine phases left in `PunchRoutine`'s wait, which begins during an `Update`;
        0 when no punch routine is running. */
    var punchTicksLeft: nat

    ghost predicate Valid()
      reads this
    {
      && hits.Length == BUFFER_SIZE
      && hitboxEnabled == isAttacking
      && (isAttacking <==> punchTicksLeft > 0)
      && punchTicksLeft <= WaitFromUpdate(attackDuration)
    }

    /** The construction and `Start`: the hitbox is configured and disabled. */
    constructor (playerHealth: Health?, hitboxOffsetX: real, damage: int, attackDuration: Ticks)
      ensures Valid() && fresh(hits)
      ensures this.playerHealth == playerHealth && this.hitboxOffsetX == hitboxOffsetX
      ensures this.damage == damage && this.attackDuration == attackDuration
      ensures !isAttacking && !hitThisPunch && !hitboxEnabled
      ensures forall k :: 0 <= k < hits.Length ==> hits[k] == None
    {
      this.playerHealth := playerHealth;
      this.hitboxOffsetX := hitboxOffsetX;
      this.damage := damage;
      this.attackDuration := attackDuration;
      hits := new Option<Collider2D>[BUFFER_SIZE](_ => None);
      isAttacking, hitThisPunch := false, false;
      hitboxEnabled, hitboxOffset := false, 0.0;
      punchTicksLeft := 0;
    }

    /** The `Health` components reachable from the first `count` buffer entries. */
    function Targets(count: nat): set<Health>
      reads this, hits
      requires count <= hits.Length
    {
      HealthsIn(hits[..count])
    }

    /** Every `Health` reachable from the first `count` buffer entries, other than `spared`,
        has the counter and the notifications it had on entry. */
    twostate predicate Untouched(count: nat, spared: Health?)
      reads this, hits, Targets(count)
      requires count <= hits.Length
      requires old(hits[..count]) == hits[..count]
    {
      var buf := old(hits[..count]);
      forall k | 0 <= k < count && buf[k].Some? && buf[k].value.health != null && buf[k].value.health != spared ::
        buf[k].value.health.current == old(buf[k].value.health.current)
        && buf[k].value.health.events == old(buf[k].value.health.events)
    }

    /** The punch's first target in the buffer has taken `damage` once; every other
        `Health` reachable from the buffer is as it was. */
    twostate predicate DamagedFirstTarget(count: nat)
      reads this, hits, Targets(count)
      requires count <= hits.Length
      requires old(hits[..count]) == hits[..count]
    {
      var buf := old(hits[..count]);
      match FirstTarget(buf, playerHealth)
      case None => Untouched(count, null)
      case Some(k) =>
        var target := buf[k].value.health;
        && target.current == AfterDamage(old(target.current), damage)
        && target.events == old(target.events) + EventsOf(old(target.current), damage)
        && Untouched(count, target)
    }

    method TryDamage(other: Collider2D)
      modifies this`hitThisPunch, other.health
      ensures var hit := !old(hitThisPunch) && Damageable(other, playerHealth);
        hitThisPunch == (old(hitThisPunch) || hit)
        && (hit ==>
              && other.health.current == AfterDamage(old(other.health.current), damage)
              && other.health.events == old(other.health.events) + EventsOf(old(other.health.current), damage))
        && (!hit && other.health != null ==> unchanged(other.health))
    {
      if hitThisPunch {
        return;
      }
      if other.isTrigger {
        return;
      }
      var enemyHealth := other.health;
      if enemyHealth != null && enemyHealth != playerHealth {
        hitThisPunch := true;
        enemyHealth.TakeDamage(damage);
      }
    }

    /** One pass over the first `count` buffer entries, damaging at most one `Health`. */
    method TryHitNow(count: nat)
      requires count <= hits.Length
      modifies this`hitThisPunch, Targets(count)
      ensures old(hitThisPunch) ==> hitThisPunch && Untouched(count, null)
      ensures !old(hitThisPunch) ==> hitThisPunch == FirstTarget(hits[..count], playerHealth).Some?
      ensures !old(hitThisPunch) ==> DamagedFirstTarget(count)
    {
      if hitThisPunch {
        return;
      }
      var i := 0;
      while i < count
        invariant 0 <= i <= count
        invariant !hitThisPunch
        invariant forall j :: 0 <= j < i ==> !IsTarget(hits[j], playerHealth)
        invariant Untouched(count, null)
      {
        var c := hits[i];
        if c.Some? {
          assert c.value.health != null ==> c.value.health in Targets(count);
          TryDamage(c.value);
          if hitThisPunch {
            assert IsTarget(hits[..count][i], playerHealth);
            return;
          }
        }
        i := i + 1;
      }
    }

    /** `PunchRoutine` up to its wait: flags, hitbox placement and the one overlap check. */
    method BeginPunch(scaleX: real, count: nat)
      requires Valid() && count <= hits.Length
      modifies this, Targets(count)
      ensures Valid()
      ensures isAttacking && hitboxEnabled && punchTicksLeft == WaitFromUpdate(attackDuration)
      ensures hitboxOffset == HitboxOffset(scaleX, hitboxOffsetX)
      ensures hitThisPunch == FirstTarget(hits[..count], playerHealth).Some?
      ensures DamagedFirstTarget(count)
    {
      isAttacking := true;
      hitThisPunch := false;
      var facing := Sign(scaleX);
      hitboxOffset := facing * Abs(hitboxOffsetX);
      hitboxEnabled := true;
      TryHitNow(count);
      punchTicksLeft := WaitFromUpdate(attackDuration);
    }

    /** `Update`: a click starts a punch only when the player is alive and not already punching.
        `count` is what the hitbox overlap query returns at that instant. */
    method Update(mouseDown: bool, scaleX: real, count: nat)
      requires Valid() && count <= hits.Length
      modifies this, Targets(count)
      ensures Valid()
      ensures var starts := mouseDown && !old(isAttacking) && !(playerHealth != null && old(playerHealth.current) <= 0);
        && (!starts ==> unchanged(this) && Untouched(count, null))
        && (starts ==>
              && isAttacking && hitboxEnabled && punchTicksLeft == WaitFromUpdate(attackDuration)
              && hitboxOffset == HitboxOffset(scaleX, hitboxOffsetX)
              && hitThisPunch == FirstTarget(hits[..count], playerHealth).Some?
              && DamagedFirstTarget(count))
    {
      if playerHealth != null && playerHealth.IsDead() {
        return;
      }
      if mouseDown && !isAttacking {
        BeginPunch(scaleX, count);
      }
    }

    /** The coroutine phase of one frame for `PunchRoutine`'s `WaitForSeconds(attackDuration)`,
        the frame the punch began in included; when the wait completes, `attackDuration`
        frames after that one, the hitbox is disabled and the player may punch again. */
    method Resume()
      requires Valid()
      modifies this
      ensures Valid()
      ensures old(punchTicksLeft) == 0 ==> unchanged(this)
      ensures old(punchTicksLeft) == 1 ==> !isAttacking && !hitboxEnabled && punchTicksLeft == 0
      ensures old(punchTicksLeft) > 1 ==> isAttacking && hitboxEnabled && punchTicksLeft == old(punchTicksLeft) - 1
      ensures hitThisPunch == old(hitThisPunch) && hitboxOffset == old(hitboxOffset)
    {
      if punchTicksLeft == 0 {
        return;
      }
      punchTicksLeft := punchTicksLeft - 1;
      if punchTicksLeft == 0 {
        hitboxEnabled := false;
        isAttacking := false;
      }
    }
  }
}
