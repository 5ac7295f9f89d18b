/** The `EnemyAttackRange` trigger: whether the player is inside an enemy's attack volume,
    and which player `Health` was cached when it entered. */
module EnemyAttackRangeModel {
  import opened Common

  /** Identity of a `Health` component (reference equality in the source). */
  type HealthId = int

  /** The collider reported by an enter or exit callback: whether it carries the player
      tag, and the `Health` found on it or its parents, if any. */
  datatype Collider = Collider(isPlayer: bool, health: Option<HealthId>)

  /** The two properties of the tracker. */
  datatype Tracker = Tracker(playerInRange: bool, playerHealth: Option<HealthId>)

  const Empty := Tracker(false, None)

  /** The flag is set exactly while a `Health` is cached. */
  predicate Consistent(t: Tracker)
  {
    t.playerInRange <==> t.playerHealth.Some?
  }

  /** A collider that makes `OnTriggerEnter2D` cache something: player-tagged, with a `Health`. */
  predicate Claims(c: Collider)
  {
    c.isPlayer && c.health.Some?
  }

  function Enter(t: Tracker, other: Collider): (r: Tracker)
    ensures !Claims(other) ==> r == t
    ensures Claims(other) ==> r.playerInRange && r.playerHealth == other.health
    ensures Consistent(t) ==> Consistent(r)
  {
    if !other.isPlayer then t
    else if other.health.None? then t
    else Tracker(true, other.health)
  }

  function Exit(t: Tracker, other: Collider): (r: Tracker)
    ensures r == t || r == Empty
    ensures other.isPlayer && other.health.Some? && other.health == t.playerHealth ==> r == Empty
    ensures !(other.isPlayer && other.health.Some? && other.health == t.playerHealth) ==> r == t
    ensures Consistent(t) ==> Consistent(r)
  {
    if !other.isPlayer then t
    else if other.health.Some? && other.health == t.playerHealth then Empty
    else t
  }

  class EnemyAttackRange {
    var playerInRange: bool
    var playerHealth: Option<HealthId>

    function Snapshot(): Tracker
      reads this
    {
      Tracker(playerInRange, playerHealth)
    }

    constructor ()
      ensures Snapshot() == Empty
    {
      playerInRange := false;
      playerHealth := None;
    }

    method OnTriggerEnter2D(other: Collider)
      modifies this
      ensures Snapshot() == Enter(old(Snapshot()), other)
    {
      if !other.isPlayer {
        return;
      }
      var health := other.health;
      if health.None? {
        return;
      }
      playerInRange := true;
      playerHealth := health;
    }

    method OnTriggerExit2D(other: Collider)
      modifies this
      ensures Snapshot() == Exit(old(Snapshot()), other)
    {
      if !other.isPlayer {
        return;
      }
      var health := other.health;
      if health.Some? && health == playerHealth {
        playerInRange := false;
        playerHealth := None;
      }
    }
  }

  /** A player that enters and then leaves with the same `Health` leaves the tracker empty,
      whatever it held before. */
  lemma EnterThenExitEmpties(t: Tracker, c: Collider)
    requires Claims(c)
    ensures Exit(Enter(t, c), c) == Empty
  {
  }

  /** One trigger callback. */
  datatype Trigger = OnEnter(c: Collider) | OnExit(c: Collider)

  function Apply(t: Tracker, ev: Trigger): Tracker
  {
    match ev
    case OnEnter(c) => Enter(t, c)
    case OnExit(c) => Exit(t, c)
  }

  /** The tracker after a series of callbacks, starting from a fresh component. */
  function Replay(evs: seq<Trigger>): Tracker
  {
    if evs == [] then Empty
    else Apply(Replay(evs[..|evs| - 1]), evs[|evs| - 1])
  }

  /** The invariant holds after any series of callbacks. */
  lemma {:induction false} ReplayConsistent(evs: seq<Trigger>)
    ensures Consistent(Replay(evs))
  {
    if evs != [] {
      ReplayConsistent(evs[..|evs| - 1]);
    }
  }

  predicate Releases(ev: Trigger, h: HealthId)
  {
    ev.OnExit? && ev.c.isPlayer && ev.c.health == Some(h)
  }

  /** Callback `i` is the last claiming entry, it cached `h`, and `h` has not left since. */
  ghost predicate HeldSince(evs: seq<Trigger>, i: int, h: HealthId)
  {
    && 0 <= i < |evs|
    && evs[i].OnEnter? && Claims(evs[i].c) && evs[i].c.health == Some(h)
    && forall j :: i < j < |evs| ==> !(evs[j].OnEnter? && Claims(evs[j].c)) && !Releases(evs[j], h)
  }

  /** The cached `Health` is exactly the one of the most recent claiming entry, provided
      that player has not left since. */
  lemma {:induction false} CachedIsLastEntered(evs: seq<Trigger>, h: HealthId)
    ensures Replay(evs).playerHealth == Some(h) <==> exists i :: HeldSince(evs, i, h)
  {
    if evs == [] {
      return;
    }
    var n := |evs| - 1;
    var prefix := evs[..n];
    var last := evs[n];
    CachedIsLastEntered(prefix, h);
    if Replay(evs).playerHealth == Some(h) {
      if last.OnEnter? && Claims(last.c) {
        assert HeldSince(evs, n, h);
      } else {
        assert Replay(prefix).playerHealth == Some(h);
        var i :| HeldSince(prefix, i, h);
        assert HeldSince(evs, i, h);
      }
    }
    if exists i :: HeldSince(evs, i, h) {
      var i :| HeldSince(evs, i, h);
      if i < n {
        assert HeldSince(prefix, i, h);
      }
    }
  }

  /** The flag reports the player in range exactly while such an entry is in force. */
  lemma InRangeIffHeld(evs: seq<Trigger>)
    ensures Replay(evs).playerInRange <==> exists h, i :: HeldSince(evs, i, h)
  {
    ReplayConsistent(evs);
    if Replay(evs).playerInRange {
      CachedIsLastEntered(evs, Replay(evs).playerHealth.value);
    }
    if exists h, i :: HeldSince(evs, i, h) {
      var h, i :| HeldSince(evs, i, h);
      CachedIsLastEntered(evs, h);
    }
  }
}
