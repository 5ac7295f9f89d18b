/** Small shared vocabulary: optional references and coroutine wait lengths. */
module Common {

  /** Stands for a C# reference that may be null. */
  datatype Option<+T> = None | Some(value: T)

  /** A `WaitForSeconds` wait, counted in simulation ticks of 100 ms (one tick per frame).
      Unity resumes a waiting coroutine no earlier than the next frame, so every wait lasts
      at least one tick. */
  type Ticks = n: nat | n >= 1 witness 1

  /** The countdown, in coroutine phases, of a wait of `d` ticks that begins during a frame's
      update phase (in an `Update`, or in a handler an `Update` calls). The coroutine phase
      of that same frame comes after it but no time has passed yet, so it is counted too;
      the routine resumes in the coroutine phase `d` frames later, when the countdown is
      used up. A wait that begins inside a coroutine phase counts down from `d` itself. */
  function WaitFromUpdate(d: Ticks): nat
  {
    d + 1
  }
}
