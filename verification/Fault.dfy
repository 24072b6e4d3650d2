/** The power-loss gate every durable operation passes (`FaultState`, vfs.rs). */
module Fault {
  import opened Bytes

  /** `FaultState`: when armed, the first `countdown` operations land and every later one vanishes. */
  datatype Power = Power(countdown: Option<nat>, crashed: bool) {
    predicate Lands() {
      !crashed && countdown != Some(0)
    }

    function Spent(): Power {
      if crashed || countdown.None? then this
      else if countdown.value == 0 then this.(crashed := true)
      else this.(countdown := Some(countdown.value - 1))
    }

    /** How many of the next `n` operations land. */
    function Survivors(n: nat): (k: nat)
      ensures k <= n
    {
      if crashed then 0 else if countdown.None? then n else Min(countdown.value, n)
    }
  }

  /** The power after `n` operations were offered. */
  function SpentBy(p: Power, n: nat): Power {
    if n == 0 then p else SpentBy(p, n - 1).Spent()
  }

  /** The operation after `n` lands exactly when one more of `n + 1` survives. */
  lemma {:induction false} NextSurvivor(p: Power, n: nat)
    ensures p.Survivors(n + 1) == p.Survivors(n) + if SpentBy(p, n).Lands() then 1 else 0
    ensures SpentBy(p, n).Lands() ==> p.Survivors(n) == n
    ensures SpentBy(p, n).countdown == (if p.countdown.None? then None else Some(p.countdown.value - if p.crashed then 0 else Min(p.countdown.value, n)))
    ensures SpentBy(p, n).crashed <==> p.crashed || (p.countdown.Some? && p.countdown.value < n)
  {
    if n > 0 { NextSurvivor(p, n - 1); }
  }
}
