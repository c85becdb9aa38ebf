/** How old a call is, in whole seconds, as the stale-call sweep computes it. */
module StaleClock {

  const NANOS := 1_000_000_000

  datatype Timespec = Timespec(sec: int, nsec: int)

  predicate Normal(t: Timespec) {
    0 <= t.nsec < NANOS
  }

  function Nanos(t: Timespec): int {
    t.sec * NANOS + t.nsec
  }

  /** The two borrow loops leave the floor of the elapsed time. (For readings whose nanoseconds
      are not normalised, a remainder of a full second can be left over.) */
  method ElapsedSeconds(cur: Timespec, start: Timespec) returns (passed: int)
    ensures passed * NANOS <= Nanos(cur) - Nanos(start) <= (passed + 1) * NANOS
    ensures Normal(cur) && Normal(start) ==> Nanos(cur) - Nanos(start) < (passed + 1) * NANOS
  {
    var nsec := cur.nsec - start.nsec;
    passed := cur.sec - start.sec;
    while nsec > NANOS
      invariant passed * NANOS + nsec == Nanos(cur) - Nanos(start)
      invariant Normal(cur) && Normal(start) ==> nsec < NANOS
      decreases nsec
    {
      passed := passed + 1;
      nsec := nsec - NANOS;
    }
    while nsec < 0
      invariant passed * NANOS + nsec == Nanos(cur) - Nanos(start)
      invariant nsec <= NANOS && (Normal(cur) && Normal(start) ==> nsec < NANOS)
      decreases -nsec
    {
      passed := passed - 1;
      nsec := nsec + NANOS;
    }
  }

  /** So a call is swept exactly when it is at least ten seconds old. */
  method IsStale(cur: Timespec, start: Timespec) returns (stale: bool)
    requires Normal(cur) && Normal(start)
    ensures stale <==> Nanos(cur) - Nanos(start) >= 10 * NANOS
  {
    var passed := ElapsedSeconds(cur, start);
    stale := passed >= 10;
  }
}
