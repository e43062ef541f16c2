/**
 Times as the library keeps them: deadlines computed from the monotonic clock, compared field
 by field, and turned into poll timeouts. Clocks count nanoseconds since some start.
 */
module Timeouts {
  import opened Words

  const NSEC_PER_SEC := 1_000_000_000
  const USEC_PER_SEC := 1_000_000
  const NSEC_PER_MSEC := 1_000_000

  datatype Timeval = Timeval(sec: nat, usec: nat)

  const NEVER := Timeval(0, 0)

  predicate IsSet(tv: Timeval) {
    tv.sec != 0 || tv.usec != 0
  }

  /** The comparison the list scans make. */
  predicate Later(a: Timeval, b: Timeval) {
    a.sec > b.sec || (a.sec == b.sec && a.usec > b.usec)
  }

  /** Microseconds since the start of the clock. */
  function Total(tv: Timeval): nat {
    tv.sec * USEC_PER_SEC + tv.usec
  }

  function Now(clock: nat): Timeval {
    Timeval(clock / NSEC_PER_SEC, clock % NSEC_PER_SEC / 1000)
  }

  /** A transfer's deadline; with no timeout the field keeps what it held. */
  function CalculateTimeout(clock: nat, timeout: nat, field: Timeval): Timeval {
    if timeout == 0 then field
    else
      var sec := clock / NSEC_PER_SEC + timeout / 1000;
      var nsec := clock % NSEC_PER_SEC + timeout % 1000 * NSEC_PER_MSEC;
      if nsec > NSEC_PER_SEC then Timeval(sec + 1, (nsec - NSEC_PER_SEC) / 1000)
      else Timeval(sec, nsec / 1000)
  }

  /** The nanoseconds add up to a whole second, which the carry test does not carry. */
  predicate MissesCarry(clock: nat, timeout: nat) {
    timeout > 0 && clock % NSEC_PER_SEC + timeout % 1000 * NSEC_PER_MSEC == NSEC_PER_SEC
  }

  /** Both fields stay small enough for the comparison to make sense. */
  predicate Bounded(tv: Timeval) {
    tv.usec <= USEC_PER_SEC
  }

  predicate Carried(tv: Timeval) {
    tv.usec < USEC_PER_SEC
  }

  lemma NowIsCarried(clock: nat)
    ensures Carried(Now(clock)) && Total(Now(clock)) == clock / 1000
  {
  }

  /**
   The deadline is exactly `timeout` milliseconds ahead, to the microsecond, even where the
   carry is missed; that is also the only case in which a whole second stays in the small field.
   */
  lemma DeadlineIsExact(clock: nat, timeout: nat, field: Timeval)
    requires timeout > 0
    ensures Total(CalculateTimeout(clock, timeout, field)) == (clock + timeout * NSEC_PER_MSEC) / 1000
    ensures Bounded(CalculateTimeout(clock, timeout, field)) && IsSet(CalculateTimeout(clock, timeout, field))
    ensures Carried(CalculateTimeout(clock, timeout, field)) <==> !MissesCarry(clock, timeout)
  {
    var nsec := clock % NSEC_PER_SEC + timeout % 1000 * NSEC_PER_MSEC;
    assert clock == clock / NSEC_PER_SEC * NSEC_PER_SEC + clock % NSEC_PER_SEC;
    assert timeout == timeout / 1000 * 1000 + timeout % 1000;
    assert clock + timeout * NSEC_PER_MSEC == (clock / NSEC_PER_SEC + timeout / 1000) * NSEC_PER_SEC + nsec;
  }

  /**
   Although the carry test lets 1000000 microseconds through, comparing the fields never
   contradicts the clock; it tells two equal times apart exactly when one of them missed the carry.
   */
  lemma FieldOrderIsChronological(a: Timeval, b: Timeval)
    requires Bounded(a) && Bounded(b)
    ensures Later(a, b) ==> Total(a) >= Total(b)
    ensures Total(a) > Total(b) ==> Later(a, b)
    ensures Later(a, b) && Total(a) == Total(b) <==> b == Timeval(b.sec, USEC_PER_SEC) && a == Timeval(b.sec + 1, 0)
  {
  }

  /** Against a clock reading, which has carried, the expiry test is exact. */
  lemma ExpiryIsExact(deadline: Timeval, now: Timeval)
    requires Bounded(deadline) && Carried(now)
    ensures !Later(deadline, now) <==> Total(deadline) <= Total(now)
  {
  }

  /** The time left until a deadline that has not passed. */
  function Minus(deadline: Timeval, now: Timeval): Timeval
    requires Later(deadline, now) && Carried(now)
  {
    if deadline.usec >= now.usec then Timeval(deadline.sec - now.sec, deadline.usec - now.usec)
    else Timeval(deadline.sec - now.sec - 1, deadline.usec + USEC_PER_SEC - now.usec)
  }

  lemma MinusIsExact(deadline: Timeval, now: Timeval)
    requires Later(deadline, now) && Carried(now) && Bounded(deadline)
    ensures Total(Minus(deadline, now)) == Total(deadline) - Total(now) > 0
    ensures Bounded(Minus(deadline, now)) && IsSet(Minus(deadline, now))
  {
  }

  /** What poll is given: milliseconds, rounded up. */
  function PollMilliseconds(tv: Timeval): nat {
    tv.sec * 1000 + tv.usec / 1000 + (if tv.usec % 1000 != 0 then 1 else 0)
  }

  lemma PollRoundsUp(tv: Timeval)
    ensures PollMilliseconds(tv) * 1000 >= Total(tv)
    ensures PollMilliseconds(tv) == 0 || (PollMilliseconds(tv) - 1) * 1000 < Total(tv)
  {
  }

  /** The milliseconds are kept in an `int`: very long sleeps wrap around, to negative ones at first. */
  function PollArgument(tv: Timeval): int {
    ToInt32(PollMilliseconds(tv))
  }

  lemma PollArgumentIsExact(tv: Timeval)
    ensures PollArgument(tv) == PollMilliseconds(tv) <==> PollMilliseconds(tv) < 0x8000_0000
  {
  }
}
