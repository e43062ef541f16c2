/**
 How long event handling sleeps where no timerfd watches the deadlines: until the caller's
 timeout or the next deadline, whichever comes first.
 */
module EventSleep {
  import opened Timeouts
  import opened FlyingTransfers

  /** The first transfer not yet handled decides, unless it is an infinite one. */
  function NextPending(q: seq<Flight>): seq<Timeval> {
    if q == [] then []
    else if q[0].timedOut then NextPending(q[1..])
    else if !IsSet(q[0].deadline) then []
    else [q[0].deadline]
  }

  /** libusb_get_next_timeout: nothing, or the time left, zero if there is none left. */
  function NextTimeout(q: seq<Flight>, clock: nat): seq<Timeval> {
    if NextPending(q) == [] then []
    else if !Later(NextPending(q)[0], Now(clock)) then [NEVER]
    else [Minus(NextPending(q)[0], Now(clock))]
  }

  datatype Wait = HandleTimeouts | Poll(tv: Timeval)

  function ChooseWait(q: seq<Flight>, clock: nat, tv: Timeval): Wait {
    var next := NextTimeout(q, clock);
    if next == [] then Poll(tv)
    else if !IsSet(next[0]) then HandleTimeouts
    else if Later(tv, next[0]) then Poll(next[0])
    else Poll(tv)
  }

  ghost predicate AllBounded(q: seq<Flight>) {
    forall i :: 0 <= i < |q| ==> Bounded(q[i].deadline)
  }

  /** The two scans stop at different transfers and agree all the same. */
  lemma {:induction false} ScansAgree(q: seq<Flight>)
    requires Sorted(q)
    ensures NextPending(q) == NextToArm(q)
    decreases |q|
  {
    if q != [] && q[0].timedOut {
      ScansAgree(q[1..]);
      if !IsSet(q[0].deadline) {
        forall i | 0 <= i < |q[1..]| ensures !Pending(q[1..][i]) {
          InfiniteOnesComeLast(q, 0, i + 1);
        }
        NextToArmIsLeast(q[1..]);
      }
    }
  }

  /** Microseconds until a deadline that is still ahead. */
  function Left(f: Flight, clock: nat): int {
    Total(f.deadline) - Total(Now(clock))
  }

  ghost predicate IsLeast(q: seq<Flight>, clock: nat, n: int) {
    (exists i :: 0 <= i < |q| && Pending(q[i]) && Left(q[i], clock) == n)
    && forall i :: 0 <= i < |q| && Pending(q[i]) ==> Left(q[i], clock) >= n
  }

  ghost predicate NonePending(q: seq<Flight>) {
    forall i :: 0 <= i < |q| ==> !Pending(q[i])
  }

  lemma LeastPending(q: seq<Flight>, clock: nat)
    requires Sorted(q) && AllBounded(q)
    ensures NextPending(q) == [] ==> NonePending(q)
    ensures NextPending(q) != [] ==> Bounded(NextPending(q)[0])
    ensures NextPending(q) != [] ==> IsLeast(q, clock, Total(NextPending(q)[0]) - Total(Now(clock)))
  {
    ScansAgree(q);
    NextToArmIsLeast(q);
    if NextToArm(q) != [] {
      var d := NextToArm(q)[0];
      var k :| 0 <= k < |q| && Pending(q[k]) && d == q[k].deadline;
      assert Left(q[k], clock) == Total(d) - Total(Now(clock));
      forall i | 0 <= i < |q| && Pending(q[i]) ensures Left(q[i], clock) >= Total(d) - Total(Now(clock)) {
        FieldOrderIsChronological(d, q[i].deadline);
      }
    }
  }

  /**
   Sleep bound. Timeouts are handled at once exactly if a deadline is due; otherwise the sleep
   is the smaller of the caller's timeout and the time left, rounded up to milliseconds, and it
   is of length zero only if the caller asked for that.
   */
  lemma SleepBound(q: seq<Flight>, clock: nat, tv: Timeval)
    requires Sorted(q) && AllBounded(q) && Bounded(tv)
    ensures ChooseWait(q, clock, tv).HandleTimeouts?
            <==> exists i :: 0 <= i < |q| && Pending(q[i]) && Left(q[i], clock) <= 0
    ensures ChooseWait(q, clock, tv).Poll? ==> Sleeps(q, clock, tv, ChooseWait(q, clock, tv).tv)
  {
    hide NextPending, PollMilliseconds;
    LeastPending(q, clock);
    NowIsCarried(clock);
    var pending := NextPending(q);
    if pending != [] {
      ExpiryIsExact(pending[0], Now(clock));
      if Later(pending[0], Now(clock)) {
        MinusIsExact(pending[0], Now(clock));
        FieldOrderIsChronological(tv, Minus(pending[0], Now(clock)));
        PollRoundsUp(Minus(pending[0], Now(clock)));
      }
    }
    PollRoundsUp(tv);
  }

  /** The chosen sleep against the two bounds. */
  ghost predicate Sleeps(q: seq<Flight>, clock: nat, tv: Timeval, out: Timeval) {
    && (Total(out) == Total(tv) || IsLeast(q, clock, Total(out)))
    && Total(out) <= Total(tv)
    && (forall i :: 0 <= i < |q| && Pending(q[i]) ==> Total(out) <= Left(q[i], clock))
    && Total(out) <= PollMilliseconds(out) * 1000 < Total(out) + 1000
    && (PollMilliseconds(out) == 0 <==> Total(tv) == 0)
  }

  /** After a full sleep every deadline that was no further away than the sleep gets flagged. */
  lemma FullSleepFlags(q: seq<Flight>, clock: nat, out: Timeval, later: nat, i: nat)
    requires Sorted(q) && AllBounded(q) && i < |q| && Pending(q[i])
    requires Left(q[i], clock) <= Total(out)
    requires later >= clock + PollMilliseconds(out) * NSEC_PER_MSEC
    ensures |FlagExpired(q, Now(later))| == |q| && FlagExpired(q, Now(later))[i].timedOut
  {
    hide PollMilliseconds;
    NowIsCarried(clock);
    NowIsCarried(later);
    PollRoundsUp(out);
    assert Total(Now(later)) >= Total(Now(clock)) + Total(out);
    ExpiryIsExact(q[i].deadline, Now(later));
    ScanFlagsExactlyTheExpired(q, Now(later));
    assert FlagExpired(q, Now(later))[i] == Flagged(q[i], Now(later));
  }

  /** The argument poll gets is that sleep exactly while it fits; 25 days turn into an endless wait. */
  lemma LongSleepsWrap()
    ensures PollArgument(Timeval(2_147_484, 0)) < 0
    ensures forall tv :: PollMilliseconds(tv) < 0x8000_0000 ==> PollArgument(tv) == PollMilliseconds(tv)
  {
    assert PollMilliseconds(Timeval(2_147_484, 0)) == 2_147_484_000;
  }
}
