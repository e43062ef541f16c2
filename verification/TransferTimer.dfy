/**
 The timerfd over whole runs: that it is armed to the next deadline while setting it succeeds, when
 it does, and what the library loses when it does not.
 */
module TransferTimer {
  import opened Backends
  import opened FlyingTransfers
  import opened Timeouts
  import opened TransferLayers
  import opened Usbfs

  // ---------------------------------------------------------------- the timer agrees

  /** Armed to the least deadline among finite transfers not yet timed out; disarmed without any. */
  ghost predicate ArmedRight(timer: Timer, q: seq<Flight>) {
    match timer
    case Disarmed => forall i :: 0 <= i < |q| ==> !Pending(q[i])
    case Armed(at) =>
      (exists i :: 0 <= i < |q| && Pending(q[i]) && q[i].deadline == at)
      && forall i :: 0 <= i < |q| && Pending(q[i]) ==> !Before(q[i].deadline, at)
  }

  ghost predicate SomeTimedOut(q: seq<Flight>) {
    exists i :: 0 <= i < |q| && q[i].timedOut
  }

  ghost predicate TimerInv(s: State) {
    s.support.Available? && s.lost == [] && (s.timer == TimerFor(s.support, s.flying) || SomeTimedOut(s.flying))
  }

  /** A submission that gets as far as the backend, which takes it. */
  predicate Takes(s: State, id: nat, request: Request) {
    !Has(s.flying, id) && WellFormed(request) && Live(Submitted(s.backend, id, request))
  }

  /** The event makes the backend ask for a completion. */
  predicate Asks(s: State, id: nat, e: UrbEvent) {
    id in s.backend && Verdict(s.backend[id], e) != []
  }

  /** Every timerfd_settime of the step succeeds. */
  predicate Settles(s: State, e: Event) {
    match e
    case Submit(id, _, timeout, request) => Takes(s, id, request) ==> !ArmingFails(s, id, timeout)
    case Urb(id, event) => Asks(s, id, event) ==> Rearms(s.support, Delete(s.flying, id))
    case Trigger => s.timer.Armed? ==> Rearms(s.support, FlagExpired(s.flying, Now(s.clock)))
    case Disconnect(handle) => RoundsRearm(s.support, s.flying, handle)
    case Tick(_) => true
    case Cancel(_) => true
    case PollTimedOut => true
    case Freed(_, _) => true
  }

  predicate RoundsRearm(support: Support, q: seq<Flight>, handle: nat)
    decreases |q|
  {
    var found := FirstOn(q, handle);
    found == [] || (Rearms(support, Delete(q, found[0])) && RoundsRearm(support, Delete(q, found[0]), handle))
  }

  predicate AllSettle(s: State, es: seq<Event>)
    decreases |es|
  {
    es == [] || (AllSettle(s, es[..|es| - 1]) && Settles(Run(s, es[..|es| - 1]), es[|es| - 1]))
  }

  lemma TimerForIsRight(q: seq<Flight>)
    requires Sorted(q)
    ensures ArmedRight(TimerFor(Available, q), q)
  {
    NextToArmIsLeast(q);
  }

  /** A newcomer that is not first leaves the next deadline alone, unless all before it timed out. */
  lemma {:induction false} NotFirst(q: seq<Flight>, f: Flight)
    requires Place(q, f.deadline) > 0
    ensures NextToArm(Insert(q, f)) == NextToArm(q) || SomeTimedOut(Insert(q, f))
    decreases |q|
  {
    InsertStep(q, f);
    if IsSet(q[0].deadline) && q[0].timedOut {
      assert Insert(q, f)[0].timedOut;
    }
  }

  lemma InsertKeepsTimedOut(q: seq<Flight>, f: Flight)
    requires SomeTimedOut(q)
    ensures SomeTimedOut(Insert(q, f))
  {
    var i :| 0 <= i < |q| && q[i].timedOut;
    var k := Place(q, f.deadline);
    assert Insert(q, f)[if i < k then i else i + 1] == q[i];
  }

  lemma SubmitKeepsTimer(s: State, id: nat, handle: nat, timeout: nat, request: Request)
    requires TimerInv(s) && !Has(s.flying, id)
    requires Live(Submitted(s.backend, id, request)) ==> !ArmingFails(s, id, timeout)
    ensures TimerInv(SubmitTransfer(s, id, handle, timeout, request))
  {
    hide Delete, Insert, SomeTimedOut, NextToArm, First, Live, CalculateTimeout;
    var f := Flight(id, handle, CalculateTimeout(s.clock, timeout, Field(s, id)), false);
    DeleteUndoesInsert(s.flying, f);
    InsertSetsTheNext(s.flying, f);
  }

  /** A newcomer that comes first is the next to arm for; any other leaves that alone. */
  lemma InsertSetsTheNext(q: seq<Flight>, f: Flight)
    requires !f.timedOut
    ensures First(q, f.deadline) ==> NextToArm(Insert(q, f)) == [f.deadline]
    ensures !First(q, f.deadline) ==> NextToArm(Insert(q, f)) == NextToArm(q) || SomeTimedOut(Insert(q, f))
    ensures SomeTimedOut(q) ==> SomeTimedOut(Insert(q, f))
  {
    InsertStep(q, f);
    if SomeTimedOut(q) { InsertKeepsTimedOut(q, f); }
    if Place(q, f.deadline) > 0 { NotFirst(q, f); }
  }

  lemma CompleteKeepsTimer(s: State, id: nat, status: TransferStatus)
    requires TimerInv(s) && Rearms(s.support, Delete(s.flying, id))
    ensures TimerInv(Complete(s, id, status))
    ensures Complete(s, id, status).timer == TimerFor(s.support, Complete(s, id, status).flying)
  {
    hide Delete, SomeTimedOut, Rearms, TimerFor;
  }

  lemma UrbKeepsTimer(s: State, id: nat, e: UrbEvent)
    requires TimerInv(s) && Settles(s, Urb(id, e))
    ensures TimerInv(HandleUrb(s, id, e))
    ensures Asks(s, id, e) ==> HandleUrb(s, id, e).timer == TimerFor(s.support, HandleUrb(s, id, e).flying)
  {
    hide Complete, Delete, Verdict, Step, Rearms, TimerFor, SomeTimedOut;
    if Asks(s, id, e) {
      CompleteKeepsTimer(WithBackend(s, s.backend[id := Step(s.backend[id], e)]), id, Verdict(s.backend[id], e)[0]);
    }
  }

  lemma AbandonKeepsTimer(s: State, id: nat)
    requires TimerInv(s) && Rearms(s.support, Delete(s.flying, id))
    ensures TimerInv(Abandon(s, id)) && Abandon(s, id).support == s.support
    ensures Abandon(s, id).flying == Delete(s.flying, id)
    ensures Abandon(s, id).timer == TimerFor(s.support, Abandon(s, id).flying)
  {
    hide Delete, SomeTimedOut, Rearms, TimerFor;
  }

  lemma {:induction false} DisconnectKeepsTimer(s: State, handle: nat)
    requires TimerInv(s) && RoundsRearm(s.support, s.flying, handle)
    ensures TimerInv(HandleDisconnect(s, handle))
    ensures FirstOn(s.flying, handle) != []
            ==> HandleDisconnect(s, handle).timer == TimerFor(s.support, HandleDisconnect(s, handle).flying)
    ensures HandleDisconnect(s, handle).support == s.support
    decreases |s.flying|
  {
    hide TimerInv, TimerFor, Abandon;
    var found := FirstOn(s.flying, handle);
    if found != [] {
      AbandonKeepsTimer(s, found[0]);
      DisconnectKeepsTimer(Abandon(s, found[0]), handle);
    }
  }

  lemma PollKeepsTimer(s: State)
    requires TimerInv(s) && Sorted(s.flying)
    ensures TimerInv(HandleTimeouts(s))
  {
    hide FlagExpired, CancelExpired;
    var q := FlagExpired(s.flying, Now(s.clock));
    ScanFlagsExactlyTheExpired(s.flying, Now(s.clock));
    if !SomeTimedOut(q) {
      forall i | 0 <= i < |q| ensures q[i] == s.flying[i] {
        assert q[i] == Flagged(s.flying[i], Now(s.clock)) && !q[i].timedOut;
      }
      assert q == s.flying;
    }
  }

  lemma TriggerKeepsTimer(s: State)
    requires TimerInv(s) && Rearms(s.support, FlagExpired(s.flying, Now(s.clock)))
    ensures TimerInv(HandleTrigger(s))
    ensures HandleTrigger(s).timer == TimerFor(s.support, HandleTrigger(s).flying)
  {
    hide FlagExpired, CancelExpired, SomeTimedOut, Rearms, TimerFor;
  }

  lemma StepKeepsTimer(s: State, e: Event)
    requires Defined(s, e)
    requires ListInv(s) && TimerInv(s) && Settles(s, e)
    ensures TimerInv(Next(s, e))
  {
    hide SubmitTransfer, HandleUrb, HandleTimeouts, HandleTrigger, HandleDisconnect, TimerInv, Rearms, Live, Verdict;
    match e {
      case Submit(id, handle, timeout, request) =>
        if !Has(s.flying, id) && WellFormed(request) { SubmitKeepsTimer(s, id, handle, timeout, request); }
      case Urb(id, event) =>
        UrbKeepsTimer(s, id, event);
      case Disconnect(handle) =>
        DisconnectKeepsTimer(s, handle);
      case Tick(ns) =>
        IdleKeepsTimer(s, e);
      case Cancel(_) =>
        IdleKeepsTimer(s, e);
      case Freed(_, _) =>
      case PollTimedOut =>
        PollKeepsTimer(s);
      case Trigger =>
        if s.timer.Armed? { TriggerKeepsTimer(s); }
    }
  }

  lemma IdleKeepsTimer(s: State, e: Event)
    requires TimerInv(s) && (e.Tick? || e.Cancel?)
    ensures TimerInv(Next(s, e))
  {
    hide TimerFor, SomeTimedOut;
  }

  lemma {:induction false} TimerInvHolds(es: seq<Event>)
    requires AllDefined(Initial(Available), es) && AllSettle(Initial(Available), es)
    ensures TimerInv(Run(Initial(Available), es))
    decreases |es|
  {
    hide Next, ListInv, Settles;
    if es != [] {
      TimerInvHolds(es[..|es| - 1]);
      ListStaysSorted(Available, es[..|es| - 1]);
      StepKeepsTimer(Run(Initial(Available), es[..|es| - 1]), es[|es| - 1]);
    }
  }

  /**
   Timer agreement over all runs in which timerfd_settime does not fail: the timerfd is armed to
   the least deadline still to be handled, and disarmed without one, or else a transfer that has
   timed out is still flying. And no callback is lost.
   */
  lemma TimerAgrees(es: seq<Event>)
    requires AllDefined(Initial(Available), es) && AllSettle(Initial(Available), es)
    ensures var s := Run(Initial(Available), es);
      s.lost == [] && (ArmedRight(s.timer, s.flying) || SomeTimedOut(s.flying))
  {
    hide Run, AllSettle;
    TimerInvHolds(es);
    ListStaysSorted(Available, es);
    TimerForIsRight(Run(Initial(Available), es).flying);
  }

  /** What ends the exceptional case: a completion, a trigger, the disconnection of a busy device. */
  predicate Restores(s: State, e: Event) {
    (e.Urb? && Asks(s, e.id, e.event)) || (e.Trigger? && s.timer.Armed?)
    || (e.Disconnect? && FirstOn(s.flying, e.handle) != [])
  }

  lemma TimerNeedsSupport(s: State)
    requires TimerInv(s)
    ensures s.support == Available
  {
  }

  lemma TimerIsRestored(es: seq<Event>, e: Event)
    requires AllDefined(Initial(Available), es) && AllSettle(Initial(Available), es)
    requires Defined(Run(Initial(Available), es), e)
    requires Settles(Run(Initial(Available), es), e) && Restores(Run(Initial(Available), es), e)
    ensures var t := Next(Run(Initial(Available), es), e); ArmedRight(t.timer, t.flying)
  {
    hide Run, HandleUrb, HandleTrigger, HandleDisconnect, TimerInv, ArmedRight, AllSettle, TimerFor, Rearms, Asks;
    var s := Run(Initial(Available), es);
    TimerInvHolds(es);
    ListStaysSorted(Available, es);
    StepKeepsList(s, e);
    TimerForIsRight(Next(s, e).flying);
    assert s.support == Available by { TimerNeedsSupport(s); }
    match e {
      case Urb(id, event) =>
        UrbKeepsTimer(s, id, event);
      case Trigger =>
        TriggerKeepsTimer(s);
      case Disconnect(handle) =>
        DisconnectKeepsTimer(s, handle);
    }
  }

  // ---------------------------------------------------------------- when the timer can always be set

  /** No submission happens at one of the instants at which the carry is missed. */
  predicate Carries(s: State, e: Event) {
    e.Submit? ==> !MissesCarry(s.clock, e.timeout)
  }

  predicate AllCarry(s: State, es: seq<Event>)
    decreases |es|
  {
    es == [] || (AllCarry(s, es[..|es| - 1]) && Carries(Run(s, es[..|es| - 1]), es[|es| - 1]))
  }

  ghost predicate CarriedInv(s: State) {
    s.support.Available? && Every(s.flying, Carried) && EveryField(s, Carried)
  }

  lemma {:induction false} NextIsCarried(q: seq<Flight>)
    requires Every(q, Carried)
    ensures NextToArm(q) == [] || Carried(NextToArm(q)[0])
    decreases |q|
  {
    if q != [] { NextIsCarried(q[1..]); }
  }

  lemma {:induction false} RoundsRearmWhenCarried(q: seq<Flight>, handle: nat)
    requires Every(q, Carried)
    ensures RoundsRearm(Available, q, handle)
    decreases |q|
  {
    hide Every, Delete;
    var found := FirstOn(q, handle);
    if found != [] {
      EveryAfterDelete(q, found[0], Carried);
      NextIsCarried(Delete(q, found[0]));
      RoundsRearmWhenCarried(Delete(q, found[0]), handle);
    }
  }

  lemma FieldIsCarried(s: State, id: nat, timeout: nat)
    requires CarriedInv(s) && !MissesCarry(s.clock, timeout)
    ensures Carried(CalculateTimeout(s.clock, timeout, Field(s, id)))
  {
    if timeout > 0 { DeadlineIsExact(s.clock, timeout, Field(s, id)); }
  }

  lemma CarriedSettles(s: State, e: Event)
    requires ListInv(s) && CarriedInv(s) && Carries(s, e)
    ensures Settles(s, e)
  {
    hide Every, EveryField, Delete, FlagExpired, Takes, Asks, CalculateTimeout, Sorted, Distinct, RoundsRearm;
    match e {
      case Submit(id, _, timeout, _) =>
        FieldIsCarried(s, id, timeout);
      case Urb(id, _) =>
        EveryAfterDelete(s.flying, id, Carried);
        NextIsCarried(Delete(s.flying, id));
      case Trigger =>
        EveryAfterFlagging(s.flying, Now(s.clock), Carried);
        NextIsCarried(FlagExpired(s.flying, Now(s.clock)));
      case Disconnect(handle) =>
        RoundsRearmWhenCarried(s.flying, handle);
      case Tick(_) =>
      case Cancel(_) =>
      case Freed(_, _) =>
      case PollTimedOut =>
    }
  }

  lemma SubmitKeepsCarried(s: State, id: nat, handle: nat, timeout: nat, request: Request)
    requires CarriedInv(s) && !MissesCarry(s.clock, timeout) && !Has(s.flying, id)
    ensures CarriedInv(SubmitTransfer(s, id, handle, timeout, request))
  {
    hide Every, Insert, Delete, Live, CalculateTimeout;
    var f := Flight(id, handle, CalculateTimeout(s.clock, timeout, Field(s, id)), false);
    FieldIsCarried(s, id, timeout);
    DeleteUndoesInsert(s.flying, f);
    EveryAfterInsert(s.flying, f, Carried);
  }

  lemma CompleteKeepsCarried(s: State, id: nat, status: TransferStatus)
    requires CarriedInv(s)
    ensures CarriedInv(Complete(s, id, status))
  {
    hide Every, Delete, Rearms;
    EveryAfterDelete(s.flying, id, Carried);
  }

  lemma {:induction false} DisconnectKeepsCarried(s: State, handle: nat)
    requires CarriedInv(s)
    ensures CarriedInv(HandleDisconnect(s, handle))
    decreases |s.flying|
  {
    hide Complete, Every;
    var found := FirstOn(s.flying, handle);
    if found != [] {
      var backend := ClearOne(s.backend, found[0]);
      CompleteKeepsCarried(WithBackend(s, backend), found[0], TransferNoDevice);
      CompleteShrinks(WithBackend(s, backend), found[0], TransferNoDevice);
      DisconnectKeepsCarried(Abandon(s, found[0]), handle);
    }
  }

  lemma UrbKeepsCarried(s: State, id: nat, e: UrbEvent)
    requires CarriedInv(s)
    ensures CarriedInv(HandleUrb(s, id, e))
  {
    hide Complete, Every, Verdict, Step;
    if Asks(s, id, e) {
      CompleteKeepsCarried(WithBackend(s, s.backend[id := Step(s.backend[id], e)]), id, Verdict(s.backend[id], e)[0]);
    }
  }

  lemma StepKeepsCarried(s: State, e: Event)
    requires Defined(s, e)
    requires ListInv(s) && CarriedInv(s) && Carries(s, e)
    ensures CarriedInv(Next(s, e))
  {
    hide SubmitTransfer, HandleUrb, HandleDisconnect, FlagExpired, CancelExpired, Every, Rearms, TimerFor, WellFormed;
    match e {
      case Submit(id, handle, timeout, request) =>
        if !Has(s.flying, id) { SubmitKeepsCarried(s, id, handle, timeout, request); }
      case Urb(id, event) =>
        UrbKeepsCarried(s, id, event);
      case Disconnect(handle) =>
        DisconnectKeepsCarried(s, handle);
      case Tick(_) =>
      case Cancel(_) =>
      case Freed(_, _) =>
      case PollTimedOut =>
        EveryAfterFlagging(s.flying, Now(s.clock), Carried);
      case Trigger =>
        EveryAfterFlagging(s.flying, Now(s.clock), Carried);
    }
  }

  /** A caller can see to it: where no submission misses the carry, every timerfd_settime succeeds. */
  lemma {:induction false} CarryingSettles(es: seq<Event>)
    requires AllDefined(Initial(Available), es) && AllCarry(Initial(Available), es)
    ensures AllSettle(Initial(Available), es) && CarriedInv(Run(Initial(Available), es))
    decreases |es|
  {
    hide Next, ListInv, Carries, Settles;
    if es != [] {
      CarryingSettles(es[..|es| - 1]);
      ListStaysSorted(Available, es[..|es| - 1]);
      CarriedSettles(Run(Initial(Available), es[..|es| - 1]), es[|es| - 1]);
      StepKeepsCarried(Run(Initial(Available), es[..|es| - 1]), es[|es| - 1]);
    }
  }

  // ---------------------------------------------------------------- where the code falls short

  /**
   A completion returns without the callback exactly if the context has no timerfd although it
   was built to use one, or the next deadline in line is a whole second in its small field.
   */
  lemma CallbackIsLostExactly(s: State, id: nat, status: TransferStatus)
    requires ListInv(s)
    ensures Complete(s, id, status).lost != s.lost
            <==> s.support.Unavailable? || (s.support.Available? && Blocked(Delete(s.flying, id)))
  {
    hide Delete;
    var rest := Delete(s.flying, id);
    DeleteKeepsSorted(s.flying, id);
    NextToArmIsFirst(rest);
    assert s.lost + [id] != s.lost;
  }

  /** The first pending transfer, with a deadline the kernel refuses. */
  ghost predicate Blocks(q: seq<Flight>, i: nat)
    requires i < |q|
  {
    Pending(q[i]) && !Carried(q[i].deadline) && forall j :: 0 <= j < i ==> !Pending(q[j])
  }

  ghost predicate Blocked(q: seq<Flight>) {
    exists i :: 0 <= i < |q| && Blocks(q, i)
  }

  lemma {:induction false} NextToArmIsFirst(q: seq<Flight>)
    requires Sorted(q)
    ensures NextToArm(q) != [] && !Carried(NextToArm(q)[0]) <==> Blocked(q)
    decreases |q|
  {
    if q != [] && IsSet(q[0].deadline) && q[0].timedOut {
      NextToArmIsFirst(q[1..]);
      if i :| 0 <= i < |q[1..]| && Blocks(q[1..], i) {
        forall j | 0 <= j < i + 1 ensures !Pending(q[j]) {
          assert j > 0 ==> q[j] == q[1..][j - 1];
        }
        assert Blocks(q, i + 1);
      }
      if i :| 0 <= i < |q| && Blocks(q, i) {
        forall j | 0 <= j < i - 1 ensures !Pending(q[1..][j]) {
          assert q[1..][j] == q[j + 1];
        }
        assert Blocks(q[1..], i - 1);
      }
    } else if q != [] && !IsSet(q[0].deadline) {
      forall i | 0 <= i < |q| ensures !Blocks(q, i) {
        if i > 0 { InfiniteOnesComeLast(q, 0, i); }
      }
    } else if q != [] {
      assert Pending(q[0]);
      assert Carried(q[0].deadline) <==> !Blocks(q, 0);
    }
  }

  /** Without a timerfd that was meant to be there, no callback is ever made, over any run. */
  lemma {:induction false} NoTimerfdNoCallbacks(es: seq<Event>)
    requires AllDefined(Initial(Unavailable), es)
    ensures Run(Initial(Unavailable), es).reports == [] && Run(Initial(Unavailable), es).support.Unavailable?
    decreases |es|
  {
    hide Next;
    if es != [] {
      NoTimerfdNoCallbacks(es[..|es| - 1]);
      StepMakesNoCallback(Run(Initial(Unavailable), es[..|es| - 1]), es[|es| - 1]);
    }
  }

  lemma {:induction false} DisconnectMakesNoCallback(s: State, handle: nat)
    requires s.support.Unavailable?
    ensures HandleDisconnect(s, handle).reports == s.reports && HandleDisconnect(s, handle).support == s.support
    decreases |s.flying|
  {
    var found := FirstOn(s.flying, handle);
    if found != [] { DisconnectMakesNoCallback(Abandon(s, found[0]), handle); }
  }

  lemma StepMakesNoCallback(s: State, e: Event)
    requires Defined(s, e) && s.support.Unavailable?
    ensures Next(s, e).reports == s.reports && Next(s, e).support == s.support
  {
    hide Step, Verdict, Insert, Delete, FlagExpired, CancelExpired, HandleDisconnect;
    if e.Disconnect? { DisconnectMakesNoCallback(s, e.handle); }
  }

  /** The deadline a submission gets keeps a whole second in its small field. */
  predicate WholeSecond(clock: nat, timeout: nat, field: Timeval) {
    MissesCarry(clock, timeout) || (timeout == 0 && IsSet(field) && !Carried(field))
  }

  /**
   A submission that the backend took is nevertheless reported as failed exactly if its deadline,
   new or left from an earlier submission, misses the carry and comes first; it keeps flying.
   */
  lemma FailureReportedThoughFlying(s: State, id: nat, handle: nat, timeout: nat, request: Request)
    requires ListInv(s) && Live(Submitted(s.backend, id, request))
    ensures SubmitReportsError(s, id, timeout, request)
            <==> s.support.Available? && WholeSecond(s.clock, timeout, Field(s, id))
                 && forall i :: 0 <= i < |s.flying|
                      ==> Before(CalculateTimeout(s.clock, timeout, Field(s, id)), s.flying[i].deadline)
    ensures Has(SubmitTransfer(s, id, handle, timeout, request).flying, id)
  {
    hide Insert, Live;
    var deadline := CalculateTimeout(s.clock, timeout, Field(s, id));
    if timeout > 0 { DeadlineIsExact(s.clock, timeout, Field(s, id)); }
    FirstIsSoonest(s.flying, deadline);
    HasAfterInsert(s.flying, Flight(id, handle, deadline, false), id);
  }

  /** A bulk transfer of one byte, of which the kernel takes `taken` URBs. */
  function OneByte(taken: nat): Request {
    BulkRequest([0], false, false, taken)
  }

  lemma OneByteSubmits(taken: nat)
    ensures forall strays :: Live(Backends.Submit(OneByte(taken), strays)) <==> taken > 0
  {
    forall strays ensures Live(Backends.Submit(OneByte(taken), strays)) <==> taken > 0 {
      SubmitIsSound(OneByte(taken), strays);
    }
  }

  /**
   One millisecond into the clock, a timeout of 999 milliseconds does it. Even if the kernel
   refuses that submission, the next one fails in the same way without any timeout.
   */
  lemma FailureReportedExamples()
    ensures var s := Run(Initial(Available), [Tick(1_000_000)]);
      SubmitReportsError(s, 0, 999, OneByte(1)) && Has(SubmitTransfer(s, 0, 0, 999, OneByte(1)).flying, 0)
    ensures var s := Run(Initial(Available), [Tick(1_000_000), Submit(0, 0, 999, OneByte(0))]);
      && SubmitReportsError(s, 0, 0, OneByte(1)) && Has(SubmitTransfer(s, 0, 0, 0, OneByte(1)).flying, 0)
      && !MissesCarry(s.clock, 0)
  {
    hide Live, Backends.Submit;
    OneByteSubmits(0);
    OneByteSubmits(1);
    var es := [Tick(1_000_000)];
    assert es[..|es| - 1] == [];
    assert Run(Initial(Available), es) == Next(Initial(Available), Tick(1_000_000));
    var fs := [Tick(1_000_000), Submit(0, 0, 999, OneByte(0))];
    assert fs[..|fs| - 1] == es;
  }

  /** Settling asks for less than carrying: a submission may miss the carry behind a sooner one. */
  lemma SettlesWithoutCarrying()
    ensures var es := [Tick(1_000_000), Submit(0, 0, 500, OneByte(1)), Submit(1, 0, 999, OneByte(1))];
      AllSettle(Initial(Available), es) && !AllCarry(Initial(Available), es)
  {
    hide Live, Backends.Submit;
    OneByteSubmits(1);
    var s0 := Initial(Available);
    var es := [Tick(1_000_000), Submit(0, 0, 500, OneByte(1)), Submit(1, 0, 999, OneByte(1))];
    assert es[..2][..1] == [es[0]] && es[..2][1] == es[1] && [es[0]][..0] == [];
    assert Run(s0, []) == s0;
    assert Run(s0, [es[0]]) == Next(s0, es[0]);
    assert AllSettle(s0, []) && AllSettle(s0, [es[0]]);
    assert Run(s0, es[..2]) == Next(Next(s0, es[0]), es[1]);
    assert AllSettle(s0, es[..2]);
  }
}
