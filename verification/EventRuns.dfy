/**
 What holds over every interleaving of the event-handling protocol: no wakeup is lost, one thread
 handles events at a time, nobody is stuck, and new descriptors are noticed.
 */
module EventRuns {
  import opened EventLock

  function Fresh(n: nat): seq<Thread> {
    if n == 0 then [] else [Thread(Idle, -1, false, [])] + Fresh(n - 1)
  }

  /** A context as usbi_io_init leaves it, with n threads about to use it. */
  function Init(reserved: seq<int>, n: nat): State {
    State(reserved, Fresh(n), Shared(None, false, 0, 0, None, reserved))
  }

  lemma {:induction false} FreshIdle(n: nat)
    ensures |Fresh(n)| == n && forall t :: 0 <= t < n ==> Fresh(n)[t].pc == Idle
    ensures Count(Fresh(n), Raised) == 0 && Count(Fresh(n), Written) == 0
  {
    if n > 0 {
      FreshIdle(n - 1);
    }
  }

  lemma Reachable(reserved: seq<int>, n: nat, events: seq<Event>)
    requires reserved != []
    ensures Inv(Run(Init(reserved, n), events))
  {
    FreshIdle(n);
    RunKeeps(Init(reserved, n), events);
  }

  /** Whoever sleeps in libusb_wait_for_event, another thread still owes a broadcast. */
  lemma NoLostWakeup(reserved: seq<int>, n: nat, events: seq<Event>, t: nat)
    requires reserved != []
    requires var s := Run(Init(reserved, n), events); t < |s.threads| && s.threads[t].pc == Asleep
    ensures var s := Run(Init(reserved, n), events);
      exists u :: 0 <= u < |s.threads| && u != t && OwesBroadcast(s.threads[u].pc)
  {
    Reachable(reserved, n, events);
    var s := Run(Init(reserved, n), events);
    assert Waiting(s.threads[t].pc);
    var u :| 0 <= u < |s.threads| && OwesBroadcast(s.threads[u].pc);
    assert u != t;
  }

  lemma BroadcastWakes(s: State, t: nat, e: Effect)
    requires LockInv(s) && t < |s.threads|
    requires WaitsMove(s.threads[t], t, s.shared, e) && e.broadcast
    ensures forall u :: 0 <= u < |s.threads| ==> !Waiting(Apply(s, t, e).threads[u].pc)
  {
    ApplyThreads(s, t, e);
    forall u | 0 <= u < |s.threads| && u != t ensures !s.threads[u].pc.WaitSleep? {
      assert !HoldsWaiters(s.threads[u].pc);
    }
  }

  lemma OthersStillOwe(s: State, t: nat, e: Effect, u: nat)
    requires t < |s.threads| && e.Effect? && u < |s.threads| && u != t
    ensures OwesBroadcast(Apply(s, t, e).threads[u].pc) == OwesBroadcast(s.threads[u].pc)
  {
    ApplyThreads(s, t, e);
  }

  /** An owed broadcast stays owed until one is sent, and that one wakes everybody. */
  lemma BroadcastIsPaid(s: State, e: Event, u: nat)
    requires Inv(s) && u < |s.threads| && OwesBroadcast(s.threads[u].pc)
    ensures |Next(s, e).threads| == |s.threads|
    ensures OwesBroadcast(Next(s, e).threads[u].pc)
            || forall w :: 0 <= w < |s.threads| ==> !Waiting(Next(s, e).threads[w].pc)
  {
    if StepOf(s, e).Effect? {
      StepMoves(s.threads[e.thread], e.thread, s.shared, s.reserved, e.choice);
      if StepOf(s, e).broadcast {
        BroadcastWakes(s, e.thread, StepOf(s, e));
      } else if u != e.thread {
        OthersStillOwe(s, e.thread, StepOf(s, e), u);
      }
    }
  }

  /** Between copying the poll set and returning from event handling. */
  predicate HandlesEvents(pc: Pc) {
    pc.Snapshot? || pc.Polling? || pc.Handling? || pc.NotifyLock? || pc.Notify? || pc.NotifyUnlock?
  }

  /**
   At most one thread handles events, and while libusb_close removes an fd no thread does.
   What a thread polls is still in the poll set.
   */
  lemma HandlingIsExclusive(reserved: seq<int>, n: nat, events: seq<Event>, t: nat, u: nat)
    requires reserved != []
    requires var s := Run(Init(reserved, n), events); t < |s.threads| && u < |s.threads|
    ensures var s := Run(Init(reserved, n), events);
      && (HandlesEvents(s.threads[t].pc) && HandlesEvents(s.threads[u].pc) ==> t == u)
      && (HandlesEvents(s.threads[t].pc) ==> !s.threads[u].pc.RemoveFd?)
      && (s.threads[t].pc == Polling ==>
            forall fd :: fd in s.threads[t].polled ==> fd in s.shared.pollfds)
  {
    Reachable(reserved, n, events);
    var s := Run(Init(reserved, n), events);
    assert HoldsEvents(s.threads[t].pc) <==> s.shared.eventsLock == Some(t);
    assert HoldsEvents(s.threads[u].pc) <==> s.shared.eventsLock == Some(u);
  }

  /** Slot 0 of the poll set is the control pipe (and slot 1 the timerfd), in every copy too. */
  lemma ControlPipeComesFirst(reserved: seq<int>, n: nat, events: seq<Event>, t: nat)
    requires reserved != []
    requires t < |Run(Init(reserved, n), events).threads|
    ensures var s := Run(Init(reserved, n), events);
      && reserved <= s.shared.pollfds
      && (s.threads[t].pc == Polling ==> reserved <= s.threads[t].polled)
  {
    Reachable(reserved, n, events);
    RunKeepsReserved(Init(reserved, n), events);
  }

  lemma {:induction false} RunKeepsReserved(s: State, events: seq<Event>)
    ensures Run(s, events).reserved == s.reserved
  {
    if events != [] {
      RunKeepsReserved(s, events[..|events| - 1]);
    }
  }

  /** The thread can move without a device event, a timeout or a new request. */
  ghost predicate CanProceed(s: State, t: nat) {
    t < |s.threads| && StepOf(s, Event(t, Proceed)).Effect?
  }

  lemma PollingIsWoken(s: State, t: nat)
    requires PollInv(s) && t < |s.threads| && s.threads[t].pc == Polling && s.shared.pipe > 0
    ensures CanProceed(s, t)
  {
    assert s.threads[t].polled[0] == s.reserved[0];
    assert [s.threads[t].polled[0]] <= s.reserved;
  }

  lemma ReaderReads(s: State, t: nat)
    requires CountInv(s) && t < |s.threads| && s.threads[t].pc == ReadPipe
    ensures CanProceed(s, t)
  {
    CountPositive(s.threads, Written);
    assert Written(s.threads[t].pc);
  }

  /**
   The pipe holds one byte for every open or close between its write and its read. So the
   read never blocks, and while one of them waits a polling thread is woken.
   */
  lemma PipeCountsModifiers(reserved: seq<int>, n: nat, events: seq<Event>, t: nat, u: nat)
    requires reserved != []
    requires t < |Run(Init(reserved, n), events).threads| && u < |Run(Init(reserved, n), events).threads|
    ensures var s := Run(Init(reserved, n), events);
      && s.shared.pipe == Count(s.threads, Written)
      && s.shared.modifying == Count(s.threads, Raised)
      && (s.threads[t].pc == ReadPipe ==> CanProceed(s, t))
      && (s.threads[t].pc == Polling && Written(s.threads[u].pc) ==> CanProceed(s, t))
  {
    Reachable(reserved, n, events);
    var s := Run(Init(reserved, n), events);
    if s.threads[t].pc == ReadPipe {
      ReaderReads(s, t);
    } else if s.threads[t].pc == Polling && Written(s.threads[u].pc) {
      CountPositive(s.threads, Written);
      PollingIsWoken(s, t);
    }
  }

  lemma WaitersLockIsReleased(s: State, t: nat)
    requires t < |s.threads| && HoldsWaiters(s.threads[t].pc)
    ensures CanProceed(s, t)
  {
  }

  lemma EventsLockIsReleased(s: State, t: nat)
    requires Inv(s) && t < |s.threads| && HoldsEvents(s.threads[t].pc)
    requires s.threads[t].pc == Polling ==> s.shared.pipe > 0
    ensures exists u :: CanProceed(s, u)
  {
    var pc := s.threads[t].pc;
    if pc.NotifyLock? && s.shared.waitersLock.Some? {
      WaitersLockIsReleased(s, s.shared.waitersLock.value);
    } else if pc.ReadPipe? {
      ReaderReads(s, t);
    } else if pc.Polling? {
      PollingIsWoken(s, t);
    } else {
      assert CanProceed(s, t);
    }
  }

  /**
   While an open or a close is under way, some thread can move on its own: a handler that
   polls is woken, and nobody waits for a lock in a circle.
   */
  lemma ModifiersAreNeverStuck(reserved: seq<int>, n: nat, events: seq<Event>, t: nat)
    requires reserved != []
    requires var s := Run(Init(reserved, n), events); t < |s.threads| && Modifying(s.threads[t].pc)
    ensures exists u :: CanProceed(Run(Init(reserved, n), events), u)
  {
    Reachable(reserved, n, events);
    var s := Run(Init(reserved, n), events);
    if s.threads[t].pc == ModifyLock && s.shared.eventsLock.Some? {
      CountPositive(s.threads, Written);
      assert Written(s.threads[t].pc);
      EventsLockIsReleased(s, s.shared.eventsLock.value);
    } else if HoldsEvents(s.threads[t].pc) {
      EventsLockIsReleased(s, t);
    } else {
      assert CanProceed(s, t);
    }
  }

  /** Some thread can move unless all of them are idle, asleep, or kept waiting by one that polls. */
  lemma NoDeadlock(reserved: seq<int>, n: nat, events: seq<Event>, t: nat)
    requires reserved != []
    requires var s := Run(Init(reserved, n), events); t < |s.threads| && s.threads[t].pc != Idle
    ensures var s := Run(Init(reserved, n), events);
      (exists u :: CanProceed(s, u)) || (exists u :: 0 <= u < |s.threads| && s.threads[u].pc == Polling)
  {
    Reachable(reserved, n, events);
    var s := Run(Init(reserved, n), events);
    if forall u :: 0 <= u < |s.threads| ==> s.threads[u].pc != Polling {
      if s.shared.eventsLock.Some? {
        EventsLockIsReleased(s, s.shared.eventsLock.value);
      } else if s.shared.waitersLock.Some? {
        WaitersLockIsReleased(s, s.shared.waitersLock.value);
      } else {
        NobodyHoldsALock(s, t);
      }
    }
  }

  lemma NobodyHoldsALock(s: State, t: nat)
    requires Inv(s) && t < |s.threads| && s.threads[t].pc != Idle
    requires s.shared.eventsLock.None? && s.shared.waitersLock.None?
    ensures exists u :: CanProceed(s, u)
  {
    if s.threads[t].pc == Asleep {
      assert Waiting(s.threads[t].pc);
      var u :| 0 <= u < |s.threads| && OwesBroadcast(s.threads[u].pc);
      assert CanProceed(s, u);
    } else {
      assert CanProceed(s, t);
    }
  }

  // ---------------------------------------------------------------- new descriptors are noticed

  ghost predicate SomebodyOpens(s: State, fd: int) {
    exists u :: 0 <= u < |s.threads| && Opening(s.threads[u], fd)
  }

  /** Whatever a polling thread misses, somebody who is opening it will tell. */
  ghost predicate NoticeInv(s: State) {
    forall t, fd |
      0 <= t < |s.threads| && s.threads[t].pc == Polling && fd in s.shared.pollfds && fd !in s.threads[t].polled ::
      SomebodyOpens(s, fd)
  }

  lemma {:induction false} RemoveShrinks(fds: seq<int>, fd: int)
    ensures forall x :: x in Remove(fds, fd) ==> x in fds
  {
    if fds != [] { RemoveShrinks(fds[1..], fd); }
  }

  lemma OpenersMove(th: Thread, sh: Shared, reserved: seq<int>, e: Effect, fd: int)
    requires PollsMove(th, sh, reserved, e)
    ensures fd in e.shared.pollfds ==> fd in sh.pollfds || Opening(e.thread, fd)
    ensures Opening(th, fd) ==> Opening(e.thread, fd) || sh.eventsLock == None
    ensures e.thread.pc == Polling ==> e.thread.polled == e.shared.pollfds
  {
    hide HoldsEvents, Modifying, Remove;
    if gone :| gone !in reserved && e.shared.pollfds == Remove(sh.pollfds, gone) { RemoveShrinks(sh.pollfds, gone); }
  }

  lemma StepKeepsNotice(s: State, ev: Event)
    requires Inv(s) && NoticeInv(s)
    ensures NoticeInv(Next(s, ev))
  {
    hide Step, Opening, LockInv, CountInv, WakeInv, PollInv, LocksMove, CountsMove, WaitsMove, PollsMove;
    var e, t := StepOf(s, ev), ev.thread;
    if e.Effect? {
      StepFits(s, t);
      StepMoves(s.threads[t], t, s.shared, s.reserved, ev.choice);
      var n := Apply(s, t, e);
      ApplyThreads(s, t, e);
      forall w, fd | 0 <= w < |n.threads| && n.threads[w].pc == Polling && fd in n.shared.pollfds
                     && fd !in n.threads[w].polled
        ensures SomebodyOpens(n, fd)
      {
        OpenersMove(s.threads[t], s.shared, s.reserved, e, fd);
        OpenersStayAwake(e.thread, fd);
        if Opening(e.thread, fd) {
          assert Opening(n.threads[t], fd);
        } else {
          assert w != t && n.threads[w] == s.threads[w] && fd in s.shared.pollfds;
          PollersHold(s, w);
          var u :| 0 <= u < |s.threads| && Opening(s.threads[u], fd);
          OpenersStayAwake(s.threads[u], fd);
          assert Opening(n.threads[u], fd);
        }
      }
    }
  }

  lemma StepFits(s: State, t: nat)
    requires Inv(s) && t < |s.threads|
    ensures Fits(s.threads[t], t, s.shared, s.reserved)
  {
  }

  lemma PollersHold(s: State, w: nat)
    requires Inv(s) && w < |s.threads| && s.threads[w].pc == Polling
    ensures s.shared.eventsLock != None
  {
    assert HoldsEvents(s.threads[w].pc);
  }

  lemma OpenersStayAwake(th: Thread, fd: int)
    ensures Opening(th, fd) ==> Woken(th) == th
  {
  }

  lemma {:induction false} NoticeInvHolds(reserved: seq<int>, n: nat, events: seq<Event>)
    requires reserved != []
    ensures NoticeInv(Run(Init(reserved, n), events))
    decreases |events|
  {
    hide Next, NoticeInv, Inv;
    if events != [] {
      NoticeInvHolds(reserved, n, events[..|events| - 1]);
      Reachable(reserved, n, events[..|events| - 1]);
      StepKeepsNotice(Run(Init(reserved, n), events[..|events| - 1]), events[|events| - 1]);
    } else {
      NobodyPollsYet(reserved, n);
    }
  }

  lemma NobodyPollsYet(reserved: seq<int>, n: nat)
    ensures NoticeInv(Init(reserved, n))
  {
    FreshIdle(n);
  }

  /**
   A new fd is picked up: if a thread polls without one that is in the poll set, the thread that
   opens it has not got the events lock yet, and either it can go on by itself or it has written
   to the control pipe, so that the polling thread can.
   */
  lemma NewFdsArePickedUp(reserved: seq<int>, n: nat, events: seq<Event>, t: nat, fd: int)
    requires reserved != []
    requires var s := Run(Init(reserved, n), events);
      t < |s.threads| && s.threads[t].pc == Polling && fd in s.shared.pollfds && fd !in s.threads[t].polled
    ensures var s := Run(Init(reserved, n), events);
      exists u :: 0 <= u < |s.threads| && Opening(s.threads[u], fd) && (CanProceed(s, u) || CanProceed(s, t))
  {
    hide Run, CanProceed, Inv;
    NoticeInvHolds(reserved, n, events);
    var s := Run(Init(reserved, n), events);
    var u :| 0 <= u < |s.threads| && Opening(s.threads[u], fd);
    if s.threads[u].pc.ModifyLock? {
      PipeCountsModifiers(reserved, n, events, t, u);
    } else {
      OpenersStart(s, u);
    }
  }

  lemma OpenersStart(s: State, u: nat)
    requires u < |s.threads| && (s.threads[u].pc.Raise? || s.threads[u].pc.WritePipe?)
    ensures CanProceed(s, u)
  {
    assert StepOf(s, Event(u, Proceed)).Effect?;
  }

  /** Has a completion to announce to the waiters. */
  predicate Announces(pc: Pc) {
    pc == NotifyLock || pc == Notify
  }

  /**
   Each completed transfer is announced: the handler that completes one has a broadcast to make, and
   until it has made it, which wakes every sleeper, it does nothing else.
   */
  lemma CompletionsAreAnnounced(s: State, e: Event, u: nat)
    requires Inv(s) && u < |s.threads|
    ensures s.threads[u].pc == Handling && e == Event(u, Complete) ==> Announces(Next(s, e).threads[u].pc)
    ensures Announces(s.threads[u].pc)
            ==> Announces(Next(s, e).threads[u].pc)
                || forall w :: 0 <= w < |s.threads| ==> !Waiting(Next(s, e).threads[w].pc)
  {
    hide Step, Waiting;
    if StepOf(s, e).Effect? {
      AnnounceStep(s, e);
      if StepOf(s, e).broadcast {
        StepMoves(s.threads[e.thread], e.thread, s.shared, s.reserved, e.choice);
        BroadcastWakes(s, e.thread, StepOf(s, e));
      } else {
        hide LockInv, CountInv, WakeInv, PollInv;
        ApplyThreads(s, e.thread, StepOf(s, e));
      }
    } else if e.thread < |s.threads| {
      AnnounceStep(s, e);
    }
  }

  lemma AnnounceStep(s: State, e: Event)
    requires e.thread < |s.threads|
    ensures s.threads[e.thread].pc == Handling && e.choice == Complete
            ==> StepOf(s, e).Effect? && StepOf(s, e).thread.pc == NotifyLock && !StepOf(s, e).broadcast
    ensures Announces(s.threads[e.thread].pc) && StepOf(s, e).Effect?
            ==> Announces(StepOf(s, e).thread.pc) || StepOf(s, e).broadcast
  {
    hide StepIdle, StepWait, StepModify, Remove;
  }

  /** poll returns for a device event or its timeout, and else exactly if an open or close has written to the pipe. */
  lemma PollReturnsExactly(reserved: seq<int>, n: nat, events: seq<Event>, t: nat, c: Choice)
    requires reserved != []
    requires var s := Run(Init(reserved, n), events); t < |s.threads| && s.threads[t].pc == Polling
    ensures var s := Run(Init(reserved, n), events);
      Next(s, Event(t, c)).threads[t].pc == if c == DeviceEvent || SomeThread(s, Written) then Handling else Polling
  {
    Reachable(reserved, n, events);
    var s := Run(Init(reserved, n), events);
    CountPositive(s.threads, Written);
    PollStep(s, t, c);
    hide Next;
  }

  lemma PollStep(s: State, t: nat, c: Choice)
    requires PollInv(s) && t < |s.threads| && s.threads[t].pc == Polling
    ensures Next(s, Event(t, c)).threads[t].pc == if c == DeviceEvent || s.shared.pipe > 0 then Handling else Polling
  {
    hide StepIdle, StepNotify, StepWait, StepModify, WakeAll, Remove;
    assert s.threads[t].polled[0] == s.reserved[0];
  }

  ghost predicate SomeThread(s: State, p: Pc -> bool) {
    exists u :: 0 <= u < |s.threads| && p(s.threads[u].pc)
  }

  /**
   Who handles events and who waits: a thread tries to get the events lock exactly if no open or close
   is under way, and gets it exactly if nobody has it; one that waits goes to sleep exactly if an
   open or close is under way or somebody handles events, and else tries again; unless it is woken it
   sleeps until its time is up.
   */
  lemma HandlersAndWaiters(reserved: seq<int>, n: nat, events: seq<Event>, t: nat, c: Choice)
    requires reserved != []
    requires t < |Run(Init(reserved, n), events).threads|
    ensures var s := Run(Init(reserved, n), events);
      var before, after := s.threads[t].pc, Next(s, Event(t, c)).threads[t].pc;
      && (before == TryCheck ==> after == if SomeThread(s, Raised) then WaitLock else TryLock)
      && (before == TryLock ==> after == if SomeThread(s, HoldsEvents) then WaitLock else SetActive)
      && (before == WaitCheckModify ==> after == if SomeThread(s, Raised) then WaitSleep else WaitCheckActive)
      && (before == WaitCheckActive ==> after == if SomeThread(s, SaysActive) then WaitSleep else WaitRetry)
      && (before == Asleep ==> after == if c == Timeout then WaitReacquire else Asleep)
  {
    hide Inv, SomeThread, Run;
    Reachable(reserved, n, events);
    var s := Run(Init(reserved, n), events);
    LocksTell(s);
    EntryStep(s, t, c);
    hide Next;
  }

  lemma EntryStep(s: State, t: nat, c: Choice)
    requires t < |s.threads|
    ensures var before, after := s.threads[t].pc, Next(s, Event(t, c)).threads[t].pc;
      && (before == TryCheck ==> after == if s.shared.modifying != 0 then WaitLock else TryLock)
      && (before == TryLock ==> after == if s.shared.eventsLock.Some? then WaitLock else SetActive)
      && (before == WaitCheckModify ==> after == if s.shared.modifying != 0 then WaitSleep else WaitCheckActive)
      && (before == WaitCheckActive ==> after == if s.shared.active then WaitSleep else WaitRetry)
      && (before == Asleep ==> after == if c == Timeout then WaitReacquire else Asleep)
  {
    hide StepIdle, StepNotify, StepModify, WakeAll, Remove;
  }

  lemma LocksTell(s: State)
    requires Inv(s)
    ensures SomeThread(s, Raised) <==> s.shared.modifying != 0
    ensures SomeThread(s, HoldsEvents) <==> s.shared.eventsLock.Some?
    ensures SomeThread(s, SaysActive) <==> s.shared.active
  {
    CountPositive(s.threads, Raised);
    if u :| 0 <= u < |s.threads| && SaysActive(s.threads[u].pc) {
      assert HoldsEvents(s.threads[u].pc);
    }
    if s.shared.eventsLock.Some? {
      assert HoldsEvents(s.threads[s.shared.eventsLock.value].pc);
    }
  }
}
