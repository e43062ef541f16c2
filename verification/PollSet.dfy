/**
 The poll set over every interleaving: what libusb_open adds, what libusb_close and a disconnection
 take out, and that nothing else changes it.
 */
module PollSet {
  import opened EventLock
  import opened EventRuns

  /** The fd a thread adds as it starts to open a device. */
  function Came(s: State, ev: Event): multiset<int> {
    if ev.thread < |s.threads| && s.threads[ev.thread].pc == Idle && ev.choice.Open?
       && ev.choice.newFd !in s.shared.pollfds && ev.choice.newFd !in s.reserved
    then multiset{ev.choice.newFd} else multiset{}
  }

  /** The fd a closing thread, or an event handler that met a dead device, takes out. */
  function Went(s: State, ev: Event): multiset<int> {
    if ev.thread >= |s.threads| then multiset{}
    else
      var th := s.threads[ev.thread];
      if th.pc == RemoveFd && th.fd in s.shared.pollfds then multiset{th.fd}
      else if th.pc == Handling && ev.choice.Disconnect? && ev.choice.deadFd in s.shared.pollfds
              && ev.choice.deadFd !in s.reserved
      then multiset{ev.choice.deadFd}
      else multiset{}
  }

  function AllCame(s: State, events: seq<Event>): multiset<int> {
    if events == [] then multiset{}
    else AllCame(s, events[..|events| - 1]) + Came(Run(s, events[..|events| - 1]), events[|events| - 1])
  }

  function AllWent(s: State, events: seq<Event>): multiset<int> {
    if events == [] then multiset{}
    else AllWent(s, events[..|events| - 1]) + Went(Run(s, events[..|events| - 1]), events[|events| - 1])
  }

  /** One of several fds is taken out, the others stay in order. */
  ghost predicate WithoutOne(before: seq<int>, after: seq<int>, fd: int) {
    exists i :: 0 <= i < |before| && before[i] == fd && after == before[..i] + before[i + 1..]
  }

  lemma {:induction false} RemoveTakesOne(fds: seq<int>, fd: int)
    ensures fd in fds ==> WithoutOne(fds, Remove(fds, fd), fd)
    ensures fd !in fds ==> Remove(fds, fd) == fds
    decreases |fds|
  {
    if fds != [] && fds[0] != fd {
      RemoveTakesOne(fds[1..], fd);
      if fd in fds[1..] { OneFurtherOn(fds, Remove(fds[1..], fd), fd); }
    } else if fds != [] {
      assert fds[..0] + fds[1..] == fds[1..];
    }
  }

  lemma OutFurtherOn(fds: seq<int>, i: nat)
    requires i + 1 < |fds|
    ensures [fds[0]] + (fds[1..][..i] + fds[1..][i + 1..]) == fds[..i + 1] + fds[i + 2..]
  {
  }

  lemma OneFurtherOn(fds: seq<int>, rest: seq<int>, fd: int)
    requires fds != [] && WithoutOne(fds[1..], rest, fd)
    ensures WithoutOne(fds, [fds[0]] + rest, fd)
  {
    var i :| 0 <= i < |fds[1..]| && fds[1..][i] == fd && rest == fds[1..][..i] + fds[1..][i + 1..];
    OutFurtherOn(fds, i);
    var j := i + 1;
    assert fds[j] == fd && [fds[0]] + rest == fds[..j] + fds[j + 1..];
  }

  lemma IdleMovesPollfds(s: State, ev: Event)
    requires ev.thread < |s.threads| && s.threads[ev.thread].pc == Idle
    ensures Next(s, ev).shared.pollfds
            == s.shared.pollfds + (if Came(s, ev) != multiset{} then [ev.choice.newFd] else [])
  {
    hide StepHandler, StepNotify, StepWait, StepModify, WakeAll;
  }

  lemma ModifyMovesPollfds(s: State, ev: Event)
    requires ev.thread < |s.threads| && Modifying(s.threads[ev.thread].pc)
    ensures Next(s, ev).shared.pollfds
            == if s.threads[ev.thread].pc == RemoveFd then Remove(s.shared.pollfds, s.threads[ev.thread].fd)
               else s.shared.pollfds
  {
    hide StepIdle, StepHandler, StepNotify, StepWait, WakeAll, Remove;
  }

  lemma OthersMovePollfds(s: State, ev: Event)
    requires ev.thread < |s.threads| && !Modifying(s.threads[ev.thread].pc) && s.threads[ev.thread].pc != Idle
    ensures Next(s, ev).shared.pollfds
            == if s.threads[ev.thread].pc == Handling && ev.choice.Disconnect? && ev.choice.deadFd !in s.reserved
               then Remove(s.shared.pollfds, ev.choice.deadFd) else s.shared.pollfds
  {
    hide StepIdle, StepModify, WakeAll, Remove;
  }

  /** Each step adds one fd at the end, takes one out and leaves the others in order, or changes nothing. */
  lemma PollSetMoves(s: State, ev: Event)
    ensures var before, after := s.shared.pollfds, Next(s, ev).shared.pollfds;
      && (Came(s, ev) != multiset{} ==> after == before + [ev.choice.newFd] && Went(s, ev) == multiset{})
      && (forall fd :: fd in Went(s, ev) ==> WithoutOne(before, after, fd))
      && (Came(s, ev) == Went(s, ev) == multiset{} ==> after == before)
      && multiset(after) + Went(s, ev) == multiset(before) + Came(s, ev)
  {
    hide Next, Remove;
    var before, after := s.shared.pollfds, Next(s, ev).shared.pollfds;
    if ev.thread >= |s.threads| {
      NobodyMoves(s, ev);
    } else if s.threads[ev.thread].pc == Idle {
      IdleMovesPollfds(s, ev);
    } else {
      if Modifying(s.threads[ev.thread].pc) {
        ModifyMovesPollfds(s, ev);
        RemoveTakesOne(before, s.threads[ev.thread].fd);
      } else {
        OthersMovePollfds(s, ev);
        if ev.choice.Disconnect? { RemoveTakesOne(before, ev.choice.deadFd); }
      }
      hide Modifying;
      if fd :| fd in Went(s, ev) {
        WithoutOneCounts(before, after, fd);
      }
    }
  }

  lemma NobodyMoves(s: State, ev: Event)
    requires ev.thread >= |s.threads|
    ensures Next(s, ev) == s
  {
  }

  lemma WithoutOneCounts(before: seq<int>, after: seq<int>, fd: int)
    requires WithoutOne(before, after, fd)
    ensures multiset(after) + multiset{fd} == multiset(before)
  {
    var i :| 0 <= i < |before| && before[i] == fd && after == before[..i] + before[i + 1..];
    OneOut(before, i);
  }

  lemma OneOut(fds: seq<int>, i: nat)
    requires i < |fds|
    ensures multiset(fds[..i] + fds[i + 1..]) + multiset{fds[i]} == multiset(fds)
  {
    assert fds == fds[..i] + [fds[i]] + fds[i + 1..];
  }

  /**
   Over every run the poll set is what it began with, one for each open that added its fd, and
   none for each close or disconnection that found its fd.
   */
  lemma {:induction false} PollSetIsConserved(reserved: seq<int>, n: nat, events: seq<Event>)
    ensures var s0 := Init(reserved, n);
      multiset(Run(s0, events).shared.pollfds) + AllWent(s0, events) == multiset(reserved) + AllCame(s0, events)
    decreases |events|
  {
    hide Next, Came, Went;
    if events != [] {
      var front := events[..|events| - 1];
      PollSetIsConserved(reserved, n, front);
      PollSetMoves(Run(Init(reserved, n), front), events[|events| - 1]);
      Balances(multiset(Run(Init(reserved, n), front).shared.pollfds), AllWent(Init(reserved, n), front),
               multiset(reserved), AllCame(Init(reserved, n), front),
               multiset(Run(Init(reserved, n), events).shared.pollfds),
               Went(Run(Init(reserved, n), front), events[|events| - 1]),
               Came(Run(Init(reserved, n), front), events[|events| - 1]));
    }
  }

  lemma Balances(before: multiset<int>, went: multiset<int>, start: multiset<int>, came: multiset<int>,
                 after: multiset<int>, out: multiset<int>, come: multiset<int>)
    requires before + went == start + came && after + out == before + come
    ensures after + (went + out) == start + (came + come)
  {
    forall fd ensures (after + (went + out))[fd] == (start + (came + come))[fd] {
      assert (before + went)[fd] == (start + came)[fd] && (after + out)[fd] == (before + come)[fd];
    }
  }

  // ---------------------------------------------------------------- closed means gone

  ghost predicate NoDuplicates(fds: seq<int>) {
    forall i, j :: 0 <= i < j < |fds| ==> fds[i] != fds[j]
  }

  /** Has taken its fd out of the poll set and still holds the events lock. */
  predicate Closed(th: Thread) {
    th.closing && th.pc == Lower
  }

  ghost predicate ClosedInv(s: State) {
    && NoDuplicates(s.shared.pollfds)
    && forall t :: 0 <= t < |s.threads| && Closed(s.threads[t]) && s.threads[t].fd in s.shared.pollfds
                   ==> SomebodyOpens(s, s.threads[t].fd)
  }

  lemma OneOutOfDifferent(before: seq<int>, after: seq<int>, fd: int)
    requires NoDuplicates(before) && WithoutOne(before, after, fd)
    ensures NoDuplicates(after) && fd !in after
  {
    var i :| 0 <= i < |before| && before[i] == fd && after == before[..i] + before[i + 1..];
    forall j | 0 <= j < |after| ensures after[j] == before[if j < i then j else j + 1] {
    }
  }

  lemma StillNoDuplicates(s: State, ev: Event)
    requires NoDuplicates(s.shared.pollfds)
    ensures NoDuplicates(Next(s, ev).shared.pollfds)
    ensures forall fd :: fd in Went(s, ev) ==> fd !in Next(s, ev).shared.pollfds
  {
    PollSetMoves(s, ev);
    forall fd | fd in Went(s, ev) ensures fd !in Next(s, ev).shared.pollfds && NoDuplicates(Next(s, ev).shared.pollfds) {
      OneOutOfDifferent(s.shared.pollfds, Next(s, ev).shared.pollfds, fd);
    }
    assert Came(s, ev) != multiset{} ==> ev.choice.newFd !in s.shared.pollfds;
    hide Next, Came, Went, WithoutOne;
  }

  lemma ClosedCameFromRemoving(s: State, ev: Event)
    requires StepOf(s, ev).Effect? && Closed(StepOf(s, ev).thread)
    ensures s.threads[ev.thread].pc == RemoveFd && StepOf(s, ev).thread.fd == s.threads[ev.thread].fd
  {
    hide StepIdle, StepHandler, StepNotify, StepWait, Remove;
    assert Modifying(s.threads[ev.thread].pc) by { OnlyModifiersLower(s, ev); }
  }

  lemma OnlyModifiersLower(s: State, ev: Event)
    requires StepOf(s, ev).Effect? && StepOf(s, ev).thread.pc == Lower
    ensures Modifying(s.threads[ev.thread].pc)
  {
    hide StepModify, Remove;
  }

  lemma StepKeepsClosed(s: State, ev: Event)
    requires Inv(s) && ClosedInv(s)
    ensures ClosedInv(Next(s, ev))
  {
    hide Step, Opening, LockInv, CountInv, WakeInv, PollInv, LocksMove, CountsMove, WaitsMove, PollsMove, Remove;
    var e, t, n := StepOf(s, ev), ev.thread, Next(s, ev);
    StillNoDuplicates(s, ev);
    if e.Effect? {
      StepFits(s, t);
      StepMoves(s.threads[t], t, s.shared, s.reserved, ev.choice);
      ApplyThreads(s, t, e);
      forall w | 0 <= w < |n.threads| && Closed(n.threads[w]) && n.threads[w].fd in n.shared.pollfds
        ensures SomebodyOpens(n, n.threads[w].fd)
      {
        var fd := n.threads[w].fd;
        if w == t {
          ClosedCameFromRemoving(s, ev);
          PollSetMoves(s, ev);
        } else {
          OpenersMove(s.threads[t], s.shared, s.reserved, e, fd);
          OpenersStayAwake(e.thread, fd);
          ClosersHold(s, w);
          if Opening(e.thread, fd) {
            assert Opening(n.threads[t], fd);
          } else {
            var u :| 0 <= u < |s.threads| && Opening(s.threads[u], fd);
            OpenersStayAwake(s.threads[u], fd);
            assert Opening(n.threads[u], fd);
          }
        }
      }
    }
  }

  lemma ClosersHold(s: State, w: nat)
    requires Inv(s) && w < |s.threads| && s.threads[w].pc == Lower
    ensures s.shared.eventsLock != None
  {
    assert HoldsEvents(s.threads[w].pc);
  }

  lemma {:induction false} ClosedInvHolds(reserved: seq<int>, n: nat, events: seq<Event>)
    requires reserved != [] && NoDuplicates(reserved)
    ensures ClosedInv(Run(Init(reserved, n), events))
    decreases |events|
  {
    hide Next, ClosedInv, Inv;
    if events != [] {
      ClosedInvHolds(reserved, n, events[..|events| - 1]);
      Reachable(reserved, n, events[..|events| - 1]);
      StepKeepsClosed(Run(Init(reserved, n), events[..|events| - 1]), events[|events| - 1]);
    } else {
      NobodyClosesYet(reserved, n);
    }
  }

  lemma NobodyClosesYet(reserved: seq<int>, n: nat)
    requires NoDuplicates(reserved)
    ensures ClosedInv(Init(reserved, n))
  {
    FreshIdle(n);
  }

  /**
   A closed fd is gone: in every run no fd is in the poll set twice, and once libusb_close has taken
   its fd out, the fd is not there, unless another thread is just opening a device with that number.
   */
  lemma ClosedIsGone(reserved: seq<int>, n: nat, events: seq<Event>, t: nat)
    requires reserved != [] && NoDuplicates(reserved)
    requires var s := Run(Init(reserved, n), events); t < |s.threads| && s.threads[t].pc == Lower && s.threads[t].closing
    ensures var s := Run(Init(reserved, n), events);
      && NoDuplicates(s.shared.pollfds)
      && (s.threads[t].fd in s.shared.pollfds
          ==> exists u :: 0 <= u < |s.threads| && u != t && Opening(s.threads[u], s.threads[t].fd))
  {
    hide Run;
    ClosedInvHolds(reserved, n, events);
    var s := Run(Init(reserved, n), events);
    if s.threads[t].fd in s.shared.pollfds {
      var u :| 0 <= u < |s.threads| && Opening(s.threads[u], s.threads[t].fd);
      assert u != t;
    }
  }
}
