/**
 The event-handling protocol between N threads of one context. Every access to a lock, a
 flag, the control pipe or the condition variable is one step of one thread, and the
 steps of all threads interleave freely.

 A thread runs one of four programs: libusb_handle_events_timeout (handling events itself
 or waiting for the thread that does), an application's own loop between libusb_lock_events
 and libusb_unlock_events, libusb_open, and libusb_close.
 */
module EventLock {

  datatype Option<T> = None | Some(value: T)

  datatype Pc =
    | Idle
    // libusb_try_lock_events: the two checks, then the flag
    | TryCheck | TryLock
    // libusb_lock_events by the application
    | TakeLock
    // the events lock is held
    | SetActive | Snapshot | Polling | Handling
    // usbi_handle_transfer_completion wakes the waiters
    | NotifyLock | Notify | NotifyUnlock
    // libusb_unlock_events
    | ClearActive | Release | WakeLock | Wake | WakeUnlock
    // the waiting branch of libusb_handle_events_timeout
    | WaitLock | WaitCheckModify | WaitCheckActive | WaitRetry | WaitSleep | Asleep
    | WaitReacquire | WaitUnlock
    // libusb_open and libusb_close around the poll set
    | Raise | WritePipe | ModifyLock | ModifyActive | ReadPipe | RemoveFd | Lower

  /** `fd` and `closing` belong to open and close, `polled` to the thread inside poll(). */
  datatype Thread = Thread(pc: Pc, fd: int, closing: bool, polled: seq<int>)

  datatype Shared = Shared(
    eventsLock: Option<nat>,
    active: bool,              // event_handler_active
    modifying: int,             // pollfd_modify
    pipe: int,                 // bytes in the control pipe
    waitersLock: Option<nat>,
    pollfds: seq<int>)

  /** `reserved` is the control pipe, followed by the timerfd when there is one. */
  datatype State = State(reserved: seq<int>, threads: seq<Thread>, shared: Shared)

  /** What a thread may do next where its program leaves the choice to the outside. */
  datatype Choice =
    | Proceed
    | Handle | Lock | Open(newFd: int) | Close(oldFd: int)  // from Idle
    | DeviceEvent                                           // poll returns for a device or its timeout
    | Complete | Disconnect(deadFd: int) | Again            // while handling events
    | Timeout                                               // pthread_cond_timedwait gives up

  datatype Effect = Blocked | Effect(thread: Thread, shared: Shared, broadcast: bool)

  function Remove(fds: seq<int>, fd: int): seq<int> {
    if fds == [] then [] else if fds[0] == fd then fds[1..] else [fds[0]] + Remove(fds[1..], fd)
  }

  function Go(th: Thread, pc: Pc, sh: Shared): Effect { Effect(th.(pc := pc), sh, false) }

  function StepIdle(th: Thread, sh: Shared, reserved: seq<int>, c: Choice): Effect {
    match c
    case Handle => Go(th, TryCheck, sh)
    case Lock => Go(th, TakeLock, sh)
    case Open(fd) =>
      if fd in sh.pollfds || fd in reserved then Blocked
      else Effect(Thread(Raise, fd, false, []), sh.(pollfds := sh.pollfds + [fd]), false)
    case Close(fd) =>
      if fd in reserved then Blocked else Effect(Thread(Raise, fd, true, []), sh, false)
    case _ => Blocked
  }

  /** Taking the events lock, polling, handling. */
  function StepHandler(th: Thread, t: nat, sh: Shared, reserved: seq<int>, c: Choice): Effect {
    match th.pc
    case TryCheck => Go(th, if sh.modifying != 0 then WaitLock else TryLock, sh)
    case TryLock =>
      if sh.eventsLock.None? then Go(th, SetActive, sh.(eventsLock := Some(t))) else Go(th, WaitLock, sh)
    case TakeLock =>
      if sh.eventsLock.None? then Go(th, SetActive, sh.(eventsLock := Some(t))) else Blocked
    case SetActive => Go(th, Snapshot, sh.(active := true))
    case Snapshot => Effect(th.(pc := Polling, polled := sh.pollfds), sh, false)
    case Polling =>
      // poll() watches the set copied before; the control pipe is recognised by its slot
      if c == DeviceEvent || (sh.pipe > 0 && th.polled != [] && [th.polled[0]] <= reserved)
      then Go(th, Handling, sh) else Blocked
    case Handling =>
      (match c
       case Complete => Go(th, NotifyLock, sh)
       case Disconnect(fd) =>
         if fd in reserved then Blocked else Go(th, Handling, sh.(pollfds := Remove(sh.pollfds, fd)))
       case Again => Go(th, Snapshot, sh)
       case _ => Go(th, ClearActive, sh))
    case _ => Blocked
  }

  /** Telling the waiters, inside event handling and at its end. */
  function StepNotify(th: Thread, t: nat, sh: Shared): Effect {
    match th.pc
    case NotifyLock =>
      if sh.waitersLock.None? then Go(th, Notify, sh.(waitersLock := Some(t))) else Blocked
    case Notify => Effect(th.(pc := NotifyUnlock), sh, true)
    case NotifyUnlock => Go(th, Handling, sh.(waitersLock := None))
    case ClearActive => Go(th, Release, sh.(active := false))
    case Release => Go(th, WakeLock, sh.(eventsLock := None))
    case WakeLock =>
      if sh.waitersLock.None? then Go(th, Wake, sh.(waitersLock := Some(t))) else Blocked
    case Wake => Effect(th.(pc := WakeUnlock), sh, true)
    case WakeUnlock => Go(th, Idle, sh.(waitersLock := None))
    case _ => Blocked
  }

  /** Waiting for the thread that handles events. */
  function StepWait(th: Thread, t: nat, sh: Shared, c: Choice): Effect {
    match th.pc
    case WaitLock =>
      if sh.waitersLock.None? then Go(th, WaitCheckModify, sh.(waitersLock := Some(t))) else Blocked
    case WaitCheckModify => Go(th, if sh.modifying != 0 then WaitSleep else WaitCheckActive, sh)
    case WaitCheckActive => Go(th, if sh.active then WaitSleep else WaitRetry, sh)
    case WaitRetry => Go(th, TryCheck, sh.(waitersLock := None))
    case WaitSleep => Go(th, Asleep, sh.(waitersLock := None))
    case Asleep => if c == Timeout then Go(th, WaitReacquire, sh) else Blocked
    case WaitReacquire =>
      if sh.waitersLock.None? then Go(th, WaitUnlock, sh.(waitersLock := Some(t))) else Blocked
    case WaitUnlock => Go(th, Idle, sh.(waitersLock := None))
    case _ => Blocked
  }

  /** libusb_open and libusb_close, from pollfd_modify++ to pollfd_modify--. */
  function StepModify(th: Thread, t: nat, sh: Shared): Effect {
    match th.pc
    case Raise => Go(th, WritePipe, sh.(modifying := sh.modifying + 1))
    case WritePipe => Go(th, ModifyLock, sh.(pipe := sh.pipe + 1))
    case ModifyLock =>
      if sh.eventsLock.None? then Go(th, ModifyActive, sh.(eventsLock := Some(t))) else Blocked
    case ModifyActive => Go(th, ReadPipe, sh.(active := true))
    case ReadPipe =>
      if sh.pipe > 0 then Go(th, if th.closing then RemoveFd else Lower, sh.(pipe := sh.pipe - 1)) else Blocked
    case RemoveFd => Go(th, Lower, sh.(pollfds := Remove(sh.pollfds, th.fd)))
    case Lower => Go(th, ClearActive, sh.(modifying := sh.modifying - 1))
    case _ => Blocked
  }

  predicate Modifying(pc: Pc) { pc.Raise? || Raised(pc) }

  predicate Notifying(pc: Pc) {
    pc.NotifyLock? || pc.Notify? || pc.NotifyUnlock? || pc.ClearActive? || pc.Release? ||
    pc.WakeLock? || pc.Wake? || pc.WakeUnlock?
  }

  predicate InWaitBranch(pc: Pc) {
    pc.WaitLock? || pc.WaitCheckModify? || pc.WaitCheckActive? || pc.WaitRetry? || pc.WaitSleep? ||
    pc.Asleep? || pc.WaitReacquire? || pc.WaitUnlock?
  }

  /** One step of thread t. */
  function Step(th: Thread, t: nat, sh: Shared, reserved: seq<int>, c: Choice): Effect {
    if th.pc.Idle? then StepIdle(th, sh, reserved, c)
    else if Modifying(th.pc) then StepModify(th, t, sh)
    else if Notifying(th.pc) then StepNotify(th, t, sh)
    else if InWaitBranch(th.pc) then StepWait(th, t, sh, c)
    else StepHandler(th, t, sh, reserved, c)
  }

  function Woken(th: Thread): Thread {
    if th.pc == Asleep then th.(pc := WaitReacquire) else th
  }

  function WakeAll(threads: seq<Thread>): (r: seq<Thread>)
    ensures |r| == |threads|
    ensures forall i :: 0 <= i < |r| ==> r[i] == Woken(threads[i])
  {
    if threads == [] then [] else [Woken(threads[0])] + WakeAll(threads[1..])
  }

  datatype Event = Event(thread: nat, choice: Choice)

  function Apply(s: State, t: nat, e: Effect): State
    requires t < |s.threads| && e.Effect?
  {
    var threads := s.threads[t := e.thread];
    State(s.reserved, if e.broadcast then WakeAll(threads) else threads, e.shared)
  }

  function StepOf(s: State, e: Event): Effect {
    if e.thread < |s.threads| then Step(s.threads[e.thread], e.thread, s.shared, s.reserved, e.choice)
    else Blocked
  }

  function Next(s: State, e: Event): State {
    if StepOf(s, e) == Blocked then s else Apply(s, e.thread, StepOf(s, e))
  }

  function Run(s: State, events: seq<Event>): State {
    if events == [] then s
    else Next(Run(s, events[..|events| - 1]), events[|events| - 1])
  }

  // ---------------------------------------------------------------- where a thread stands

  predicate HoldsEvents(pc: Pc) {
    pc.SetActive? || pc.Snapshot? || pc.Polling? || pc.Handling? || pc.NotifyLock? || pc.Notify? ||
    pc.NotifyUnlock? || pc.ClearActive? || pc.Release? || pc.ModifyActive? || pc.ReadPipe? ||
    pc.RemoveFd? || pc.Lower?
  }

  predicate HoldsWaiters(pc: Pc) {
    pc.Notify? || pc.NotifyUnlock? || pc.Wake? || pc.WakeUnlock? || pc.WaitCheckModify? ||
    pc.WaitCheckActive? || pc.WaitRetry? || pc.WaitSleep? || pc.WaitUnlock?
  }

  predicate SaysActive(pc: Pc) {
    pc.Snapshot? || pc.Polling? || pc.Handling? || pc.NotifyLock? || pc.Notify? || pc.NotifyUnlock? ||
    pc.ClearActive? || pc.ReadPipe? || pc.RemoveFd? || pc.Lower?
  }

  /** Between pollfd_modify++ and pollfd_modify--. */
  predicate Raised(pc: Pc) {
    pc.WritePipe? || pc.ModifyLock? || pc.ModifyActive? || pc.ReadPipe? || pc.RemoveFd? || pc.Lower?
  }

  /** Between the write to the control pipe and the read from it. */
  predicate Written(pc: Pc) {
    pc.ModifyLock? || pc.ModifyActive? || pc.ReadPipe?
  }

  /** Will still broadcast, without anybody having to wake it. */
  predicate OwesBroadcast(pc: Pc) { HoldsEvents(pc) || Raised(pc) || pc == WakeLock || pc == Wake }

  predicate Waiting(pc: Pc) { pc == WaitSleep || pc == Asleep }

  function Count(threads: seq<Thread>, p: Pc -> bool): nat {
    if threads == [] then 0 else (if p(threads[0].pc) then 1 else 0) + Count(threads[1..], p)
  }

  // ---------------------------------------------------------------- the invariant

  ghost predicate EventsLockInv(s: State) {
    && (forall t :: 0 <= t < |s.threads| ==>
          (HoldsEvents(s.threads[t].pc) <==> s.shared.eventsLock == Some(t)))
    && (s.shared.eventsLock.Some? ==> s.shared.eventsLock.value < |s.threads|)
  }

  ghost predicate WaitersLockInv(s: State) {
    && (forall t :: 0 <= t < |s.threads| ==>
          (HoldsWaiters(s.threads[t].pc) <==> s.shared.waitersLock == Some(t)))
    && (s.shared.waitersLock.Some? ==> s.shared.waitersLock.value < |s.threads|)
  }

  ghost predicate ActiveInv(s: State) {
    match s.shared.eventsLock
    case None => !s.shared.active
    case Some(t) => t < |s.threads| ==> (s.shared.active <==> SaysActive(s.threads[t].pc))
  }

  ghost predicate LockInv(s: State) { EventsLockInv(s) && WaitersLockInv(s) && ActiveInv(s) }

  ghost predicate CountInv(s: State) {
    && s.shared.modifying == Count(s.threads, Raised)
    && s.shared.pipe == Count(s.threads, Written)
  }

  ghost predicate WakeInv(s: State) {
    forall t :: 0 <= t < |s.threads| && Waiting(s.threads[t].pc) ==>
      exists u :: 0 <= u < |s.threads| && OwesBroadcast(s.threads[u].pc)
  }

  /** A thread that opens or closes does not touch a reserved fd; one that polls watches them all. */
  ghost predicate PollsRightly(th: Thread, reserved: seq<int>, pollfds: seq<int>) {
    && (Modifying(th.pc) ==> th.fd !in reserved)
    && (th.pc == Polling ==> reserved <= th.polled && forall fd :: fd in th.polled ==> fd in pollfds)
  }

  ghost predicate PollInv(s: State) {
    && s.reserved != [] && s.reserved <= s.shared.pollfds
    && (forall t :: 0 <= t < |s.threads| ==> PollsRightly(s.threads[t], s.reserved, s.shared.pollfds))
  }

  ghost predicate Inv(s: State) { LockInv(s) && CountInv(s) && WakeInv(s) && PollInv(s) }

  // ---------------------------------------------------------------- one step, one thread

  /** How a step of thread t may move the locks and the flag. */
  ghost predicate LocksMove(t: nat, sh: Shared, e: Effect) {
    && e.Effect?
    && (HoldsEvents(e.thread.pc) <==> e.shared.eventsLock == Some(t))
    && (HoldsWaiters(e.thread.pc) <==> e.shared.waitersLock == Some(t))
    && (e.shared.eventsLock == sh.eventsLock
        || (sh.eventsLock == None && e.shared.eventsLock == Some(t))
        || (sh.eventsLock == Some(t) && e.shared.eventsLock == None))
    && (e.shared.waitersLock == sh.waitersLock
        || (sh.waitersLock == None && e.shared.waitersLock == Some(t))
        || (sh.waitersLock == Some(t) && e.shared.waitersLock == None))
    && (e.shared.eventsLock == Some(t) ==> (e.shared.active <==> SaysActive(e.thread.pc)))
    && (e.shared.eventsLock == None ==> !e.shared.active)
    && (e.shared.eventsLock != Some(t) && sh.eventsLock != Some(t) ==> e.shared.active == sh.active)
  }

  ghost predicate LocksFit(th: Thread, t: nat, sh: Shared) {
    && (HoldsEvents(th.pc) <==> sh.eventsLock == Some(t))
    && (HoldsWaiters(th.pc) <==> sh.waitersLock == Some(t))
    && (sh.eventsLock == Some(t) ==> (sh.active <==> SaysActive(th.pc)))
    && (sh.eventsLock == None ==> !sh.active)
  }

  function One(b: bool): int { if b then 1 else 0 }

  ghost predicate CountsMove(th: Thread, sh: Shared, e: Effect) {
    && e.Effect?
    && e.shared.modifying - sh.modifying == One(Raised(e.thread.pc)) - One(Raised(th.pc))
    && e.shared.pipe - sh.pipe == One(Written(e.thread.pc)) - One(Written(th.pc))
  }

  /** Who starts to wait has seen a reason to; who stops owing a broadcast has just sent one. */
  ghost predicate WaitsMove(th: Thread, t: nat, sh: Shared, e: Effect) {
    && e.Effect?
    && (Waiting(e.thread.pc) && !Waiting(th.pc) ==> sh.modifying != 0 || sh.active)
    && (OwesBroadcast(th.pc) && !OwesBroadcast(e.thread.pc) ==> e.broadcast)
    && (e.broadcast ==> sh.waitersLock == Some(t) && !Waiting(e.thread.pc))
  }

  /** libusb_open has added this fd, and has not yet taken the events lock. */
  predicate Opening(th: Thread, fd: int) {
    !th.closing && th.fd == fd && (th.pc.Raise? || th.pc.WritePipe? || th.pc.ModifyLock?)
  }

  /** An fd comes with its opener, who goes on only when nobody holds the events lock. */
  ghost predicate PollsMove(th: Thread, sh: Shared, reserved: seq<int>, e: Effect) {
    && e.Effect?
    && (e.shared.pollfds == sh.pollfds
        || (Opening(e.thread, e.thread.fd) && e.shared.pollfds == sh.pollfds + [e.thread.fd])
        || (HoldsEvents(th.pc) && !th.pc.Polling? && !e.thread.pc.Polling?
            && exists fd :: fd !in reserved && e.shared.pollfds == Remove(sh.pollfds, fd)))
    && (e.thread.pc.Polling? ==> HoldsEvents(th.pc) && e.shared.pollfds == sh.pollfds == e.thread.polled)
    && (Modifying(e.thread.pc) ==> e.thread.fd !in reserved)
    && (Opening(th, th.fd) ==> Opening(e.thread, th.fd) || sh.eventsLock == None)
  }

  ghost predicate Fits(th: Thread, t: nat, sh: Shared, reserved: seq<int>) {
    LocksFit(th, t, sh) && (Modifying(th.pc) ==> th.fd !in reserved)
  }

  ghost predicate Moves(th: Thread, t: nat, sh: Shared, reserved: seq<int>, e: Effect) {
    LocksMove(t, sh, e) && CountsMove(th, sh, e) && WaitsMove(th, t, sh, e) && PollsMove(th, sh, reserved, e)
  }

  lemma MovesIdle(th: Thread, t: nat, sh: Shared, reserved: seq<int>, c: Choice)
    requires Fits(th, t, sh, reserved) && Step(th, t, sh, reserved, c).Effect?
    requires th.pc.Idle?
    ensures Moves(th, t, sh, reserved, Step(th, t, sh, reserved, c))
  {
    hide StepHandler, StepNotify, StepWait, StepModify, Remove;
  }

  lemma MovesCheck(th: Thread, t: nat, sh: Shared, reserved: seq<int>, c: Choice)
    requires Fits(th, t, sh, reserved) && Step(th, t, sh, reserved, c).Effect?
    requires th.pc.TryCheck? || th.pc.SetActive?
    ensures Moves(th, t, sh, reserved, Step(th, t, sh, reserved, c))
  {
    hide StepIdle, StepNotify, StepWait, StepModify, Remove;
  }

  lemma MovesLock(th: Thread, t: nat, sh: Shared, reserved: seq<int>, c: Choice)
    requires Fits(th, t, sh, reserved) && Step(th, t, sh, reserved, c).Effect?
    requires th.pc.TryLock? || th.pc.TakeLock?
    ensures Moves(th, t, sh, reserved, Step(th, t, sh, reserved, c))
  {
    hide StepIdle, StepNotify, StepWait, StepModify, Remove;
  }

  lemma MovesPoll(th: Thread, t: nat, sh: Shared, reserved: seq<int>, c: Choice)
    requires Fits(th, t, sh, reserved) && Step(th, t, sh, reserved, c).Effect?
    requires th.pc.Snapshot? || th.pc.Polling? || th.pc.Handling?
    ensures Moves(th, t, sh, reserved, Step(th, t, sh, reserved, c))
  {
    hide StepIdle, StepNotify, StepWait, StepModify, Remove;
  }

  lemma MovesNotify(th: Thread, t: nat, sh: Shared, reserved: seq<int>, c: Choice)
    requires Fits(th, t, sh, reserved) && Step(th, t, sh, reserved, c).Effect?
    requires th.pc.NotifyLock? || th.pc.Notify? || th.pc.NotifyUnlock?
    ensures Moves(th, t, sh, reserved, Step(th, t, sh, reserved, c))
  {
  }

  lemma MovesUnlock(th: Thread, t: nat, sh: Shared, reserved: seq<int>, c: Choice)
    requires Fits(th, t, sh, reserved) && Step(th, t, sh, reserved, c).Effect?
    requires th.pc.ClearActive? || th.pc.Release? || th.pc.WakeLock? || th.pc.Wake? || th.pc.WakeUnlock?
    ensures Moves(th, t, sh, reserved, Step(th, t, sh, reserved, c))
  {
  }

  lemma MovesWaitCheck(th: Thread, t: nat, sh: Shared, reserved: seq<int>, c: Choice)
    requires Fits(th, t, sh, reserved) && Step(th, t, sh, reserved, c).Effect?
    requires th.pc.WaitLock? || th.pc.WaitCheckModify? || th.pc.WaitCheckActive? || th.pc.WaitRetry?
    ensures Moves(th, t, sh, reserved, Step(th, t, sh, reserved, c))
  {
  }

  lemma MovesSleep(th: Thread, t: nat, sh: Shared, reserved: seq<int>, c: Choice)
    requires Fits(th, t, sh, reserved) && Step(th, t, sh, reserved, c).Effect?
    requires th.pc.WaitSleep? || th.pc.Asleep? || th.pc.WaitReacquire? || th.pc.WaitUnlock?
    ensures Moves(th, t, sh, reserved, Step(th, t, sh, reserved, c))
  {
  }

  lemma MovesModify(th: Thread, t: nat, sh: Shared, reserved: seq<int>, c: Choice)
    requires Fits(th, t, sh, reserved) && Step(th, t, sh, reserved, c).Effect?
    requires Modifying(th.pc)
    ensures Moves(th, t, sh, reserved, Step(th, t, sh, reserved, c))
  {
    hide StepIdle, StepHandler, StepNotify, StepWait, Remove;
  }

  lemma StepMoves(th: Thread, t: nat, sh: Shared, reserved: seq<int>, c: Choice)
    requires Fits(th, t, sh, reserved) && Step(th, t, sh, reserved, c).Effect?
    ensures Moves(th, t, sh, reserved, Step(th, t, sh, reserved, c))
  {
    match th.pc
    case Idle => MovesIdle(th, t, sh, reserved, c);
    case TryCheck | SetActive => MovesCheck(th, t, sh, reserved, c);
    case TryLock | TakeLock => MovesLock(th, t, sh, reserved, c);
    case Snapshot | Polling | Handling => MovesPoll(th, t, sh, reserved, c);
    case NotifyLock | Notify | NotifyUnlock => MovesNotify(th, t, sh, reserved, c);
    case ClearActive | Release | WakeLock | Wake | WakeUnlock => MovesUnlock(th, t, sh, reserved, c);
    case WaitLock | WaitCheckModify | WaitCheckActive | WaitRetry => MovesWaitCheck(th, t, sh, reserved, c);
    case WaitSleep | Asleep | WaitReacquire | WaitUnlock => MovesSleep(th, t, sh, reserved, c);
    case _ => MovesModify(th, t, sh, reserved, c);
  }

  // ---------------------------------------------------------------- counting threads

  lemma {:induction false} CountUpdate(threads: seq<Thread>, t: nat, th: Thread, p: Pc -> bool)
    requires t < |threads|
    ensures Count(threads[t := th], p) - Count(threads, p) == One(p(th.pc)) - One(p(threads[t].pc))
  {
    if t == 0 {
      assert threads[t := th][1..] == threads[1..];
    } else {
      assert threads[t := th][1..] == threads[1..][t - 1 := th];
      CountUpdate(threads[1..], t - 1, th, p);
    }
  }

  lemma {:induction false} CountWoken(threads: seq<Thread>, p: Pc -> bool)
    requires p(Asleep) == p(WaitReacquire)
    ensures Count(WakeAll(threads), p) == Count(threads, p)
  {
    if threads != [] {
      CountWoken(threads[1..], p);
    }
  }

  lemma {:induction false} CountPositive(threads: seq<Thread>, p: Pc -> bool)
    ensures Count(threads, p) > 0 <==> exists t :: 0 <= t < |threads| && p(threads[t].pc)
  {
    if threads != [] {
      CountPositive(threads[1..], p);
      if Count(threads[1..], p) > 0 {
        var t :| 0 <= t < |threads[1..]| && p(threads[1..][t].pc);
        assert p(threads[t + 1].pc);
      }
      if t :| 0 < t < |threads| && p(threads[t].pc) {
        assert p(threads[1..][t - 1].pc);
      }
    }
  }

  // ---------------------------------------------------------------- every step keeps the invariant

  lemma ApplyThreads(s: State, t: nat, e: Effect)
    requires t < |s.threads| && e.Effect?
    ensures var n := Apply(s, t, e);
      && |n.threads| == |s.threads|
      && forall u :: 0 <= u < |n.threads| ==>
           n.threads[u] == var th := if u == t then e.thread else s.threads[u]; if e.broadcast then Woken(th) else th
  {
  }

  /** Where the threads stand after a step: only the one that moved has changed, sleepers aside. */
  lemma OthersStand(s: State, t: nat, e: Effect, p: Pc -> bool)
    requires t < |s.threads| && e.Effect? && p(Asleep) == p(WaitReacquire)
    ensures var n := Apply(s, t, e);
      |n.threads| == |s.threads|
      && forall u :: 0 <= u < |n.threads| ==> p(n.threads[u].pc) == p(if u == t then e.thread.pc else s.threads[u].pc)
  {
    ApplyThreads(s, t, e);
  }

  lemma KeepsEventsLock(s: State, t: nat, e: Effect)
    requires EventsLockInv(s) && t < |s.threads| && LocksMove(t, s.shared, e)
    ensures EventsLockInv(Apply(s, t, e))
  {
    OthersStand(s, t, e, HoldsEvents);
    hide HoldsEvents, HoldsWaiters, SaysActive;
  }

  lemma KeepsWaitersLock(s: State, t: nat, e: Effect)
    requires WaitersLockInv(s) && t < |s.threads| && LocksMove(t, s.shared, e)
    ensures WaitersLockInv(Apply(s, t, e))
  {
    OthersStand(s, t, e, HoldsWaiters);
    hide HoldsEvents, HoldsWaiters, SaysActive;
  }

  lemma KeepsActive(s: State, t: nat, e: Effect)
    requires EventsLockInv(s) && ActiveInv(s) && t < |s.threads| && LocksMove(t, s.shared, e)
    ensures ActiveInv(Apply(s, t, e))
  {
    OthersStand(s, t, e, SaysActive);
    hide HoldsEvents, HoldsWaiters, SaysActive;
  }

  lemma KeepsLocks(s: State, t: nat, e: Effect)
    requires LockInv(s) && t < |s.threads| && LocksMove(t, s.shared, e)
    ensures LockInv(Apply(s, t, e))
  {
    hide EventsLockInv, WaitersLockInv, ActiveInv, LocksMove, Apply;
    KeepsEventsLock(s, t, e);
    KeepsWaitersLock(s, t, e);
    KeepsActive(s, t, e);
  }

  lemma KeepsCount(s: State, t: nat, e: Effect, p: Pc -> bool)
    requires t < |s.threads| && e.Effect? && p(Asleep) == p(WaitReacquire)
    ensures Count(Apply(s, t, e).threads, p) - Count(s.threads, p) == One(p(e.thread.pc)) - One(p(s.threads[t].pc))
  {
    CountUpdate(s.threads, t, e.thread, p);
    CountWoken(s.threads[t := e.thread], p);
  }

  lemma KeepsCounts(s: State, t: nat, e: Effect)
    requires CountInv(s) && t < |s.threads| && CountsMove(s.threads[t], s.shared, e)
    ensures CountInv(Apply(s, t, e))
  {
    KeepsCount(s, t, e, Raised);
    KeepsCount(s, t, e, Written);
  }

  /** Who broadcasts holds the waiters lock, so nobody is about to fall asleep. */
  lemma BroadcastReachesAll(s: State, t: nat, e: Effect)
    requires WaitersLockInv(s) && t < |s.threads| && WaitsMove(s.threads[t], t, s.shared, e) && e.broadcast
    ensures forall u :: 0 <= u < |s.threads| ==> !Waiting(Apply(s, t, e).threads[u].pc)
  {
    ApplyThreads(s, t, e);
    forall u | 0 <= u < |s.threads| && u != t ensures s.threads[u].pc != WaitSleep {
      assert !HoldsWaiters(s.threads[u].pc);
    }
  }

  /** A reason to wait is somebody who owes a broadcast. */
  lemma ReasonsOwe(s: State)
    requires EventsLockInv(s) && ActiveInv(s) && CountInv(s) && (s.shared.modifying != 0 || s.shared.active)
    ensures exists u :: 0 <= u < |s.threads| && OwesBroadcast(s.threads[u].pc)
  {
    if s.shared.modifying != 0 {
      CountPositive(s.threads, Raised);
      var u :| 0 <= u < |s.threads| && Raised(s.threads[u].pc);
      assert OwesBroadcast(s.threads[u].pc);
    } else {
      assert HoldsEvents(s.threads[s.shared.eventsLock.value].pc);
    }
  }

  lemma KeepsWakes(s: State, t: nat, e: Effect)
    requires LockInv(s) && CountInv(s) && WakeInv(s)
    requires t < |s.threads| && WaitsMove(s.threads[t], t, s.shared, e)
    ensures WakeInv(Apply(s, t, e))
  {
    var n := Apply(s, t, e);
    if e.broadcast {
      BroadcastReachesAll(s, t, e);
    } else {
      hide CountInv, EventsLockInv, WaitersLockInv, ActiveInv, OwesBroadcast, Waiting;
      ApplyThreads(s, t, e);
      forall w | 0 <= w < |n.threads| && Waiting(n.threads[w].pc)
        ensures exists u :: 0 <= u < |n.threads| && OwesBroadcast(n.threads[u].pc)
      {
        if !Waiting(s.threads[w].pc) { ReasonsOwe(s); }
        var u :| 0 <= u < |s.threads| && OwesBroadcast(s.threads[u].pc);
        assert OwesBroadcast(n.threads[u].pc);
      }
    }
  }

  lemma {:induction false} RemoveKeepsPrefix(prefix: seq<int>, fds: seq<int>, fd: int)
    requires prefix <= fds && fd !in prefix
    ensures prefix <= Remove(fds, fd)
  {
    if prefix != [] {
      assert fds[0] == prefix[0];
      RemoveKeepsPrefix(prefix[1..], fds[1..], fd);
    }
  }

  /** Nobody is polling when an fd leaves the poll set. */
  lemma NobodyPolls(s: State, t: nat, e: Effect)
    requires LockInv(s) && t < |s.threads| && LocksMove(t, s.shared, e)
    requires HoldsEvents(s.threads[t].pc) && !e.thread.pc.Polling?
    ensures forall u :: 0 <= u < |s.threads| ==> !Apply(s, t, e).threads[u].pc.Polling?
  {
    ApplyThreads(s, t, e);
    forall u | 0 <= u < |s.threads| && u != t ensures !s.threads[u].pc.Polling? {
      assert !HoldsEvents(s.threads[u].pc);
    }
  }

  ghost predicate Appends(before: seq<int>, after: seq<int>) {
    after == before || exists fd :: after == before + [fd]
  }

  ghost predicate Removes(before: seq<int>, after: seq<int>, reserved: seq<int>) {
    exists fd :: fd !in reserved && after == Remove(before, fd)
  }

  lemma PollfdsMove(th: Thread, sh: Shared, reserved: seq<int>, e: Effect)
    requires PollsMove(th, sh, reserved, e)
    ensures Appends(sh.pollfds, e.shared.pollfds)
            || (Removes(sh.pollfds, e.shared.pollfds, reserved) && HoldsEvents(th.pc) && !e.thread.pc.Polling?)
  {
  }

  lemma KeepsReserved(reserved: seq<int>, before: seq<int>, after: seq<int>)
    requires reserved <= before && (Appends(before, after) || Removes(before, after, reserved))
    ensures reserved <= after
    ensures Appends(before, after) ==> forall fd :: fd in before ==> fd in after
  {
    if Removes(before, after, reserved) {
      var fd :| fd !in reserved && after == Remove(before, fd);
      RemoveKeepsPrefix(reserved, before, fd);
    }
  }

  lemma WokenPollsRightly(th: Thread, reserved: seq<int>, pollfds: seq<int>)
    requires PollsRightly(th, reserved, pollfds)
    ensures PollsRightly(Woken(th), reserved, pollfds)
  {
  }

  /** The thread that moved. */
  lemma MoverPollsRightly(th: Thread, sh: Shared, reserved: seq<int>, e: Effect)
    requires PollsMove(th, sh, reserved, e) && reserved <= sh.pollfds
    ensures PollsRightly(e.thread, reserved, e.shared.pollfds)
  {
  }

  lemma KeepsPolls(s: State, t: nat, e: Effect)
    requires LockInv(s) && PollInv(s) && t < |s.threads|
    requires LocksMove(t, s.shared, e) && PollsMove(s.threads[t], s.shared, s.reserved, e)
    ensures PollInv(Apply(s, t, e))
  {
    assert e.Effect?;
    hide LockInv, LocksMove, PollsMove, Woken, Appends, Removes, HoldsEvents, Modifying;
    var n := Apply(s, t, e);
    ApplyThreads(s, t, e);
    PollfdsMove(s.threads[t], s.shared, s.reserved, e);
    KeepsReserved(s.reserved, s.shared.pollfds, e.shared.pollfds);
    MoverPollsRightly(s.threads[t], s.shared, s.reserved, e);
    if !Appends(s.shared.pollfds, e.shared.pollfds) { NobodyPolls(s, t, e); }
    forall u | 0 <= u < |n.threads| ensures PollsRightly(n.threads[u], s.reserved, e.shared.pollfds) {
      var th := if u == t then e.thread else s.threads[u];
      if u != t && !Appends(s.shared.pollfds, e.shared.pollfds) {
        assert !n.threads[u].pc.Polling? && PollsRightly(s.threads[u], s.reserved, s.shared.pollfds);
        WokenKeeps(th);
      } else {
        WokenPollsRightly(th, s.reserved, e.shared.pollfds);
      }
    }
  }

  lemma WokenKeeps(th: Thread)
    ensures Woken(th).fd == th.fd && (Modifying(Woken(th).pc) <==> Modifying(th.pc))
  {
  }

  lemma StepKeeps(s: State, e: Event)
    requires Inv(s)
    ensures Inv(Next(s, e))
  {
    if StepOf(s, e).Effect? {
      var t := e.thread;
      StepMoves(s.threads[t], t, s.shared, s.reserved, e.choice);
      KeepsLocks(s, t, StepOf(s, e));
      KeepsCounts(s, t, StepOf(s, e));
      KeepsWakes(s, t, StepOf(s, e));
      KeepsPolls(s, t, StepOf(s, e));
    }
  }

  lemma {:induction false} RunKeeps(s: State, events: seq<Event>)
    requires Inv(s)
    ensures Inv(Run(s, events))
  {
    if events != [] {
      RunKeeps(s, events[..|events| - 1]);
      StepKeeps(Run(s, events[..|events| - 1]), events[|events| - 1]);
    }
  }
}
