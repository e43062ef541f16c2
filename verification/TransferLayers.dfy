/**
 Submission, completion, cancellation, timeouts and disconnection over whole runs: the flying
 list, the backend's transfers with their URBs, the timerfd and the callbacks. Each call of the
 library and each step of the kernel is one atomic step.
 */
module TransferLayers {
  import opened Backends
  import opened FlyingTransfers
  import opened Timeouts
  import opened Usbfs

  /** A timerfd fires once, at an absolute time. */
  datatype Timer = Disarmed | Armed(at: Timeval)

  /** Built without timerfds; or built with them, and the context could or could not get one. */
  datatype Support = NotCompiled | Unavailable | Available

  /** A callback, with the deadline and the flag of its transfer and the time it is made. */
  datatype Report = Report(id: nat, status: TransferStatus, deadline: Timeval, at: nat, timedOut: bool)

  datatype State = State(
    support: Support,
    timer: Timer,
    clock: nat,
    flying: seq<Flight>,
    backend: map<nat, Backend>,   // the backend's data of each transfer ever submitted
    fields: map<nat, Timeval>,    // the deadline each transfer holds, from earlier submissions too
    accepted: seq<nat>,           // transfers the backend took, in order
    reports: seq<Report>,         // callbacks, in order
    lost: seq<nat>)               // completions that returned before the callback

  datatype Event =
    | Tick(ns: nat)
    | Submit(id: nat, handle: nat, timeout: nat, request: Request)
    | Cancel(id: nat)
    | Urb(id: nat, event: UrbEvent)
    | PollTimedOut
    | Trigger
    | Disconnect(handle: nat)
    | Freed(id: nat, outcome: State)  // a URB comes back whose memory the library has freed

  function Initial(support: Support): State {
    State(support, Disarmed, 0, [], map[], map[], [], [], [])
  }

  function Field(s: State, id: nat): Timeval {
    if id in s.fields then s.fields[id] else NEVER
  }

  // ---------------------------------------------------------------- one call each

  /** The transfer is listed before the backend is asked, and taken out again if that fails. */
  function SubmitTransfer(s: State, id: nat, handle: nat, timeout: nat, request: Request): State {
    var deadline := CalculateTimeout(s.clock, timeout, Field(s, id));
    var listed := Insert(s.flying, Flight(id, handle, deadline, false));
    var fields, b := s.fields[id := deadline], Submitted(s.backend, id, request);
    var backend := s.backend[id := b];
    if !Live(b)
    then State(s.support, s.timer, s.clock, Delete(listed, id), backend, fields, s.accepted, s.reports, s.lost)
    else State(s.support, TimerAfterSubmit(s, deadline), s.clock, listed, backend, fields, s.accepted + [id],
               s.reports, s.lost)
  }

  /** The backend's data after a submission: URBs of earlier ones stay with the kernel. */
  function Submitted(backend: map<nat, Backend>, id: nat, request: Request): Backend {
    Backends.Submit(request, if id in backend then Outstanding(backend[id]) else 0)
  }

  /** timerfd_settime refuses a nanosecond field of a whole second. */
  function TimerAfterSubmit(s: State, deadline: Timeval): Timer {
    if s.support.Available? && First(s.flying, deadline) && Carried(deadline) then Armed(deadline) else s.timer
  }

  /** Arming for a transfer that the backend took fails. */
  predicate ArmingFails(s: State, id: nat, timeout: nat) {
    var deadline := CalculateTimeout(s.clock, timeout, Field(s, id));
    s.support.Available? && First(s.flying, deadline) && !Carried(deadline)
  }

  /** The caller is told that the submission failed. */
  predicate SubmitReportsError(s: State, id: nat, timeout: nat, request: Request) {
    !Live(Submitted(s.backend, id, request)) || ArmingFails(s, id, timeout)
  }

  /** Arming for what is left, or disarming, succeeds. Without a descriptor neither does. */
  predicate Rearms(support: Support, rest: seq<Flight>) {
    support.NotCompiled? || (support.Available? && (NextToArm(rest) == [] || Carried(NextToArm(rest)[0])))
  }

  function TimerFor(support: Support, q: seq<Flight>): Timer {
    if support.NotCompiled? || NextToArm(q) == [] then Disarmed else Armed(NextToArm(q)[0])
  }

  /** The flag of a flying transfer. */
  predicate IsFlagged(q: seq<Flight>, id: nat) {
    Has(q, id) && Get(q, id).timedOut
  }

  /**
   A transfer leaves the list; the callback is made only if the timer could be set again. What
   the backend holds is the backend's business.
   */
  function Complete(s: State, id: nat, status: TransferStatus): State {
    var rest := Delete(s.flying, id);
    if Rearms(s.support, rest)
    then State(s.support, TimerFor(s.support, rest), s.clock, rest, s.backend, s.fields, s.accepted,
               s.reports + [Report(id, status, Field(s, id), s.clock, IsFlagged(s.flying, id))], s.lost)
    else State(s.support, s.timer, s.clock, rest, s.backend, s.fields, s.accepted, s.reports, s.lost + [id])
  }

  function WithBackend(s: State, backend: map<nat, Backend>): State {
    State(s.support, s.timer, s.clock, s.flying, backend, s.fields, s.accepted, s.reports, s.lost)
  }

  /** The kernel does something to a transfer's URBs; the backend may ask for the completion. */
  function HandleUrb(s: State, id: nat, e: UrbEvent): State {
    if id !in s.backend then s
    else
      var b := s.backend[id];
      var t := WithBackend(s, s.backend[id := Step(b, e)]);
      if Verdict(b, e) == [] then t else Complete(t, id, Verdict(b, e)[0])
  }

  function CancelTransfer(s: State, id: nat): State {
    WithBackend(s, CancelOne(s.backend, id))
  }

  /** The scan sets flags and cancels as it goes; it leaves the timer alone. */
  function HandleTimeouts(s: State): State {
    State(s.support, s.timer, s.clock, FlagExpired(s.flying, Now(s.clock)),
          CancelExpired(s.flying, Now(s.clock), s.backend), s.fields, s.accepted, s.reports, s.lost)
  }

  function CancelOne(backend: map<nat, Backend>, id: nat): map<nat, Backend> {
    if id in backend then backend[id := Backends.Cancel(backend[id])] else backend
  }

  function ExpireOne(backend: map<nat, Backend>, id: nat): map<nat, Backend> {
    if id in backend then backend[id := Expire(backend[id])] else backend
  }

  function ClearOne(backend: map<nat, Backend>, id: nat): map<nat, Backend> {
    if id in backend then backend[id := Clear(backend[id])] else backend
  }

  /** The backend's side of the scan: each transfer newly flagged is cancelled. */
  function CancelExpired(q: seq<Flight>, now: Timeval, backend: map<nat, Backend>): map<nat, Backend>
    decreases |q|
  {
    if q == [] || !IsSet(q[0].deadline) then backend
    else if q[0].timedOut then CancelExpired(q[1..], now, backend)
    else if Later(q[0].deadline, now) then backend
    else CancelExpired(q[1..], now, ExpireOne(backend, q[0].id))
  }

  function HandleTrigger(s: State): State {
    var t := HandleTimeouts(s);
    State(s.support, if Rearms(s.support, t.flying) then TimerFor(s.support, t.flying) else Disarmed, s.clock, t.flying,
          t.backend, s.fields, s.accepted, s.reports, s.lost)
  }

  /** The first flying transfer of a handle, if there is one. */
  function FirstOn(q: seq<Flight>, handle: nat): (r: seq<nat>)
    ensures |r| <= 1 && (r != [] ==> Has(q, r[0]))
  {
    if q == [] then [] else if q[0].handle == handle then [q[0].id] else FirstOn(q[1..], handle)
  }

  /** The backend frees the URBs, whatever the kernel still does with them; then the completion. */
  function Abandon(s: State, id: nat): State {
    Complete(WithBackend(s, ClearOne(s.backend, id)), id, TransferNoDevice)
  }

  /** One transfer of the handle after the other, each found by a new scan. */
  function HandleDisconnect(s: State, handle: nat): State
    decreases |s.flying|
  {
    var found := FirstOn(s.flying, handle);
    if found == [] then s else HandleDisconnect(Abandon(s, found[0]), handle)
  }

  /** Flying transfers are not submitted again, and nothing malformed is. */
  function Next(s: State, e: Event): State {
    match e
    case Tick(ns) => State(s.support, s.timer, s.clock + ns, s.flying, s.backend, s.fields, s.accepted, s.reports, s.lost)
    case Submit(id, handle, timeout, request) =>
      if Has(s.flying, id) || !WellFormed(request) then s else SubmitTransfer(s, id, handle, timeout, request)
    case Cancel(id) => CancelTransfer(s, id)
    case Urb(id, event) => HandleUrb(s, id, event)
    case PollTimedOut => HandleTimeouts(s)
    case Trigger => if s.timer.Armed? then HandleTrigger(s) else s
    case Disconnect(handle) => HandleDisconnect(s, handle)
    case Freed(id, outcome) => if ReadsFreed(s, id) then outcome else s
  }

  /** A URB of the transfer can come back whose memory is no longer the library's. */
  predicate ReadsFreed(s: State, id: nat) {
    id in s.backend && HandsBackFreed(s.backend[id])
  }

  /** The step does not read a freed URB. What follows if one does is undefined: any state may. */
  predicate Defined(s: State, e: Event) {
    e.Freed? ==> !ReadsFreed(s, e.id)
  }

  predicate AllDefined(s: State, es: seq<Event>)
    decreases |es|
  {
    es == [] || (AllDefined(s, es[..|es| - 1]) && Defined(Run(s, es[..|es| - 1]), es[|es| - 1]))
  }

  function Run(s: State, es: seq<Event>): State
    decreases |es|
  {
    if es == [] then s else Next(Run(s, es[..|es| - 1]), es[|es| - 1])
  }

  // ---------------------------------------------------------------- the list stays in order

  ghost predicate Every(q: seq<Flight>, p: Timeval -> bool) {
    forall i :: 0 <= i < |q| ==> p(q[i].deadline)
  }

  ghost predicate EveryField(s: State, p: Timeval -> bool) {
    forall id :: id in s.fields ==> p(s.fields[id])
  }

  ghost predicate ListInv(s: State) {
    Sorted(s.flying) && Distinct(s.flying) && Every(s.flying, Bounded) && EveryField(s, Bounded)
  }

  lemma EveryAfterInsert(q: seq<Flight>, f: Flight, p: Timeval -> bool)
    requires Every(q, p) && p(f.deadline)
    ensures Every(Insert(q, f), p)
  {
  }

  lemma EveryAfterDelete(q: seq<Flight>, id: nat, p: Timeval -> bool)
    requires Every(q, p)
    ensures Every(Delete(q, id), p)
  {
    if Has(q, id) {
      var k := DeleteAt(q, id);
    } else {
      DeleteAbsent(q, id);
    }
  }

  lemma EveryAfterFlagging(q: seq<Flight>, now: Timeval, p: Timeval -> bool)
    requires Sorted(q) && Every(q, p)
    ensures Every(FlagExpired(q, now), p)
  {
    ScanFlagsExactlyTheExpired(q, now);
    assert forall i :: 0 <= i < |q| ==> FlagExpired(q, now)[i] == Flagged(q[i], now);
  }

  lemma SubmitKeepsList(s: State, id: nat, handle: nat, timeout: nat, request: Request)
    requires ListInv(s) && !Has(s.flying, id)
    ensures ListInv(SubmitTransfer(s, id, handle, timeout, request))
    ensures !Live(Submitted(s.backend, id, request))
            ==> SubmitTransfer(s, id, handle, timeout, request).flying == s.flying
  {
    hide Insert, Delete, Sorted, Distinct, Every, First, Live;
    var f := Flight(id, handle, CalculateTimeout(s.clock, timeout, Field(s, id)), false);
    if timeout > 0 { DeadlineIsExact(s.clock, timeout, Field(s, id)); }
    InsertKeepsSorted(s.flying, f);
    InsertKeepsDistinct(s.flying, f);
    EveryAfterInsert(s.flying, f, Bounded);
    DeleteUndoesInsert(s.flying, f);
  }

  lemma CompleteKeepsList(s: State, id: nat, status: TransferStatus)
    requires ListInv(s)
    ensures ListInv(Complete(s, id, status))
  {
    hide Delete, Sorted, Distinct, Every;
    DeleteKeepsSorted(s.flying, id);
    DeleteKeepsDistinct(s.flying, id);
    EveryAfterDelete(s.flying, id, Bounded);
  }

  lemma BackendIsNotListed(s: State, backend: map<nat, Backend>)
    requires ListInv(s)
    ensures ListInv(WithBackend(s, backend))
  {
  }

  lemma FlaggingKeepsList(s: State)
    requires ListInv(s)
    ensures ListInv(HandleTimeouts(s)) && ListInv(HandleTrigger(s))
  {
    hide FlagExpired, CancelExpired, Sorted, Distinct, Every, Rearms;
    FlaggingKeepsSorted(s.flying, Now(s.clock));
    FlaggingKeepsDistinct(s.flying, Now(s.clock));
    EveryAfterFlagging(s.flying, Now(s.clock), Bounded);
  }

  lemma UrbKeepsList(s: State, id: nat, e: UrbEvent)
    requires ListInv(s)
    ensures ListInv(HandleUrb(s, id, e))
  {
    hide ListInv, Complete, WithBackend, Step, Verdict;
    if id in s.backend {
      var b := s.backend[id];
      var t := WithBackend(s, s.backend[id := Step(b, e)]);
      BackendIsNotListed(s, s.backend[id := Step(b, e)]);
      if Verdict(b, e) != [] { CompleteKeepsList(t, id, Verdict(b, e)[0]); }
    }
  }

  lemma AbandonKeepsList(s: State, id: nat)
    requires ListInv(s)
    ensures ListInv(Abandon(s, id))
  {
    hide ListInv, Complete, WithBackend;
    var backend := ClearOne(s.backend, id);
    BackendIsNotListed(s, backend);
    CompleteKeepsList(WithBackend(s, backend), id, TransferNoDevice);
  }

  lemma {:induction false} DisconnectKeepsList(s: State, handle: nat)
    requires ListInv(s)
    ensures ListInv(HandleDisconnect(s, handle))
    decreases |s.flying|
  {
    hide ListInv;
    var found := FirstOn(s.flying, handle);
    if found != [] {
      AbandonKeepsList(s, found[0]);
      DisconnectKeepsList(Abandon(s, found[0]), handle);
    }
  }

  lemma StepKeepsList(s: State, e: Event)
    requires Defined(s, e)
    requires ListInv(s)
    ensures ListInv(Next(s, e))
  {
    hide SubmitTransfer, HandleUrb, HandleTimeouts, HandleTrigger, HandleDisconnect;
    match e {
      case Submit(id, handle, timeout, request) =>
        if !Has(s.flying, id) { SubmitKeepsList(s, id, handle, timeout, request); }
      case Urb(id, event) =>
        UrbKeepsList(s, id, event);
      case Disconnect(handle) =>
        DisconnectKeepsList(s, handle);
      case Tick(_) =>
      case Cancel(_) =>
      case Freed(_, _) =>
      case PollTimedOut =>
        FlaggingKeepsList(s);
      case Trigger =>
        FlaggingKeepsList(s);
    }
  }

  /** In every reachable state the list is sorted, soonest first and infinite ones last. */
  lemma {:induction false} ListStaysSorted(support: Support, es: seq<Event>)
    requires AllDefined(Initial(support), es)
    ensures ListInv(Run(Initial(support), es))
    decreases |es|
  {
    hide Next;
    if es != [] {
      ListStaysSorted(support, es[..|es| - 1]);
      StepKeepsList(Run(Initial(support), es[..|es| - 1]), es[|es| - 1]);
    } else {
      assert Run(Initial(support), es) == Initial(support);
    }
  }

  // ---------------------------------------------------------------- the layers agree

  /**
   The backend's machine for a transfer is sound; the transfer is listed exactly while its URB
   pointer is set; and list and backend see the same flag.
   */
  ghost predicate LayerAt(s: State, id: nat) {
    && (id in s.backend ==> Sound(s.backend[id]))
    && (Has(s.flying, id) <==> id in s.backend && Live(s.backend[id]))
    && (Has(s.flying, id) ==> Get(s.flying, id).timedOut == TimedOut(s.backend[id]))
  }

  ghost predicate LayersInv(s: State) {
    forall id: nat :: LayerAt(s, id)
  }

  lemma SubmitKeepsLayers(s: State, x: nat, handle: nat, timeout: nat, request: Request)
    requires ListInv(s) && LayersInv(s) && !Has(s.flying, x) && WellFormed(request)
    ensures LayersInv(SubmitTransfer(s, x, handle, timeout, request))
  {
    hide Insert, Delete, ListInv, Live, Sound, TimedOut, Backends.Submit, Outstanding;
    var t := SubmitTransfer(s, x, handle, timeout, request);
    var f := Flight(x, handle, CalculateTimeout(s.clock, timeout, Field(s, x)), false);
    SubmitIsSound(request, if x in s.backend then Outstanding(s.backend[x]) else 0);
    DeleteUndoesInsert(s.flying, f);
    forall id: nat ensures LayerAt(t, id) {
      assert LayerAt(s, id);
      HasAfterInsert(s.flying, f, id);
      if id == x || Has(s.flying, id) { GetAfterInsert(s.flying, f, id); }
    }
  }

  /** Completing a transfer whose URBs are gone. */
  lemma CompleteKeepsLayers(s: State, x: nat, status: TransferStatus)
    requires ListInv(s) && x in s.backend && !Live(s.backend[x]) && Sound(s.backend[x])
    requires forall id: nat :: id != x ==> LayerAt(s, id)
    ensures LayersInv(Complete(s, x, status))
  {
    hide Delete, Live, Sound, TimedOut, Rearms, TimerFor;
    var t := Complete(s, x, status);
    forall id: nat ensures LayerAt(t, id) {
      HasAfterDelete(s.flying, x, id);
      if id != x {
        assert LayerAt(s, id);
        if Has(s.flying, id) { GetAfterDelete(s.flying, x, id); }
      }
    }
  }

  lemma UrbKeepsLayers(s: State, x: nat, e: UrbEvent)
    requires ListInv(s) && LayersInv(s)
    ensures LayersInv(HandleUrb(s, x, e))
  {
    hide ListInv, Live, Sound, TimedOut, Step, Verdict, Complete;
    if x in s.backend {
      var b, t := s.backend[x], WithBackend(s, s.backend[x := Step(s.backend[x], e)]);
      assert LayerAt(s, x);
      StepReports(b, e);
      forall id: nat | id != x || Verdict(b, e) == [] ensures LayerAt(t, id) {
        assert LayerAt(s, id);
      }
      BackendIsNotListed(s, s.backend[x := Step(b, e)]);
      if Verdict(b, e) != [] { CompleteKeepsLayers(t, x, Verdict(b, e)[0]); }
    }
  }

  lemma CancelKeepsLayers(s: State, x: nat)
    requires LayersInv(s)
    ensures LayersInv(CancelTransfer(s, x))
  {
    hide Live, Sound, TimedOut, Backends.Cancel;
    var t := CancelTransfer(s, x);
    forall id: nat ensures LayerAt(t, id) {
      assert LayerAt(s, id);
      if id in s.backend { CancelKeepsLive(s.backend[id]); }
    }
  }

  lemma AbandonKeepsLayers(s: State, x: nat)
    requires ListInv(s) && LayersInv(s) && Has(s.flying, x)
    ensures LayersInv(Abandon(s, x))
  {
    hide ListInv, Live, Sound, TimedOut, Clear, Complete;
    assert LayerAt(s, x);
    var t := WithBackend(s, s.backend[x := Clear(s.backend[x])]);
    CancelKeepsLive(s.backend[x]);
    BackendIsNotListed(s, s.backend[x := Clear(s.backend[x])]);
    forall id: nat | id != x ensures LayerAt(t, id) {
      assert LayerAt(s, id);
    }
    CompleteKeepsLayers(t, x, TransferNoDevice);
  }

  lemma {:induction false} DisconnectKeepsLayers(s: State, handle: nat)
    requires ListInv(s) && LayersInv(s)
    ensures LayersInv(HandleDisconnect(s, handle))
    decreases |s.flying|
  {
    hide ListInv, LayersInv;
    var found := FirstOn(s.flying, handle);
    if found != [] {
      AbandonKeepsList(s, found[0]);
      AbandonKeepsLayers(s, found[0]);
      DisconnectKeepsLayers(Abandon(s, found[0]), handle);
    }
  }

  /** The scan flags a transfer. */
  predicate NewlyFlagged(q: seq<Flight>, now: Timeval, id: nat) {
    Has(q, id) && !Get(q, id).timedOut && IsFlagged(FlagExpired(q, now), id)
  }

  lemma {:induction false} FlaggingMeetsAll(q: seq<Flight>, now: Timeval, id: nat)
    requires Distinct(q) && Has(q, id)
    ensures Has(FlagExpired(q, now), id)
    ensures Get(FlagExpired(q, now), id).timedOut == (Get(q, id).timedOut || NewlyFlagged(q, now, id))
    decreases |q|
  {
    FlaggingKeepsIds(q, now, id);
    if FlagExpired(q, now) != q && q[0].id != id {
      FlaggingMeetsAll(q[1..], now, id);
      assert FlagExpired(q, now)[1..] == FlagExpired(q[1..], now);
    }
  }

  /** The backend's side of the scan: exactly the transfers newly flagged are expired. */
  lemma {:induction false} ExpiredAreFlagged(q: seq<Flight>, now: Timeval, backend: map<nat, Backend>, id: nat)
    requires Distinct(q)
    ensures id in CancelExpired(q, now, backend) <==> id in backend
    ensures id in backend
            ==> CancelExpired(q, now, backend)[id]
                == if NewlyFlagged(q, now, id) then Expire(backend[id]) else backend[id]
    decreases |q|
  {
    hide Expire;
    if q != [] && IsSet(q[0].deadline) && (q[0].timedOut || !Later(q[0].deadline, now)) {
      var rest := if q[0].timedOut then backend else ExpireOne(backend, q[0].id);
      ExpiredAreFlagged(q[1..], now, rest, id);
      assert FlagExpired(q, now)[1..] == FlagExpired(q[1..], now);
      if q[0].id != id {
        FlaggingKeepsIds(q[1..], now, id);
      }
    }
  }

  lemma FlaggingKeepsLayers(s: State)
    requires ListInv(s) && LayersInv(s)
    ensures LayersInv(HandleTimeouts(s)) && LayersInv(HandleTrigger(s))
  {
    hide FlagExpired, CancelExpired, NewlyFlagged, Live, Sound, TimedOut, Expire, Rearms, TimerFor;
    var q, now := s.flying, Now(s.clock);
    forall id: nat ensures LayerAt(HandleTimeouts(s), id) && LayerAt(HandleTrigger(s), id) {
      assert LayerAt(s, id);
      FlaggingKeepsIds(q, now, id);
      ExpiredAreFlagged(q, now, s.backend, id);
      if Has(q, id) {
        FlaggingMeetsAll(q, now, id);
      } else {
        OnlyListedAreFlagged(q, now, id);
      }
      if id in s.backend { CancelKeepsLive(s.backend[id]); }
    }
  }

  lemma OnlyListedAreFlagged(q: seq<Flight>, now: Timeval, id: nat)
    requires !Has(q, id)
    ensures !NewlyFlagged(q, now, id)
  {
  }

  lemma StepKeepsLayers(s: State, e: Event)
    requires Defined(s, e)
    requires ListInv(s) && LayersInv(s)
    ensures LayersInv(Next(s, e))
  {
    hide SubmitTransfer, HandleUrb, CancelTransfer, HandleTimeouts, HandleTrigger, HandleDisconnect, ListInv, LayersInv;
    match e {
      case Submit(x, handle, timeout, request) =>
        if !Has(s.flying, x) && WellFormed(request) { SubmitKeepsLayers(s, x, handle, timeout, request); }
      case Urb(x, event) =>
        UrbKeepsLayers(s, x, event);
      case Disconnect(handle) =>
        DisconnectKeepsLayers(s, handle);
      case Freed(_, _) =>
      case Tick(ns) =>
        TickKeepsLayers(s, ns);
      case Cancel(x) =>
        CancelKeepsLayers(s, x);
      case PollTimedOut =>
        FlaggingKeepsLayers(s);
      case Trigger =>
        FlaggingKeepsLayers(s);
    }
  }

  lemma TickKeepsLayers(s: State, ns: nat)
    requires LayersInv(s)
    ensures LayersInv(Next(s, Tick(ns)))
  {
    forall id: nat ensures LayerAt(Next(s, Tick(ns)), id) {
      assert LayerAt(s, id);
    }
  }

  lemma {:induction false} LayersInvHolds(support: Support, es: seq<Event>)
    requires AllDefined(Initial(support), es)
    ensures LayersInv(Run(Initial(support), es))
    decreases |es|
  {
    hide Next, ListInv;
    if es != [] {
      LayersInvHolds(support, es[..|es| - 1]);
      ListStaysSorted(support, es[..|es| - 1]);
      StepKeepsLayers(Run(Initial(support), es[..|es| - 1]), es[|es| - 1]);
    }
  }

  // ---------------------------------------------------------------- what becomes of a submission

  function Count(ids: seq<nat>, id: nat): nat {
    if ids == [] then 0 else Count(ids[..|ids| - 1], id) + (if ids[|ids| - 1] == id then 1 else 0)
  }

  function Callbacks(reports: seq<Report>, id: nat): nat {
    if reports == [] then 0
    else Callbacks(reports[..|reports| - 1], id) + (if reports[|reports| - 1].id == id then 1 else 0)
  }

  lemma CountMore(ids: seq<nat>, last: nat, id: nat)
    ensures Count(ids + [last], id) == Count(ids, id) + (if last == id then 1 else 0)
  {
    assert (ids + [last])[..|ids|] == ids;
  }

  lemma CallbacksMore(reports: seq<Report>, last: Report, id: nat)
    ensures Callbacks(reports + [last], id) == Callbacks(reports, id) + (if last.id == id then 1 else 0)
  {
    assert (reports + [last])[..|reports|] == reports;
  }

  /** Every submission the backend took is still flying, has had its callback, or lost it. */
  predicate Accounted(s: State, id: nat) {
    Count(s.accepted, id) == Callbacks(s.reports, id) + Count(s.lost, id) + (if Has(s.flying, id) then 1 else 0)
  }

  lemma SubmitKeepsAccounts(s: State, x: nat, handle: nat, timeout: nat, request: Request, id: nat)
    requires !Has(s.flying, x) && Accounted(s, id)
    ensures Accounted(SubmitTransfer(s, x, handle, timeout, request), id)
  {
    hide Insert, Delete, Count, Callbacks, Live;
    var f := Flight(x, handle, CalculateTimeout(s.clock, timeout, Field(s, x)), false);
    HasAfterInsert(s.flying, f, id);
    DeleteUndoesInsert(s.flying, f);
    CountMore(s.accepted, x, id);
  }

  lemma CompleteKeepsAccounts(s: State, x: nat, status: TransferStatus, id: nat)
    requires Distinct(s.flying) && Has(s.flying, x) && Accounted(s, id)
    ensures Accounted(Complete(s, x, status), id)
  {
    hide Delete, Count, Callbacks, Has, TimerFor, NextToArm;
    HasAfterDelete(s.flying, x, id);
    CountMore(s.lost, x, id);
    CallbacksMore(s.reports, Report(x, status, Field(s, x), s.clock, IsFlagged(s.flying, x)), id);
  }

  /** What asks for a completion is a transfer on the list. */
  lemma VerdictMeansFlying(s: State, x: nat, e: UrbEvent)
    requires LayersInv(s) && x in s.backend && Verdict(s.backend[x], e) != []
    ensures Has(s.flying, x) && (Verdict(s.backend[x], e)[0] == TransferTimedOut <==> Get(s.flying, x).timedOut)
  {
    hide Live, Sound, TimedOut, Step, Verdict;
    assert LayerAt(s, x);
    StepReports(s.backend[x], e);
  }

  lemma UrbKeepsAccounts(s: State, x: nat, e: UrbEvent, id: nat)
    requires ListInv(s) && LayersInv(s) && Accounted(s, id)
    ensures Accounted(HandleUrb(s, x, e), id)
  {
    hide LayersInv, Step, Verdict, Complete;
    if x in s.backend && Verdict(s.backend[x], e) != [] {
      VerdictMeansFlying(s, x, e);
      CompleteKeepsAccounts(WithBackend(s, s.backend[x := Step(s.backend[x], e)]), x, Verdict(s.backend[x], e)[0], id);
    }
  }

  lemma {:induction false} DisconnectKeepsAccounts(s: State, handle: nat, id: nat)
    requires ListInv(s) && Accounted(s, id)
    ensures Accounted(HandleDisconnect(s, handle), id)
    decreases |s.flying|
  {
    hide Complete, Sorted, Every;
    var found := FirstOn(s.flying, handle);
    if found != [] {
      AbandonKeepsList(s, found[0]);
      var backend := ClearOne(s.backend, found[0]);
      CompleteKeepsAccounts(WithBackend(s, backend), found[0], TransferNoDevice, id);
      CompleteShrinks(WithBackend(s, backend), found[0], TransferNoDevice);
      DisconnectKeepsAccounts(Abandon(s, found[0]), handle, id);
    }
  }

  lemma StepKeepsAccounts(s: State, e: Event, id: nat)
    requires Defined(s, e)
    requires ListInv(s) && LayersInv(s) && Accounted(s, id)
    ensures Accounted(Next(s, e), id)
  {
    hide SubmitTransfer, HandleUrb, HandleDisconnect, ListInv, LayersInv, Count, Callbacks, FlagExpired, CancelExpired;
    match e {
      case Submit(x, handle, timeout, request) =>
        if !Has(s.flying, x) { SubmitKeepsAccounts(s, x, handle, timeout, request, id); }
      case Urb(x, event) =>
        UrbKeepsAccounts(s, x, event, id);
      case Disconnect(handle) =>
        DisconnectKeepsAccounts(s, handle, id);
      case Tick(_) =>
      case Cancel(_) =>
      case Freed(_, _) =>
      case PollTimedOut =>
        FlaggingKeepsIds(s.flying, Now(s.clock), id);
      case Trigger =>
        FlaggingKeepsIds(s.flying, Now(s.clock), id);
    }
  }

  lemma {:induction false} AccountsHold(support: Support, es: seq<Event>, id: nat)
    requires AllDefined(Initial(support), es)
    ensures Accounted(Run(Initial(support), es), id)
    decreases |es|
  {
    hide Next, ListInv, LayersInv, Accounted;
    if es != [] {
      AccountsHold(support, es[..|es| - 1], id);
      ListStaysSorted(support, es[..|es| - 1]);
      LayersInvHolds(support, es[..|es| - 1]);
      StepKeepsAccounts(Run(Initial(support), es[..|es| - 1]), es[|es| - 1], id);
    } else {
      NothingToAccountFor(support, id);
    }
  }

  lemma NothingToAccountFor(support: Support, id: nat)
    ensures Accounted(Initial(support), id)
  {
  }

  /**
   The layers agree: over every run, a transfer is on the flying list exactly while the backend's
   URB pointer for it is set; list and backend agree whether it has timed out; and every accepted
   submission is flying, has been reported once, or lost its callback.
   */
  lemma LayersAgree(support: Support, es: seq<Event>, id: nat)
    requires AllDefined(Initial(support), es)
    ensures var s := Run(Initial(support), es);
      && (Has(s.flying, id) <==> id in s.backend && Live(s.backend[id]))
      && (Has(s.flying, id) ==> Get(s.flying, id).timedOut == TimedOut(s.backend[id]))
      && Accounted(s, id)
  {
    hide Live, TimedOut, Sound, Accounted;
    LayersInvHolds(support, es);
    AccountsHold(support, es, id);
    assert LayerAt(Run(Initial(support), es), id);
  }

  // ---------------------------------------------------------------- what the callbacks say

  /** The transfer's field still holds its deadline, and a flag means that the deadline passed. */
  predicate DueFlight(fields: map<nat, Timeval>, clock: nat, f: Flight) {
    f.id in fields && fields[f.id] == f.deadline
    && (f.timedOut ==> IsSet(f.deadline) && Total(f.deadline) <= clock / 1000)
  }

  ghost predicate FlagsAreDue(s: State) {
    forall i :: 0 <= i < |s.flying| ==> DueFlight(s.fields, s.clock, s.flying[i])
  }

  /** A timeout is reported for a flagged transfer and no other, the device gone aside. */
  predicate Truthful(r: Report) {
    && (r.status == TransferTimedOut ==> r.timedOut)
    && (r.timedOut ==> r.status == TransferTimedOut || r.status == TransferNoDevice)
    && (r.timedOut ==> IsSet(r.deadline) && Total(r.deadline) <= r.at / 1000)
  }

  ghost predicate ReportsAreTruthful(s: State) {
    forall i :: 0 <= i < |s.reports| ==> Truthful(s.reports[i])
  }

  ghost predicate DueInv(s: State) {
    FlagsAreDue(s) && ReportsAreTruthful(s)
  }

  lemma SubmitKeepsDue(s: State, id: nat, handle: nat, timeout: nat, request: Request)
    requires DueInv(s) && !Has(s.flying, id)
    ensures DueInv(SubmitTransfer(s, id, handle, timeout, request))
  {
    hide Delete, Place, CalculateTimeout, Has, Live;
    var deadline := CalculateTimeout(s.clock, timeout, Field(s, id));
    var f, fields := Flight(id, handle, deadline, false), s.fields[id := deadline];
    DeleteUndoesInsert(s.flying, f);
    forall i | 0 <= i < |s.flying| ensures DueFlight(fields, s.clock, s.flying[i]) {
      HasMember(s.flying, i);
      assert DueFlight(s.fields, s.clock, s.flying[i]);
    }
    var k, r := Place(s.flying, deadline), Insert(s.flying, f);
    forall i | 0 <= i < |r| ensures DueFlight(fields, s.clock, r[i]) {
      assert r[i] == if i < k then s.flying[i] else if i == k then f else s.flying[i - 1];
    }
  }

  lemma CompleteKeepsDue(s: State, id: nat, status: TransferStatus)
    requires DueInv(s) && Has(s.flying, id)
    requires status == TransferNoDevice || (status == TransferTimedOut <==> Get(s.flying, id).timedOut)
    ensures DueInv(Complete(s, id, status))
  {
    hide Delete, Has, Get, Rearms;
    var k := DeleteAt(s.flying, id);
    var f := Get(s.flying, id);
    var j :| 0 <= j < |s.flying| && s.flying[j] == f;
    assert DueFlight(s.fields, s.clock, f);
    assert Truthful(Report(id, status, Field(s, id), s.clock, f.timedOut));
  }

  lemma FlaggingKeepsDue(s: State)
    requires DueInv(s) && ListInv(s)
    ensures DueInv(HandleTimeouts(s)) && DueInv(HandleTrigger(s))
  {
    hide FlagExpired, CancelExpired, Rearms;
    var q, now := s.flying, Now(s.clock);
    ScanFlagsExactlyTheExpired(q, now);
    forall i | 0 <= i < |q|
      ensures FlagExpired(q, now)[i] == Flagged(q[i], now)
      ensures Expired(q[i], now) ==> Total(q[i].deadline) <= s.clock / 1000
    {
      NowIsCarried(s.clock);
      assert Bounded(q[i].deadline);
      ExpiryIsExact(q[i].deadline, now);
    }
  }

  lemma UrbKeepsDue(s: State, x: nat, e: UrbEvent)
    requires LayersInv(s) && DueInv(s)
    ensures DueInv(HandleUrb(s, x, e))
  {
    hide LayersInv, Step, Verdict, Complete;
    if x in s.backend && Verdict(s.backend[x], e) != [] {
      VerdictMeansFlying(s, x, e);
      CompleteKeepsDue(WithBackend(s, s.backend[x := Step(s.backend[x], e)]), x, Verdict(s.backend[x], e)[0]);
    }
  }

  lemma {:induction false} DisconnectKeepsDue(s: State, handle: nat)
    requires DueInv(s)
    ensures DueInv(HandleDisconnect(s, handle))
    decreases |s.flying|
  {
    hide Complete, DueFlight, Truthful;
    var found := FirstOn(s.flying, handle);
    if found != [] {
      var backend := ClearOne(s.backend, found[0]);
      CompleteKeepsDue(WithBackend(s, backend), found[0], TransferNoDevice);
      CompleteShrinks(WithBackend(s, backend), found[0], TransferNoDevice);
      DisconnectKeepsDue(Abandon(s, found[0]), handle);
    }
  }

  lemma CompleteShrinks(s: State, id: nat, status: TransferStatus)
    requires Has(s.flying, id)
    ensures |Complete(s, id, status).flying| < |s.flying|
  {
  }

  lemma TickKeepsDue(s: State, ns: nat)
    requires DueInv(s)
    ensures DueInv(Next(s, Tick(ns)))
  {
  }

  lemma CancelKeepsDue(s: State, id: nat)
    requires DueInv(s)
    ensures DueInv(CancelTransfer(s, id))
  {
  }

  lemma StepKeepsDue(s: State, e: Event)
    requires Defined(s, e)
    requires ListInv(s) && LayersInv(s) && DueInv(s)
    ensures DueInv(Next(s, e))
  {
    hide SubmitTransfer, HandleUrb, CancelTransfer, HandleTimeouts, HandleTrigger, HandleDisconnect;
    hide ListInv, LayersInv, DueInv;
    match e {
      case Submit(id, handle, timeout, request) =>
        if !Has(s.flying, id) { SubmitKeepsDue(s, id, handle, timeout, request); }
      case Urb(id, event) =>
        UrbKeepsDue(s, id, event);
      case Disconnect(handle) =>
        DisconnectKeepsDue(s, handle);
      case Freed(_, _) =>
      case Tick(ns) =>
        TickKeepsDue(s, ns);
      case Cancel(id) =>
        CancelKeepsDue(s, id);
      case PollTimedOut =>
        FlaggingKeepsDue(s);
      case Trigger =>
        FlaggingKeepsDue(s);
    }
  }

  /**
   Over every run, a timeout is reported only for a flagged transfer whose finite deadline had
   passed; and a flagged transfer is reported as timed out, unless its device was gone.
   */
  lemma {:induction false} TimeoutsAreNeverEarly(support: Support, es: seq<Event>)
    requires AllDefined(Initial(support), es)
    ensures DueInv(Run(Initial(support), es))
    decreases |es|
  {
    hide Next, ListInv, LayersInv;
    if es != [] {
      TimeoutsAreNeverEarly(support, es[..|es| - 1]);
      ListStaysSorted(support, es[..|es| - 1]);
      LayersInvHolds(support, es[..|es| - 1]);
      StepKeepsDue(Run(Initial(support), es[..|es| - 1]), es[|es| - 1]);
    }
  }

  // ---------------------------------------------------------------- what no timeout means

  /** The event gives the transfer a deadline. */
  predicate Times(s: State, e: Event, id: nat) {
    e.Submit? && e.id == id && e.timeout > 0 && !Has(s.flying, id) && WellFormed(e.request)
  }

  predicate EverTimed(s: State, es: seq<Event>, id: nat)
    decreases |es|
  {
    es != [] && (EverTimed(s, es[..|es| - 1], id) || Times(Run(s, es[..|es| - 1]), es[|es| - 1], id))
  }

  lemma {:induction false} DisconnectKeepsFields(s: State, handle: nat)
    ensures HandleDisconnect(s, handle).fields == s.fields
    decreases |s.flying|
  {
    var found := FirstOn(s.flying, handle);
    if found != [] { DisconnectKeepsFields(Abandon(s, found[0]), handle); }
  }

  lemma StepSetsField(s: State, e: Event, id: nat)
    requires Defined(s, e)
    ensures IsSet(Field(Next(s, e), id)) <==> IsSet(Field(s, id)) || Times(s, e, id)
  {
    hide Insert, Delete, HandleDisconnect, Has, First, Live, Verdict, Step, WellFormed;
    match e {
      case Submit(x, handle, timeout, request) =>
        if timeout > 0 { DeadlineIsExact(s.clock, timeout, Field(s, x)); }
      case Disconnect(handle) =>
        DisconnectKeepsFields(s, handle);
      case Tick(_) =>
      case Cancel(_) =>
      case Freed(_, _) =>
      case Urb(_, _) =>
      case PollTimedOut =>
      case Trigger =>
    }
  }

  /**
   A timeout of zero is documented to mean an unlimited one. It does exactly if the transfer
   never had another timeout before: otherwise the old deadline, long past perhaps, is used.
   */
  lemma {:induction false} ZeroTimeoutIsUnlimited(support: Support, es: seq<Event>, id: nat)
    requires AllDefined(Initial(support), es)
    ensures var s := Run(Initial(support), es);
      CalculateTimeout(s.clock, 0, Field(s, id)) == NEVER <==> !EverTimed(Initial(support), es, id)
    decreases |es|
  {
    hide Next, Times;
    if es != [] {
      ZeroTimeoutIsUnlimited(support, es[..|es| - 1], id);
      StepSetsField(Run(Initial(support), es[..|es| - 1]), es[|es| - 1], id);
    }
  }
}
