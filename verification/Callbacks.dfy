/**
 Every callback of the whole library is the report of a run of the bulk or the isochronous machine
 on the very request that was submitted; so what is proved of those runs holds of the callbacks.
 */
module Callbacks {
  import opened Backends
  import opened FlyingTransfers
  import opened Timeouts
  import opened TransferLayers
  import opened Usbfs
  import opened Words
  import B = BulkUrbs
  import I = IsoUrbs

  ghost predicate IsBulkRun(bulk: B.State, start: B.State) {
    exists bs: seq<B.Event> :: B.AllDefined(start, bs) && bulk == B.Run(start, bs)
  }

  ghost predicate IsIsoRun(iso: I.State, start: I.State) {
    exists js: seq<I.Event> :: iso == I.Run(start, js)
  }

  /** The backend's data is what some run makes of the request. */
  ghost predicate IsRun(b: Backend, r: Request) {
    match r
    case BulkRequest(buffer, continuation, shortNotOk, taken) =>
      taken > 0 && b.Bulk? && IsBulkRun(b.bulk, B.Submitted(buffer, continuation, shortNotOk, taken))
    case IsoRequest(counts, results, shortNotOk, length, taken) =>
      taken > 0 && b.Iso? && b.shortNotOk == shortNotOk && b.length == length
      && IsIsoRun(b.iso, I.Start(counts, if taken < |counts| then taken else |counts|, results))
  }

  lemma BulkRunGoesOn(bulk: B.State, start: B.State, e: B.Event)
    requires IsBulkRun(bulk, start) && B.Defined(bulk, e)
    ensures IsBulkRun(B.Next(bulk, e), start)
  {
    hide B.Next, B.Defined;
    var bs :| B.AllDefined(start, bs) && bulk == B.Run(start, bs);
    assert (bs + [e])[..|bs|] == bs;
    assert B.AllDefined(start, bs + [e]) && B.Next(bulk, e) == B.Run(start, bs + [e]);
  }

  lemma IsoRunGoesOn(iso: I.State, start: I.State, e: I.Event)
    requires IsIsoRun(iso, start)
    ensures IsIsoRun(I.Next(iso, e), start)
  {
    hide I.Next;
    var js :| iso == I.Run(start, js);
    assert (js + [e])[..|js|] == js;
    assert I.Next(iso, e) == I.Run(start, js + [e]);
  }

  lemma RunGoesOn(b: Backend, r: Request, e: UrbEvent)
    requires IsRun(b, r)
    ensures IsRun(Step(b, e), r) && IsRun(Backends.Cancel(b), r) && IsRun(Expire(b), r)
  {
    hide IsBulkRun, IsIsoRun, B.Next, I.Next, B.Submitted, I.Start;
    match r
    case BulkRequest(buffer, continuation, shortNotOk, taken) =>
      var start := B.Submitted(buffer, continuation, shortNotOk, taken);
      BulkRunGoesOn(b.bulk, start, if e.Finish? then B.Finish(e.urb, e.completion) else B.Reap);
      BulkRunGoesOn(b.bulk, start, B.Cancel);
      BulkRunGoesOn(b.bulk, start, B.Expire);
    case IsoRequest(counts, results, shortNotOk, length, taken) =>
      var start := I.Start(counts, if taken < |counts| then taken else |counts|, results);
      if e.ReapIso? { IsoRunGoesOn(b.iso, start, I.Reap(e.reaped)); }
      IsoRunGoesOn(b.iso, start, I.Cancel);
  }

  lemma SubmissionIsRun(r: Request, strays: nat)
    requires WellFormed(r) && r.taken > 0
    ensures IsRun(Backends.Submit(r, strays), r)
  {
    match r
    case BulkRequest(buffer, continuation, shortNotOk, taken) =>
      var start := B.Submitted(buffer, continuation, shortNotOk, taken);
      assert B.AllDefined(start, []) && start == B.Run(start, []);
    case IsoRequest(counts, results, shortNotOk, length, taken) =>
      var start := I.Start(counts, if taken < |counts| then taken else |counts|, results);
      assert start == I.Run(start, []);
  }

  /** The event hands over this request for this transfer. */
  predicate Submits(e: Event, id: nat) {
    e.Submit? && e.id == id
  }

  /** Some submission of the transfer explains the backend's data. */
  ghost predicate Explained(b: Backend, es: seq<Event>, id: nat) {
    exists j :: 0 <= j < |es| && Submits(es[j], id) && IsRun(b, es[j].request)
  }

  ghost predicate FlyingExplained(s: State, es: seq<Event>, id: nat) {
    Has(s.flying, id) ==> id in s.backend && Explained(s.backend[id], es, id)
  }

  /** A callback is made because the device is gone, or says what some run asks to be said. */
  ghost predicate ReportExplained(r: Report, es: seq<Event>) {
    r.status == TransferNoDevice || exists b :: Explained(b, es, r.id) && !Live(b) && Asked(b) == [r.status]
  }

  ghost predicate AllExplained(s: State, es: seq<Event>) {
    (forall id: nat :: FlyingExplained(s, es, id)) && forall i :: 0 <= i < |s.reports| ==> ReportExplained(s.reports[i], es)
  }

  lemma ExplainedLater(b: Backend, es: seq<Event>, e: Event, id: nat)
    requires Explained(b, es, id)
    ensures Explained(b, es + [e], id)
  {
    hide IsRun;
    var j :| 0 <= j < |es| && Submits(es[j], id) && IsRun(b, es[j].request);
    assert (es + [e])[j] == es[j];
  }

  lemma AllExplainedLater(s: State, es: seq<Event>, e: Event)
    requires AllExplained(s, es)
    ensures AllExplained(s, es + [e])
  {
    hide Explained, Live, Asked;
    forall id: nat ensures FlyingExplained(s, es + [e], id) {
      assert FlyingExplained(s, es, id);
      if Has(s.flying, id) { ExplainedLater(s.backend[id], es, e, id); }
    }
    forall i | 0 <= i < |s.reports| ensures ReportExplained(s.reports[i], es + [e]) {
      var r := s.reports[i];
      assert ReportExplained(r, es);
      if r.status != TransferNoDevice {
        var b :| Explained(b, es, r.id) && !Live(b) && Asked(b) == [r.status];
        ExplainedLater(b, es, e, r.id);
      }
    }
  }

  lemma ExplainedGoesOn(b: Backend, es: seq<Event>, id: nat, e: UrbEvent)
    requires Explained(b, es, id)
    ensures Explained(Step(b, e), es, id) && Explained(Backends.Cancel(b), es, id) && Explained(Expire(b), es, id)
  {
    hide IsRun, Step, Backends.Cancel, Expire;
    var j :| 0 <= j < |es| && Submits(es[j], id) && IsRun(b, es[j].request);
    RunGoesOn(b, es[j].request, e);
  }

  /** Completion of a transfer whose backend data already says so. */
  lemma CompleteKeepsExplained(s: State, backend: map<nat, Backend>, x: nat, status: TransferStatus, es: seq<Event>)
    requires Distinct(s.flying) && AllExplained(s, es)
    requires forall id: nat :: id != x && id in s.backend ==> id in backend && backend[id] == s.backend[id]
    requires ReportExplained(Report(x, status, Field(s, x), s.clock, IsFlagged(s.flying, x)), es)
    ensures AllExplained(Complete(WithBackend(s, backend), x, status), es)
  {
    hide Explained, ReportExplained, Delete, Rearms, TimerFor, IsFlagged;
    var t := Complete(WithBackend(s, backend), x, status);
    forall i | 0 <= i < |t.reports| ensures ReportExplained(t.reports[i], es) {
      assert i < |s.reports| ==> t.reports[i] == s.reports[i];
    }
    forall id: nat ensures FlyingExplained(t, es, id) {
      assert FlyingExplained(s, es, id);
      HasAfterDelete(s.flying, x, id);
    }
  }

  lemma UrbKeepsExplained(s: State, x: nat, e: UrbEvent, es: seq<Event>)
    requires ListInv(s) && LayersInv(s) && AllExplained(s, es)
    ensures AllExplained(HandleUrb(s, x, e), es)
  {
    hide Step, Verdict, Complete, Sorted, Every, Sound, TimedOut, Explained, ReportExplained;
    if x in s.backend {
      var b, backend := s.backend[x], s.backend[x := Step(s.backend[x], e)];
      var t := WithBackend(s, backend);
      assert LayerAt(s, x) && FlyingExplained(s, es, x);
      if Has(s.flying, x) { ExplainedGoesOn(b, es, x, e); }
      if Verdict(b, e) != [] {
        VerdictMeansFlying(s, x, e);
        VerdictIsAsked(b, e);
        var r := Report(x, Verdict(b, e)[0], Field(s, x), s.clock, IsFlagged(s.flying, x));
        assert ReportExplained(r, es) by { Explains(r, Step(b, e), es); }
        CompleteKeepsExplained(s, backend, x, Verdict(b, e)[0], es);
      } else {
        forall id: nat ensures FlyingExplained(t, es, id) {
          assert FlyingExplained(s, es, id);
        }
      }
    }
  }

  lemma Explains(r: Report, b: Backend, es: seq<Event>)
    requires Explained(b, es, r.id) && !Live(b) && Asked(b) == [r.status]
    ensures ReportExplained(r, es)
  {
  }

  lemma VerdictIsAsked(b: Backend, e: UrbEvent)
    requires Sound(b) && Verdict(b, e) != []
    ensures !Live(Step(b, e)) && Asked(Step(b, e)) == [Verdict(b, e)[0]]
  {
    hide B.PrefixInv, B.ReadyInv, B.ShortIn, B.Judge, B.BufferAfter, B.Received;
    StepReports(b, e);
  }

  lemma {:induction false} DisconnectKeepsExplained(s: State, handle: nat, es: seq<Event>)
    requires ListInv(s) && AllExplained(s, es)
    ensures AllExplained(HandleDisconnect(s, handle), es)
    decreases |s.flying|
  {
    hide Complete, AllExplained, Sorted, Every, Clear;
    var found := FirstOn(s.flying, handle);
    if found != [] {
      var x, backend := found[0], ClearOne(s.backend, found[0]);
      AbandonKeepsList(s, x);
      CompleteKeepsExplained(s, backend, x, TransferNoDevice, es);
      CompleteShrinks(WithBackend(s, backend), x, TransferNoDevice);
      DisconnectKeepsExplained(Abandon(s, x), handle, es);
    }
  }

  lemma TimeoutsKeepExplained(s: State, es: seq<Event>)
    requires ListInv(s) && AllExplained(s, es)
    ensures AllExplained(HandleTimeouts(s), es) && AllExplained(HandleTrigger(s), es)
  {
    hide FlagExpired, CancelExpired, NewlyFlagged, Explained, ReportExplained, Expire, Rearms, TimerFor, Sorted, Every;
    forall id: nat ensures FlyingExplained(HandleTimeouts(s), es, id) && FlyingExplained(HandleTrigger(s), es, id) {
      assert FlyingExplained(s, es, id);
      FlaggingKeepsIds(s.flying, Now(s.clock), id);
      ExpiredAreFlagged(s.flying, Now(s.clock), s.backend, id);
      if Has(s.flying, id) { ExplainedGoesOn(s.backend[id], es, id, ReapBulk); }
    }
  }

  lemma SubmitKeepsExplained(s: State, e: Event, es: seq<Event>)
    requires e.Submit? && !Has(s.flying, e.id) && WellFormed(e.request) && AllExplained(s, es + [e])
    ensures AllExplained(SubmitTransfer(s, e.id, e.handle, e.timeout, e.request), es + [e])
  {
    hide IsRun, ReportExplained, Insert, Delete, Live, Backends.Submit, Outstanding, CalculateTimeout;
    var t := SubmitTransfer(s, e.id, e.handle, e.timeout, e.request);
    var f := Flight(e.id, e.handle, CalculateTimeout(s.clock, e.timeout, Field(s, e.id)), false);
    var strays := if e.id in s.backend then Outstanding(s.backend[e.id]) else 0;
    SubmitIsSound(e.request, strays);
    if e.request.taken > 0 { SubmissionIsRun(e.request, strays); }
    DeleteUndoesInsert(s.flying, f);
    assert (es + [e])[|es|] == e;
    forall id: nat ensures FlyingExplained(t, es + [e], id) {
      assert FlyingExplained(s, es + [e], id);
      HasAfterInsert(s.flying, f, id);
    }
  }

  lemma StepKeepsExplained(s: State, e: Event, es: seq<Event>)
    requires ListInv(s) && LayersInv(s) && Defined(s, e) && AllExplained(s, es)
    ensures AllExplained(Next(s, e), es + [e])
  {
    hide SubmitTransfer, HandleUrb, HandleTimeouts, HandleTrigger, HandleDisconnect, ListInv, LayersInv, AllExplained;
    AllExplainedLater(s, es, e);
    match e {
      case Submit(x, _, _, request) =>
        if !Has(s.flying, x) && WellFormed(request) { SubmitKeepsExplained(s, e, es); }
      case Urb(x, event) =>
        UrbKeepsExplained(s, x, event, es + [e]);
      case Disconnect(handle) =>
        DisconnectKeepsExplained(s, handle, es + [e]);
      case Tick(_) =>
        IdleKeepsExplained(s, e, es + [e]);
      case Cancel(_) =>
        IdleKeepsExplained(s, e, es + [e]);
      case PollTimedOut =>
        TimeoutsKeepExplained(s, es + [e]);
      case Trigger =>
        TimeoutsKeepExplained(s, es + [e]);
      case Freed(_, _) =>
    }
  }

  lemma IdleKeepsExplained(s: State, e: Event, es: seq<Event>)
    requires AllExplained(s, es) && (e.Tick? || e.Cancel?)
    ensures AllExplained(Next(s, e), es)
  {
    hide Explained, ReportExplained, Backends.Cancel;
    forall id: nat ensures FlyingExplained(Next(s, e), es, id) {
      assert FlyingExplained(s, es, id);
      if Has(s.flying, id) { ExplainedGoesOn(s.backend[id], es, id, ReapBulk); }
    }
  }

  /**
   Over every defined run, each flying transfer is in a state that a run of its machine on a request
   submitted for it reaches, and each callback is that of such a run, or says that the device is gone.
   */
  lemma {:induction false} CallbacksAreExplained(support: Support, es: seq<Event>)
    requires AllDefined(Initial(support), es)
    ensures AllExplained(Run(Initial(support), es), es)
    decreases |es|
  {
    hide Next, ListInv, LayersInv, AllExplained, Defined;
    if es != [] {
      var front := es[..|es| - 1];
      CallbacksAreExplained(support, front);
      ListStaysSorted(support, front);
      LayersInvHolds(support, front);
      StepKeepsExplained(Run(Initial(support), front), es[|es| - 1], front);
      assert front + [es[|es| - 1]] == es;
    } else {
      NothingToExplain(support);
    }
  }

  lemma NothingToExplain(support: Support)
    ensures AllExplained(Initial(support), [])
  {
  }
}
