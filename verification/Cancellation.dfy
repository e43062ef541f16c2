/** What a cancellation leads to, over every run of the whole library. */
module Cancellation {
  import opened Backends
  import opened FlyingTransfers
  import opened TransferLayers
  import opened Usbfs
  import opened Timeouts

  /** What a transfer was reported as, in order. */
  function Statuses(reports: seq<Report>, id: nat): seq<TransferStatus> {
    if reports == [] then []
    else Statuses(reports[..|reports| - 1], id)
         + (if reports[|reports| - 1].id == id then [reports[|reports| - 1].status] else [])
  }

  /** Up to here there were so many callbacks, and so many that got lost. */
  datatype Mark = Mark(reports: nat, lost: nat)

  predicate Past(s: State, m: Mark) {
    m.reports <= |s.reports| && m.lost <= |s.lost|
  }

  function Since(s: State, m: Mark, id: nat): seq<TransferStatus>
    requires Past(s, m)
  {
    Statuses(s.reports[m.reports..], id)
  }

  predicate Waits(s: State, m: Mark, id: nat)
    requires Past(s, m)
  {
    Has(s.flying, id) && Since(s, m, id) == []
  }

  predicate Over(s: State, m: Mark, id: nat)
    requires Past(s, m)
  {
    id in s.lost[m.lost..]
    || (Since(s, m, id) != [] && Since(s, m, id)[0] in {TransferCancelled, TransferTimedOut, TransferNoDevice})
  }

  /** Since the mark the transfer has not been reported, or first as one that was given up. */
  predicate Answered(s: State, m: Mark, id: nat) {
    Past(s, m) && ((Waits(s, m, id) && id in s.backend && Doomed(s.backend[id])) || Over(s, m, id))
  }

  lemma MoreStatuses(reports: seq<Report>, n: nat, r: Report, id: nat)
    requires n <= |reports|
    ensures Statuses((reports + [r])[n..], id)
            == Statuses(reports[n..], id) + (if r.id == id then [r.status] else [])
  {
    assert (reports + [r])[n..] == reports[n..] + [r];
    assert (reports[n..] + [r])[..|reports[n..]|] == reports[n..];
  }

  lemma CompleteAnswers(s: State, x: nat, status: TransferStatus, m: Mark, id: nat)
    requires Distinct(s.flying) && Past(s, m) && (Waits(s, m, id) || Over(s, m, id))
    requires x == id && !Over(s, m, id) ==> status in {TransferCancelled, TransferTimedOut, TransferNoDevice}
    ensures Past(Complete(s, x, status), m)
    ensures Over(Complete(s, x, status), m, id) || (x != id && Waits(Complete(s, x, status), m, id))
  {
    hide Delete, Statuses, Rearms, TimerFor, IsFlagged, Field, Has;
    HasAfterDelete(s.flying, x, id);
    MoreStatuses(s.reports, m.reports, Report(x, status, Field(s, x), s.clock, IsFlagged(s.flying, x)), id);
    assert (s.lost + [x])[m.lost..] == s.lost[m.lost..] + [x];
  }

  lemma BackendAside(s: State, backend: map<nat, Backend>, m: Mark, id: nat)
    requires Past(s, m)
    ensures Past(WithBackend(s, backend), m)
    ensures Waits(WithBackend(s, backend), m, id) == Waits(s, m, id)
    ensures Over(WithBackend(s, backend), m, id) == Over(s, m, id)
  {
  }

  lemma OverStays(s: State, x: nat, status: TransferStatus, m: Mark, id: nat)
    requires Past(s, m) && Past(Complete(s, x, status), m)
    ensures Over(s, m, id) ==> Over(Complete(s, x, status), m, id)
  {
    hide Delete, Statuses, Rearms, TimerFor, IsFlagged, Field;
    MoreStatuses(s.reports, m.reports, Report(x, status, Field(s, x), s.clock, IsFlagged(s.flying, x)), id);
    assert (s.lost + [x])[m.lost..] == s.lost[m.lost..] + [x];
  }

  /** Completing a transfer after its backend data has changed. */
  lemma CompleteKeepsAnswered(s: State, backend: map<nat, Backend>, x: nat, status: TransferStatus, m: Mark, id: nat)
    requires Distinct(s.flying) && Answered(s, m, id)
    requires x != id && id in s.backend ==> id in backend && backend[id] == s.backend[id]
    requires x == id && id in s.backend && Doomed(s.backend[id])
             ==> status in {TransferCancelled, TransferTimedOut, TransferNoDevice}
    ensures Answered(Complete(WithBackend(s, backend), x, status), m, id)
  {
    hide Doomed, Over, Waits, Delete, Rearms, TimerFor;
    var t := WithBackend(s, backend);
    BackendAside(s, backend, m, id);
    assert Past(t, m) && (Waits(t, m, id) || Over(t, m, id));
    CompleteAnswers(t, x, status, m, id);
    assert Complete(t, x, status).backend == backend;
    if !Over(Complete(t, x, status), m, id) {
      assert x != id && Waits(Complete(t, x, status), m, id);
      assert !Over(s, m, id) by { OverStays(t, x, status, m, id); }
    }
  }

  lemma SameAnswer(s: State, t: State, m: Mark, id: nat)
    requires Answered(s, m, id) && t.reports == s.reports && t.lost == s.lost
    requires Has(s.flying, id) ==> Has(t.flying, id)
    requires id in s.backend && Doomed(s.backend[id]) && Has(s.flying, id) ==> id in t.backend && Doomed(t.backend[id])
    ensures Answered(t, m, id)
  {
    hide Doomed, Has, Statuses;
  }

  lemma UrbKeepsAnswered(s: State, x: nat, e: UrbEvent, m: Mark, id: nat)
    requires ListInv(s) && LayersInv(s) && Answered(s, m, id)
    ensures Answered(HandleUrb(s, x, e), m, id)
  {
    hide Step, Verdict, Complete, Doomed, Answered, Sorted, Every, Sound, Live, TimedOut;
    if x in s.backend {
      var b, backend := s.backend[x], s.backend[x := Step(s.backend[x], e)];
      assert LayerAt(s, x);
      DoomedIsCancelled(b, e);
      if Verdict(b, e) != [] {
        CompleteKeepsAnswered(s, backend, x, Verdict(b, e)[0], m, id);
      } else {
        SameAnswer(s, WithBackend(s, backend), m, id);
      }
    }
  }

  lemma {:induction false} DisconnectKeepsAnswered(s: State, handle: nat, m: Mark, id: nat)
    requires ListInv(s) && Answered(s, m, id)
    ensures Answered(HandleDisconnect(s, handle), m, id)
    decreases |s.flying|
  {
    hide Complete, Doomed, Answered, Sorted, Every, Clear;
    var found := FirstOn(s.flying, handle);
    if found != [] {
      AbandonKeepsList(s, found[0]);
      CompleteKeepsAnswered(s, ClearOne(s.backend, found[0]), found[0], TransferNoDevice, m, id);
      CompleteShrinks(WithBackend(s, ClearOne(s.backend, found[0])), found[0], TransferNoDevice);
      DisconnectKeepsAnswered(Abandon(s, found[0]), handle, m, id);
    }
  }

  lemma TimeoutsKeepAnswered(s: State, m: Mark, id: nat)
    requires ListInv(s) && Answered(s, m, id)
    ensures Answered(HandleTimeouts(s), m, id) && Answered(HandleTrigger(s), m, id)
  {
    hide FlagExpired, CancelExpired, NewlyFlagged, Answered, Doomed, Expire, Rearms, TimerFor, Sorted, Every;
    var now := Now(s.clock);
    FlaggingKeepsIds(s.flying, now, id);
    ExpiredAreFlagged(s.flying, now, s.backend, id);
    if id in s.backend { CancelDooms(s.backend[id]); }
    SameAnswer(s, HandleTimeouts(s), m, id);
    SameAnswer(s, HandleTrigger(s), m, id);
  }

  lemma SubmitKeepsAnswered(s: State, x: nat, handle: nat, timeout: nat, request: Request, m: Mark, id: nat)
    requires Answered(s, m, id) && !Has(s.flying, x)
    ensures Answered(SubmitTransfer(s, x, handle, timeout, request), m, id)
  {
    hide Answered, Doomed, Insert, Delete, Live, Backends.Submit, Outstanding, CalculateTimeout;
    var f := Flight(x, handle, CalculateTimeout(s.clock, timeout, Field(s, x)), false);
    HasAfterInsert(s.flying, f, id);
    DeleteUndoesInsert(s.flying, f);
    SameAnswer(s, SubmitTransfer(s, x, handle, timeout, request), m, id);
  }

  lemma StepKeepsAnswered(s: State, e: Event, m: Mark, id: nat)
    requires ListInv(s) && LayersInv(s) && Defined(s, e) && Answered(s, m, id)
    ensures Answered(Next(s, e), m, id)
  {
    hide SubmitTransfer, HandleUrb, HandleTimeouts, HandleTrigger, HandleDisconnect, ListInv, LayersInv, Answered, Doomed;
    match e {
      case Submit(x, handle, timeout, request) =>
        if !Has(s.flying, x) { SubmitKeepsAnswered(s, x, handle, timeout, request, m, id); }
      case Urb(x, event) =>
        UrbKeepsAnswered(s, x, event, m, id);
      case Disconnect(handle) =>
        DisconnectKeepsAnswered(s, handle, m, id);
      case Tick(_) =>
        SameAnswer(s, Next(s, e), m, id);
      case Cancel(x) =>
        if x in s.backend { CancelDooms(s.backend[x]); }
        SameAnswer(s, Next(s, e), m, id);
      case PollTimedOut =>
        TimeoutsKeepAnswered(s, m, id);
      case Trigger =>
        TimeoutsKeepAnswered(s, m, id);
      case Freed(_, _) =>
    }
  }

  lemma {:induction false} AnswerComes(s: State, fs: seq<Event>, m: Mark, id: nat)
    requires ListInv(s) && LayersInv(s) && Answered(s, m, id) && AllDefined(s, fs)
    ensures ListInv(Run(s, fs)) && LayersInv(Run(s, fs)) && Answered(Run(s, fs), m, id)
    decreases |fs|
  {
    hide Next, ListInv, LayersInv, Answered, Defined;
    if fs != [] {
      var t, e := Run(s, fs[..|fs| - 1]), fs[|fs| - 1];
      AnswerComes(s, fs[..|fs| - 1], m, id);
      StepKeepsList(t, e);
      StepKeepsLayers(t, e);
      StepKeepsAnswered(t, e, m, id);
    }
  }

  /**
   Cancelling works: whatever happens after a flying transfer was cancelled, its first report from
   then on says cancelled, timed out or no device; unless that very callback is lost for the timer.
   */
  lemma CancelIsAnswered(support: Support, es: seq<Event>, id: nat, fs: seq<Event>)
    requires AllDefined(Initial(support), es) && Has(Run(Initial(support), es).flying, id)
    requires AllDefined(Next(Run(Initial(support), es), Cancel(id)), fs)
    ensures var s := Run(Initial(support), es);
      var t := Run(Next(s, Cancel(id)), fs);
      && |s.reports| <= |t.reports| && |s.lost| <= |t.lost|
      && var since := Statuses(t.reports[|s.reports|..], id);
         (id !in t.lost[|s.lost|..] && since != []
          ==> since[0] in {TransferCancelled, TransferTimedOut, TransferNoDevice})
  {
    hide Run, ListInv, Doomed, Live, Sound, TimedOut, Backends.Cancel, AllDefined, Next;
    var s := Run(Initial(support), es);
    var m := Mark(|s.reports|, |s.lost|);
    ListStaysSorted(support, es);
    LayersInvHolds(support, es);
    assert LayerAt(s, id);
    CancelDooms(s.backend[id]);
    StepKeepsList(s, Cancel(id));
    StepKeepsLayers(s, Cancel(id));
    NextCancels(s, id);
    assert Answered(Next(s, Cancel(id)), m, id);
    hide LayersInv;
    AnswerComes(Next(s, Cancel(id)), fs, m, id);
  }

  lemma NextCancels(s: State, id: nat)
    ensures Next(s, Cancel(id)) == WithBackend(s, CancelOne(s.backend, id))
  {
  }
}
