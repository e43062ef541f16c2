/**
 When the library reads a URB that it has freed, and what callers and devices can do so that it
 never does.
 */
module FreedUrbs {
  import opened Backends
  import opened FlyingTransfers
  import opened TransferLayers
  import opened Usbfs
  import BulkRuns
  import B = BulkUrbs
  import S = StrandedUrbs
  import Timeouts

  /**
   Over every run before the first such read: a transfer that was not submitted over outstanding
   URBs can be handed a freed URB exactly if a hard error stranded some and one has finished.
   */
  lemma ReadsFreedExactly(support: Support, es: seq<Event>, id: nat)
    requires AllDefined(Initial(support), es)
    ensures var s := Run(Initial(support), es);
      id in s.backend && s.backend[id].Bulk? && s.backend[id].watched && s.backend[id].strays == 0
      ==> var bulk := s.backend[id].bulk;
          (ReadsFreed(s, id) <==> BulkRuns.StrandedByHardError(bulk) && bulk.kernel.reaped in bulk.kernel.ready)
  {
    hide Run, B.Inv;
    LayersInvHolds(support, es);
    var s := Run(Initial(support), es);
    assert LayerAt(s, id);
    if id in s.backend && s.backend[id].Bulk? && B.Inv(s.backend[id].bulk) {
      S.FreedUrbComesBackExactly(s.backend[id].bulk);
    }
  }

  // ---------------------------------------------------------------- where it cannot happen

  /** No URB of an earlier submission is about, and no hard error has hit a URB but the last. */
  ghost predicate Tidy(b: Backend) {
    match b
    case Bulk(bulk, strays, watched) =>
      strays == 0 && (watched ==> Refused(bulk) || (B.Inv(bulk) && S.FailedLast(bulk)))
    case Iso(_, _, _, _, strays) => strays == 0
  }

  ghost predicate AllTidy(backend: map<nat, Backend>) {
    forall id :: id in backend ==> Tidy(backend[id])
  }

  /** The kernel does not finish a URB with a hard error unless it is the last of its transfer. */
  predicate FailsLate(s: State, e: Event) {
    e.Urb? && e.event.Finish? && e.id in s.backend && s.backend[e.id].Bulk?
    ==> S.FailsLast(s.backend[e.id].bulk.numUrbs, B.Finish(e.event.urb, e.event.completion))
  }

  predicate AllFailLate(s: State, es: seq<Event>)
    decreases |es|
  {
    es == [] || (AllFailLate(s, es[..|es| - 1]) && FailsLate(Run(s, es[..|es| - 1]), es[|es| - 1]))
  }

  lemma SubmitIsTidy(r: Request)
    requires WellFormed(r)
    ensures Tidy(Backends.Submit(r, 0))
  {
    SubmitIsSound(r, 0);
  }

  lemma TidyReadsNothingFreed(b: Backend)
    requires Tidy(b) && Sound(b)
    ensures !HandsBackFreed(b) && (!Live(b) ==> Outstanding(b) == 0)
  {
    if b.Bulk? && b.watched && !Refused(b.bulk) {
      S.FreedUrbComesBackExactly(b.bulk);
      S.FailedLastIsDefined(b.bulk, B.Reap);
    }
  }

  lemma BulkStaysTidy(s: B.State, e: B.Event)
    requires B.Inv(s) && S.FailedLast(s) && S.FailsLast(s.numUrbs, e) && B.Defined(s, e)
    ensures B.Inv(B.Next(s, e)) && S.FailedLast(B.Next(s, e))
  {
    B.StepKeeps(s, e);
    S.StepKeepsFailedLast(s, e);
  }

  lemma StepStaysTidy(b: Backend, e: UrbEvent)
    requires Tidy(b)
    requires e.Finish? && b.Bulk? ==> S.FailsLast(b.bulk.numUrbs, B.Finish(e.urb, e.completion))
    ensures Tidy(Step(b, e))
  {
    hide B.Inv, S.FailedLast;
    if b.Bulk? && b.watched && !Refused(b.bulk) && !e.ReapIso? {
      BulkStaysTidy(b.bulk, if e.Finish? then B.Finish(e.urb, e.completion) else B.Reap);
    }
  }

  lemma CancelStaysTidy(b: Backend)
    requires Tidy(b)
    ensures Tidy(Backends.Cancel(b)) && Tidy(Expire(b)) && Tidy(Clear(b))
  {
    hide B.Inv, S.FailedLast;
    if b.Bulk? && b.watched && !Refused(b.bulk) {
      BulkStaysTidy(b.bulk, B.Cancel);
      BulkStaysTidy(b.bulk, B.Expire);
    }
  }

  lemma {:induction false} DisconnectStaysTidy(s: State, handle: nat)
    requires AllTidy(s.backend)
    ensures AllTidy(HandleDisconnect(s, handle).backend)
    decreases |s.flying|
  {
    hide Tidy, Clear, Delete;
    var found := FirstOn(s.flying, handle);
    if found != [] {
      if found[0] in s.backend { CancelStaysTidy(s.backend[found[0]]); }
      CompleteShrinks(WithBackend(s, ClearOne(s.backend, found[0])), found[0], TransferNoDevice);
      DisconnectStaysTidy(Abandon(s, found[0]), handle);
    }
  }

  lemma TimeoutsStayTidy(s: State)
    requires AllTidy(s.backend) && ListInv(s)
    ensures AllTidy(HandleTimeouts(s).backend) && AllTidy(HandleTrigger(s).backend)
  {
    hide Tidy, Expire, CancelExpired, FlagExpired, NewlyFlagged, Sorted, Rearms;
    var t := HandleTimeouts(s);
    forall id | id in t.backend ensures Tidy(t.backend[id]) {
      ExpiredAreFlagged(s.flying, Timeouts.Now(s.clock), s.backend, id);
      CancelStaysTidy(s.backend[id]);
    }
  }

  lemma SubmitStaysTidy(s: State, id: nat, handle: nat, timeout: nat, request: Request)
    requires AllTidy(s.backend) && LayersInv(s) && !Has(s.flying, id) && WellFormed(request)
    ensures AllTidy(SubmitTransfer(s, id, handle, timeout, request).backend)
  {
    hide Tidy, Live, Outstanding, Sound, TimedOut, Has, Insert, Delete, Backends.Submit;
    assert LayerAt(s, id);
    if id in s.backend { TidyReadsNothingFreed(s.backend[id]); }
    SubmitIsTidy(request);
  }

  lemma StepIsTidy(s: State, e: Event)
    requires AllTidy(s.backend) && ListInv(s) && LayersInv(s) && FailsLate(s, e)
    ensures Defined(s, e) && AllTidy(Next(s, e).backend)
  {
    hide SubmitTransfer, HandleTimeouts, HandleTrigger, HandleDisconnect, ListInv, LayersInv, Tidy, Step, Clear;
    match e {
      case Submit(id, handle, timeout, request) =>
        if !Has(s.flying, id) && WellFormed(request) { SubmitStaysTidy(s, id, handle, timeout, request); }
      case Urb(id, event) =>
        if id in s.backend { StepStaysTidy(s.backend[id], event); }
      case Disconnect(handle) =>
        DisconnectStaysTidy(s, handle);
      case Tick(_) =>
      case Cancel(id) =>
        if id in s.backend { CancelStaysTidy(s.backend[id]); }
      case PollTimedOut =>
        TimeoutsStayTidy(s);
      case Trigger =>
        TimeoutsStayTidy(s);
      case Freed(id, _) =>
        if id in s.backend { TidyIsDefined(s, id); }
    }
  }

  lemma TidyIsDefined(s: State, id: nat)
    requires AllTidy(s.backend) && LayersInv(s) && id in s.backend
    ensures !ReadsFreed(s, id)
  {
    assert LayerAt(s, id);
    TidyReadsNothingFreed(s.backend[id]);
  }

  /**
   As long as hard errors hit only the last URB of a transfer, no run reads a freed URB, whatever
   is cancelled, times out, is submitted again or unplugged.
   */
  lemma {:induction false} LateErrorsAreHarmless(support: Support, es: seq<Event>)
    requires AllFailLate(Initial(support), es)
    ensures AllDefined(Initial(support), es) && AllTidy(Run(Initial(support), es).backend)
    decreases |es|
  {
    hide Next, ListInv, LayersInv, FailsLate, Defined, Tidy;
    if es != [] {
      LateErrorsAreHarmless(support, es[..|es| - 1]);
      ListStaysSorted(support, es[..|es| - 1]);
      LayersInvHolds(support, es[..|es| - 1]);
      StepIsTidy(Run(Initial(support), es[..|es| - 1]), es[|es| - 1]);
    }
  }
}
