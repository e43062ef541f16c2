/** That the library gets on: what a submission, a URB that comes back and a timeout bring about. */
module Progress {
  import opened Backends
  import opened FlyingTransfers
  import opened Timeouts
  import opened TransferLayers
  import opened Usbfs
  import B = BulkUrbs
  import I = IsoUrbs

  /**
   A submission of which the kernel takes a URB flies with its deadline, to the microsecond, or, with
   no timeout, with the one it had; one that is refused leaves list and account alone. Nobody else
   notices either.
   */
  lemma SubmissionTakesOff(s: State, id: nat, handle: nat, timeout: nat, request: Request, other: nat)
    requires ListInv(s) && !Has(s.flying, id) && WellFormed(request)
    ensures var t := Next(s, Submit(id, handle, timeout, request));
      && t.reports == s.reports && t.lost == s.lost && t.clock == s.clock
      && (request.taken == 0 ==> t.flying == s.flying && t.accepted == s.accepted)
      && (request.taken > 0 ==>
            && t.accepted == s.accepted + [id] && Has(t.flying, id)
            && var f := Get(t.flying, id);
               f.handle == handle && !f.timedOut
               && if timeout == 0 then f.deadline == Field(s, id)
                  else IsSet(f.deadline) && Total(f.deadline) == (s.clock + timeout * 1_000_000) / 1000)
      && (Has(s.flying, other) ==> Has(t.flying, other) && Get(t.flying, other) == Get(s.flying, other))
  {
    hide Insert, Delete, ListInv, Live, Backends.Submit, Outstanding;
    var f := Flight(id, handle, CalculateTimeout(s.clock, timeout, Field(s, id)), false);
    SubmitIsSound(request, if id in s.backend then Outstanding(s.backend[id]) else 0);
    if timeout > 0 { DeadlineIsExact(s.clock, timeout, Field(s, id)); }
    DeleteUndoesInsert(s.flying, f);
    HasAfterInsert(s.flying, f, id);
    GetAfterInsert(s.flying, f, id);
    if Has(s.flying, other) { GetAfterInsert(s.flying, f, other); }
  }

  /**
   What the kernel does reaches the transfer: a finished URB is there to be reaped, a reaped one has
   been handled, and with the last one outstanding the transfer leaves the list.
   */
  lemma UrbsAreHandled(s: State, id: nat, e: UrbEvent)
    requires ListInv(s) && LayersInv(s) && LayerAt(s, id) && Has(s.flying, id)
    ensures var b, t := s.backend[id], Next(s, Urb(id, e));
      && id in t.backend
      && (b.Bulk? && e.Finish? && B.Enabled(b.bulk, B.Finish(e.urb, e.completion))
          ==> t.backend[id].Bulk? && t.backend[id].bulk.kernel.ready == b.bulk.kernel.ready[e.urb := e.completion])
      && (b.Bulk? && e.ReapBulk? && b.bulk.kernel.reaped in b.bulk.kernel.ready
          ==> && t.backend[id].Bulk?
              && t.backend[id].bulk.got
                 == b.bulk.got + [B.Reaped(b.bulk.action, b.bulk.kernel.ready[b.bulk.kernel.reaped])]
              && (b.bulk.kernel.reaped + 1 == b.bulk.kernel.submitted ==> !Has(t.flying, id)))
      && (b.Iso? && e.ReapIso? && |b.iso.back| < |b.iso.counts| && |e.reaped.frames| == b.iso.counts[|b.iso.back|]
          ==> && t.backend[id].Iso? && t.backend[id].iso.back == b.iso.back + [e.reaped]
              && (|b.iso.back| + 1 == b.iso.submitted ==> !Has(t.flying, id)))
  {
    hide Complete, Delete, Verdict, B.PrefixInv, B.ReadyInv, B.ShortIn, B.Judge, B.BufferAfter, B.Received, B.ReportInv;
    assert LayerAt(s, id);
    UrbKeepsLayers(s, id, e);
    assert LayerAt(HandleUrb(s, id, e), id);
    CompleteKeepsBackend(s, id, e);
    LastUrbFrees(s.backend[id], e);
  }

  lemma CompleteKeepsBackend(s: State, id: nat, e: UrbEvent)
    requires id in s.backend
    ensures HandleUrb(s, id, e).backend == s.backend[id := Step(s.backend[id], e)]
  {
    hide Step, Verdict, Delete, Rearms, TimerFor;
  }

  lemma LastUrbFrees(b: Backend, e: UrbEvent)
    requires Sound(b) && Live(b)
    ensures (b.Bulk? && e.ReapBulk? && b.bulk.kernel.reaped in b.bulk.kernel.ready
             && b.bulk.kernel.reaped + 1 == b.bulk.kernel.submitted)
            ==> !Live(Step(b, e))
    ensures (b.Iso? && e.ReapIso? && |b.iso.back| < |b.iso.counts| && |e.reaped.frames| == b.iso.counts[|b.iso.back|]
             && |b.iso.back| + 1 == b.iso.submitted)
            ==> !Live(Step(b, e))
    ensures b.Iso? ==> (|b.iso.back| < b.iso.submitted <= |b.iso.counts|)
  {
    hide B.PrefixInv, B.ReadyInv, B.ShortIn, B.BufferAfter, B.Received, B.ReportInv;
  }

  /** When timeouts are handled, each flying transfer whose deadline has passed is flagged and given up. */
  lemma TimeoutsAreHandled(s: State, e: Event, id: nat)
    requires ListInv(s) && LayersInv(s) && (e.PollTimedOut? || (e.Trigger? && s.timer.Armed?))
    ensures var t := Next(s, e);
      && (Has(t.flying, id) <==> Has(s.flying, id)) && t.clock == s.clock
      && (Has(t.flying, id) ==> Get(t.flying, id).deadline == Get(s.flying, id).deadline)
      && (Has(t.flying, id) && IsSet(Get(t.flying, id).deadline) && Total(Get(t.flying, id).deadline) <= s.clock / 1000
          ==> Get(t.flying, id).timedOut && id in t.backend && Doomed(t.backend[id]))
  {
    hide CancelExpired, NewlyFlagged, Live, Sound, TimedOut, Expire, Rearms, TimerFor, Doomed, Distinct, FlagExpired;
    var q, now := s.flying, Now(s.clock);
    assert LayerAt(s, id);
    FlaggingKeepsIds(q, now, id);
    if Has(q, id) {
      NowIsCarried(s.clock);
      FlaggedInPlace(q, now, id);
      ExpiryIsExact(Get(q, id).deadline, now);
      FlaggingKeepsLayers(s);
      assert LayerAt(Next(s, e), id);
      if TimedOut(Next(s, e).backend[id]) { FlaggedIsDoomed(Next(s, e).backend[id]); }
    }
  }

  lemma FlaggedIsDoomed(b: Backend)
    requires Sound(b) && Live(b) && TimedOut(b)
    ensures Doomed(b)
  {
  }

  /** What the scan makes of one transfer. */
  lemma FlaggedInPlace(q: seq<Flight>, now: Timeval, id: nat)
    requires Sorted(q) && Distinct(q) && Has(q, id) && Every(q, Bounded)
    ensures Has(FlagExpired(q, now), id) && Get(FlagExpired(q, now), id) == Flagged(Get(q, id), now)
    ensures Bounded(Get(q, id).deadline)
  {
    ScanFlagsExactlyTheExpired(q, now);
    GetFlagged(q, FlagExpired(q, now), now, id);
  }

  lemma {:induction false} GetFlagged(q: seq<Flight>, r: seq<Flight>, now: Timeval, id: nat)
    requires |r| == |q| && Has(q, id) && forall i :: 0 <= i < |q| ==> r[i] == Flagged(q[i], now)
    ensures Has(r, id) && Get(r, id) == Flagged(Get(q, id), now)
    decreases |q|
  {
    if q[0].id != id { GetFlagged(q[1..], r[1..], now, id); }
  }
}
