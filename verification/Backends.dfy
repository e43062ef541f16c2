/**
 A transfer as the Linux backend holds it, bulk or isochronous, with the steps the generic code
 makes it take: submission, a URB coming back, cancellation, expiry, and being cleared.
 */
module Backends {
  import opened Usbfs
  import opened Words
  import B = BulkUrbs
  import I = IsoUrbs

  /**
   Also the bulk URBs of earlier submissions that are still with the kernel, and whether their
   file descriptor is still polled; for isochronous transfers, what the generic code looks at
   when they are reported.
   */
  datatype Backend =
    | Bulk(bulk: B.State, strays: nat, watched: bool)
    | Iso(iso: I.State, timedOut: bool, shortNotOk: bool, length: nat, strays: nat)

  /** What a submission hands over, and how many URBs the kernel takes. */
  datatype Request =
    | BulkRequest(buffer: seq<byte>, continuation: bool, shortNotOk: bool, taken: nat)
    | IsoRequest(counts: seq<nat>, results: seq<I.Result>, shortNotOk: bool, length: nat, taken: nat)

  /** Something the kernel does to one transfer: finish a URB, or give one back. */
  datatype UrbEvent =
    | Finish(urb: nat, completion: B.Completion)
    | ReapBulk
    | ReapIso(reaped: I.Reaped)

  /** The URB pointer is not NULL. */
  predicate Live(b: Backend) {
    match b
    case Bulk(bulk, _, _) => bulk.live
    case Iso(iso, _, _, _, _) => iso.live
  }

  /** USBI_TRANSFER_TIMED_OUT. */
  predicate TimedOut(b: Backend) {
    match b
    case Bulk(bulk, _, _) => bulk.timedOut
    case Iso(_, timedOut, _, _, _) => timedOut
  }

  /** An isochronous transfer has at least one URB, and a descriptor for every packet. */
  predicate WellFormed(r: Request) {
    r.IsoRequest? ==> r.counts != [] && I.Total(r.counts, |r.counts|) <= |r.results|
  }

  /** The URBs of this and earlier submissions that the kernel still has to give back. */
  function Outstanding(b: Backend): nat {
    match b
    case Bulk(bulk, strays, watched) =>
      if watched && bulk.kernel.submitted >= bulk.kernel.reaped
      then strays + (bulk.kernel.submitted - bulk.kernel.reaped) else strays
    case Iso(_, _, _, _, strays) => strays
  }

  /**
   The kernel can give back a URB whose memory the library has freed: one of an earlier
   submission, or one that was outstanding when the transfer was reported.
   */
  predicate HandsBackFreed(b: Backend) {
    b.strays > 0 || (b.Bulk? && b.watched && !b.bulk.live && b.bulk.kernel.reaped in b.bulk.kernel.ready)
  }

  /** A new array of URBs; those of earlier submissions are not waited for. */
  function Submit(r: Request, strays: nat): Backend {
    match r
    case BulkRequest(buffer, continuation, shortNotOk, taken) =>
      Bulk(B.Submitted(buffer, continuation, shortNotOk, taken), strays, true)
    case IsoRequest(counts, results, shortNotOk, length, taken) =>
      Iso(I.Start(counts, if taken < |counts| then taken else |counts|, results), false, shortNotOk, length, strays)
  }

  function Step(b: Backend, e: UrbEvent): Backend {
    match b
    case Bulk(bulk, _, _) =>
      (match e
       case Finish(urb, completion) => b.(bulk := B.Next(bulk, B.Finish(urb, completion)))
       case ReapBulk => b.(bulk := B.Next(bulk, B.Reap))
       case ReapIso(_) => b)
    case Iso(iso, _, _, _, _) =>
      if e.ReapIso? then b.(iso := I.Next(iso, I.Reap(e.reaped))) else b
  }

  /**
   The callback's status for an isochronous transfer. The generic code compares the length with
   the bytes transferred, which isochronous transfers never count.
   */
  function IsoStatus(r: I.Report, timedOut: bool, shortNotOk: bool, length: nat): TransferStatus {
    match r
    case Completed => if shortNotOk && length != 0 then TransferError else TransferCompleted
    case Error => TransferError
    case Cancellation => if timedOut then TransferTimedOut else TransferCancelled
  }

  /** The callbacks the backend has asked for so far. */
  function Asked(b: Backend): seq<TransferStatus> {
    match b
    case Bulk(bulk, _, _) => bulk.reports
    case Iso(iso, timedOut, shortNotOk, length, _) =>
      if iso.reports == [] then []
      else [IsoStatus(iso.reports[|iso.reports| - 1], timedOut, shortNotOk, length)]
  }

  /** The callback this step asks for, if any. */
  function Verdict(b: Backend, e: UrbEvent): seq<TransferStatus> {
    var before, after := Asked(b), Asked(Step(b, e));
    if |after| > |before| then [after[|after| - 1]] else []
  }

  /** libusb_cancel_transfer: nothing happens to a transfer without URBs. */
  function Cancel(b: Backend): Backend {
    match b
    case Bulk(bulk, _, _) => b.(bulk := B.Next(bulk, B.Cancel))
    case Iso(iso, _, _, _, _) => b.(iso := I.Next(iso, I.Cancel))
  }

  /** handle_timeout: the flag, then the cancellation. */
  function Expire(b: Backend): Backend {
    match b
    case Bulk(bulk, _, _) => b.(bulk := B.Next(bulk, B.Expire))
    case Iso(iso, _, _, _, _) =>
      if iso.live then b.(iso := I.Next(iso, I.Cancel), timedOut := true) else b
  }

  /**
   op_clear_transfer_priv: the URBs are freed, whatever the kernel still does with them. The
   device is gone by then, and its file descriptor has left the poll set.
   */
  function Clear(b: Backend): Backend {
    match b
    case Bulk(bulk, _, _) => Bulk(bulk.(live := false), 0, false)
    case Iso(iso, _, _, _, _) => b.(iso := iso.(live := false), strays := 0)
  }

  // ---------------------------------------------------------------- what a transfer keeps

  /** No URB of the last submission was taken. */
  predicate Refused(s: B.State) {
    !s.live && s.got == [] && s.kernel == B.Kernel(0, 0, map[], {})
  }

  /** A transfer satisfies the invariants of its own machine, until its device is gone. */
  ghost predicate Sound(b: Backend) {
    match b
    case Bulk(bulk, _, watched) => (bulk.live ==> watched) && (watched ==> Refused(bulk) || B.Inv(bulk))
    case Iso(iso, timedOut, _, _, _) => iso.live ==> I.CountInv(iso) && (timedOut ==> iso.action == Cancelled)
  }

  lemma SubmitIsSound(r: Request, strays: nat)
    requires WellFormed(r)
    ensures Sound(Submit(r, strays)) && !TimedOut(Submit(r, strays)) && (Live(Submit(r, strays)) <==> r.taken > 0)
  {
    if r.BulkRequest? && r.taken > 0 {
      B.SubmitEstablishes(r.buffer, r.continuation, r.shortNotOk, r.taken);
    }
  }

  /**
   A step reports exactly when it frees the URBs; it reports a timeout exactly if the flag is
   set; and it never raises or drops the flag.
   */
  lemma StepReports(b: Backend, e: UrbEvent)
    requires Sound(b)
    ensures Sound(Step(b, e)) && TimedOut(Step(b, e)) == TimedOut(b)
    ensures |Verdict(b, e)| == if Live(b) && !Live(Step(b, e)) then 1 else 0
    ensures Verdict(b, e) != [] ==> (Verdict(b, e)[0] == TransferTimedOut <==> TimedOut(b))
    ensures !Live(b) ==> !Live(Step(b, e))
  {
    hide B.PrefixInv, B.ReadyInv, B.ShortIn, B.Judge, B.BufferAfter, B.Received;
    if b.Bulk? && !e.ReapIso? {
      if b.watched && !Refused(b.bulk) {
        B.StepKeeps(b.bulk, if e.Finish? then B.Finish(e.urb, e.completion) else B.Reap);
      }
    } else if b.Iso? && Live(b) && e.ReapIso? {
      I.StepKeepsCounts(b.iso, I.Reap(e.reaped));
    }
  }

  /** Cancellation and expiry leave the URBs to the kernel; expiry sets the flag of a live transfer. */
  lemma CancelKeepsLive(b: Backend)
    requires Sound(b)
    ensures Sound(Cancel(b)) && Live(Cancel(b)) == Live(b) && TimedOut(Cancel(b)) == TimedOut(b)
    ensures Sound(Expire(b)) && Live(Expire(b)) == Live(b) && TimedOut(Expire(b)) == (TimedOut(b) || Live(b))
    ensures Sound(Clear(b)) && !Live(Clear(b))
  {
    hide B.PrefixInv, B.ReadyInv, B.ShortIn, B.Received;
    if b.Bulk? && Live(b) {
      B.StepKeeps(b.bulk, B.Cancel);
      B.StepKeeps(b.bulk, B.Expire);
    } else if b.Iso? && Live(b) {
      I.StepKeepsCounts(b.iso, I.Cancel);
    }
  }

  /** In flight, and given up by the user or for its timeout. */
  predicate Doomed(b: Backend) {
    match b
    case Bulk(bulk, _, _) => bulk.live && bulk.action == Cancelled
    case Iso(iso, _, _, _, _) => iso.live && iso.action == Cancelled
  }

  /** A transfer given up stays so, and is reported as nothing but cancelled or timed out. */
  lemma DoomedIsCancelled(b: Backend, e: UrbEvent)
    requires Sound(b)
    ensures Doomed(b) && Verdict(b, e) == [] ==> Doomed(Step(b, e))
    ensures Doomed(b) && Verdict(b, e) != []
            ==> Verdict(b, e)[0] == if TimedOut(b) then TransferTimedOut else TransferCancelled
  {
    hide B.PrefixInv, B.ReadyInv, B.ShortIn, B.BufferAfter, B.Received;
    if Doomed(b) { StepReports(b, e); }
  }

  lemma CancelDooms(b: Backend)
    ensures Live(b) ==> Doomed(Cancel(b)) && Doomed(Expire(b))
    ensures Doomed(b) ==> Live(b)
  {
  }

  /**
   An isochronous transfer is reported as completed exactly if all of it was submitted, nobody
   cancelled it, and the user did not ask for short transfers to be errors or gave no length:
   with both, every transfer looks short, for its bytes are never counted.
   */
  lemma IsoCompletedExactly(counts: seq<nat>, submitted: nat, results: seq<I.Result>, es: seq<I.Event>,
                            timedOut: bool, shortNotOk: bool, length: nat)
    requires 0 < submitted <= |counts| && |results| >= I.Total(counts, |counts|)
    requires I.Run(I.Start(counts, submitted, results), es).reports != []
    ensures var s0 := I.Start(counts, submitted, results);
      IsoStatus(I.Run(s0, es).reports[0], timedOut, shortNotOk, length) == TransferCompleted
      <==> submitted == |counts| && !I.EverCancelled(s0, es) && !(shortNotOk && length != 0)
    ensures var s0 := I.Start(counts, submitted, results);
      IsoStatus(I.Run(s0, es).reports[0], timedOut, shortNotOk, length)
      == if I.EverCancelled(s0, es) then (if timedOut then TransferTimedOut else TransferCancelled)
         else if submitted < |counts| || (shortNotOk && length != 0) then TransferError
         else TransferCompleted
  {
    hide I.Run, I.EverCancelled;
    I.IsoReportedOnce(counts, submitted, results, es);
    I.IsoStatusIsTruthful(counts, submitted, results, es);
  }
}
