/**
 Bulk and interrupt transfers of the Linux backend: one logical transfer is cut into URBs
 of at most 16 KiB, all of them are handed to the kernel at once, and the completions are
 folded back into one report.

 `State` is the transfer together with the kernel's side of it. `Next` is one step of the
 pair: the kernel finishing a URB, the library reaping the oldest unreaped one, or a
 cancellation (by the user or by a timeout). The library may also be handed a URB that it has
 freed with the report, and goes on to read it: any state may follow. `BulkTransfer` is the
 imperative code, proved to take exactly the other steps.
 */
module BulkUrbs {

  import opened Usbfs
  import opened Words

  const MAX_BULK_BUFFER_LENGTH: nat := 16384

  datatype UrbStatus = Success | RemoteIo | Pipe | Overflow | Time | Proto | IlSeq | OtherErrno

  /** How the kernel finished a URB; `data` is what it left at the start of the URB's region. */
  datatype Completion = Completion(status: UrbStatus, data: seq<byte>)

  /** A completion the library has handled, with the reap action in force at that moment. */
  datatype Reaped = Reaped(mode: ReapAction, completion: Completion)

  datatype Kernel = Kernel(
    submitted: nat,              // URBs accepted by SUBMITURB
    reaped: nat,                 // URBs returned by REAPURBNDELAY, oldest first
    ready: map<nat, Completion>, // finished, not yet reaped
    discards: set<nat>)          // URBs passed to DISCARDURB

  datatype State = State(
    buffer: seq<byte>,
    continuation: bool,          // the kernel knows USBFS_URB_BULK_CONTINUATION
    shortNotOk: bool,            // LIBUSB_TRANSFER_SHORT_NOT_OK on the transfer
    live: bool,                  // tpriv->urbs != NULL
    numUrbs: nat,
    numRetired: nat,
    action: ReapAction,
    transferred: nat,
    timedOut: bool,              // USBI_TRANSFER_TIMED_OUT
    kernel: Kernel,
    got: seq<Reaped>,            // everything reaped so far, in order
    reports: seq<TransferStatus>)// callbacks made

  // ---------------------------------------------------------------- URB layout

  function NumUrbs(length: nat): nat {
    if length == 0 then 1
    else length / MAX_BULK_BUFFER_LENGTH + (if length % MAX_BULK_BUFFER_LENGTH > 0 then 1 else 0)
  }

  function Start(k: nat): nat { k * MAX_BULK_BUFFER_LENGTH }

  function UrbLength(length: nat, k: nat): nat {
    if k == NumUrbs(length) - 1 && length % MAX_BULK_BUFFER_LENGTH > 0 then length % MAX_BULK_BUFFER_LENGTH
    else if length == 0 then 0
    else MAX_BULK_BUFFER_LENGTH
  }

  /** URB k is within the limit and ends where the next begins, or at the end of the buffer. */
  lemma UrbEnd(length: nat, k: nat)
    requires k < NumUrbs(length)
    ensures UrbLength(length, k) <= MAX_BULK_BUFFER_LENGTH
    ensures Start(k) + UrbLength(length, k) == if k == NumUrbs(length) - 1 then length else Start(k + 1)
    ensures Start(k) <= length
  {
    var n, m := length / MAX_BULK_BUFFER_LENGTH, length % MAX_BULK_BUFFER_LENGTH;
    assert length == n * MAX_BULK_BUFFER_LENGTH + m;
  }

  ghost predicate Holds(length: nat, k: nat, i: nat) {
    k < NumUrbs(length) && Start(k) <= i < Start(k) + UrbLength(length, k)
  }

  /** Every byte of the buffer belongs to exactly one URB. */
  lemma UrbsTileTheBuffer(length: nat, i: nat)
    requires i < length
    ensures exists k: nat :: Holds(length, k, i)
    ensures forall j: nat, k: nat | Holds(length, j, i) && Holds(length, k, i) :: j == k
  {
    var at := i / MAX_BULK_BUFFER_LENGTH;
    UrbEnd(length, NumUrbs(length) - 1);
    UrbEnd(length, at);
    assert Holds(length, at, i);
    forall k: nat | Holds(length, k, i)
      ensures k == at
    {
      UrbEnd(length, k);
    }
  }

  // ---------------------------------------------------------------- the steps

  predicate Soft(status: UrbStatus) { status == Success || status == RemoteIo }

  function HardStatus(status: UrbStatus): TransferStatus {
    match status
    case Pipe => TransferStall
    case Overflow => TransferOverflow
    case _ => TransferError
  }

  /** A hard error met in normal mode, which completes the transfer on the spot. */
  predicate FailsHard(r: Reaped) {
    r.mode == Normal && !Soft(r.completion.status)
  }

  /** The data of a hard error in normal mode is dropped, except an overflow's; all else is kept. */
  predicate Keeps(r: Reaped) {
    !FailsHard(r) || (r.completion.status == Overflow && |r.completion.data| > 0)
  }

  /** usbi_handle_transfer_completion turns a short COMPLETED into an error on request. */
  function Reported(status: TransferStatus, shortNotOk: bool, length: nat, transferred: nat): TransferStatus {
    if status == TransferCompleted && shortNotOk && length != transferred then TransferError else status
  }

  /** The state after a submission of which the kernel accepted the first `accepted` URBs. */
  function Submitted(buffer: seq<byte>, continuation: bool, shortNotOk: bool, accepted: nat): State {
    var n := NumUrbs(|buffer|);
    var idle := State(buffer, continuation, shortNotOk, true, n, 0, Normal, 0, false,
                      Kernel(n, 0, map[], {}), [], []);
    if accepted >= n then idle
    else if accepted == 0 then idle.(live := false, kernel := Kernel(0, 0, map[], {}))
    else idle.(numRetired := n - accepted, action := SubmitFailed,
               kernel := Kernel(accepted, 0, map[], Range(0, accepted)))
  }

  datatype Event =
    | Finish(urb: nat, completion: Completion)
    | Reap
    | ReapFreed(outcome: State)  // the library reads a URB after it freed the array
    | Cancel
    | Expire

  predicate Enabled(s: State, e: Event) {
    match e
    case Finish(k, c) =>
      s.kernel.reaped <= k < s.kernel.submitted && k !in s.kernel.ready
      && |c.data| <= UrbLength(|s.buffer|, k) && Start(k) + |c.data| <= |s.buffer|
    case Reap => s.live && s.kernel.reaped in s.kernel.ready
    case ReapFreed(_) => !s.live && s.kernel.reaped in s.kernel.ready
    case Cancel => s.live
    case Expire => s.live
  }

  function CancelUrbs(s: State): State {
    s.(action := Cancelled, kernel := s.kernel.(discards := s.kernel.discards + Range(0, s.numUrbs)))
  }

  datatype Verdict = Wait | CutShort | Report(status: TransferStatus)

  function FinalStatus(action: ReapAction, timedOut: bool): TransferStatus {
    match action
    case Cancelled => if timedOut then TransferTimedOut else TransferCancelled
    case CompletedEarly => TransferCompleted
    case _ => TransferError
  }

  function JudgeNormal(length: nat, numUrbs: nat, k: nat, c: Completion): Verdict {
    if !Soft(c.status) then Report(HardStatus(c.status))
    else if k == numUrbs - 1 then Report(TransferCompleted)
    else if |c.data| < UrbLength(length, k) then CutShort
    else Wait
  }

  /** What reaping URB k with completion c leads to. */
  function Judge(s: State, k: nat, c: Completion): Verdict {
    if s.action == Normal then JudgeNormal(|s.buffer|, s.numUrbs, k, c)
    else if s.numRetired + 1 == s.numUrbs then Report(FinalStatus(s.action, s.timedOut))
    else Wait
  }

  /** In an abnormal mode whatever arrived is moved to the end of what was kept before. */
  function BufferAfter(s: State, data: seq<byte>): seq<byte> {
    if s.action != Normal && s.transferred + |data| <= |s.buffer|
    then Overwrite(s.buffer, s.transferred, data) else s.buffer
  }

  function Taken(kernel: Kernel): Kernel {
    Kernel(kernel.submitted, kernel.reaped + 1, kernel.ready - {kernel.reaped}, kernel.discards)
  }

  function ReapOldest(s: State): State
    requires s.kernel.reaped in s.kernel.ready
  {
    var k := s.kernel.reaped;
    var c := s.kernel.ready[k];
    var r := Reaped(s.action, c);
    var transferred := if Keeps(r) then s.transferred + |c.data| else s.transferred;
    var v := Judge(s, k, c);
    var discards := if v == CutShort && !s.continuation
      then s.kernel.discards + Range(k + 1, s.numUrbs) else s.kernel.discards;
    State(BufferAfter(s, c.data), s.continuation, s.shortNotOk, s.live && !v.Report?,
          s.numUrbs, s.numRetired + 1, if v == CutShort then CompletedEarly else s.action,
          transferred, s.timedOut, Taken(s.kernel).(discards := discards), s.got + [r],
          if v.Report? then s.reports + [Reported(v.status, s.shortNotOk, |s.buffer|, transferred)]
          else s.reports)
  }

  /** Reaping in an abnormal mode, spelled out. */
  lemma ReapAbnormal(s: State, c: Completion)
    requires s.kernel.reaped in s.kernel.ready && c == s.kernel.ready[s.kernel.reaped]
    requires s.action != Normal && s.transferred + |c.data| <= |s.buffer|
    ensures var done, total := s.numRetired + 1 == s.numUrbs, s.transferred + |c.data|;
      ReapOldest(s) == State(
        Overwrite(s.buffer, s.transferred, c.data), s.continuation, s.shortNotOk,
        s.live && !done, s.numUrbs, s.numRetired + 1, s.action, total, s.timedOut, Taken(s.kernel),
        s.got + [Reaped(s.action, c)],
        if done then s.reports + [Reported(FinalStatus(s.action, s.timedOut), s.shortNotOk, |s.buffer|, total)]
        else s.reports)
  {
  }

  function Next(s: State, e: Event): State {
    if !Enabled(s, e) then s
    else match e
      case Finish(k, c) =>
        s.(buffer := Overwrite(s.buffer, Start(k), c.data),
           kernel := s.kernel.(ready := s.kernel.ready[k := c]))
      case Reap => ReapOldest(s)
      case ReapFreed(outcome) => outcome
      case Cancel => CancelUrbs(s)
      case Expire => CancelUrbs(s.(timedOut := true))
  }

  function Run(s: State, events: seq<Event>): State
    decreases |events|
  {
    if events == [] then s
    else Next(Run(s, events[..|events| - 1]), events[|events| - 1])
  }

  /** The step does not read a URB that has been freed. */
  predicate Defined(s: State, e: Event) {
    e.ReapFreed? ==> !Enabled(s, e)
  }

  predicate AllDefined(s: State, events: seq<Event>)
    decreases |events|
  {
    events == []
    || (AllDefined(s, events[..|events| - 1]) && Defined(Run(s, events[..|events| - 1]), events[|events| - 1]))
  }

  // ---------------------------------------------------------------- what the data must be

  /** Reference definition: the kept payloads, one after the other, in reaping order. */
  function Received(got: seq<Reaped>): seq<byte> {
    if got == [] then []
    else Received(got[..|got| - 1])
         + (if Keeps(got[|got| - 1]) then got[|got| - 1].completion.data else [])
  }

  /** The kept data is a prefix of the buffer without holes, and lags behind the unreaped URBs. */
  ghost predicate PrefixInv(s: State) {
    && s.transferred <= |s.buffer|
    && s.transferred <= Start(s.kernel.reaped)
    && s.buffer[..s.transferred] == Received(s.got)
  }

  /** Every completion the kernel holds for an unreaped URB is still where the kernel put it. */
  ghost predicate ReadyInv(buffer: seq<byte>, kernel: Kernel) {
    forall k :: k in kernel.ready ==>
      kernel.reaped <= k < kernel.submitted && InPlace(buffer, k, kernel.ready[k].data)
  }

  ghost predicate InPlace(buffer: seq<byte>, k: nat, data: seq<byte>) {
    && |data| <= UrbLength(|buffer|, k)
    && Start(k) + |data| <= |buffer|
    && buffer[Start(k)..Start(k) + |data|] == data
  }

  ghost predicate CountInv(s: State) {
    && s.numUrbs == NumUrbs(|s.buffer|)
    && 1 <= s.kernel.submitted <= s.numUrbs
    && |s.got| == s.kernel.reaped <= s.kernel.submitted
    && s.numRetired + (s.kernel.submitted - s.kernel.reaped) == s.numUrbs
    && (s.action == Normal ==> s.kernel.submitted == s.numUrbs)
    && (s.live ==> s.kernel.reaped < s.kernel.submitted && s.reports == [])
    && (!s.live ==> |s.reports| == 1)
    && (s.live && s.action == Normal ==> s.transferred == Start(s.kernel.reaped))
    && (forall i :: 0 <= i < |s.got| && (s.live || i < |s.got| - 1) ==> !FailsHard(s.got[i]))
    && (forall r :: r in s.got && r.mode == Normal ==> s.kernel.submitted == s.numUrbs)
    && (!s.live && s.kernel.reaped < s.kernel.submitted ==>
          s.got != [] && FailsHard(Last(s.got)) && s.action == Normal)
    && (s.live && s.action != Normal ==>
          forall k :: s.kernel.reaped <= k < s.kernel.submitted ==>
            k in s.kernel.discards || (k > 0 && s.continuation && s.action == CompletedEarly))
  }

  /** Which status was reported. */
  ghost predicate ReportInv(s: State) {
    && (s.live && s.timedOut ==> s.action == Cancelled)
    && (s.live && s.action == CompletedEarly ==> ShortIn(s.got, |s.buffer|))
    && (!s.live ==> (s.reports == [TransferTimedOut] <==> s.timedOut))
    && (s.reports == [TransferCompleted] ==>
          s.transferred == |s.buffer| || (!s.shortNotOk && ShortIn(s.got, |s.buffer|)))
  }

  /** Some URB, the k-th reaped, brought less than it asked for. */
  ghost predicate ShortIn(got: seq<Reaped>, length: nat) {
    exists k :: 0 <= k < |got| && |got[k].completion.data| < UrbLength(length, k)
  }

  function Last<T>(s: seq<T>): T
    requires s != []
  {
    s[|s| - 1]
  }

  ghost predicate Inv(s: State) { CountInv(s) && ReportInv(s) && PrefixInv(s) && ReadyInv(s.buffer, s.kernel) }

  // ---------------------------------------------------------------- every step keeps the invariant

  lemma SubmitEstablishes(buffer: seq<byte>, continuation: bool, shortNotOk: bool, accepted: nat)
    requires accepted > 0
    ensures Inv(Submitted(buffer, continuation, shortNotOk, accepted))
  {
    UrbEnd(|buffer|, 0);
  }

  lemma RegionsApart(length: nat, j: nat, k: nat, n: nat)
    requires j < k < NumUrbs(length) && n <= UrbLength(length, j)
    ensures Start(j) + n <= Start(k)
  {
    UrbEnd(length, j);
  }

  /** Data stays in place when the bytes under it do. */
  lemma StaysInPlace(before: seq<byte>, after: seq<byte>, k: nat, data: seq<byte>)
    requires InPlace(before, k, data) && |after| == |before|
    requires forall i :: Start(k) <= i < Start(k) + |data| ==> after[i] == before[i]
    ensures InPlace(after, k, data)
  {
    assert after[Start(k)..Start(k) + |data|] == before[Start(k)..Start(k) + |data|];
  }

  lemma FinishKeepsReady(buffer: seq<byte>, kernel: Kernel, k: nat, c: Completion)
    requires ReadyInv(buffer, kernel) && kernel.submitted <= NumUrbs(|buffer|)
    requires kernel.reaped <= k < kernel.submitted && k !in kernel.ready
    requires |c.data| <= UrbLength(|buffer|, k) && Start(k) + |c.data| <= |buffer|
    ensures ReadyInv(Overwrite(buffer, Start(k), c.data), kernel.(ready := kernel.ready[k := c]))
  {
    var after := Overwrite(buffer, Start(k), c.data);
    forall j | j in kernel.ready
      ensures InPlace(after, j, kernel.ready[j].data)
    {
      if j < k {
        RegionsApart(|buffer|, j, k, |kernel.ready[j].data|);
      } else {
        RegionsApart(|buffer|, k, j, |c.data|);
      }
      StaysInPlace(buffer, after, j, kernel.ready[j].data);
    }
  }

  lemma FinishKeeps(s: State, k: nat, c: Completion)
    requires Inv(s) && Enabled(s, Finish(k, c))
    ensures Inv(Next(s, Finish(k, c)))
  {
    var t := Next(s, Finish(k, c));
    FinishKeepsReady(s.buffer, s.kernel, k, c);
    assert t.transferred == s.transferred && s.transferred <= Start(k);
    assert t.buffer[..t.transferred] == s.buffer[..s.transferred];
  }

  lemma LaterRegionsStay(before: seq<byte>, after: seq<byte>, kernel: Kernel, k: nat)
    requires ReadyInv(before, kernel) && kernel.submitted <= NumUrbs(|before|)
    requires k == kernel.reaped && k in kernel.ready && |after| == |before|
    requires forall i :: Start(k) + |kernel.ready[k].data| <= i < |before| ==> after[i] == before[i]
    ensures ReadyInv(after, kernel.(reaped := k + 1, ready := kernel.ready - {k}))
  {
    forall j | j in kernel.ready && j != k
      ensures InPlace(after, j, kernel.ready[j].data)
    {
      RegionsApart(|before|, k, j, |kernel.ready[k].data|);
      StaysInPlace(before, after, j, kernel.ready[j].data);
    }
  }

  lemma ReapKeepsReady(s: State)
    requires Inv(s) && Enabled(s, Reap)
    ensures ReadyInv(Next(s, Reap).buffer, Next(s, Reap).kernel)
  {
    assert InPlace(s.buffer, s.kernel.reaped, s.kernel.ready[s.kernel.reaped].data);
    LaterRegionsStay(s.buffer, ReapOldest(s).buffer, s.kernel, s.kernel.reaped);
  }

  lemma ReceivedStep(got: seq<Reaped>, r: Reaped)
    ensures Received(got + [r]) == Received(got) + (if Keeps(r) then r.completion.data else [])
  {
    assert (got + [r])[..|got|] == got;
  }

  lemma ReapNormalPrefix(s: State)
    requires Inv(s) && Enabled(s, Reap) && s.action == Normal
    ensures PrefixInv(Next(s, Reap))
  {
    var k := s.kernel.reaped;
    var data := s.kernel.ready[k].data;
    assert InPlace(s.buffer, k, data) && s.transferred == Start(k);
    ReceivedStep(s.got, Reaped(Normal, s.kernel.ready[k]));
    UrbEnd(|s.buffer|, k);
    assert s.buffer[..Start(k) + |data|] == s.buffer[..Start(k)] + data;
  }

  lemma ReapAbnormalPrefix(s: State)
    requires Inv(s) && Enabled(s, Reap) && s.action != Normal
    ensures PrefixInv(Next(s, Reap))
  {
    var k := s.kernel.reaped;
    var data := s.kernel.ready[k].data;
    assert InPlace(s.buffer, k, data) && s.transferred <= Start(k);
    ReceivedStep(s.got, Reaped(s.action, s.kernel.ready[k]));
    UrbEnd(|s.buffer|, k);
    var after := Overwrite(s.buffer, s.transferred, data);
    assert Next(s, Reap).buffer == after;
    assert after[..s.transferred + |data|] == s.buffer[..s.transferred] + data;
  }

  lemma ReapKeepsCounts(s: State)
    requires Inv(s) && Enabled(s, Reap)
    ensures CountInv(Next(s, Reap))
  {
    var k := s.kernel.reaped;
    assert InPlace(s.buffer, k, s.kernel.ready[k].data);
    UrbEnd(|s.buffer|, k);
  }

  lemma ShortStays(got: seq<Reaped>, r: Reaped, length: nat)
    ensures ShortIn(got, length) ==> ShortIn(got + [r], length)
    ensures |r.completion.data| < UrbLength(length, |got|) ==> ShortIn(got + [r], length)
  {
    if ShortIn(got, length) {
      var k :| 0 <= k < |got| && |got[k].completion.data| < UrbLength(length, k);
      assert (got + [r])[k] == got[k];
    }
    assert (got + [r])[|got|] == r;
  }

  lemma ReapKeepsReport(s: State)
    requires Inv(s) && Enabled(s, Reap)
    ensures ReportInv(Next(s, Reap))
  {
    var k := s.kernel.reaped;
    var t := Next(s, Reap);
    assert InPlace(s.buffer, k, s.kernel.ready[k].data);
    UrbEnd(|s.buffer|, k);
    ShortStays(s.got, Reaped(s.action, s.kernel.ready[k]), |s.buffer|);
    if !t.live {
      assert t.reports == [Last(t.reports)];
      assert Last(t.reports) == TransferTimedOut <==> s.timedOut;
    }
  }

  lemma StepKeeps(s: State, e: Event)
    requires Inv(s) && Defined(s, e)
    ensures Inv(Next(s, e))
  {
    if Enabled(s, e) {
      match e
      case Finish(k, c) => FinishKeeps(s, k, c);
      case Reap =>
        ReapKeepsCounts(s);
        ReapKeepsReport(s);
        ReapKeepsReady(s);
        if s.action == Normal { ReapNormalPrefix(s); } else { ReapAbnormalPrefix(s); }
      case Cancel =>
      case Expire =>
    }
  }

  lemma {:induction false} RunKeeps(s: State, events: seq<Event>)
    requires Inv(s) && AllDefined(s, events)
    ensures Inv(Run(s, events))
    decreases |events|
  {
    if events != [] {
      RunKeeps(s, events[..|events| - 1]);
      StepKeeps(Run(s, events[..|events| - 1]), events[|events| - 1]);
    }
  }
}
