/** What a bulk transfer keeps over every run: its data, its one report, and what that report says. */
module BulkRuns {
  import opened BulkUrbs
  import opened Usbfs
  import opened Words

  // ---------------------------------------------------------------- what nobody may touch

  /** The kernel put data of URB `k`, not reaped yet, at position `i`. */
  predicate WrittenBy(kernel: Kernel, k: nat, i: nat) {
    k in kernel.ready && Start(k) <= i < Start(k) + |kernel.ready[k].data|
  }

  ghost predicate Written(kernel: Kernel, i: nat) {
    exists k :: WrittenBy(kernel, k, i)
  }

  /** Behind the URBs reaped, a byte the kernel has not written is as the user left it. */
  ghost predicate Untouched(s: State, original: seq<byte>) {
    && |s.buffer| == |original|
    && forall i :: Start(s.kernel.reaped) <= i < |original| && !Written(s.kernel, i) ==> s.buffer[i] == original[i]
  }

  lemma FinishKeepsUntouched(s: State, k: nat, c: Completion, original: seq<byte>)
    requires Untouched(s, original) && Enabled(s, Finish(k, c))
    ensures Untouched(Next(s, Finish(k, c)), original)
  {
    var t := Next(s, Finish(k, c));
    forall i | Start(t.kernel.reaped) <= i < |original| && !Written(t.kernel, i)
      ensures t.buffer[i] == original[i]
    {
      assert forall j :: WrittenBy(s.kernel, j, i) ==> WrittenBy(t.kernel, j, i);
      assert !WrittenBy(t.kernel, k, i) && t.kernel.ready[k] == c;
    }
  }

  lemma ReapKeepsUntouched(s: State, original: seq<byte>)
    requires Inv(s) && Untouched(s, original) && Enabled(s, Reap)
    ensures Untouched(Next(s, Reap), original)
  {
    var k, t := s.kernel.reaped, Next(s, Reap);
    assert InPlace(s.buffer, k, s.kernel.ready[k].data);
    UrbEnd(|s.buffer|, k);
    forall i | Start(t.kernel.reaped) <= i < |original| && !Written(t.kernel, i)
      ensures t.buffer[i] == original[i]
    {
      assert forall j :: WrittenBy(s.kernel, j, i) && j != k ==> WrittenBy(t.kernel, j, i);
    }
  }

  lemma StepKeepsUntouched(s: State, e: Event, original: seq<byte>)
    requires Inv(s) && Untouched(s, original) && Defined(s, e)
    ensures Untouched(Next(s, e), original)
  {
    hide Untouched, Inv, ReapOldest;
    if Enabled(s, e) {
      match e
      case Finish(k, c) => FinishKeepsUntouched(s, k, c, original);
      case Reap => ReapKeepsUntouched(s, original);
      case Cancel => CancelKeepsUntouched(s, e, original);
      case Expire => CancelKeepsUntouched(s, e, original);
    }
  }

  lemma CancelKeepsUntouched(s: State, e: Event, original: seq<byte>)
    requires Untouched(s, original) && (e.Cancel? || e.Expire?)
    ensures Untouched(Next(s, e), original)
  {
    var t := Next(s, e);
    forall i | Start(t.kernel.reaped) <= i < |original| && !Written(t.kernel, i)
      ensures t.buffer[i] == original[i]
    {
      assert forall j :: WrittenBy(s.kernel, j, i) ==> WrittenBy(t.kernel, j, i);
    }
  }

  lemma {:induction false} RunKeepsUntouched(s: State, original: seq<byte>, events: seq<Event>)
    requires Inv(s) && Untouched(s, original) && AllDefined(s, events)
    ensures Untouched(Run(s, events), original)
    decreases |events|
  {
    hide Inv, Untouched, Next, Defined;
    if events != [] {
      var front := events[..|events| - 1];
      RunKeeps(s, front);
      RunKeepsUntouched(s, original, front);
      StepKeepsUntouched(Run(s, front), events[|events| - 1], original);
    }
  }

  // ---------------------------------------------------------------- main results

  function Outstanding(s: State): int { s.kernel.submitted - s.kernel.reaped }

  /**
   At any point of any run, the first `transferred` bytes of the buffer are the payloads the
   device delivered, in order and without holes. Only the last reaped URB can have been
   dropped. The compaction lags behind the unreaped URBs and never touches what they hold: from
   the next URB on every byte is the user's own, unless the kernel has written it.
   */
  lemma BulkDataNeitherLostNorHoled(buffer: seq<byte>, continuation: bool, shortNotOk: bool,
                                    accepted: nat, events: seq<Event>)
    requires accepted > 0 && AllDefined(Submitted(buffer, continuation, shortNotOk, accepted), events)
    ensures var s := Run(Submitted(buffer, continuation, shortNotOk, accepted), events);
            && s.transferred <= |s.buffer| == |buffer|
            && s.transferred <= Start(|s.got|)
            && s.buffer[..s.transferred] == Received(s.got)
            && (forall i :: 0 <= i < |s.got| - 1 ==> Keeps(s.got[i]))
            && (forall k :: k in s.kernel.ready ==> k >= |s.got| && InPlace(s.buffer, k, s.kernel.ready[k].data))
            && Untouched(s, buffer)
  {
    SubmitEstablishes(buffer, continuation, shortNotOk, accepted);
    RunKeeps(Submitted(buffer, continuation, shortNotOk, accepted), events);
    RunKeepsUntouched(Submitted(buffer, continuation, shortNotOk, accepted), buffer, events);
    RunKeepsRequest(Submitted(buffer, continuation, shortNotOk, accepted), events);
  }

  lemma NextKeepsRequest(s: State, e: Event)
    requires Defined(s, e)
    ensures |Next(s, e).buffer| == |s.buffer|
    ensures Next(s, e).continuation == s.continuation && Next(s, e).shortNotOk == s.shortNotOk
  {
  }

  lemma {:induction false} RunKeepsRequest(s: State, events: seq<Event>)
    requires AllDefined(s, events)
    ensures |Run(s, events).buffer| == |s.buffer|
    ensures Run(s, events).continuation == s.continuation && Run(s, events).shortNotOk == s.shortNotOk
    decreases |events|
  {
    if events != [] {
      RunKeepsRequest(s, events[..|events| - 1]);
      NextKeepsRequest(Run(s, events[..|events| - 1]), events[|events| - 1]);
    }
  }

  /** The last reaped URB failed hard in normal mode and was not the last of the transfer. */
  ghost predicate StrandedByHardError(s: State) {
    s.got != [] && |s.got| < s.numUrbs && FailsHard(Last(s.got))
  }

  /**
   A transfer is reported at most once, and is reported as soon as nothing is outstanding.
   It is reported too early exactly when a hard error hit a URB other than the last one
   before any cancellation.
   */
  lemma BulkReportedOnce(buffer: seq<byte>, continuation: bool, shortNotOk: bool,
                         accepted: nat, events: seq<Event>)
    requires accepted > 0 && AllDefined(Submitted(buffer, continuation, shortNotOk, accepted), events)
    ensures var s := Run(Submitted(buffer, continuation, shortNotOk, accepted), events);
            && |s.reports| <= 1
            && s.numRetired + Outstanding(s) == s.numUrbs
            && (Outstanding(s) == 0 ==> |s.reports| == 1)
            && (s.reports != [] ==> s.got != [])
            && (s.reports != [] && Outstanding(s) != 0 <==> StrandedByHardError(s))
  {
    var s0 := Submitted(buffer, continuation, shortNotOk, accepted);
    SubmitEstablishes(buffer, continuation, shortNotOk, accepted);
    RunKeeps(s0, events);
    RunReportsAfterReap(s0, events);
    var s := Run(s0, events);
    if s.got != [] {
      assert Last(s.got) in s.got;
    }
  }

  lemma {:induction false} RunReportsAfterReap(s: State, events: seq<Event>)
    requires Inv(s) && s.reports == [] && AllDefined(s, events)
    ensures Run(s, events).reports != [] ==> Run(s, events).got != []
    decreases |events|
  {
    if events != [] {
      RunReportsAfterReap(s, events[..|events| - 1]);
    }
  }

  /**
   The two completion tests agree: the index test of normal mode and the counting test of the
   abnormal modes both fire exactly when the last outstanding URB is reaped. A hard error in
   normal mode is the one verdict that does not wait for that.
   */
  lemma CompletionTestsAgree(buffer: seq<byte>, continuation: bool, shortNotOk: bool,
                             accepted: nat, events: seq<Event>)
    requires accepted > 0 && AllDefined(Submitted(buffer, continuation, shortNotOk, accepted), events)
    requires Enabled(Run(Submitted(buffer, continuation, shortNotOk, accepted), events), Reap)
    ensures var s := Run(Submitted(buffer, continuation, shortNotOk, accepted), events);
            var k, c := s.kernel.reaped, s.kernel.ready[s.kernel.reaped];
            && (s.action == Normal ==> (k == s.numUrbs - 1 <==> s.numRetired + 1 == s.numUrbs))
            && (s.numRetired + 1 == s.numUrbs <==> Outstanding(Next(s, Reap)) == 0)
            && (Next(s, Reap).reports != [] && Outstanding(Next(s, Reap)) > 0 <==>
                  s.action == Normal && !Soft(c.status) && k != s.numUrbs - 1)
  {
    SubmitEstablishes(buffer, continuation, shortNotOk, accepted);
    RunKeeps(Submitted(buffer, continuation, shortNotOk, accepted), events);
  }

  lemma StallOnTheFirst()
    ensures var s0 := Submitted(seq(2 * MAX_BULK_BUFFER_LENGTH, _ => 0), false, false, 2);
            var s := Run(s0, [Finish(0, Completion(Pipe, [])), Reap]);
            s.reports == [TransferStall] && Outstanding(s) == 1 && s.buffer == s0.buffer
            && Enabled(s, Finish(1, Completion(Success, [7])))
  {
    var s0 := Submitted(seq(2 * MAX_BULK_BUFFER_LENGTH, _ => 0), false, false, 2);
    var finish := Finish(0, Completion(Pipe, []));
    assert [finish, Reap][..1] == [finish] && [finish][..0] == [];
    assert Run(s0, []) == s0;
    var s1 := Run(s0, [finish]);
    assert s1 == Next(s0, finish);
    assert Run(s0, [finish, Reap]) == Next(s1, Reap);
    assert s1.buffer == s0.buffer;
  }

  /** A stall on the first of two URBs: reported while the second can still write the buffer. */
  lemma HardErrorStrandsUrb()
    ensures var s0 := Submitted(seq(2 * MAX_BULK_BUFFER_LENGTH, _ => 0), false, false, 2);
            var s := Run(s0, [Finish(0, Completion(Pipe, [])), Reap]);
            var t := Next(s, Finish(1, Completion(Success, [7])));
            s.reports == [TransferStall] && Outstanding(s) == 1 && t.buffer != s.buffer
  {
    var s0 := Submitted(seq(2 * MAX_BULK_BUFFER_LENGTH, _ => 0), false, false, 2);
    StallOnTheFirst();
    hide Run, Outstanding, Enabled;
    var s := Run(s0, [Finish(0, Completion(Pipe, [])), Reap]);
    var t := Next(s, Finish(1, Completion(Success, [7])));
    assert s.buffer[Start(1)] == 0;
    assert t.buffer[Start(1)..Start(1) + 1] == [7];
    assert t.buffer[Start(1)] == 7;
  }

  /** Once a transfer is reported with nothing outstanding, neither data nor verdict changes. */
  lemma {:induction false} ReportIsFinal(s: State, events: seq<Event>)
    requires Inv(s) && s.reports != [] && Outstanding(s) == 0
    ensures Run(s, events).buffer == s.buffer && Run(s, events).reports == s.reports
    ensures Run(s, events).transferred == s.transferred
    ensures Outstanding(Run(s, events)) == 0
    ensures AllDefined(s, events)
    decreases |events|
  {
    if events != [] {
      ReportIsFinal(s, events[..|events| - 1]);
      RunKeeps(s, events[..|events| - 1]);
    }
  }

  /**
   COMPLETED with LIBUSB_TRANSFER_SHORT_NOT_OK means the whole buffer was transferred; without
   the flag, a shorter result means a short URB was seen. TIMED_OUT is reported exactly for
   transfers whose timeout was processed.
   */
  lemma BulkStatusIsTruthful(buffer: seq<byte>, continuation: bool, shortNotOk: bool,
                             accepted: nat, events: seq<Event>)
    requires accepted > 0 && AllDefined(Submitted(buffer, continuation, shortNotOk, accepted), events)
    ensures var s := Run(Submitted(buffer, continuation, shortNotOk, accepted), events);
            && (s.reports == [TransferCompleted] ==>
                  s.buffer == Received(s.got) || (!s.shortNotOk && ShortIn(s.got, |buffer|)))
            && (s.reports != [] ==> (s.reports == [TransferTimedOut] <==> s.timedOut))
  {
    var s0 := Submitted(buffer, continuation, shortNotOk, accepted);
    SubmitEstablishes(buffer, continuation, shortNotOk, accepted);
    RunKeeps(s0, events);
    RunKeepsRequest(s0, events);
    var s := Run(s0, events);
    if s.transferred == |s.buffer| {
      assert s.buffer[..s.transferred] == s.buffer;
    }
  }

  /**
   Whenever the library waits for URBs it gave up on, the kernel has been told to drop them, or,
   after a short URB and where it knows continuation URBs, drops them by itself.
   */
  lemma AbandonedUrbsAreDiscarded(buffer: seq<byte>, continuation: bool, shortNotOk: bool,
                                  accepted: nat, events: seq<Event>, k: nat)
    requires accepted > 0 && AllDefined(Submitted(buffer, continuation, shortNotOk, accepted), events)
    requires var s := Run(Submitted(buffer, continuation, shortNotOk, accepted), events);
             s.live && s.action != Normal && s.kernel.reaped <= k < s.kernel.submitted
    ensures var s := Run(Submitted(buffer, continuation, shortNotOk, accepted), events);
      k in s.kernel.discards || (k > 0 && continuation && s.action == CompletedEarly)
  {
    var s0 := Submitted(buffer, continuation, shortNotOk, accepted);
    SubmitEstablishes(buffer, continuation, shortNotOk, accepted);
    RunKeeps(s0, events);
    RunKeepsRequest(s0, events);
  }

  // ---------------------------------------------------------------- the report, from what happened

  /** The user cancelled the transfer, or its timeout was processed, while it was in flight. */
  predicate EverCancelled(s: State, events: seq<Event>)
    decreases |events|
  {
    events != []
    && (EverCancelled(s, events[..|events| - 1])
        || (Run(s, events[..|events| - 1]).live && (events[|events| - 1].Cancel? || events[|events| - 1].Expire?)))
  }

  predicate EverExpired(s: State, events: seq<Event>)
    decreases |events|
  {
    events != []
    && (EverExpired(s, events[..|events| - 1])
        || (Run(s, events[..|events| - 1]).live && events[|events| - 1].Expire?))
  }

  /** What was asked of a transfer and what became of the request before any URB is looked at. */
  datatype Request = Request(length: nat, shortNotOk: bool, partial: bool, cancelled: bool, expired: bool)

  /** Nobody gave up on the transfer before its last URB was reaped. */
  ghost predicate Undisturbed(q: Request, got: seq<Reaped>)
    requires got != []
  {
    !q.cancelled && !q.partial && !ShortIn(got[..|got| - 1], q.length)
  }

  /** The status the user should be told. */
  ghost function Outcome(q: Request, got: seq<Reaped>, transferred: nat): TransferStatus
    requires got != []
  {
    var status := Last(got).completion.status;
    if q.expired then TransferTimedOut
    else if q.cancelled then TransferCancelled
    else if q.partial then TransferError
    else if Undisturbed(q, got) && status == Pipe then TransferStall
    else if Undisturbed(q, got) && status == Overflow then TransferOverflow
    else if Undisturbed(q, got) && status != Success && status != RemoteIo then TransferError
    else if q.shortNotOk && transferred != q.length then TransferError
    else TransferCompleted
  }

  ghost predicate OutcomeInv(s: State, q: Request) {
    && |s.buffer| == q.length && s.shortNotOk == q.shortNotOk && s.timedOut == q.expired
    && (q.expired ==> q.cancelled)
    && (s.live ==> s.action == if q.cancelled then Cancelled else if q.partial then SubmitFailed
                               else if ShortIn(s.got, q.length) then CompletedEarly else Normal)
    && (!s.live ==> s.got != [] && s.reports == [Outcome(q, s.got, s.transferred)]
                    && (Last(s.got).mode == Normal <==> Undisturbed(q, s.got)))
  }

  lemma ReapKeepsOutcome(s: State, q: Request)
    requires Inv(s) && OutcomeInv(s, q) && Enabled(s, Reap)
    ensures OutcomeInv(Next(s, Reap), q)
  {
    hide PrefixInv, ReadyInv, ShortIn, Received;
    var k, t := s.kernel.reaped, Next(s, Reap);
    var r := Reaped(s.action, s.kernel.ready[k]);
    assert t.got == s.got + [r] && t.got[..|s.got|] == s.got;
    ShortStays(s.got, r, q.length);
    ShortBackwards(s.got, r, q.length);
    if !t.live { assert t.reports == s.reports + [Last(t.reports)]; }
  }

  lemma ShortBackwards(got: seq<Reaped>, r: Reaped, length: nat)
    ensures ShortIn(got + [r], length) && !ShortIn(got, length) ==> |r.completion.data| < UrbLength(length, |got|)
  {
    if ShortIn(got + [r], length) && !ShortIn(got, length) {
      assert forall i :: 0 <= i < |got| ==> (got + [r])[i] == got[i];
      var k :| 0 <= k < |got + [r]| && |(got + [r])[k].completion.data| < UrbLength(length, k);
    }
  }

  lemma StepKeepsOutcome(s: State, e: Event, q: Request)
    requires Inv(s) && OutcomeInv(s, q) && Defined(s, e)
    ensures OutcomeInv(Next(s, e), q.(cancelled := q.cancelled || (s.live && (e.Cancel? || e.Expire?)),
                                      expired := q.expired || (s.live && e.Expire?)))
  {
    hide Inv, ShortIn, ReapOldest;
    if Enabled(s, e) {
      match e
      case Finish(k, c) =>
      case Reap => ReapKeepsOutcome(s, q);
      case Cancel =>
      case Expire =>
    }
  }

  lemma {:induction false} OutcomeInvHolds(buffer: seq<byte>, continuation: bool, shortNotOk: bool,
                                           accepted: nat, events: seq<Event>)
    requires accepted > 0 && AllDefined(Submitted(buffer, continuation, shortNotOk, accepted), events)
    ensures var s0 := Submitted(buffer, continuation, shortNotOk, accepted);
      OutcomeInv(Run(s0, events), Request(|buffer|, shortNotOk, accepted < NumUrbs(|buffer|),
                                          EverCancelled(s0, events), EverExpired(s0, events)))
    decreases |events|
  {
    hide Next, Inv, Defined;
    var s0 := Submitted(buffer, continuation, shortNotOk, accepted);
    if events != [] {
      var front := events[..|events| - 1];
      OutcomeInvHolds(buffer, continuation, shortNotOk, accepted, front);
      SubmitEstablishes(buffer, continuation, shortNotOk, accepted);
      RunKeeps(s0, front);
      hide OutcomeInv;
      StepKeepsOutcome(Run(s0, front), events[|events| - 1],
                       Request(|buffer|, shortNotOk, accepted < NumUrbs(|buffer|),
                               EverCancelled(s0, front), EverExpired(s0, front)));
    }
  }

  /**
   The report, told from the request, the calls and the completions alone. An expired transfer has
   timed out; any other cancelled one is cancelled; one submitted in part has failed. Else a hard
   status of the last URB decides, unless an earlier URB came short; and without one the transfer
   is completed, unless it is short and the user does not accept that.
   */
  lemma BulkReportExactly(buffer: seq<byte>, continuation: bool, shortNotOk: bool,
                          accepted: nat, events: seq<Event>)
    requires accepted > 0 && AllDefined(Submitted(buffer, continuation, shortNotOk, accepted), events)
    ensures var s0 := Submitted(buffer, continuation, shortNotOk, accepted);
            var s := Run(s0, events);
            var q := Request(|buffer|, shortNotOk, accepted < NumUrbs(|buffer|),
                             EverCancelled(s0, events), EverExpired(s0, events));
            s.reports != [] ==> s.got != [] && s.reports == [Outcome(q, s.got, s.transferred)]
                                && (s.reports[0] in {TransferCancelled, TransferTimedOut} <==> EverCancelled(s0, events))
  {
    hide Inv, ShortIn;
    var s0 := Submitted(buffer, continuation, shortNotOk, accepted);
    OutcomeInvHolds(buffer, continuation, shortNotOk, accepted, events);
    SubmitEstablishes(buffer, continuation, shortNotOk, accepted);
    RunKeeps(s0, events);
    assert Run(s0, events).live ==> Run(s0, events).reports == [] by { LiveIsUnreported(Run(s0, events)); }
  }

  lemma LiveIsUnreported(s: State)
    requires Inv(s)
    ensures s.live <==> s.reports == []
  {
  }

  /** Once a transfer was cancelled or has expired, each URB not reaped yet has been discarded. */
  lemma CancelledUrbsAreDiscarded(buffer: seq<byte>, continuation: bool, shortNotOk: bool,
                                  accepted: nat, events: seq<Event>, k: nat)
    requires accepted > 0 && AllDefined(Submitted(buffer, continuation, shortNotOk, accepted), events)
    requires EverCancelled(Submitted(buffer, continuation, shortNotOk, accepted), events)
    requires var s := Run(Submitted(buffer, continuation, shortNotOk, accepted), events);
             s.reports == [] && s.kernel.reaped <= k < s.kernel.submitted
    ensures k in Run(Submitted(buffer, continuation, shortNotOk, accepted), events).kernel.discards
  {
    var s0 := Submitted(buffer, continuation, shortNotOk, accepted);
    OutcomeInvHolds(buffer, continuation, shortNotOk, accepted, events);
    SubmitEstablishes(buffer, continuation, shortNotOk, accepted);
    RunKeeps(s0, events);
  }

  /** All payloads, one after the other. */
  function Payloads(got: seq<Reaped>): seq<byte> {
    if got == [] then [] else Payloads(got[..|got| - 1]) + got[|got| - 1].completion.data
  }

  lemma {:induction false} NothingDropped(got: seq<Reaped>)
    requires forall i :: 0 <= i < |got| ==> Keeps(got[i])
    ensures Received(got) == Payloads(got)
    decreases |got|
  {
    if got != [] { NothingDropped(got[..|got| - 1]); }
  }

  /** The data of the last URB is dropped: it failed, not with an overflow, and nobody had given up before. */
  ghost predicate LastIsDropped(q: Request, got: seq<Reaped>)
    requires got != []
  {
    Undisturbed(q, got) && Last(got).completion.status !in {Success, RemoteIo, Overflow}
  }

  /**
   The buffer starts with all the payloads that came back, in order; only the last is left out, if
   it ended the transfer with an error that is not an overflow.
   */
  lemma BulkDataExactly(buffer: seq<byte>, continuation: bool, shortNotOk: bool,
                        accepted: nat, events: seq<Event>)
    requires accepted > 0 && AllDefined(Submitted(buffer, continuation, shortNotOk, accepted), events)
    ensures var s0 := Submitted(buffer, continuation, shortNotOk, accepted);
            var s := Run(s0, events);
            var q := Request(|buffer|, shortNotOk, accepted < NumUrbs(|buffer|),
                             EverCancelled(s0, events), EverExpired(s0, events));
            && s.transferred <= |s.buffer|
            && s.buffer[..s.transferred]
               == if s.reports != [] && s.got != [] && LastIsDropped(q, s.got) then Payloads(s.got[..|s.got| - 1])
                  else Payloads(s.got)
  {
    hide Inv, OutcomeInv, LastIsDropped, Payloads, Received, Undisturbed;
    var s0 := Submitted(buffer, continuation, shortNotOk, accepted);
    BulkDataNeitherLostNorHoled(buffer, continuation, shortNotOk, accepted, events);
    OutcomeInvHolds(buffer, continuation, shortNotOk, accepted, events);
    SubmitEstablishes(buffer, continuation, shortNotOk, accepted);
    RunKeeps(s0, events);
    ReceivedExactly(Run(s0, events), Request(|buffer|, shortNotOk, accepted < NumUrbs(|buffer|),
                                             EverCancelled(s0, events), EverExpired(s0, events)));
  }

  lemma ReceivedExactly(s: State, q: Request)
    requires Inv(s) && OutcomeInv(s, q) && forall i :: 0 <= i < |s.got| - 1 ==> Keeps(s.got[i])
    ensures Received(s.got) == if s.reports != [] && s.got != [] && LastIsDropped(q, s.got)
                               then Payloads(s.got[..|s.got| - 1]) else Payloads(s.got)
  {
    LiveIsUnreported(s);
    if s.got != [] {
      NothingDropped(s.got[..|s.got| - 1]);
      assert s.live ==> !FailsHard(Last(s.got));
    }
    hide Inv, Undisturbed;
  }
}
