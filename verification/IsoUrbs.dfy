/**
 Completion of an isochronous transfer: its URBs come back in the order they were submitted,
 each with a status and the results of its packets.
 */
module IsoUrbs {
  import opened Usbfs
  import opened Words

  datatype Result = Result(status: int, actualLength: nat)

  /** The callback: completed, an error, or left to the cancellation handler. */
  datatype Report = Completed | Error | Cancellation

  /** A URB as it comes back. */
  datatype Reaped = Reaped(status: int, frames: seq<Result>)

  datatype State = State(
    counts: seq<nat>,             // packets in each URB
    live: bool,                   // tpriv->iso_urbs != NULL
    submitted: nat,               // URBs the kernel took
    discards: set<nat>,           // URBs passed to DISCARDURB
    back: seq<Reaped>,            // URBs reaped so far
    numRetired: nat,
    action: ReapAction,
    offset: nat,                  // where the next results go
    results: seq<Result>,         // the packet descriptors the user sees
    reports: seq<Report>)

  datatype Event = Reap(urb: Reaped) | Cancel

  /** The packets of the first `n` URBs. */
  function Total(counts: seq<nat>, n: nat): nat
    requires n <= |counts|
  {
    if n == 0 then 0 else Total(counts, n - 1) + counts[n - 1]
  }

  /**
   The state after a submission of which the kernel took the first `submitted` URBs. If that is
   not all, these are discarded and the others count as retired; if it is none, all is freed.
   */
  function Start(counts: seq<nat>, submitted: nat, results: seq<Result>): State
    requires submitted <= |counts|
  {
    if submitted == |counts| then State(counts, true, submitted, {}, [], 0, Normal, 0, results, [])
    else if submitted == 0 then State(counts, false, 0, {}, [], 0, Normal, 0, results, [])
    else State(counts, true, submitted, Range(0, submitted), [], |counts| - submitted, SubmitFailed, 0, results, [])
  }

  predicate Enabled(s: State, e: Event) {
    match e
    case Reap(urb) => s.live && |s.back| < s.submitted <= |s.counts| && |urb.frames| == s.counts[|s.back|]
    case Cancel => s.live
  }

  function Judge(s: State, urb: Reaped): seq<Report> {
    if s.action != Normal then
      if s.numRetired + 1 != |s.counts| then []
      else if s.action == Cancelled then [Cancellation] else [Error]
    else if |s.back| + 1 == |s.counts| then [Completed]
    else []
  }

  /** The results with those of a URB copied in; that they fit is proved below. */
  function Copied(results: seq<Result>, at: nat, frames: seq<Result>): (r: seq<Result>)
    ensures |r| == |results|
  {
    if at + |frames| <= |results| then Overwrite(results, at, frames) else results
  }

  /** Results are copied back, and the offset moves, only for a URB with status zero. */
  function ReapUrb(s: State, urb: Reaped): State {
    var good := urb.status == 0;
    State(s.counts, s.live && Judge(s, urb) == [], s.submitted, s.discards, s.back + [urb], s.numRetired + 1, s.action,
          if good then s.offset + |urb.frames| else s.offset,
          if good then Copied(s.results, s.offset, urb.frames) else s.results,
          s.reports + Judge(s, urb))
  }

  function Next(s: State, e: Event): State {
    if !Enabled(s, e) then s
    else if e.Cancel? then s.(action := Cancelled, discards := s.discards + Range(0, |s.counts|))
    else ReapUrb(s, e.urb)
  }

  function Run(s: State, es: seq<Event>): State
    decreases |es|
  {
    if es == [] then s else Next(Run(s, es[..|es| - 1]), es[|es| - 1])
  }

  // ---------------------------------------------------------------- reported once

  predicate CountInv(s: State) {
    && 0 < s.submitted <= |s.counts| && |s.back| <= s.submitted
    && s.numRetired + (s.submitted - |s.back|) == |s.counts|
    && (s.action == Normal ==> s.submitted == |s.counts|)
    && |s.reports| == (if |s.back| == s.submitted then 1 else 0)
    && (s.live <==> s.reports == [])
    && (s.action != Normal ==> forall i :: 0 <= i < s.submitted ==> i in s.discards)
  }

  lemma StepKeepsCounts(s: State, e: Event)
    requires CountInv(s)
    ensures CountInv(Next(s, e))
    ensures Next(s, e).submitted == s.submitted && Next(s, e).counts == s.counts
  {
  }

  /**
   Reported exactly once, when no URB is outstanding any more: the test on the last index and
   the test on the number retired agree, even if cancellation or a failed submission mixes them.
   The URBs are freed with the report, and all of a transfer given up have been discarded.
   */
  lemma {:induction false} IsoReportedOnce(counts: seq<nat>, submitted: nat, results: seq<Result>, es: seq<Event>)
    requires 0 < submitted <= |counts| && |results| >= Total(counts, |counts|)
    ensures var s := Run(Start(counts, submitted, results), es);
      CountInv(s) && s.submitted == submitted && s.counts == counts
    decreases |es|
  {
    hide Next;
    if es != [] {
      IsoReportedOnce(counts, submitted, results, es[..|es| - 1]);
      StepKeepsCounts(Run(Start(counts, submitted, results), es[..|es| - 1]), es[|es| - 1]);
    }
  }

  /** A cancellation that came before the report. */
  predicate EverCancelled(s: State, es: seq<Event>)
    decreases |es|
  {
    es != [] && (EverCancelled(s, es[..|es| - 1]) || (es[|es| - 1].Cancel? && Enabled(Run(s, es[..|es| - 1]), Cancel)))
  }

  function Expected(counts: seq<nat>, submitted: nat, cancelled: bool): Report {
    if cancelled then Cancellation else if submitted == |counts| then Completed else Error
  }

  predicate ActionInv(s: State, cancelled: bool) {
    && (s.action == Cancelled <==> cancelled)
    && (!cancelled ==> (s.action == Normal <==> s.submitted == |s.counts|))
    && (s.reports != [] ==> s.reports == [Expected(s.counts, s.submitted, cancelled)])
  }

  lemma StepKeepsAction(s: State, e: Event, cancelled: bool)
    requires CountInv(s) && ActionInv(s, cancelled)
    ensures ActionInv(Next(s, e), cancelled || (e.Cancel? && Enabled(s, e)))
  {
  }

  /** The one report says what happened: cancelled, submitted only in part, or completed. */
  lemma {:induction false} IsoStatusIsTruthful(counts: seq<nat>, submitted: nat, results: seq<Result>, es: seq<Event>)
    requires 0 < submitted <= |counts| && |results| >= Total(counts, |counts|)
    ensures var s := Start(counts, submitted, results);
      ActionInv(Run(s, es), EverCancelled(s, es))
    decreases |es|
  {
    hide Next, Enabled;
    if es != [] {
      var s := Start(counts, submitted, results);
      IsoStatusIsTruthful(counts, submitted, results, es[..|es| - 1]);
      IsoReportedOnce(counts, submitted, results, es[..|es| - 1]);
      StepKeepsAction(Run(s, es[..|es| - 1]), es[|es| - 1], EverCancelled(s, es[..|es| - 1]));
    }
  }

  // ---------------------------------------------------------------- where results land

  /** Packets of the URBs that came back with status zero, and their results in order. */
  function Landed(back: seq<Reaped>): seq<Result> {
    if back == [] then []
    else Landed(back[..|back| - 1]) + (if back[|back| - 1].status == 0 then back[|back| - 1].frames else [])
  }

  predicate FramesFit(s: State)
    requires |s.back| <= |s.counts|
  {
    forall i :: 0 <= i < |s.back| ==> |s.back[i].frames| == s.counts[i]
  }

  /** The results start with those that landed; the rest is as the user left it. */
  predicate LandedInv(s: State, original: seq<Result>) {
    && |s.back| <= |s.counts| && FramesFit(s)
    && |s.results| == |original| >= Total(s.counts, |s.counts|)
    && s.offset == |Landed(s.back)| <= Total(s.counts, |s.back|)
    && s.offset <= |original| && s.results == Landed(s.back) + original[s.offset..]
  }

  lemma {:induction false} TotalGrows(counts: seq<nat>, m: nat, n: nat)
    requires m <= n <= |counts|
    ensures Total(counts, m) <= Total(counts, n)
    decreases n
  {
    if m < n { TotalGrows(counts, m, n - 1); }
  }

  lemma LandedMore(back: seq<Reaped>, urb: Reaped)
    ensures Landed(back + [urb]) == Landed(back) + (if urb.status == 0 then urb.frames else [])
  {
    assert (back + [urb])[..|back|] == back;
  }

  lemma CopyExtends(landed: seq<Result>, original: seq<Result>, frames: seq<Result>)
    requires |landed| + |frames| <= |original|
    ensures Copied(landed + original[|landed|..], |landed|, frames)
            == landed + frames + original[|landed| + |frames|..]
  {
  }

  lemma ReapKeepsLanded(s: State, urb: Reaped, original: seq<Result>)
    requires LandedInv(s, original) && Enabled(s, Reap(urb))
    ensures LandedInv(ReapUrb(s, urb), original)
    ensures s.offset + |urb.frames| <= |s.results|
  {
    hide Landed, Copied;
    TotalGrows(s.counts, |s.back| + 1, |s.counts|);
    LandedMore(s.back, urb);
    if urb.status == 0 { CopyExtends(Landed(s.back), original, urb.frames); }
  }

  /**
   Over every run the results the user sees are those of the status-zero URBs one after the
   other, never past the end of the descriptors.
   */
  lemma {:induction false} ResultsArePacked(counts: seq<nat>, submitted: nat, results: seq<Result>, es: seq<Event>)
    requires 0 < submitted <= |counts| && |results| >= Total(counts, |counts|)
    ensures LandedInv(Run(Start(counts, submitted, results), es), results)
    decreases |es|
  {
    hide ReapUrb, Landed;
    if es != [] {
      var s, e := Run(Start(counts, submitted, results), es[..|es| - 1]), es[|es| - 1];
      ResultsArePacked(counts, submitted, results, es[..|es| - 1]);
      if Enabled(s, e) && e.Reap? { ReapKeepsLanded(s, e.urb, results); }
    } else {
      NothingLanded();
      assert results == [] + results[0..];
    }
  }

  lemma NothingLanded()
    ensures Landed([]) == []
  {
  }

  predicate AllGood(back: seq<Reaped>) {
    forall i :: 0 <= i < |back| ==> back[i].status == 0
  }

  lemma {:induction false} LandedIsFull(counts: seq<nat>, back: seq<Reaped>)
    requires |back| <= |counts| && forall i :: 0 <= i < |back| ==> |back[i].frames| == counts[i] > 0
    ensures |Landed(back)| <= Total(counts, |back|)
    ensures |Landed(back)| == Total(counts, |back|) <==> AllGood(back)
    decreases |back|
  {
    if back != [] {
      var before := back[..|back| - 1];
      LandedIsFull(counts, before);
      assert forall i :: 0 <= i < |before| ==> before[i] == back[i];
      assert AllGood(back) <==> AllGood(before) && back[|back| - 1].status == 0;
    }
  }

  /**
   In every reachable state the results of the next URB go to its own packets exactly if all
   URBs before it came back with status zero: an error in one shifts all later results.
   */
  lemma ResultsLandOnTheirOwn(counts: seq<nat>, submitted: nat, results: seq<Result>, es: seq<Event>)
    requires 0 < submitted <= |counts| && |results| >= Total(counts, |counts|)
    requires forall i :: 0 <= i < |counts| ==> counts[i] > 0
    ensures var s := Run(Start(counts, submitted, results), es);
      |s.back| <= |counts| && (s.offset == Total(counts, |s.back|) <==> AllGood(s.back))
  {
    hide Next, Landed, Total;
    ResultsArePacked(counts, submitted, results, es);
    IsoReportedOnce(counts, submitted, results, es);
    var s := Run(Start(counts, submitted, results), es);
    assert forall i :: 0 <= i < |s.back| ==> |s.back[i].frames| == s.counts[i] > 0;
    LandedIsFull(counts, s.back);
  }

  /** Packet `j` of URB `i`. */
  lemma {:induction false} LandedAt(counts: seq<nat>, back: seq<Reaped>, i: nat, j: nat)
    requires |back| <= |counts| && AllGood(back) && i < |back| && j < counts[i]
    requires forall k :: 0 <= k < |back| ==> |back[k].frames| == counts[k]
    ensures |Landed(back)| == Total(counts, |back|)
    ensures Total(counts, i) + j < |Landed(back)| && Landed(back)[Total(counts, i) + j] == back[i].frames[j]
    decreases |back|
  {
    var before := back[..|back| - 1];
    assert forall k :: 0 <= k < |before| ==> before[k] == back[k];
    LandedLength(counts, before);
    if i < |before| {
      LandedAt(counts, before, i, j);
    }
  }

  lemma {:induction false} LandedLength(counts: seq<nat>, back: seq<Reaped>)
    requires |back| <= |counts| && AllGood(back) && forall k :: 0 <= k < |back| ==> |back[k].frames| == counts[k]
    ensures |Landed(back)| == Total(counts, |back|)
    decreases |back|
  {
    if back != [] {
      var before := back[..|back| - 1];
      assert forall k :: 0 <= k < |before| ==> before[k] == back[k];
      LandedLength(counts, before);
    }
  }

  /**
   When a transfer is reported and no URB failed, packet `j` of URB `i` has its own result; and
   if all URBs had been submitted, the offset has come to the number of packets.
   */
  lemma EveryPacketHasItsResult(counts: seq<nat>, submitted: nat, results: seq<Result>, es: seq<Event>, i: nat, j: nat)
    requires 0 < submitted <= |counts| && |results| >= Total(counts, |counts|)
    requires var s := Run(Start(counts, submitted, results), es); s.reports != [] && AllGood(s.back)
    requires i < submitted && j < counts[i]
    ensures var s := Run(Start(counts, submitted, results), es);
      |s.back| == submitted && |s.back[i].frames| == counts[i]
      && Total(counts, i) + j < |s.results| && s.results[Total(counts, i) + j] == s.back[i].frames[j]
      && (submitted == |counts| ==> s.offset == Total(counts, |counts|))
  {
    hide Next, Landed, Total;
    ResultsArePacked(counts, submitted, results, es);
    IsoReportedOnce(counts, submitted, results, es);
    var s := Run(Start(counts, submitted, results), es);
    LandedAt(counts, s.back, i, j);
  }
}
