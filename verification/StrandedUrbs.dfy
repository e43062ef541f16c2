/**
 URBs of a bulk transfer that come back after the library has freed them: when that can happen,
 what keeps it from happening, and what it may lead to.
 */
module StrandedUrbs {
  import opened BulkRuns
  import opened BulkUrbs
  import opened Usbfs
  import opened Words

  /**
   The library can still be handed a URB that it has freed exactly after a hard error that
   stranded some: either one has finished already, or the next one may finish now.
   */
  lemma FreedUrbComesBackExactly(s: State)
    requires Inv(s)
    ensures StrandedByHardError(s)
            <==> !s.live && (s.kernel.reaped in s.kernel.ready
                             || Enabled(s, Finish(s.kernel.reaped, Completion(Success, []))))
  {
    if s.got != [] {
      assert Last(s.got) in s.got;
    }
    UrbEnd(|s.buffer|, if s.kernel.reaped < s.numUrbs then s.kernel.reaped else 0);
  }

  /** The condition for the next step of a run, from the start. */
  lemma UndefinedExactly(buffer: seq<byte>, continuation: bool, shortNotOk: bool,
                         accepted: nat, events: seq<Event>, e: Event)
    requires accepted > 0 && AllDefined(Submitted(buffer, continuation, shortNotOk, accepted), events)
    ensures var s := Run(Submitted(buffer, continuation, shortNotOk, accepted), events);
      !Defined(s, e) <==> e.ReapFreed? && StrandedByHardError(s) && s.kernel.reaped in s.kernel.ready
  {
    SubmitEstablishes(buffer, continuation, shortNotOk, accepted);
    RunKeeps(Submitted(buffer, continuation, shortNotOk, accepted), events);
    FreedUrbComesBackExactly(Run(Submitted(buffer, continuation, shortNotOk, accepted), events));
  }

  /** The kernel finishes a URB with a hard error only if it is the last of the transfer. */
  predicate FailsLast(numUrbs: nat, e: Event) {
    e.Finish? && !Soft(e.completion.status) ==> e.urb == numUrbs - 1
  }

  ghost predicate FailedLast(s: State) {
    && (forall k :: k in s.kernel.ready && !Soft(s.kernel.ready[k].status) ==> k == s.numUrbs - 1)
    && (forall i :: 0 <= i < |s.got| && !Soft(s.got[i].completion.status) ==> i == s.numUrbs - 1)
  }

  lemma FailedLastIsDefined(s: State, e: Event)
    requires Inv(s) && FailedLast(s)
    ensures Defined(s, e) && !StrandedByHardError(s)
  {
    FreedUrbComesBackExactly(s);
  }

  lemma StepKeepsFailedLast(s: State, e: Event)
    requires Inv(s) && FailedLast(s) && FailsLast(s.numUrbs, e) && Defined(s, e)
    ensures FailedLast(Next(s, e)) && Next(s, e).numUrbs == s.numUrbs
  {
  }

  /** Where hard errors hit only last URBs, no run reads a freed URB, whatever else happens. */
  lemma {:induction false} LateErrorsAreHarmless(s: State, events: seq<Event>)
    requires Inv(s) && FailedLast(s)
    requires forall i :: 0 <= i < |events| ==> FailsLast(s.numUrbs, events[i])
    ensures AllDefined(s, events)
    ensures Inv(Run(s, events)) && FailedLast(Run(s, events)) && Run(s, events).numUrbs == s.numUrbs
    decreases |events|
  {
    if events != [] {
      var front, e := events[..|events| - 1], events[|events| - 1];
      LateErrorsAreHarmless(s, front);
      FailedLastIsDefined(Run(s, front), e);
      StepKeeps(Run(s, front), e);
      StepKeepsFailedLast(Run(s, front), e);
    }
  }

  /**
   What then happens if the freed memory still holds what it held: a second hard error makes
   a second report.
   */
  lemma StrandedUrbReportsAgain(s: State)
    requires Inv(s) && StrandedByHardError(s) && s.kernel.reaped in s.kernel.ready
    requires !Soft(s.kernel.ready[s.kernel.reaped].status)
    ensures |s.reports| == 1 && |ReapOldest(s).reports| == 2
  {
    FreedUrbComesBackExactly(s);
    assert Last(s.got) in s.got;
  }

  /** Two protocol errors on two URBs: reported after the first, while the second is there to be read. */
  lemma TwoErrorsTwoReports()
    ensures var s0 := Submitted(seq(2 * MAX_BULK_BUFFER_LENGTH, _ => 0), false, false, 2);
            var failed := Completion(Proto, []);
            var s := Run(s0, [Finish(0, failed), Finish(1, failed), Reap]);
            && s.reports == [TransferError] && StrandedByHardError(s) && s.kernel.reaped in s.kernel.ready
            && ReapOldest(s).reports == [TransferError, TransferError]
  {
    var s0 := Submitted(seq(2 * MAX_BULK_BUFFER_LENGTH, _ => 0), false, false, 2);
    var failed := Completion(Proto, []);
    var es := [Finish(0, failed), Finish(1, failed), Reap];
    assert es[..2] == [es[0], es[1]] && es[..2][..1] == [es[0]] && [es[0]][..0] == [];
    assert Run(s0, []) == s0;
    assert Run(s0, [es[0]]) == Next(s0, es[0]);
    assert Run(s0, es[..2]) == Next(Next(s0, es[0]), es[1]);
    assert Run(s0, es) == Next(Next(Next(s0, es[0]), es[1]), Reap);
  }
}
