/**
 The bulk path of the Linux backend as it is written: fields updated in place, the user's
 buffer compacted in place. Every operation is proved to be one step of `BulkUrbs.Next`;
 what reading a freed URB would do has no meaning and no method.
 */
module BulkTransfer {
  import opened BulkUrbs
  import opened Usbfs
  import opened Words

  datatype Urb = Urb(offset: nat, length: nat, shortNotOk: bool, continuation: bool)

  const NO_URB := Urb(0, 0, false, false)

  function UrbFor(length: nat, isOut: bool, continuation: bool, k: nat): Urb {
    Urb(Start(k), UrbLength(length, k), continuation && !isOut, continuation && k > 0)
  }

  /** The first n entries describe the first n pieces of a transfer of `length` bytes. */
  ghost predicate LaidOut(urbs: seq<Urb>, length: nat, isOut: bool, continuation: bool, n: nat) {
    n <= |urbs| && forall k :: 0 <= k < n ==> urbs[k] == UrbFor(length, isOut, continuation, k)
  }

  /** Where the URBs end that the kernel drops by itself when the k-th fails: it follows the flags. */
  function ChainEnd(urbs: seq<Urb>, k: nat): nat
    requires k < |urbs|
    decreases |urbs| - k
  {
    if k + 1 == |urbs| || !urbs[k + 1].continuation then k + 1 else ChainEnd(urbs, k + 1)
  }

  /**
   The flags do what the kernel needs them for: with continuation URBs a failing URB takes all
   those behind it along and none of an earlier transfer, and a short IN URB counts as failing.
   */
  lemma {:induction false} FlagsStopTheRest(urbs: seq<Urb>, length: nat, isOut: bool, continuation: bool, k: nat)
    requires |urbs| == NumUrbs(length) && LaidOut(urbs, length, isOut, continuation, |urbs|) && k < |urbs|
    ensures ChainEnd(urbs, k) == if continuation then |urbs| else k + 1
    ensures !urbs[0].continuation && (urbs[k].shortNotOk <==> continuation && !isOut)
    decreases |urbs| - k
  {
    if k + 1 < |urbs| { FlagsStopTheRest(urbs, length, isOut, continuation, k + 1); }
  }

  lemma MovedData(before: seq<byte>, after: seq<byte>, target: nat, source: nat, data: seq<byte>)
    requires target + |data| <= |before| && source + |data| <= |before|
    requires before[source..source + |data|] == data
    requires after == Overwrite(before, target, before[source..source + |data|])
             || (after == before && (source == target || data == []))
    ensures after == Overwrite(before, target, data)
  {
    if after == before {
      assert data != [] ==> before[target..target + |data|] == data;
      OverwriteIs(before, target, data, before);
    }
  }

  class BulkTransfer {
    const buffer: array<byte>
    const isOut: bool
    const continuation: bool
    const shortNotOk: bool
    var live: bool                   // tpriv->urbs != NULL
    var urbs: seq<Urb>               // what it points to
    var numUrbs: nat
    var numRetired: nat
    var reapAction: ReapAction
    var transferred: nat
    var timedOut: bool
    var kernel: Kernel
    var strays: nat                  // URBs of earlier submissions the kernel has not given back
    var reports: seq<TransferStatus>
    ghost var got: seq<Reaped>

    ghost function Abs(): State
      reads this, buffer
    {
      State(buffer[..], continuation, shortNotOk, live, numUrbs, numRetired, reapAction,
            transferred, timedOut, kernel, got, reports)
    }

    ghost predicate Valid()
      reads this, buffer
    {
      && (if kernel.submitted == 0 then !live && kernel == Kernel(0, 0, map[], {}) else Inv(Abs()))
      && (live ==> |urbs| == numUrbs)
      && (live ==> LaidOut(urbs, buffer.Length, isOut, continuation, kernel.submitted))
    }

    constructor (buffer: array<byte>, isOut: bool, continuation: bool, shortNotOk: bool)
      ensures Valid() && !live && numUrbs == 0 && transferred == 0 && !timedOut
      ensures kernel == Kernel(0, 0, map[], {}) && strays == 0 && got == [] && reports == []
      ensures this.buffer == buffer && this.isOut == isOut && this.continuation == continuation
              && this.shortNotOk == shortNotOk
    {
      this.buffer, this.isOut, this.continuation := buffer, isOut, continuation;
      this.shortNotOk := shortNotOk;
      live, urbs, numUrbs, numRetired, reapAction := false, [], 0, 0, Normal;
      transferred, timedOut, kernel, strays := 0, false, Kernel(0, 0, map[], {}), 0;
      got, reports := [], [];
    }

    /**
     submit_bulk_transfer, after libusb_submit_transfer has cleared the count and the flags; the
     kernel accepts the first `accepted` URBs and refuses the next. A transfer may be submitted
     again as soon as it is reported; URBs that are still outstanding then are forgotten.
     */
    method Submit(accepted: nat, deviceGone: bool) returns (r: int)
      requires Valid()
      modifies this
      ensures Valid()
      ensures old(live) ==> r == LIBUSB_ERROR_BUSY && Abs() == old(Abs()) && urbs == old(urbs) && strays == old(strays)
      ensures !old(live) ==> Abs() == Submitted(buffer[..], continuation, shortNotOk, accepted)
      ensures !old(live) ==> strays == old(strays) + (old(kernel.submitted) - old(kernel.reaped))
      ensures !old(live) && accepted > 0 ==> r == LIBUSB_SUCCESS
      ensures !old(live) && accepted == 0 ==>
        !live && r == if deviceGone then LIBUSB_ERROR_NO_DEVICE else LIBUSB_ERROR_IO
    {
      if live {
        return LIBUSB_ERROR_BUSY;
      }
      if accepted > 0 {
        SubmitEstablishes(buffer[..], continuation, shortNotOk, accepted);
      }
      transferred, timedOut := 0, false;
      strays := strays + (kernel.submitted - kernel.reaped);
      kernel, got, reports := Kernel(0, 0, map[], {}), [], [];
      r := SubmitUrbs(accepted, deviceGone);
    }

    /** The kernel refuses the i-th URB: an error if it took none, otherwise the others are discarded. */
    method SubmitFails(i: nat, deviceGone: bool) returns (r: int)
      requires i < numUrbs == NumUrbs(buffer.Length) && live && numRetired == 0 && reapAction == Normal
      requires transferred == 0 && !timedOut && kernel == Kernel(i, 0, map[], {}) && got == [] && reports == []
      modifies this`live, this`reapAction, this`numRetired, this`kernel
      ensures Abs() == Submitted(buffer[..], continuation, shortNotOk, i) && kernel.submitted == i
      ensures i > 0 ==> r == LIBUSB_SUCCESS
      ensures i == 0 ==> !live && r == if deviceGone then LIBUSB_ERROR_NO_DEVICE else LIBUSB_ERROR_IO
    {
      if i == 0 {
        live := false;
        return if deviceGone then LIBUSB_ERROR_NO_DEVICE else LIBUSB_ERROR_IO;
      }
      reapAction := SubmitFailed;
      numRetired := numRetired + (numUrbs - i);
      Discard(0, i);
      assert kernel.discards == Range(0, i);
      return LIBUSB_SUCCESS;
    }

    /** The part of submit_bulk_transfer that sets up the URBs and hands them to the kernel. */
    method SubmitUrbs(accepted: nat, deviceGone: bool) returns (r: int)
      requires transferred == 0 && !timedOut && kernel == Kernel(0, 0, map[], {}) && got == [] && reports == []
      modifies this
      ensures strays == old(strays)
      ensures Abs() == Submitted(buffer[..], continuation, shortNotOk, accepted)
      ensures accepted > 0 ==> r == LIBUSB_SUCCESS && |urbs| == numUrbs
      ensures accepted > 0 ==> LaidOut(urbs, buffer.Length, isOut, continuation, kernel.submitted)
      ensures accepted == 0 ==> !live && r == if deviceGone then LIBUSB_ERROR_NO_DEVICE else LIBUSB_ERROR_IO
    {
      var length := buffer.Length;
      var n := length / MAX_BULK_BUFFER_LENGTH;
      var lastUrbPartial := false;
      if length == 0 {
        n := 1;
      } else if length % MAX_BULK_BUFFER_LENGTH > 0 {
        lastUrbPartial := true;
        n := n + 1;
      }
      live, urbs := true, seq(n, _ => NO_URB);
      numUrbs, numRetired, reapAction := n, 0, Normal;
      var i := 0;
      while i < n
        invariant 0 <= i <= n == numUrbs == |urbs| && n == NumUrbs(length)
        invariant i <= accepted
        invariant numRetired == 0 && reapAction == Normal && transferred == 0 && !timedOut && strays == old(strays)
        invariant kernel == Kernel(i, 0, map[], {}) && got == [] && reports == []
        invariant live && LaidOut(urbs, length, isOut, continuation, i)
      {
        var size := if i == n - 1 && lastUrbPartial then length % MAX_BULK_BUFFER_LENGTH
                    else if length == 0 then 0 else MAX_BULK_BUFFER_LENGTH;
        urbs := urbs[i := Urb(i * MAX_BULK_BUFFER_LENGTH, size, continuation && !isOut, i > 0 && continuation)];
        if i == accepted {
          r := SubmitFails(i, deviceGone);
          return;
        }
        kernel := kernel.(submitted := kernel.submitted + 1);
        i := i + 1;
      }
      return LIBUSB_SUCCESS;
    }

    /** DISCARDURB on URBs lo to hi - 1. */
    method Discard(lo: nat, hi: nat)
      requires lo <= hi
      modifies this`kernel
      ensures kernel == old(kernel).(discards := old(kernel.discards) + Range(lo, hi))
    {
      var j := lo;
      while j < hi
        invariant lo <= j <= hi
        invariant kernel == old(kernel).(discards := old(kernel.discards) + Range(lo, j))
      {
        kernel := kernel.(discards := kernel.discards + {j});
        assert Range(lo, j + 1) == Range(lo, j) + {j};
        j := j + 1;
      }
    }

    /** cancel_bulk_transfer. */
    method Cancel() returns (r: int)
      requires Valid()
      modifies this`reapAction, this`kernel
      ensures Abs() == Next(old(Abs()), BulkUrbs.Cancel) && urbs == old(urbs) && Valid()
      ensures r == if !live then LIBUSB_ERROR_NOT_FOUND else LIBUSB_SUCCESS
    {
      if !live {
        return LIBUSB_ERROR_NOT_FOUND;
      }
      StepKeeps(Abs(), BulkUrbs.Cancel);
      reapAction := Cancelled;
      Discard(0, numUrbs);
      return LIBUSB_SUCCESS;
    }

    /** handle_timeout: the flag is raised first, then the transfer is cancelled. */
    method HandleTimeout() returns (r: int)
      requires Valid() && live
      modifies this`timedOut, this`reapAction, this`kernel
      ensures Abs() == Next(old(Abs()), Expire) && Valid()
    {
      StepKeeps(Abs(), Expire);
      timedOut := true;
      if !live {
        return LIBUSB_ERROR_NOT_FOUND;
      }
      reapAction := Cancelled;
      Discard(0, numUrbs);
      return LIBUSB_SUCCESS;
    }

    /** The kernel finishes URB k and leaves its data in the URB's region of the buffer. */
    method KernelFinishes(k: nat, c: Completion)
      requires Valid() && Enabled(Abs(), Finish(k, c))
      modifies this`kernel, buffer
      ensures Abs() == Next(old(Abs()), Finish(k, c)) && urbs == old(urbs) && Valid()
    {
      StepKeeps(Abs(), Finish(k, c));
      forall i | 0 <= i < |c.data| {
        buffer[Start(k) + i] := c.data[i];
      }
      kernel := kernel.(ready := kernel.ready[k := c]);
      assert buffer[..] == Overwrite(old(buffer[..]), Start(k), c.data);
    }

    ghost predicate HoldsAt(at: nat, data: seq<byte>)
      reads buffer
    {
      at + |data| <= buffer.Length && buffer[at..at + |data|] == data
    }

    /** memmove inside the user's buffer. */
    method Memmove(target: nat, source: nat, n: nat)
      requires target + n <= buffer.Length && source + n <= buffer.Length
      modifies buffer
      ensures buffer[..] == Overwrite(old(buffer[..]), target, old(buffer[..])[source..source + n])
    {
      ghost var before := buffer[..];
      forall i | 0 <= i < n {
        buffer[target + i] := buffer[source + i];
      }
      OverwriteIs(before, target, before[source..source + n], buffer[..]);
    }

    /** The part of usbi_handle_transfer_completion that decides what the callback sees. */
    method CompleteTransfer(status: TransferStatus)
      modifies this`live, this`reports
      ensures !live
      ensures reports == old(reports) + [Reported(status, shortNotOk, buffer.Length, transferred)]
    {
      live := false;
      var s := status;
      if status == TransferCompleted && shortNotOk {
        if buffer.Length != transferred {
          s := TransferError;
        }
      }
      reports := reports + [s];
    }

    /** reap_for_handle: the oldest finished URB is taken from the kernel and handled. */
    method ReapForHandle()
      requires Valid() && Enabled(Abs(), Reap)
      modifies this, buffer
      ensures Abs() == Next(old(Abs()), Reap) && Valid() && strays == old(strays)
    {
      hide ReportInv, Received, Overwrite, Judge, Keeps, BufferAfter;
      ghost var s := Abs();
      StepKeeps(s, Reap);
      assert InPlace(s.buffer, kernel.reaped, kernel.ready[kernel.reaped].data);
      assert HoldsAt(Start(kernel.reaped), kernel.ready[kernel.reaped].data);
      HandleBulkCompletion();
    }

    /** REAPURBNDELAY and handle_bulk_completion. */
    method HandleBulkCompletion()
      requires live && kernel.reaped in kernel.ready && kernel.reaped < |urbs| == numUrbs
      requires urbs[kernel.reaped].offset == Start(kernel.reaped)
      requires reapAction == Normal ==> LaidOut(urbs, buffer.Length, isOut, continuation, numUrbs)
      requires transferred <= Start(kernel.reaped)
      requires HoldsAt(Start(kernel.reaped), kernel.ready[kernel.reaped].data)
      modifies this, buffer
      ensures Abs() == ReapOldest(old(Abs())) && urbs == old(urbs) && strays == old(strays)
    {
      var urbIdx := kernel.reaped;
      var c := kernel.ready[urbIdx];
      if reapAction != Normal {
        AbnormalCompletion(urbs[urbIdx].offset, c);
      } else {
        NormalCompletion(urbIdx, c);
      }
    }

    /** The branch for transfers that are cancelled, completed early or partly submitted. */
    method AbnormalCompletion(offset: nat, c: Completion)
      requires live && kernel.reaped in kernel.ready && c == kernel.ready[kernel.reaped]
      requires reapAction != Normal && HoldsAt(offset, c.data) && transferred + |c.data| <= buffer.Length
      modifies this`transferred, this`live, this`reports, this`kernel, this`got, this`numRetired, buffer
      ensures Abs() == ReapOldest(old(Abs()))
    {
      hide ReapOldest, Overwrite;
      ReapAbnormal(Abs(), c);
      TakeFromKernel(c);
      KeepSurplus(offset, |c.data|, c.data);
      AbnormalVerdict();
    }

    method TakeFromKernel(ghost c: Completion)
      modifies this`kernel, this`got, this`numRetired
      ensures kernel == Taken(old(kernel)) && numRetired == old(numRetired) + 1
      ensures got == old(got) + [Reaped(reapAction, c)]
    {
      kernel := kernel.(reaped := kernel.reaped + 1, ready := kernel.ready - {kernel.reaped});
      got := got + [Reaped(reapAction, c)];
      numRetired := numRetired + 1;
    }

    /** Surplus data is moved to the end of what was kept before. */
    method KeepSurplus(offset: nat, actualLength: nat, ghost data: seq<byte>)
      requires actualLength == |data| && HoldsAt(offset, data) && transferred + |data| <= buffer.Length
      modifies this`transferred, buffer
      ensures buffer[..] == Overwrite(old(buffer[..]), old(transferred), data)
      ensures transferred == old(transferred) + |data|
    {
      ghost var before := buffer[..];
      assert before[offset..offset + |data|] == data;
      if actualLength > 0 {
        if offset != transferred {
          Memmove(transferred, offset, actualLength);
        }
        transferred := transferred + actualLength;
      }
      MovedData(before, buffer[..], old(transferred), offset, data);
    }

    /** The verdict on a transfer that is cancelled, completed early or partly submitted. */
    method AbnormalVerdict()
      requires reapAction != Normal && live
      modifies this`live, this`reports
      ensures if numRetired == numUrbs
        then !live && reports == old(reports)
               + [Reported(FinalStatus(reapAction, timedOut), shortNotOk, buffer.Length, transferred)]
        else live && reports == old(reports)
    {
      if numRetired == numUrbs {
        if reapAction == Cancelled {
          CompleteTransfer(if timedOut then TransferTimedOut else TransferCancelled);
        } else {
          CompleteTransfer(if reapAction != CompletedEarly then TransferError else TransferCompleted);
        }
      }
    }

    /** The branch for a transfer nobody has given up on. */
    method NormalCompletion(urbIdx: nat, c: Completion)
      requires urbIdx == kernel.reaped < numUrbs == |urbs| && reapAction == Normal && live
      requires kernel.reaped in kernel.ready && c == kernel.ready[kernel.reaped]
      requires LaidOut(urbs, buffer.Length, isOut, continuation, numUrbs)
      modifies this`transferred, this`live, this`reports, this`reapAction, this`kernel, this`got, this`numRetired
      ensures Abs() == ReapOldest(old(Abs()))
    {
      TakeFromKernel(c);
      NormalVerdict(urbIdx, c);
    }

    method NormalVerdict(urbIdx: nat, c: Completion)
      requires urbIdx < numUrbs == |urbs| && reapAction == Normal && live
      requires LaidOut(urbs, buffer.Length, isOut, continuation, numUrbs)
      modifies this`transferred, this`live, this`reports, this`reapAction, this`kernel
      ensures transferred == old(transferred) + (if Keeps(Reaped(Normal, c)) then |c.data| else 0)
      ensures var v := JudgeNormal(buffer.Length, numUrbs, urbIdx, c);
        && (if v.Report?
            then !live && reports == old(reports)
                   + [Reported(v.status, shortNotOk, buffer.Length, transferred)]
            else live && reports == old(reports))
        && reapAction == (if v == CutShort then CompletedEarly else Normal)
        && kernel == (if v == CutShort && !continuation
             then old(kernel).(discards := old(kernel.discards) + Range(urbIdx + 1, numUrbs))
             else old(kernel))
    {
      var urb := urbs[urbIdx];
      var actualLength := |c.data|;
      if c.status == Success || c.status == RemoteIo || (c.status == Overflow && actualLength > 0) {
        transferred := transferred + actualLength;
      }
      match c.status {
        case Success | RemoteIo =>
          if urbIdx == numUrbs - 1 {
            CompleteTransfer(TransferCompleted);
          } else if actualLength < urb.length {
            reapAction := CompletedEarly;
            DiscardUnchained(urbIdx + 1);
          }
        case Pipe => CompleteTransfer(TransferStall);
        case Overflow => CompleteTransfer(TransferOverflow);
        case _ => CompleteTransfer(TransferError);
      }
    }

    /** Discards the URBs from `lo` on that the kernel does not cancel by itself. */
    method DiscardUnchained(lo: nat)
      requires 0 < lo <= numUrbs == |urbs| && LaidOut(urbs, buffer.Length, isOut, continuation, numUrbs)
      modifies this`kernel
      ensures kernel == if continuation then old(kernel)
        else old(kernel).(discards := old(kernel.discards) + Range(lo, numUrbs))
    {
      var i := lo;
      while i < numUrbs
        invariant lo <= i <= numUrbs
        invariant kernel == if continuation then old(kernel)
          else old(kernel).(discards := old(kernel.discards) + Range(lo, i))
      {
        if !urbs[i].continuation {
          kernel := kernel.(discards := kernel.discards + {i});
          assert Range(lo, i + 1) == Range(lo, i) + {i};
        }
        i := i + 1;
      }
    }
  }
}
