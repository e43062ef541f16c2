/**
 Submitting, cancelling and completing an isochronous transfer as the code does it: fields
 updated in place and packet descriptors written through an array.
 */
module IsoTransfer {
  import opened IsoUrbs
  import opened Usbfs
  import opened Words
  import P = IsoPacking

  class IsoTransfer {
    const lengths: seq<nat>       // of the packets, as the user set them
    const packets: array<Result>  // the packet descriptors
    var live: bool                // iso_urbs is not NULL
    var isoUrbs: array<P.Urb>
    var numRetired: nat
    var reapAction: ReapAction
    var isoPacketOffset: nat
    var reports: seq<Report>
    ghost var counts: seq<nat>
    var discards: set<nat>        // URBs passed to DISCARDURB
    ghost var submitted: nat
    ghost var back: seq<Reaped>

    constructor (lengths: seq<nat>, packets: array<Result>)
      requires packets.Length == |lengths|
      ensures this.lengths == lengths && this.packets == packets && !live && fresh(isoUrbs) && reports == []
    {
      this.lengths, this.packets, live, discards := lengths, packets, false, {};
      isoUrbs := new P.Urb[0];
      numRetired, reapAction, isoPacketOffset, reports, counts, submitted, back := 0, Normal, 0, [], [], 0, [];
    }

    ghost function State(): State
      reads this, packets
    {
      IsoUrbs.State(counts, live, submitted, discards, back, numRetired, reapAction, isoPacketOffset, packets[..], reports)
    }

    /** The next results fit behind those that landed. */
    ghost predicate Valid()
      reads this, packets
    {
      && isoUrbs.Length == |counts| && |back| <= |counts|
      && isoPacketOffset <= Total(counts, |back|) && Total(counts, |counts|) <= packets.Length
    }

    /** Counts the URBs and fills them. */
    method Prepare()
      requires packets.Length == |lengths|
      modifies this
      ensures fresh(isoUrbs) && isoUrbs[..] == P.UrbsFor(lengths) && counts == Counts(isoUrbs[..]) && |counts| > 0
      ensures Total(counts, |counts|) <= packets.Length
      ensures live && reports == [] && back == [] && discards == {}
      ensures numRetired == 0 && reapAction == Normal && isoPacketOffset == 0
    {
      hide P.Fill, Total;
      var numUrbs := P.CountUrbs(lengths);
      isoUrbs := P.FillUrbs(lengths, numUrbs);
      CountsFit(lengths, numUrbs, 0, 0);
      counts := Counts(isoUrbs[..]);
      live, numRetired, reapAction, isoPacketOffset, reports := true, 0, Normal, 0, [];
      back, discards := [], {};
    }

    /** DISCARDURB on the first `n` URBs. */
    method Discard(n: nat)
      modifies this`discards
      ensures discards == old(discards) + Range(0, n)
    {
      for j := 0 to n
        invariant discards == old(discards) + Range(0, j)
      {
        discards := discards + {j};
        assert Range(0, j + 1) == Range(0, j) + {j};
      }
    }

    /** The kernel takes the first `accepted` URBs. If that is not all, these are discarded. */
    method SubmitUrbs(accepted: nat, deviceGone: bool) returns (r: int)
      requires live && reports == [] && back == [] && discards == {} && isoUrbs.Length == |counts| > 0
      requires numRetired == 0 && reapAction == Normal && isoPacketOffset == 0
      modifies this`live, this`reapAction, this`numRetired, this`submitted, this`discards
      ensures r == if accepted > 0 then 0 else if deviceGone then LIBUSB_ERROR_NO_DEVICE else LIBUSB_ERROR_IO
      ensures State() == Start(counts, if accepted < |counts| then accepted else |counts|, packets[..])
    {
      hide Total;
      submitted := isoUrbs.Length;
      for i := 0 to isoUrbs.Length
        invariant i <= accepted && live && numRetired == 0 && reapAction == Normal && submitted == |counts|
        invariant discards == {}
      {
        if i == accepted {
          if i == 0 {
            live, submitted := false, 0;
            return if deviceGone then LIBUSB_ERROR_NO_DEVICE else LIBUSB_ERROR_IO;
          }
          reapAction, numRetired, submitted := SubmitFailed, isoUrbs.Length - i, i;
          Discard(i);
          assert discards == Range(0, i);
          return 0;
        }
      }
      r := 0;
    }

    method Submit(accepted: nat, deviceGone: bool) returns (r: int)
      requires packets.Length == |lengths|
      modifies this
      ensures old(live) ==> r == LIBUSB_ERROR_BUSY && State() == old(State()) && live
      ensures !old(live) ==> r == if accepted > 0 then 0 else if deviceGone then LIBUSB_ERROR_NO_DEVICE else LIBUSB_ERROR_IO
      ensures !old(live) ==> fresh(isoUrbs) && isoUrbs[..] == P.UrbsFor(lengths) && counts == Counts(isoUrbs[..])
      ensures !old(live) ==> Valid() && |counts| > 0 && (live <==> r == 0)
      ensures !old(live) ==> State() == Start(counts, if accepted < |counts| then accepted else |counts|, packets[..])
    {
      hide P.UrbsFor, Counts;
      if live {
        return LIBUSB_ERROR_BUSY;
      }
      Prepare();
      r := SubmitUrbs(accepted, deviceGone);
    }

    /** Changes the mode and discards every URB. */
    method Cancel() returns (r: int)
      requires isoUrbs.Length == |counts|
      modifies this`reapAction, this`discards
      ensures State() == Next(old(State()), Event.Cancel)
      ensures r == 0 <==> live
    {
      if !live {
        return LIBUSB_ERROR_NOT_FOUND;
      }
      reapAction := Cancelled;
      Discard(isoUrbs.Length);
      r := 0;
    }

    method CopyResults(frames: seq<Result>)
      requires isoPacketOffset + |frames| <= packets.Length
      modifies this`isoPacketOffset, packets
      ensures isoPacketOffset == old(isoPacketOffset) + |frames|
      ensures packets[..] == Overwrite(old(packets[..]), old(isoPacketOffset), frames)
    {
      ghost var start := isoPacketOffset;
      for i := 0 to |frames|
        invariant isoPacketOffset == start + i
        invariant forall k :: 0 <= k < packets.Length ==>
          packets[k] == if start <= k < start + i then frames[k - start] else old(packets[k])
      {
        packets[isoPacketOffset] := frames[i];
        isoPacketOffset := isoPacketOffset + 1;
      }
      OverwriteIs(old(packets[..]), start, frames, packets[..]);
    }

    /** `urbIdx` counts from one; URBs come back in order. */
    method HandleIsoCompletion(urbIdx: nat, urb: Reaped)
      requires Valid() && live && urbIdx == |back| + 1 && Enabled(State(), Reap(urb))
      modifies this`isoPacketOffset, this`numRetired, this`live, this`reports, this`back, packets
      ensures Valid() && State() == Next(old(State()), Reap(urb))
      ensures live <==> reports == old(reports)
    {
      hide Overwrite, Total;
      TotalGrows(counts, |back| + 1, |counts|);
      TotalStep(counts, |back|);
      if urb.status == 0 {
        CopyResults(urb.frames);
      }
      numRetired := numRetired + 1;
      back := back + [urb];
      if reapAction != Normal {
        if numRetired == isoUrbs.Length {
          live := false;
          reports := reports + [if reapAction == Cancelled then Cancellation else Error];
        }
        return;
      }
      if urbIdx == isoUrbs.Length {
        live := false;
        reports := reports + [Completed];
      }
    }
  }

  function Counts(urbs: seq<P.Urb>): (counts: seq<nat>)
    ensures |counts| == |urbs|
    ensures forall i :: 0 <= i < |urbs| ==> counts[i] == urbs[i].count
  {
    if urbs == [] then [] else [urbs[0].count] + Counts(urbs[1..])
  }

  /** The URBs hold no more packets than there are. */
  lemma {:induction false} CountsFit(lens: seq<nat>, n: nat, from: nat, buffer: nat)
    requires from <= |lens|
    ensures Total(Counts(P.Fill(lens, n, from, buffer)), n) <= |lens| - from
    decreases n
  {
    hide Total, Counts;
    var urbs := P.Fill(lens, n, from, buffer);
    if n > 0 {
      var end := P.FillEnd(lens, from, P.MAX_ISO_BUFFER_LENGTH);
      CountsFit(lens, n - 1, end, buffer + P.Sum(lens, from, end));
      assert urbs[1..] == P.Fill(lens, n - 1, end, buffer + P.Sum(lens, from, end));
      CountsStep(urbs, n);
    } else {
      NoneCounted(Counts(urbs));
    }
  }

  lemma NoneCounted(counts: seq<nat>)
    ensures Total(counts, 0) == 0
  {
  }

  lemma CountsStep(urbs: seq<P.Urb>, n: nat)
    requires 0 < n <= |urbs|
    ensures Total(Counts(urbs), n) == urbs[0].count + Total(Counts(urbs[1..]), n - 1)
  {
    hide Total;
    assert Counts(urbs)[1..] == Counts(urbs[1..]);
    TotalFirst(Counts(urbs), n);
  }

  lemma {:induction false} TotalFirst(counts: seq<nat>, n: nat)
    requires 0 < n <= |counts|
    ensures Total(counts, n) == counts[0] + Total(counts[1..], n - 1)
    decreases n
  {
    if n > 1 { TotalFirst(counts, n - 1); }
  }

  lemma TotalStep(counts: seq<nat>, n: nat)
    requires n < |counts|
    ensures Total(counts, n + 1) == Total(counts, n) + counts[n]
  {
  }

  // ---------------------------------------------------------------- packets and results

  /** The packets of URB `i` start where the packets of the URBs before it end. */
  lemma {:induction false} FirstIsTotal(lens: seq<nat>, urbs: seq<P.Urb>, from: nat, end: nat, i: nat)
    requires P.GoodUrbs(lens, urbs, from, end) && i < |urbs|
    ensures urbs[i].first == from + Total(Counts(urbs), i)
    ensures end == from + Total(Counts(urbs), |urbs|)
    decreases |urbs|
  {
    hide Total, Counts;
    var rest := urbs[1..];
    CountsStep(urbs, |urbs|);
    NoneCounted(Counts(urbs));
    NoneCounted(Counts(rest));
    if rest != [] {
      FirstIsTotal(lens, rest, from + urbs[0].count, end, if i > 0 then i - 1 else 0);
    }
    if i > 0 { CountsStep(urbs, i); }
  }

  /**
   End to end: packets of at most 32768 bytes, all URBs submitted and back with status zero.
   Once the transfer is reported, each packet has the result the kernel gave for that packet,
   and there is a result for every packet.
   */
  lemma PacketsGetTheirResults(lens: seq<nat>, results: seq<Result>, es: seq<Event>, i: nat, j: nat)
    requires P.Packable(lens) && |results| == |lens|
    requires var urbs := P.UrbsFor(lens);
      |urbs| > 0 && Total(Counts(urbs), |urbs|) <= |results| && i < |urbs| && j < urbs[i].count
      && Run(Start(Counts(urbs), |urbs|, results), es).reports != []
      && AllGood(Run(Start(Counts(urbs), |urbs|, results), es).back)
    ensures var urbs := P.UrbsFor(lens);
      var s := Run(Start(Counts(urbs), |urbs|, results), es);
      |s.back| == |urbs| && |s.back[i].frames| == urbs[i].count && |s.results| == |lens|
      && urbs[i].first + j < |lens| && s.results[urbs[i].first + j] == s.back[i].frames[j]
      && s.offset == |lens|
  {
    hide Run, P.UrbsFor, P.GoodUrbs, Total, Counts;
    var urbs := P.UrbsFor(lens);
    P.PackingIsComplete(lens);
    FirstIsTotal(lens, urbs, 0, |lens|, i);
    EveryPacketHasItsResult(Counts(urbs), |urbs|, results, es, i, j);
    ResultsArePacked(Counts(urbs), |urbs|, results, es);
  }
}
