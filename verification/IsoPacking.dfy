/**
 Isochronous transfers are cut into URBs of at most 32768 bytes in two passes: one counts the
 URBs, the other fills them. The passes must agree.
 */
module IsoPacking {
  import opened Words

  const MAX_ISO_BUFFER_LENGTH := 32768

  /** A URB: its first packet, how many it takes, where its data starts in the user's buffer, and their lengths. */
  datatype Urb = Urb(first: nat, count: nat, buffer: nat, frames: seq<nat>)

  function Sum(lens: seq<nat>, from: nat, end: nat): nat
    requires from <= end <= |lens|
    decreases end
  {
    if from == end then 0 else Sum(lens, from, end - 1) + lens[end - 1]
  }

  // ---------------------------------------------------------------- the two passes

  /**
   URBs opened while counting, beyond the one in use. The space left is an `int` compared with
   an unsigned length: once negative it counts as very large.
   */
  function Opened(lens: seq<nat>, from: nat, used: int): nat
    requires from <= |lens|
    decreases |lens| - from
  {
    if from == |lens| then 0
    else if lens[from] > (MAX_ISO_BUFFER_LENGTH - used) % 0x1_0000_0000
    then 1 + Opened(lens, from + 1, ToInt32(lens[from]))
    else Opened(lens, from + 1, ToInt32(used + lens[from]))
  }

  function NumUrbs(lens: seq<nat>): nat {
    1 + Opened(lens, 0, 0)
  }

  /** Where a URB that starts at packet `from` with that much space ends. */
  function FillEnd(lens: seq<nat>, from: nat, space: nat): (end: nat)
    requires from <= |lens|
    ensures from <= end <= |lens|
    decreases |lens| - from
  {
    if from == |lens| || lens[from] > space then from
    else FillEnd(lens, from + 1, space - lens[from])
  }

  /** `n` URBs, the first starting at packet `from` with its data at `buffer`. */
  function Fill(lens: seq<nat>, n: nat, from: nat, buffer: nat): (urbs: seq<Urb>)
    requires from <= |lens|
    ensures |urbs| == n
    decreases n
  {
    if n == 0 then []
    else
      var end := FillEnd(lens, from, MAX_ISO_BUFFER_LENGTH);
      [Urb(from, end - from, buffer, lens[from..end])] + Fill(lens, n - 1, end, buffer + Sum(lens, from, end))
  }

  function UrbsFor(lens: seq<nat>): seq<Urb> {
    Fill(lens, NumUrbs(lens), 0, 0)
  }

  method CountUrbs(lens: seq<nat>) returns (numUrbs: nat)
    ensures numUrbs == NumUrbs(lens)
  {
    numUrbs := 1;
    var thisUrbLen := 0;
    for i := 0 to |lens|
      invariant NumUrbs(lens) == numUrbs + Opened(lens, i, thisUrbLen)
    {
      var spaceRemaining := MAX_ISO_BUFFER_LENGTH - thisUrbLen;
      var packetLen := lens[i];
      if packetLen > spaceRemaining % 0x1_0000_0000 {
        numUrbs := numUrbs + 1;
        thisUrbLen := ToInt32(packetLen);
      } else {
        thisUrbLen := ToInt32(thisUrbLen + packetLen);
      }
    }
  }

  /** The loop that populates the lengths of one URB's frames. */
  method PacketLengths(lens: seq<nat>, from: nat, end: nat) returns (frames: seq<nat>)
    requires from <= end <= |lens|
    ensures frames == lens[from..end]
  {
    frames := [];
    for k := from to end
      invariant frames == lens[from..k]
    {
      frames := frames + [lens[k]];
    }
  }

  /** One URB, with all the packets from `from` on that fit into it. */
  method FillUrb(lens: seq<nat>, from: nat, original: nat) returns (urb: Urb, packetOffset: nat, buffer: nat)
    requires from <= |lens|
    ensures packetOffset == FillEnd(lens, from, MAX_ISO_BUFFER_LENGTH)
    ensures buffer == original + Sum(lens, from, packetOffset)
    ensures urb == Urb(from, packetOffset - from, original, lens[from..packetOffset])
  {
    packetOffset, buffer := from, original;
    var space, count := MAX_ISO_BUFFER_LENGTH, 0;
    while packetOffset < |lens| && lens[packetOffset] <= space
      invariant from <= packetOffset <= |lens| && 0 <= space && count == packetOffset - from
      invariant buffer == original + Sum(lens, from, packetOffset)
      invariant FillEnd(lens, from, MAX_ISO_BUFFER_LENGTH) == FillEnd(lens, packetOffset, space)
    {
      count := count + 1;
      space := space - lens[packetOffset];
      buffer := buffer + lens[packetOffset];
      packetOffset := packetOffset + 1;
    }
    var frames := PacketLengths(lens, packetOffset - count, packetOffset);
    urb := Urb(packetOffset - count, count, original, frames);
  }

  /** Allocates each URB with the packets that fit into it. */
  method FillUrbs(lens: seq<nat>, numUrbs: nat) returns (urbs: array<Urb>)
    ensures fresh(urbs) && urbs[..] == Fill(lens, numUrbs, 0, 0)
  {
    hide Fill, FillEnd, Sum;
    urbs := new Urb[numUrbs](_ => Urb(0, 0, 0, []));
    var packetOffset: nat, buffer: nat := 0, 0;
    for i := 0 to numUrbs
      invariant packetOffset <= |lens|
      invariant Fill(lens, numUrbs, 0, 0) == urbs[..i] + Fill(lens, numUrbs - i, packetOffset, buffer)
    {
      ghost var before := urbs[..i];
      FillStep(lens, numUrbs - i, packetOffset, buffer);
      var urb;
      urb, packetOffset, buffer := FillUrb(lens, packetOffset, buffer);
      urbs[i] := urb;
      assert urbs[..i + 1] == before + [urb];
      FillMore(before, urb, Fill(lens, numUrbs - i - 1, packetOffset, buffer));
    }
    FillStep(lens, 0, packetOffset, buffer);
    assert urbs[..numUrbs] == urbs[..];
  }

  lemma FillMore(before: seq<Urb>, urb: Urb, rest: seq<Urb>)
    ensures before + ([urb] + rest) == before + [urb] + rest
  {
  }

  lemma FillStep(lens: seq<nat>, n: nat, from: nat, buffer: nat)
    requires from <= |lens|
    ensures var end := FillEnd(lens, from, MAX_ISO_BUFFER_LENGTH);
      Fill(lens, n, from, buffer)
      == if n == 0 then []
         else [Urb(from, end - from, buffer, lens[from..end])] + Fill(lens, n - 1, end, buffer + Sum(lens, from, end))
  {
  }

  /** libusb_get_iso_packet_buffer, as an offset into the buffer. */
  method GetIsoPacketBuffer(lens: seq<nat>, packet: nat) returns (found: bool, offset: nat)
    ensures found <==> packet < |lens| && packet < 0x8000_0000
    ensures found ==> offset == Sum(lens, 0, packet)
  {
    offset := 0;
    if packet >= 0x8000_0000 || packet >= |lens| {
      return false, 0;
    }
    for i := 0 to packet
      invariant offset == Sum(lens, 0, i)
    {
      offset := offset + lens[i];
    }
    found := true;
  }

  lemma {:induction false} SumSplit(lens: seq<nat>, from: nat, mid: nat, end: nat)
    requires from <= mid <= end <= |lens|
    ensures Sum(lens, from, end) == Sum(lens, from, mid) + Sum(lens, mid, end)
    decreases end
  {
    if mid < end { SumSplit(lens, from, mid, end - 1); }
  }

  // ---------------------------------------------------------------- the passes agree

  ghost predicate Packable(lens: seq<nat>) {
    forall i :: 0 <= i < |lens| ==> lens[i] <= MAX_ISO_BUFFER_LENGTH
  }

  /** A URB takes as much as fits: its total is within the limit, and the next packet would not fit. */
  lemma {:induction false} FillEndIsGreedy(lens: seq<nat>, from: nat, space: nat)
    requires from <= |lens|
    ensures var end := FillEnd(lens, from, space);
      Sum(lens, from, end) <= space && (end < |lens| ==> Sum(lens, from, end) + lens[end] > space)
      && (end == from ==> from == |lens| || lens[from] > space)
    decreases |lens| - from
  {
    if from < |lens| && lens[from] <= space {
      FillEndIsGreedy(lens, from + 1, space - lens[from]);
      SumSplit(lens, from, from + 1, FillEnd(lens, from, space));
    }
  }

  /** With short packets the counting loop never sees a negative space. */
  lemma OpenedStep(lens: seq<nat>, from: nat, used: nat)
    requires Packable(lens) && from < |lens| && used <= MAX_ISO_BUFFER_LENGTH
    ensures Opened(lens, from, used)
            == if lens[from] > MAX_ISO_BUFFER_LENGTH - used then 1 + Opened(lens, from + 1, lens[from])
               else Opened(lens, from + 1, used + lens[from])
  {
    hide ToInt32;
    SmallStaysInInt32(MAX_ISO_BUFFER_LENGTH - used);
    SmallStaysInInt32(lens[from]);
    SmallStaysInInt32(used + lens[from]);
  }

  lemma NothingOpened(lens: seq<nat>, used: int)
    ensures Opened(lens, |lens|, used) == 0
  {
  }

  /** While counting, a new URB is opened exactly where the filling pass starts one. */
  lemma {:induction false} OpensAtEnds(lens: seq<nat>, from: nat, used: nat)
    requires Packable(lens) && from <= |lens| && used <= MAX_ISO_BUFFER_LENGTH
    ensures var end := FillEnd(lens, from, MAX_ISO_BUFFER_LENGTH - used);
      Opened(lens, from, used) == if end == |lens| then 0 else 1 + Opened(lens, end, 0)
    decreases |lens| - from
  {
    hide Opened;
    if from < |lens| {
      OpenedStep(lens, from, used);
      if lens[from] <= MAX_ISO_BUFFER_LENGTH - used {
        OpensAtEnds(lens, from + 1, used + lens[from]);
      } else {
        OpenedStep(lens, from, 0);
      }
    } else {
      NothingOpened(lens, used);
    }
  }

  /** Where `n` greedy URBs, starting at packet `from`, get to. */
  function Reach(lens: seq<nat>, n: nat, from: nat): (end: nat)
    requires from <= |lens|
    ensures from <= end <= |lens|
    decreases n
  {
    if n == 0 then from else Reach(lens, n - 1, FillEnd(lens, from, MAX_ISO_BUFFER_LENGTH))
  }

  /** The counted URBs are just enough: one fewer would leave packets over. */
  lemma {:induction false} CountIsJustEnough(lens: seq<nat>, from: nat)
    requires Packable(lens) && from <= |lens|
    ensures Reach(lens, 1 + Opened(lens, from, 0), from) == |lens|
    ensures from < |lens| ==> Reach(lens, Opened(lens, from, 0), from) < |lens|
    decreases |lens| - from
  {
    OpensAtEnds(lens, from, 0);
    if from < |lens| {
      var end := FillEnd(lens, from, MAX_ISO_BUFFER_LENGTH);
      assert end > from;
      CountIsJustEnough(lens, end);
    }
  }

  /** A URB that starts at packet `from`: as many packets as fit, their lengths, and where their data starts. */
  ghost predicate GoodUrb(lens: seq<nat>, u: Urb, from: nat) {
    && u.first == from && from + u.count <= |lens|
    && Sum(lens, from, from + u.count) <= MAX_ISO_BUFFER_LENGTH
    && u.buffer == Sum(lens, 0, from) && u.frames == lens[from..from + u.count]
    && (from < |lens| ==> u.count > 0)
  }

  /** What is wanted of a list of URBs that starts at packet `from`. */
  ghost predicate GoodUrbs(lens: seq<nat>, urbs: seq<Urb>, from: nat, end: nat)
    decreases |urbs|
  {
    if urbs == [] then from == end
    else GoodUrb(lens, urbs[0], from) && GoodUrbs(lens, urbs[1..], from + urbs[0].count, end)
  }

  lemma FilledIsGood(lens: seq<nat>, from: nat)
    requires Packable(lens) && from <= |lens|
    ensures var end := FillEnd(lens, from, MAX_ISO_BUFFER_LENGTH);
      GoodUrb(lens, Urb(from, end - from, Sum(lens, 0, from), lens[from..end]), from)
  {
    FillEndIsGreedy(lens, from, MAX_ISO_BUFFER_LENGTH);
  }

  lemma {:induction false} FillIsGood(lens: seq<nat>, n: nat, from: nat)
    requires Packable(lens) && from <= |lens|
    ensures GoodUrbs(lens, Fill(lens, n, from, Sum(lens, 0, from)), from, Reach(lens, n, from))
    decreases n
  {
    hide GoodUrb, FillEnd, Sum;
    if n > 0 {
      var end := FillEnd(lens, from, MAX_ISO_BUFFER_LENGTH);
      FilledIsGood(lens, from);
      SumSplit(lens, 0, from, end);
      FillIsGood(lens, n - 1, end);
      assert Fill(lens, n, from, Sum(lens, 0, from))[1..] == Fill(lens, n - 1, end, Sum(lens, 0, end));
    }
  }

  lemma {:induction false} ReachGrows(lens: seq<nat>, m: nat, n: nat, from: nat)
    requires m <= n && from <= |lens|
    ensures Reach(lens, m, from) <= Reach(lens, n, from)
    decreases m
  {
    if m > 0 { ReachGrows(lens, m - 1, n - 1, FillEnd(lens, from, MAX_ISO_BUFFER_LENGTH)); }
  }

  /** While packets are left over for the last URB, none before it is empty. */
  lemma {:induction false} NoneIsEmpty(lens: seq<nat>, n: nat, from: nat, buffer: nat)
    requires Packable(lens) && from <= |lens| && (n > 0 ==> Reach(lens, n - 1, from) < |lens|)
    ensures forall i :: 0 <= i < n ==> Fill(lens, n, from, buffer)[i].count > 0
    decreases n
  {
    if n > 0 {
      var end := FillEnd(lens, from, MAX_ISO_BUFFER_LENGTH);
      ReachGrows(lens, 0, n - 1, from);
      FillEndIsGreedy(lens, from, MAX_ISO_BUFFER_LENGTH);
      NoneIsEmpty(lens, n - 1, end, buffer + Sum(lens, from, end));
    }
  }

  /**
   Two-pass packing. The URBs hold all packets exactly if no packet is longer than 32768 bytes;
   then they hold them in order, none twice, each URB within the limit, not empty, with the buffer
   address of its first packet and the lengths of all its packets.
   */
  lemma PackingIsComplete(lens: seq<nat>)
    ensures Reach(lens, NumUrbs(lens), 0) == |lens| <==> Packable(lens)
    ensures Packable(lens) ==> GoodUrbs(lens, UrbsFor(lens), 0, |lens|)
    ensures Packable(lens) && lens != [] ==> forall i :: 0 <= i < |UrbsFor(lens)| ==> UrbsFor(lens)[i].count > 0
  {
    if Packable(lens) {
      CountIsJustEnough(lens, 0);
      if lens != [] { NoneIsEmpty(lens, NumUrbs(lens), 0, 0); }
      FillIsGood(lens, NumUrbs(lens), 0);
    } else {
      var i :| 0 <= i < |lens| && lens[i] > MAX_ISO_BUFFER_LENGTH;
      StuckAt(lens, NumUrbs(lens), 0, i);
    }
  }

  /** No number of URBs gets past a packet that is too long. */
  lemma {:induction false} StuckAt(lens: seq<nat>, n: nat, from: nat, i: nat)
    requires from <= i < |lens| && lens[i] > MAX_ISO_BUFFER_LENGTH
    ensures Reach(lens, n, from) <= i
    decreases n
  {
    if n > 0 {
      EndsBefore(lens, from, MAX_ISO_BUFFER_LENGTH, i);
      StuckAt(lens, n - 1, FillEnd(lens, from, MAX_ISO_BUFFER_LENGTH), i);
    }
  }

  lemma {:induction false} EndsBefore(lens: seq<nat>, from: nat, space: nat, i: nat)
    requires from <= i < |lens| && lens[i] > MAX_ISO_BUFFER_LENGTH >= space
    ensures FillEnd(lens, from, space) <= i
    decreases i - from
  {
    if from < i && lens[from] <= space { EndsBefore(lens, from + 1, space - lens[from], i); }
  }

  // ---------------------------------------------------------------- no cut uses fewer URBs

  /** Cutting the packets from `from` on into consecutive parts, each within the limit. */
  ghost predicate Cut(lens: seq<nat>, parts: seq<nat>, from: nat)
    decreases |parts|
  {
    if parts == [] then from == |lens|
    else from + parts[0] <= |lens| && Sum(lens, from, from + parts[0]) <= MAX_ISO_BUFFER_LENGTH
         && Cut(lens, parts[1..], from + parts[0])
  }

  /** Starting earlier, a part within the limit cannot end later than the greedy one. */
  lemma GreedyEndsLast(lens: seq<nat>, from: nat, start: nat, end: nat)
    requires from <= start <= |lens| && from <= end <= |lens| && Sum(lens, from, end) <= MAX_ISO_BUFFER_LENGTH
    ensures end <= FillEnd(lens, start, MAX_ISO_BUFFER_LENGTH)
  {
    var greedy := FillEnd(lens, start, MAX_ISO_BUFFER_LENGTH);
    FillEndIsGreedy(lens, start, MAX_ISO_BUFFER_LENGTH);
    if greedy < end {
      SumSplit(lens, from, greedy + 1, end);
      SumSplit(lens, from, start, greedy + 1);
    }
  }

  lemma {:induction false} GreedyStaysAhead(lens: seq<nat>, parts: seq<nat>, from: nat, start: nat)
    requires from <= start <= |lens| && Cut(lens, parts, from)
    ensures Reach(lens, |parts|, start) == |lens|
    decreases |parts|
  {
    if parts != [] {
      GreedyEndsLast(lens, from, start, from + parts[0]);
      GreedyStaysAhead(lens, parts[1..], from + parts[0], FillEnd(lens, start, MAX_ISO_BUFFER_LENGTH));
    }
  }

  /** The counted number of URBs is the least possible. */
  lemma NoCutUsesFewer(lens: seq<nat>, parts: seq<nat>)
    requires Packable(lens) && lens != [] && Cut(lens, parts, 0)
    ensures |parts| >= NumUrbs(lens)
  {
    CountIsJustEnough(lens, 0);
    GreedyStaysAhead(lens, parts, 0, 0);
    if |parts| < NumUrbs(lens) {
      ReachGrows(lens, |parts|, NumUrbs(lens) - 1, 0);
    }
  }
}
