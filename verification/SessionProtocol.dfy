/**
 One shell session at a time over ADB packets: what the client stores for its consumer, what it
 acknowledges and what it sends, as a state machine over the packets that arrive.
 */
module SessionProtocol {

  datatype Command = SYNC | CNXN | OPEN | OKAY | CLSE | WRTE | OTHER

  /** Arguments are unsigned 32-bit words. */
  datatype Packet = Packet(command: Command, arg0: nat, arg1: nat, data: string)

  /** An id of -1, as a word. */
  const NONE := 0xffff_ffff

  function Word(n: int): nat {
    n % 0x1_0000_0000
  }

  /**
   The client's variables; and, since the session's first OKAY (or, before it, since the last
   open), what was handled, what the consumer took, and what was sent.
   */
  datatype State = State(
    seed: nat,
    id: int,                      // -1 until the first OKAY
    remoteId: nat,                // a word, NONE until then
    received: seq<Packet>,
    handled: seq<Packet>,
    shifted: seq<Packet>,
    sent: seq<Packet>)

  datatype Event = Open(msg: string) | Handle(p: Packet) | Write(msg: string) | Close | Shift

  const INITIAL := State(0, -1, NONE, [], [], [], [])

  predicate FirstOkay(s: State, p: Packet) {
    p.command == OKAY && s.id == -1 && p.arg1 == Word(s.seed)
  }

  /** Packets kept for the consumer. Later OKAYs are compared with the ids the other way round. */
  predicate Stores(id: int, remoteId: nat, p: Packet) {
    match p.command
    case OKAY => Word(id) == p.arg0 && remoteId == p.arg1
    case CLSE => (p.arg0 == remoteId || p.arg0 == 0) && p.arg1 == Word(id)
    case WRTE => p.arg0 == remoteId && p.data != ""
    case _ => false
  }

  /** Every WRTE of the session is acknowledged, empty ones included. */
  predicate Acknowledges(remoteId: nat, p: Packet) {
    p.command == WRTE && p.arg0 == remoteId
  }

  function Ready(id: int, remoteId: nat): Packet {
    Packet(OKAY, Word(id), remoteId, "")
  }

  function HandlePacket(s: State, p: Packet): State {
    if FirstOkay(s, p) then State(s.seed, s.seed, p.arg0, [p], [p], [], [])
    else State(s.seed, s.id, s.remoteId,
               s.received + (if Stores(s.id, s.remoteId, p) then [p] else []),
               s.handled + [p], s.shifted,
               s.sent + (if Acknowledges(s.remoteId, p) then [Ready(s.id, s.remoteId)] else []))
  }

  /** Opening gives up the current session; the queue is not touched. */
  function SendOpen(s: State, msg: string): State {
    State(s.seed + 1, -1, NONE, s.received, [], [], [Packet(OPEN, Word(s.seed + 1), 0, msg)])
  }

  function SendWrite(s: State, msg: string): State {
    if s.remoteId == NONE then s else s.(sent := s.sent + [Packet(WRTE, 0, s.remoteId, msg)])
  }

  function Next(s: State, e: Event): State {
    match e
    case Open(msg) => SendOpen(s, msg)
    case Handle(p) => HandlePacket(s, p)
    case Write(msg) => SendWrite(s, msg)
    case Close => s.(sent := s.sent + [Packet(CLSE, Word(s.id), s.remoteId, "")])
    case Shift =>
      if s.received == [] then s else s.(received := s.received[1..], shifted := s.shifted + [s.received[0]])
  }

  function Run(s: State, es: seq<Event>): State
    decreases |es|
  {
    if es == [] then s else Next(Run(s, es[..|es| - 1]), es[|es| - 1])
  }

  // ---------------------------------------------------------------- what should be delivered

  function Filter(ps: seq<Packet>, keep: Packet -> bool): seq<Packet> {
    if ps == [] then []
    else Filter(ps[..|ps| - 1], keep) + (if keep(ps[|ps| - 1]) then [ps[|ps| - 1]] else [])
  }

  lemma FilterMore(ps: seq<Packet>, p: Packet, keep: Packet -> bool)
    ensures Filter(ps + [p], keep) == Filter(ps, keep) + (if keep(p) then [p] else [])
  {
    assert (ps + [p])[..|ps|] == ps;
  }

  /** The WRTE packets that carry something. */
  predicate IsData(p: Packet) {
    p.command == WRTE && p.data != ""
  }

  function FromPeer(remoteId: nat): Packet -> bool {
    (p: Packet) => IsData(p) && p.arg0 == remoteId
  }

  /** Every WRTE of the session's peer. */
  function Written(remoteId: nat): Packet -> bool {
    (p: Packet) => p.command == WRTE && p.arg0 == remoteId
  }

  /**
   What the consumer of a session should see: data from its peer, the end of the session, told by
   the peer or with a peer id of 0, and OKAYs with the two ids the other way round.
   */
  function Kept(id: int, remoteId: nat): Packet -> bool {
    (p: Packet) =>
      (p.command == WRTE && p.arg0 == remoteId && p.data != "")
      || (p.command == CLSE && p.arg1 == Word(id) && (p.arg0 == remoteId || p.arg0 == 0))
      || (p.command == OKAY && p.arg0 == Word(id) && p.arg1 == remoteId)
  }

  predicate IsClose(p: Packet) {
    p.command == CLSE
  }

  predicate IsReady(p: Packet) {
    p.command == OKAY
  }

  predicate IsWrite(p: Packet) {
    p.command == WRTE
  }

  /** The session began with its OKAY, which is the first thing the consumer gets. */
  ghost predicate Delivers(s: State) {
    && s.handled != [] && s.handled[0].command == OKAY && s.handled[0].arg0 == s.remoteId
    && s.handled[0].arg1 == Word(s.id) && s.id == s.seed
    && s.shifted + s.received == [s.handled[0]] + Filter(s.handled[1..], Kept(s.id, s.remoteId))
    && Filter(s.shifted + s.received, IsData) == Filter(s.handled, FromPeer(s.remoteId))
  }

  function Repeated(p: Packet, n: nat): seq<Packet> {
    if n == 0 then [] else Repeated(p, n - 1) + [p]
  }

  /** One READY with the session's ids for each WRTE of the peer. */
  ghost predicate AcknowledgesEach(s: State) {
    Filter(s.sent, IsReady)
    == Repeated(Packet(OKAY, Word(s.id), s.remoteId, ""), |Filter(s.handled, Written(s.remoteId))|)
  }

  /** Without a session, no OKAY that would begin one has come since the last open. */
  ghost predicate NotBegun(s: State) {
    && s.remoteId == NONE && Filter(s.sent, IsWrite) == []
    && forall p :: p in s.handled && p.command == OKAY ==> p.arg1 != Word(s.seed)
  }

  ghost predicate SessionInv(s: State) {
    if s.id == -1 then NotBegun(s)
    else Delivers(s) && AcknowledgesEach(s)
  }

  /** Peers never use 0xffffffff as an id. */
  predicate Valid(e: Event) {
    e.Handle? ==> e.p.arg0 != NONE
  }

  predicate AllValid(es: seq<Event>) {
    forall i :: 0 <= i < |es| ==> Valid(es[i])
  }

  lemma FirstOkayDelivers(s: State, p: Packet)
    requires FirstOkay(s, p)
    ensures SessionInv(HandlePacket(s, p)) && HandlePacket(s, p).received == [p]
  {
    var t := HandlePacket(s, p);
    FilterMore([], p, IsData);
    FilterMore([], p, FromPeer(t.remoteId));
    FilterMore([], p, Written(t.remoteId));
    assert [] + [p] == [p] && t.handled[1..] == [] && [p] + Filter([], Kept(t.id, t.remoteId)) == [p];
  }

  lemma HandleKeepsDelivery(s: State, p: Packet)
    requires s.id != -1 && Delivers(s)
    ensures Delivers(HandlePacket(s, p))
  {
    hide Filter;
    var t, all := HandlePacket(s, p), s.shifted + s.received;
    FilterMore(all, p, IsData);
    FilterMore(s.handled, p, FromPeer(s.remoteId));
    FilterMore(s.handled[1..], p, Kept(s.id, s.remoteId));
    assert t.handled[1..] == s.handled[1..] + [p];
    if Stores(s.id, s.remoteId, p) {
      assert t.shifted + t.received == all + [p];
    } else {
      assert t.shifted + t.received == all;
    }
  }

  lemma HandleKeepsAcknowledging(s: State, p: Packet)
    requires s.id != -1 && AcknowledgesEach(s)
    ensures AcknowledgesEach(HandlePacket(s, p))
  {
    hide Filter;
    FilterMore(s.handled, p, Written(s.remoteId));
    FilterMore(s.sent, Ready(s.id, s.remoteId), IsReady);
    assert s.sent + [] == s.sent;
  }

  lemma HandleKeepsSilence(s: State, p: Packet)
    requires s.id == -1 && SessionInv(s) && !FirstOkay(s, p) && p.arg0 != NONE
    ensures SessionInv(HandlePacket(s, p))
  {
    assert s.sent + [] == s.sent;
  }

  lemma StepKeepsSession(s: State, e: Event)
    requires SessionInv(s) && Valid(e)
    ensures SessionInv(Next(s, e))
  {
    hide Filter;
    match e {
      case Open(msg) =>
        NothingWritten(Packet(OPEN, Word(s.seed + 1), 0, msg));
      case Handle(p) =>
        if FirstOkay(s, p) {
          FirstOkayDelivers(s, p);
        } else if s.id != -1 {
          HandleKeepsDelivery(s, p);
          HandleKeepsAcknowledging(s, p);
        } else {
          HandleKeepsSilence(s, p);
        }
      case Write(msg) =>
        FilterMore(s.sent, Packet(WRTE, 0, s.remoteId, msg), IsReady);
      case Close =>
        var p := Packet(CLSE, Word(s.id), s.remoteId, "");
        FilterMore(s.sent, p, IsReady);
        FilterMore(s.sent, p, IsWrite);
      case Shift =>
        if s.received != [] {
          assert s.shifted + [s.received[0]] + s.received[1..] == s.shifted + s.received;
        }
    }
  }

  lemma NothingWritten(p: Packet)
    requires p.command != WRTE
    ensures Filter([p], IsWrite) == [] && Filter([], IsWrite) == []
  {
  }

  lemma {:induction false} SessionInvHolds(es: seq<Event>)
    requires AllValid(es)
    ensures SessionInv(Run(INITIAL, es))
    decreases |es|
  {
    hide Next, SessionInv;
    if es != [] {
      assert Valid(es[|es| - 1]);
      SessionInvHolds(es[..|es| - 1]);
      StepKeepsSession(Run(INITIAL, es[..|es| - 1]), es[|es| - 1]);
    } else {
      InitiallySilent();
    }
  }

  lemma InitiallySilent()
    ensures SessionInv(INITIAL)
  {
  }

  // ---------------------------------------------------------------- main results

  /**
   Session delivery: over every run, once the session's first OKAY has come, what the consumer
   has taken and may still take is that OKAY and then, in order, the packets since that the
   session's ids single out; of WRTE packets these are exactly the non-empty ones from the
   session's peer, and each WRTE from the peer got one READY with the session's ids.
   */
  lemma SessionDelivery(es: seq<Event>)
    requires AllValid(es) && Run(INITIAL, es).id != -1
    ensures var s := Run(INITIAL, es);
      && s.handled != [] && s.handled[0].command == OKAY && s.handled[0].arg0 == s.remoteId
      && s.handled[0].arg1 == Word(s.id) && s.id == s.seed
      && s.shifted + s.received == [s.handled[0]] + Filter(s.handled[1..], Kept(s.id, s.remoteId))
      && Filter(s.shifted + s.received, IsData) == Filter(s.handled, FromPeer(s.remoteId))
      && Filter(s.sent, IsReady)
         == Repeated(Packet(OKAY, Word(s.id), s.remoteId, ""), |Filter(s.handled, Written(s.remoteId))|)
  {
    hide Run, Filter;
    SessionInvHolds(es);
  }

  function Arrivals(es: seq<Event>): seq<Packet> {
    if es == [] then []
    else Arrivals(es[..|es| - 1]) + (if es[|es| - 1].Handle? then [es[|es| - 1].p] else [])
  }

  predicate NoOpen(es: seq<Event>) {
    forall i :: 0 <= i < |es| ==> !es[i].Open?
  }

  lemma {:induction false} RunThen(s: State, es: seq<Event>, fs: seq<Event>)
    ensures Run(s, es + fs) == Run(Run(s, es), fs)
    decreases |fs|
  {
    hide Next;
    if fs == [] {
      assert es + fs == es;
    } else {
      RunThen(s, es, fs[..|fs| - 1]);
      assert (es + fs)[..|es + fs| - 1] == es + fs[..|fs| - 1];
    }
  }

  lemma {:induction false} FreshSession(s: State, p: Packet, fs: seq<Event>)
    requires FirstOkay(s, p) && NoOpen(fs)
    ensures var t := Run(HandlePacket(s, p), fs);
      && t.id == s.seed && t.remoteId == p.arg0 && t.handled == [p] + Arrivals(fs)
      && t.shifted + t.received == [p] + Filter(Arrivals(fs), Kept(s.seed, p.arg0))
    decreases |fs|
  {
    hide Filter, Acknowledges;
    if fs != [] {
      var e, before := fs[|fs| - 1], fs[..|fs| - 1];
      var t := Run(HandlePacket(s, p), before);
      FreshSession(s, p, before);
      if e.Handle? {
        FilterMore(Arrivals(before), e.p, Kept(s.seed, p.arg0));
        var kept := if Stores(s.seed, p.arg0, e.p) then [e.p] else [];
        assert t.shifted + (t.received + kept) == (t.shifted + t.received) + kept;
        assert [p] + (Filter(Arrivals(before), Kept(s.seed, p.arg0)) + kept)
            == [p] + Filter(Arrivals(before), Kept(s.seed, p.arg0)) + kept;
        assert Arrivals(fs) == Arrivals(before) + [e.p];
      } else {
        assert Arrivals(fs) == Arrivals(before);
        if e.Shift? && t.received != [] {
          assert t.shifted + [t.received[0]] + t.received[1..] == t.shifted + t.received;
        }
      }
    } else {
      assert Filter([], Kept(s.seed, p.arg0)) == [] by { NothingKept(Kept(s.seed, p.arg0)); }
      assert [] + [p] == [p] && Arrivals(fs) == [];
    }
  }

  lemma NothingKept(keep: Packet -> bool)
    ensures Filter([], keep) == []
  {
  }

  /**
   Nothing from before a session's first OKAY reaches its consumer, whatever was queued then:
   until the next open, the consumer gets that OKAY and the session's packets that came after it.
   */
  lemma NoStalePacketSurvives(es: seq<Event>, p: Packet, fs: seq<Event>)
    requires FirstOkay(Run(INITIAL, es), p) && NoOpen(fs)
    ensures var seed, t := Run(INITIAL, es).seed, Run(INITIAL, es + [Handle(p)] + fs);
      t.shifted + t.received == [p] + Filter(Arrivals(fs), Kept(seed, p.arg0))
  {
    hide Filter, FirstOkay, HandlePacket;
    assert (es + [Handle(p)])[..|es|] == es;
    RunThen(INITIAL, es + [Handle(p)], fs);
    FreshSession(Run(INITIAL, es), p, fs);
  }

  /** What the keyboard wrote, as packets to the peer. */
  function Lines(es: seq<Event>, remoteId: nat): seq<Packet> {
    if es == [] then []
    else Lines(es[..|es| - 1], remoteId)
         + (if es[|es| - 1].Write? then [Packet(WRTE, 0, remoteId, es[|es| - 1].msg)] else [])
  }

  function Closings(es: seq<Event>): nat {
    if es == [] then 0 else Closings(es[..|es| - 1]) + (if es[|es| - 1].Close? then 1 else 0)
  }

  /**
   In a session every line is sent once, in order and to the peer; each close is sent with the
   session's ids; and nothing but these and READYs is sent.
   */
  lemma {:induction false} SessionSends(es: seq<Event>, p: Packet, fs: seq<Event>)
    requires FirstOkay(Run(INITIAL, es), p) && NoOpen(fs) && p.arg0 != NONE
    ensures var seed, t := Run(INITIAL, es).seed, Run(INITIAL, es + [Handle(p)] + fs);
      && Filter(t.sent, IsWrite) == Lines(fs, p.arg0)
      && Filter(t.sent, IsClose) == Repeated(Packet(CLSE, Word(seed), p.arg0, ""), Closings(fs))
      && forall q :: q in t.sent ==> q.command in {OKAY, WRTE, CLSE}
    decreases |fs|
  {
    hide Filter, FirstOkay, Stores;
    var s, all := Run(INITIAL, es), es + [Handle(p)] + fs;
    assert (es + [Handle(p)])[..|es|] == es;
    if fs == [] {
      FirstOkayBegins(s, p);
      assert es + [Handle(p)] + [] == es + [Handle(p)];
    } else {
      var e, front := fs[|fs| - 1], fs[..|fs| - 1];
      var t := Run(INITIAL, es + [Handle(p)] + front);
      SessionSends(es, p, front);
      RunThen(INITIAL, es + [Handle(p)], front);
      FirstOkayBegins(s, p);
      FreshSession(s, p, front);
      assert all[..|all| - 1] == es + [Handle(p)] + front;
      SentMore(t, e);
    }
  }

  lemma FirstOkayBegins(s: State, p: Packet)
    requires FirstOkay(s, p)
    ensures HandlePacket(s, p).sent == [] && Filter([], IsWrite) == [] && Filter([], IsClose) == []
    ensures Run(s, [Handle(p)]) == HandlePacket(s, p)
  {
    assert [Handle(p)][..0] == [];
  }

  lemma SentMore(t: State, e: Event)
    requires t.id != -1 && t.remoteId != NONE && !e.Open?
    ensures var u := Next(t, e);
      && Filter(u.sent, IsWrite)
         == Filter(t.sent, IsWrite) + (if e.Write? then [Packet(WRTE, 0, t.remoteId, e.msg)] else [])
      && Filter(u.sent, IsClose)
         == Filter(t.sent, IsClose) + (if e.Close? then [Packet(CLSE, Word(t.id), t.remoteId, "")] else [])
      && forall q :: q in u.sent ==> q in t.sent || q.command in {OKAY, WRTE, CLSE}
  {
    hide Filter, Stores;
    var u := Next(t, e);
    if u.sent != t.sent {
      var q := u.sent[|u.sent| - 1];
      assert u.sent == t.sent + [q];
      FilterMore(t.sent, q, IsWrite);
      FilterMore(t.sent, q, IsClose);
    }
  }

  function Opens(es: seq<Event>): nat {
    if es == [] then 0 else Opens(es[..|es| - 1]) + (if es[|es| - 1].Open? then 1 else 0)
  }

  /** What the user asked to have opened last. */
  function LastOpened(es: seq<Event>): string {
    if es == [] then "" else if es[|es| - 1].Open? then es[|es| - 1].msg else LastOpened(es[..|es| - 1])
  }

  /** Sessions are numbered, and until its OKAY comes the OPEN with that number is the first thing sent. */
  lemma {:induction false} OpensAreNumbered(es: seq<Event>)
    ensures var s := Run(INITIAL, es);
      && s.seed == Opens(es)
      && (Opens(es) > 0 && s.id == -1
          ==> s.sent != [] && s.sent[0] == Packet(OPEN, Word(Opens(es)), 0, LastOpened(es)))
    decreases |es|
  {
    hide Stores;
    if es != [] { OpensAreNumbered(es[..|es| - 1]); }
  }

  /** Between an open and its OKAY no WRTE is sent, whatever the keyboard does; and that OKAY is not missed. */
  lemma NoWriteBeforeOkay(es: seq<Event>)
    requires AllValid(es) && Run(INITIAL, es).id == -1
    ensures Filter(Run(INITIAL, es).sent, IsWrite) == []
    ensures forall p :: p in Run(INITIAL, es).handled && p.command == OKAY ==> p.arg1 != Word(Run(INITIAL, es).seed)
  {
    hide Run, Filter;
    SessionInvHolds(es);
  }

  /**
   An OKAY after the first one that carries the session's ids the way the first one did is
   stored exactly if the two ids happen to be equal.
   */
  lemma LaterOkaysAreDropped(s: State, p: Packet)
    requires s.id != -1 && p.command == OKAY && p.arg0 == s.remoteId && p.arg1 == Word(s.id)
    ensures HandlePacket(s, p).received != s.received <==> Word(s.id) == s.remoteId
  {
    assert |s.received + [p]| == |s.received| + 1;
  }
}
