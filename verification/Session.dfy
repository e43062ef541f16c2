/**
 The session's variables changed packet by packet, and the queue between the reading thread and
 the consumer; proved to do what `SessionProtocol` says.
 */
module Session {
  import opened SessionProtocol

  class Client {
    var seed: nat
    var id: int
    var remoteId: nat
    var received: seq<Packet>
    ghost var handled: seq<Packet>
    ghost var shifted: seq<Packet>
    ghost var sent: seq<Packet>

    constructor ()
      ensures State() == INITIAL
    {
      seed, id, remoteId, received, handled, shifted, sent := 0, -1, NONE, [], [], [], [];
    }

    ghost function State(): State
      reads this
    {
      SessionProtocol.State(seed, id, remoteId, received, handled, shifted, sent)
    }

    method ClearReceivedPacket()
      modifies this`received
      ensures received == []
    {
      while received != [] {
        received := received[1..];
      }
    }

    method StoreReceivedPacket(p: Packet)
      modifies this`received
      ensures received == old(received) + [p]
    {
      received := received + [p];
    }

    /** The oldest packet, if there is one. */
    method ShiftReceivedPacket() returns (found: bool, p: Packet)
      modifies this`received, this`shifted
      ensures State() == Next(old(State()), Shift)
      ensures found <==> old(received) != []
      ensures found ==> p == old(received)[0]
    {
      if received == [] {
        return false, Packet(OTHER, 0, 0, "");
      }
      found, p := true, received[0];
      received := received[1..];
      shifted := shifted + [p];
    }

    method SendPacket(p: Packet)
      modifies this`sent
      ensures sent == old(sent) + [p]
    {
      sent := sent + [p];
    }

    method SendReady()
      modifies this`sent
      ensures sent == old(sent) + [Ready(id, remoteId)]
    {
      SendPacket(Packet(OKAY, Word(id), remoteId, ""));
    }

    method SendClose()
      modifies this`sent
      ensures State() == Next(old(State()), Close)
    {
      SendPacket(Packet(CLSE, Word(id), remoteId, ""));
    }

    /** The ids are given up only after the packet is out. */
    method SendOpen(msg: string)
      modifies this
      ensures State() == Next(old(State()), Event.Open(msg))
    {
      seed := seed + 1;
      sent := [];
      SendPacket(Packet(OPEN, Word(seed), 0, msg));
      id, remoteId := -1, NONE;
      handled, shifted := [], [];
    }

    method SendWrite(msg: string)
      modifies this`sent
      ensures State() == Next(old(State()), Write(msg))
    {
      if remoteId == NONE {
        return;
      }
      SendPacket(Packet(WRTE, 0, remoteId, msg));
    }

    method HandlePacket(p: Packet)
      modifies this
      ensures State() == Next(old(State()), Handle(p))
    {
      handled := handled + [p];
      match p.command {
        case OKAY =>
          if id == -1 && p.arg1 == Word(seed) {
            id, remoteId := seed, p.arg0;
            ClearReceivedPacket();
            StoreReceivedPacket(p);
            handled, shifted, sent := [p], [], [];
          } else if Word(id) == p.arg0 && remoteId == p.arg1 {
            StoreReceivedPacket(p);
          }
        case CLSE =>
          if (p.arg0 == remoteId || p.arg0 == 0) && p.arg1 == Word(id) {
            StoreReceivedPacket(p);
          }
        case WRTE =>
          if p.arg0 == remoteId {
            if |p.data| > 0 {
              StoreReceivedPacket(p);
            }
            SendReady();
          }
        case SYNC =>
        case CNXN =>
        case OPEN =>
        case OTHER =>
      }
    }
  }
}
