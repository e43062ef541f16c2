/**
 Sending and receiving packets as the code does it: packet structures filled and byte-swapped in
 place, loops that write and read in pieces. Proved to do what `Framing` says.
 */
module Transport {
  import opened Framing
  import opened Words

  /** A packet with its payload buffer. */
  class APacket {
    var msg: Message
    const data: array<byte>

    constructor ()
      ensures msg == Message(0, 0, 0, 0, 0, 0) && fresh(data) && data.Length == MAX_PAYLOAD
    {
      msg := Message(0, 0, 0, 0, 0, 0);
      data := new byte[MAX_PAYLOAD];
    }

    /** The part of the buffer the header speaks of. */
    function Value(): Packet
      requires msg.dataLength <= data.Length
      reads this, data
    {
      Packet(msg, data[..msg.dataLength])
    }
  }

  /** The outgoing end of the bus: bytes in order, and how many empty transfers were made. */
  class Sink {
    var bytes: seq<byte>
    var empties: nat
    var closed: bool

    constructor ()
      ensures bytes == [] && empties == 0 && !closed
    {
      bytes, empties, closed := [], 0, false;
    }

    /** A bulk transfer takes all or fails. */
    method BulkWrite(data: seq<byte>) returns (n: int)
      modifies this`bytes, this`empties
      ensures closed ==> n < 0 && bytes == old(bytes) && empties == old(empties)
      ensures !closed ==> n == |data| && bytes == old(bytes) + data
      ensures !closed ==> empties == old(empties) + (if data == [] then 1 else 0)
    {
      if closed {
        return -1;
      }
      bytes := bytes + data;
      empties := empties + if data == [] then 1 else 0;
      n := |data|;
    }
  }

  /** The incoming end: a stream, how far it has been read, and how the bus cuts it up. */
  class Source {
    const stream: seq<byte>
    const frag: Fragmentation
    var pos: nat

    constructor (stream: seq<byte>, frag: Fragmentation)
      ensures this.stream == stream && this.frag == frag && pos == 0
    {
      this.stream, this.frag, pos := stream, frag, 0;
    }

    /** A bulk transfer puts what the bus delivers into the buffer. */
    method BulkRead(buf: array<byte>, at: nat, want: nat) returns (n: nat)
      requires pos <= |stream| && at + want <= buf.Length
      modifies this`pos, buf
      ensures n == Delivered(stream, old(pos), want, frag) && pos == old(pos) + n
      ensures buf[..at + n] == old(buf[..at]) + stream[old(pos)..pos]
    {
      n := Delivered(stream, pos, want, frag);
      for i := 0 to n
        modifies buf
        invariant buf[..at + i] == old(buf[..at]) + stream[pos..pos + i]
      {
        buf[at + i] := stream[pos + i];
        assert buf[..at + i + 1] == buf[..at + i] + [stream[pos + i]];
        assert stream[pos..pos + i + 1] == stream[pos..pos + i] + [stream[pos + i]];
      }
      pos := pos + n;
    }
  }

  // ---------------------------------------------------------------- pieces

  /** At most 4096 bytes at a time; devices with a zero mask get an empty transfer after an even length. */
  method UsbWrite(sink: Sink, data: seq<byte>, zeroMask: nat) returns (r: int)
    modifies sink`bytes, sink`empties
    ensures !sink.closed ==> r == 0 && sink.bytes == old(sink.bytes) + data
    ensures !sink.closed ==> sink.empties == old(sink.empties) + (if zeroMask == 1 && |data| % 2 == 0 then 1 else 0)
    ensures sink.closed ==> sink.bytes == old(sink.bytes) && (r == 0 <==> data == [] && zeroMask != 1)
  {
    var needZero := zeroMask == 1 && |data| % 2 == 0;
    var at := 0;
    while at < |data|
      invariant at <= |data| && sink.empties == old(sink.empties)
      invariant sink.bytes == old(sink.bytes) + data[..at] && (sink.closed ==> at == 0)
    {
      var xfer := if |data| - at > MAX_TRANSFER then MAX_TRANSFER else |data| - at;
      var n := sink.BulkWrite(data[at..at + xfer]);
      if n != xfer {
        return -1;
      }
      assert data[..at] + data[at..at + xfer] == data[..at + xfer];
      at := at + xfer;
    }
    assert data[..at] == data;
    if needZero {
      var n := sink.BulkWrite([]);
      return n;
    }
    r := 0;
  }

  /** Fills the buffer from `at` on, continuing after short transfers. */
  method UsbRead(source: Source, buf: array<byte>, len: nat) returns (ok: bool)
    requires source.pos <= |source.stream| && len <= buf.Length
    modifies source`pos, buf
    ensures source.pos <= |source.stream|
    ensures var r := Framing.UsbRead(source.stream, old(source.pos), len, source.frag);
      if ok then r == Ok(buf[..len], source.pos) else r == Broken
  {
    var at: nat, left: nat := 0, len;
    ghost var start := source.pos;
    Begin(source.stream, start, len, source.frag);
    while left > 0
      invariant at + left == len && source.pos <= |source.stream|
      invariant Resumes(source.stream, start, len, source.frag, buf[..at], source.pos, left)
    {
      var xfer := if left > MAX_TRANSFER then MAX_TRANSFER else left;
      ghost var before := buf[..at];
      Continue(source.stream, start, len, source.frag, before, source.pos, left);
      var n := source.BulkRead(buf, at, xfer);
      if n == 0 {
        return false;
      }
      at := at + n;
      left := left - n;
    }
    assert buf[..len] + [] == buf[..len];
    ok := true;
  }

  /** What was read so far, in front of what is still to come, is the whole read. */
  ghost predicate Resumes(stream: seq<byte>, start: nat, len: nat, frag: Fragmentation,
                          done: seq<byte>, pos: nat, left: nat)
    requires start <= |stream| && pos <= |stream|
  {
    Framing.UsbRead(stream, start, len, frag)
    == match Framing.UsbRead(stream, pos, left, frag)
       case Ok(rest, end) => Ok(done + rest, end)
       case Broken => Broken
  }

  lemma Begin(stream: seq<byte>, start: nat, len: nat, frag: Fragmentation)
    requires start <= |stream|
    ensures Resumes(stream, start, len, frag, [], start, len)
  {
    match Framing.UsbRead(stream, start, len, frag) {
      case Ok(rest, end) => assert [] + rest == rest;
      case Broken =>
    }
  }

  lemma Continue(stream: seq<byte>, start: nat, len: nat, frag: Fragmentation, done: seq<byte>, pos: nat, left: nat)
    requires start <= |stream| && pos <= |stream| && left > 0
    requires Resumes(stream, start, len, frag, done, pos, left)
    ensures var n := Delivered(stream, pos, left, frag);
      && n == Delivered(stream, pos, if left > MAX_TRANSFER then MAX_TRANSFER else left, frag)
      && (n == 0 ==> Framing.UsbRead(stream, start, len, frag) == Broken)
      && (n > 0 ==> Resumes(stream, start, len, frag, done + stream[pos..pos + n], pos + n, left - n))
  {
    var n := Delivered(stream, pos, left, frag);
    if n > 0 {
      match Framing.UsbRead(stream, pos + n, left - n, frag) {
        case Ok(rest, end) => assert done + (stream[pos..pos + n] + rest) == done + stream[pos..pos + n] + rest;
        case Broken =>
      }
    }
  }

  // ---------------------------------------------------------------- packets

  method CheckSum(data: array<byte>, count: nat) returns (sum: nat)
    requires count <= data.Length
    ensures sum == Sum(data[..count])
  {
    sum := 0;
    for i := 0 to count
      invariant sum == Sum(data[..i])
    {
      assert data[..i + 1][..i] == data[..i];
      sum := (sum + data[i]) % WORD_LIMIT;
    }
  }

  method FixPacket(p: APacket, big: bool)
    modifies p`msg
    ensures p.msg == FixEndians(old(p.msg), big)
  {
    if big {
      p.msg := Message(H4(p.msg.command), H4(p.msg.arg0), H4(p.msg.arg1), H4(p.msg.dataLength), H4(p.msg.dataCheck),
                       H4(p.msg.magic));
    }
  }

  method RemoteWrite(p: APacket, big: bool, sink: Sink, zeroMask: nat) returns (r: int)
    requires IsWords(p.msg) && p.msg.dataLength <= p.data.Length
    modifies p`msg, sink`bytes, sink`empties
    ensures !sink.closed ==> r == 0 && sink.bytes == old(sink.bytes) + Wire(old(p.Value()), big)
    ensures !sink.closed && zeroMask != 1 ==> sink.empties == old(sink.empties)
    ensures sink.closed ==> r != 0 && sink.bytes == old(sink.bytes)
  {
    hide H4, FixEndians, HeaderInMemory;
    var size := p.msg.dataLength;
    FixPacket(p, big);
    r := UsbWrite(sink, HeaderInMemory(p.msg, big), zeroMask);
    if r != 0 {
      return -1;
    }
    if size == 0 {
      return 0;
    }
    r := UsbWrite(sink, p.data[..size], zeroMask);
    if r != 0 {
      return -1;
    }
  }

  /** Seals the packet and writes it. */
  method SendPacket(p: APacket, big: bool, sink: Sink, zeroMask: nat)
    requires p.msg.dataLength <= p.data.Length && Sendable(p.Value())
    modifies p`msg, sink`bytes, sink`empties
    ensures !sink.closed ==> sink.bytes == old(sink.bytes) + Wire(Sealed(old(p.Value())), big)
    ensures !sink.closed && zeroMask != 1 ==> sink.empties == old(sink.empties)
  {
    hide Wire;
    ghost var before := p.Value();
    SealedChecks(before);
    p.msg := p.msg.(magic := Complement(p.msg.command));
    var sum := CheckSum(p.data, p.msg.dataLength);
    p.msg := p.msg.(dataCheck := sum);
    assert p.Value() == Sealed(before);
    var r := RemoteWrite(p, big, sink, zeroMask);
  }

  /** Reads and checks one packet. */
  method RemoteRead(p: APacket, big: bool, source: Source) returns (r: int)
    requires source.pos <= |source.stream| && p.data.Length == MAX_PAYLOAD
    modifies p`msg, p.data, source`pos
    ensures source.pos <= |source.stream|
    ensures var spec := Framing.RemoteRead(source.stream, old(source.pos), big, source.frag);
      if r == 0 then p.msg.dataLength <= p.data.Length && spec == Ok(p.Value(), source.pos) else spec == Broken
  {
    hide Framing.UsbRead, ParseHeader, Sum;
    var head := new byte[HEADER_SIZE];
    var ok := UsbRead(source, head, HEADER_SIZE);
    if !ok {
      return -1;
    }
    p.msg := ParseHeader(head[..HEADER_SIZE], big);
    if !CheckHeader(p.msg) {
      return -1;
    }
    if p.msg.dataLength != 0 {
      ok := UsbRead(source, p.data, p.msg.dataLength);
      if !ok {
        return -1;
      }
    } else {
      ReadNothing(source.stream, source.pos, source.frag);
    }
    var sum := CheckSum(p.data, p.msg.dataLength);
    if sum != p.msg.dataCheck {
      return -1;
    }
    r := 0;
  }

  lemma ReadNothing(stream: seq<byte>, pos: nat, frag: Fragmentation)
    requires pos <= |stream|
    ensures Framing.UsbRead(stream, pos, 0, frag) == Ok([], pos)
  {
  }
}
