/**
 ADB packets on a byte pipe: a header of six little-endian words and a payload, written in
 pieces and read back in whatever pieces the bus delivers, between hosts of either endianness.
 */
module Framing {

  import opened Words

  const MAX_PAYLOAD := 4096
  const MAX_TRANSFER := 4096
  const HEADER_SIZE := 24
  const WORD_LIMIT := 0x1_0000_0000

  datatype Message = Message(command: nat, arg0: nat, arg1: nat, dataLength: nat, dataCheck: nat, magic: nat)

  datatype Packet = Packet(msg: Message, data: seq<byte>)

  datatype Result<T> = Ok(value: T, pos: nat) | Broken

  // ---------------------------------------------------------------- words

  /** The bytes of a word, lowest first. */
  function LittleEndian(w: nat): (b: seq<byte>)
    ensures |b| == 4
  {
    [w % 256, w / 256 % 256, w / 256 / 256 % 256, w / 256 / 256 / 256 % 256]
  }

  function Word(b0: int, b1: int, b2: int, b3: int): int {
    b0 + 256 * (b1 + 256 * (b2 + 256 * b3))
  }

  function FromLittleEndian(b: seq<byte>): nat
    requires |b| == 4
  {
    Word(b[0], b[1], b[2], b[3])
  }

  /** How a host keeps a word in memory. */
  function InMemory(w: nat, big: bool): (b: seq<byte>)
    ensures |b| == 4
  {
    var b := LittleEndian(w);
    if big then [b[3], b[2], b[1], b[0]] else b
  }

  function FromMemory(b: seq<byte>, big: bool): nat
    requires |b| == 4
  {
    FromLittleEndian(if big then [b[3], b[2], b[1], b[0]] else b)
  }

  /** The four bytes of a word the other way round. */
  function H4(w: nat): nat {
    var b := LittleEndian(w);
    FromLittleEndian([b[3], b[2], b[1], b[0]])
  }

  function FixEndian(w: nat, big: bool): nat {
    if big then H4(w) else w
  }

  lemma LowByte(b: byte, rest: nat)
    ensures (b + 256 * rest) / 256 == rest && (b + 256 * rest) % 256 == b
  {
  }

  lemma BytesOfWord(b0: byte, b1: byte, b2: byte, b3: byte)
    ensures 0 <= Word(b0, b1, b2, b3) < WORD_LIMIT
    ensures LittleEndian(Word(b0, b1, b2, b3)) == [b0, b1, b2, b3]
  {
    LowByte(b0, b1 as nat + 256 * (b2 as nat + 256 * b3 as nat));
    LowByte(b1, b2 as nat + 256 * b3 as nat);
    LowByte(b2, b3);
  }

  lemma WordOfBytes(w: nat)
    requires w < WORD_LIMIT
    ensures FromLittleEndian(LittleEndian(w)) == w
  {
    assert w / 256 / 256 / 256 < 256;
  }

  /** A word fixed before it is written is little-endian on the wire, whatever the host. */
  lemma WiresLittleEndian(w: nat, big: bool)
    requires w < WORD_LIMIT
    ensures InMemory(FixEndian(w, big), big) == LittleEndian(w)
    ensures FixEndian(w, big) < WORD_LIMIT
  {
    var b := LittleEndian(w);
    BytesOfWord(b[3], b[2], b[1], b[0]);
  }

  /** A word fixed after it is read is the little-endian word of the wire, whatever the host. */
  lemma UnwiresLittleEndian(b: seq<byte>, big: bool)
    requires |b| == 4
    ensures FixEndian(FromMemory(b, big), big) == FromLittleEndian(b) < WORD_LIMIT
  {
    BytesOfWord(b[3], b[2], b[1], b[0]);
    BytesOfWord(b[0], b[1], b[2], b[3]);
  }

  /** Exclusive or with all ones. */
  function Complement(w: nat): nat
    requires w < WORD_LIMIT
  {
    WORD_LIMIT - 1 - w
  }

  // ---------------------------------------------------------------- checksums

  /** The checksum is kept in an unsigned word. */
  function Sum(data: seq<byte>): nat {
    if data == [] then 0 else (Sum(data[..|data| - 1]) + data[|data| - 1]) % WORD_LIMIT
  }

  function Total(data: seq<byte>): nat {
    if data == [] then 0 else Total(data[..|data| - 1]) + data[|data| - 1]
  }

  lemma {:induction false} TotalBound(data: seq<byte>)
    ensures Total(data) <= 255 * |data|
    decreases |data|
  {
    if data != [] { TotalBound(data[..|data| - 1]); }
  }

  /** A payload is too short for the sum to wrap around. */
  lemma {:induction false} SumDoesNotWrap(data: seq<byte>)
    requires |data| <= MAX_PAYLOAD
    ensures Sum(data) == Total(data)
    decreases |data|
  {
    TotalBound(data);
    if data != [] { SumDoesNotWrap(data[..|data| - 1]); }
  }

  lemma {:induction false} TotalUpdate(data: seq<byte>, i: nat, b: byte)
    requires i < |data|
    ensures Total(data[i := b]) == Total(data) - data[i] + b
    decreases |data|
  {
    var last := |data| - 1;
    if i < last {
      TotalUpdate(data[..last], i, b);
      assert data[i := b][..last] == data[..last][i := b];
    } else {
      assert data[i := b][..last] == data[..last];
    }
  }

  /** Any change to a single byte of a payload changes its checksum. */
  lemma ChecksumSeesOneByte(data: seq<byte>, i: nat, b: byte)
    requires |data| <= MAX_PAYLOAD && i < |data| && b != data[i]
    ensures Sum(data[i := b]) != Sum(data)
  {
    SumDoesNotWrap(data);
    SumDoesNotWrap(data[i := b]);
    TotalUpdate(data, i, b);
  }

  // ---------------------------------------------------------------- sending

  predicate IsWords(m: Message) {
    m.command < WORD_LIMIT && m.arg0 < WORD_LIMIT && m.arg1 < WORD_LIMIT && m.dataLength < WORD_LIMIT
    && m.dataCheck < WORD_LIMIT && m.magic < WORD_LIMIT
  }

  /** What callers hand to send_packet: magic and checksum are still to be filled in. */
  predicate Sendable(p: Packet) {
    IsWords(p.msg) && p.msg.dataLength == |p.data| <= MAX_PAYLOAD
  }

  function Sealed(p: Packet): Packet
    requires Sendable(p)
  {
    Packet(p.msg.(magic := Complement(p.msg.command), dataCheck := Sum(p.data)), p.data)
  }

  function Header(m: Message): (b: seq<byte>)
    ensures |b| == HEADER_SIZE
  {
    LittleEndian(m.command) + LittleEndian(m.arg0) + LittleEndian(m.arg1) + LittleEndian(m.dataLength)
    + LittleEndian(m.dataCheck) + LittleEndian(m.magic)
  }

  function FixEndians(m: Message, big: bool): Message {
    Message(FixEndian(m.command, big), FixEndian(m.arg0, big), FixEndian(m.arg1, big), FixEndian(m.dataLength, big),
            FixEndian(m.dataCheck, big), FixEndian(m.magic, big))
  }

  /** The header structure as it lies in memory. */
  function HeaderInMemory(m: Message, big: bool): (b: seq<byte>)
    ensures |b| == HEADER_SIZE
  {
    InMemory(m.command, big) + InMemory(m.arg0, big) + InMemory(m.arg1, big) + InMemory(m.dataLength, big)
    + InMemory(m.dataCheck, big) + InMemory(m.magic, big)
  }

  /** The header is on the wire what it should be if each of its words is. */
  lemma HeaderIsItsWords(m: Message, n: Message, big: bool)
    requires InMemory(n.command, big) == LittleEndian(m.command) && InMemory(n.arg0, big) == LittleEndian(m.arg0)
    requires InMemory(n.arg1, big) == LittleEndian(m.arg1) && InMemory(n.dataLength, big) == LittleEndian(m.dataLength)
    requires InMemory(n.dataCheck, big) == LittleEndian(m.dataCheck) && InMemory(n.magic, big) == LittleEndian(m.magic)
    ensures HeaderInMemory(n, big) == Header(m)
  {
    hide InMemory, LittleEndian;
  }

  /** remote_write: the header, then the payload if there is one. */
  function Wire(p: Packet, big: bool): seq<byte> {
    HeaderInMemory(FixEndians(p.msg, big), big) + p.data
  }

  // ---------------------------------------------------------------- receiving

  /** What the bus delivers at a position of the stream: at most so many bytes in one transfer. */
  type Fragmentation = nat -> nat

  ghost predicate NonEmpty(frag: Fragmentation) {
    forall pos: nat :: frag(pos) > 0
  }

  function Min(a: nat, b: nat): nat {
    if a < b then a else b
  }

  function Delivered(stream: seq<byte>, pos: nat, want: nat, frag: Fragmentation): (n: nat)
    requires pos <= |stream|
    ensures n <= want && pos + n <= |stream|
  {
    Min(Min(want, MAX_TRANSFER), Min(frag(pos), |stream| - pos))
  }

  /** usb_read: short transfers are continued, an empty one is an error. */
  function UsbRead(stream: seq<byte>, pos: nat, len: nat, frag: Fragmentation): Result<seq<byte>>
    requires pos <= |stream|
    decreases len
  {
    if len == 0 then Ok([], pos)
    else
      var n := Delivered(stream, pos, len, frag);
      if n == 0 then Broken
      else match UsbRead(stream, pos + n, len - n, frag)
        case Ok(rest, end) => Ok(stream[pos..pos + n] + rest, end)
        case Broken => Broken
  }

  lemma {:induction false} ReadsWhatIsThere(stream: seq<byte>, pos: nat, len: nat, frag: Fragmentation)
    requires NonEmpty(frag) && pos + len <= |stream|
    ensures UsbRead(stream, pos, len, frag) == Ok(stream[pos..pos + len], pos + len)
    decreases len
  {
    if len > 0 {
      assert frag(pos) > 0;
      var n := Delivered(stream, pos, len, frag);
      ReadsWhatIsThere(stream, pos + n, len - n, frag);
      assert stream[pos..pos + n] + stream[pos + n..pos + len] == stream[pos..pos + len];
    } else {
      assert stream[pos..pos] == [];
    }
  }

  /** Whatever a read returns is what is there. */
  lemma {:induction false} ReadsNothingElse(stream: seq<byte>, pos: nat, len: nat, frag: Fragmentation)
    requires pos <= |stream| && UsbRead(stream, pos, len, frag).Ok?
    ensures pos + len <= |stream| && UsbRead(stream, pos, len, frag) == Ok(stream[pos..pos + len], pos + len)
    decreases len
  {
    if len > 0 {
      var n := Delivered(stream, pos, len, frag);
      ReadsNothingElse(stream, pos + n, len - n, frag);
      assert stream[pos..pos + n] + stream[pos + n..pos + len] == stream[pos..pos + len];
    } else {
      assert stream[pos..pos] == [];
    }
  }

  function HeaderFromMemory(b: seq<byte>, big: bool): Message
    requires |b| == HEADER_SIZE
  {
    Message(FromMemory(b[0..4], big), FromMemory(b[4..8], big), FromMemory(b[8..12], big),
            FromMemory(b[12..16], big), FromMemory(b[16..20], big), FromMemory(b[20..24], big))
  }

  predicate CheckHeader(m: Message) {
    m.command < WORD_LIMIT && m.magic == Complement(m.command) && m.dataLength <= MAX_PAYLOAD
  }

  predicate CheckData(m: Message, data: seq<byte>) {
    Sum(data) == m.dataCheck
  }

  function ParseHeader(b: seq<byte>, big: bool): Message
    requires |b| == HEADER_SIZE
  {
    FixEndians(HeaderFromMemory(b, big), big)
  }

  function RemoteRead(stream: seq<byte>, pos: nat, big: bool, frag: Fragmentation): Result<Packet>
    requires pos <= |stream|
  {
    match UsbRead(stream, pos, HEADER_SIZE, frag)
    case Broken => Broken
    case Ok(head, body) =>
      if |head| != HEADER_SIZE || body > |stream| then Broken
      else
        var msg := ParseHeader(head, big);
        if !CheckHeader(msg) then Broken
        else match UsbRead(stream, body, msg.dataLength, frag)
          case Broken => Broken
          case Ok(data, end) => if CheckData(msg, data) then Ok(Packet(msg, data), end) else Broken
  }

  // ---------------------------------------------------------------- round trip

  lemma HeaderParts(m: Message)
    ensures var b := Header(m);
      && b[0..4] == LittleEndian(m.command) && b[4..8] == LittleEndian(m.arg0) && b[8..12] == LittleEndian(m.arg1)
      && b[12..16] == LittleEndian(m.dataLength) && b[16..20] == LittleEndian(m.dataCheck)
      && b[20..24] == LittleEndian(m.magic)
  {
    hide LittleEndian;
  }

  lemma FieldRoundTrip(w: nat, big: bool)
    requires w < WORD_LIMIT
    ensures FixEndian(FromMemory(LittleEndian(w), big), big) == w
  {
    hide LittleEndian, FromMemory, FixEndian;
    UnwiresLittleEndian(LittleEndian(w), big);
    WordOfBytes(w);
  }

  lemma HeaderRoundTrip(m: Message, big: bool)
    requires IsWords(m)
    ensures ParseHeader(Header(m), big) == m
  {
    hide LittleEndian, FromMemory, FixEndian, Header;
    HeaderParts(m);
    FieldRoundTrip(m.command, big);
    FieldRoundTrip(m.arg0, big);
    FieldRoundTrip(m.arg1, big);
    FieldRoundTrip(m.dataLength, big);
    FieldRoundTrip(m.dataCheck, big);
    FieldRoundTrip(m.magic, big);
  }

  lemma SumIsWord(data: seq<byte>)
    ensures Sum(data) < WORD_LIMIT
  {
  }

  lemma SealedChecks(p: Packet)
    requires Sendable(p)
    ensures var q := Sealed(p);
      IsWords(q.msg) && CheckHeader(q.msg) && CheckData(q.msg, q.data) && q.msg.dataLength == |q.data| && q.data == p.data
  {
    hide Sum;
    SumIsWord(p.data);
  }

  lemma Slices(stream: seq<byte>, pos: nat, a: seq<byte>, b: seq<byte>)
    requires pos + |a| + |b| <= |stream| && stream[pos..pos + |a| + |b|] == a + b
    ensures stream[pos..pos + |a|] == a && stream[pos + |a|..pos + |a| + |b|] == b
  {
    assert stream[pos..pos + |a|] == stream[pos..pos + |a| + |b|][..|a|];
    assert stream[pos + |a|..pos + |a| + |b|] == stream[pos..pos + |a| + |b|][|a|..];
  }

  /** One packet, written by a host of one endianness and read by a host of another. */
  lemma PacketRoundTrip(stream: seq<byte>, pos: nat, p: Packet, writer: bool, reader: bool, frag: Fragmentation)
    requires Sendable(p) && NonEmpty(frag)
    requires var w := Wire(Sealed(p), writer); pos + |w| <= |stream| && stream[pos..pos + |w|] == w
    ensures RemoteRead(stream, pos, reader, frag) == Ok(Sealed(p), pos + |Wire(Sealed(p), writer)|)
  {
    hide Sealed, Header, HeaderInMemory, InMemory, LittleEndian, FixEndian;
    hide ParseHeader, UsbRead, CheckHeader, CheckData;
    var q := Sealed(p);
    SealedChecks(p);
    WiresLittleEndian(q.msg.command, writer);
    WiresLittleEndian(q.msg.arg0, writer);
    WiresLittleEndian(q.msg.arg1, writer);
    WiresLittleEndian(q.msg.dataLength, writer);
    WiresLittleEndian(q.msg.dataCheck, writer);
    WiresLittleEndian(q.msg.magic, writer);
    HeaderIsItsWords(q.msg, FixEndians(q.msg, writer), writer);
    Slices(stream, pos, Header(q.msg), q.data);
    HeaderRoundTrip(q.msg, reader);
    ReadsWhatIsThere(stream, pos, HEADER_SIZE, frag);
    ReadsWhatIsThere(stream, pos + HEADER_SIZE, |q.data|, frag);
  }

  function WireAll(ps: seq<Packet>, big: bool): seq<byte>
    requires forall i :: 0 <= i < |ps| ==> Sendable(ps[i])
  {
    if ps == [] then [] else Wire(Sealed(ps[0]), big) + WireAll(ps[1..], big)
  }

  function SealAll(ps: seq<Packet>): seq<Packet>
    requires forall i :: 0 <= i < |ps| ==> Sendable(ps[i])
  {
    if ps == [] then [] else [Sealed(ps[0])] + SealAll(ps[1..])
  }

  function ReadAll(stream: seq<byte>, pos: nat, n: nat, big: bool, frag: Fragmentation): Result<seq<Packet>>
    requires pos <= |stream|
    decreases n
  {
    if n == 0 then Ok([], pos)
    else match RemoteRead(stream, pos, big, frag)
      case Broken => Broken
      case Ok(p, next) =>
        if next > |stream| then Broken
        else match ReadAll(stream, next, n - 1, big, frag)
          case Broken => Broken
          case Ok(ps, end) => Ok([p] + ps, end)
  }

  /**
   Framing round trip: any sequence of packets with payloads of at most 4096 bytes, however
   the reads are fragmented as long as none is empty, between hosts of either endianness, comes
   out packet for packet with all checks passed and nothing left over.
   */
  lemma {:induction false} FramingRoundTrip(ps: seq<Packet>, stream: seq<byte>, pos: nat, writer: bool, reader: bool,
                                            frag: Fragmentation)
    requires NonEmpty(frag) && forall i :: 0 <= i < |ps| ==> Sendable(ps[i])
    requires pos <= |stream| && stream[pos..] == WireAll(ps, writer)
    ensures ReadAll(stream, pos, |ps|, reader, frag) == Ok(SealAll(ps), |stream|)
    decreases |ps|
  {
    hide RemoteRead, Wire, Sealed;
    if ps != [] {
      var first, rest := Wire(Sealed(ps[0]), writer), WireAll(ps[1..], writer);
      assert stream[pos..pos + |first|] == stream[pos..][..|first|] == first;
      assert stream[pos + |first|..] == stream[pos..][|first|..] == rest;
      PacketRoundTrip(stream, pos, ps[0], writer, reader, frag);
      FramingRoundTrip(ps[1..], stream, pos + |first|, writer, reader, frag);
    }
  }

  /** Four bytes are the little-endian form of the word they make. */
  lemma FieldIsWire(b: seq<byte>, big: bool)
    requires |b| == 4
    ensures LittleEndian(FixEndian(FromMemory(b, big), big)) == b
  {
    UnwiresLittleEndian(b, big);
    BytesOfWord(b[0], b[1], b[2], b[3]);
  }

  lemma ParsedHeaderIsWire(b: seq<byte>, big: bool)
    requires |b| == HEADER_SIZE
    ensures Header(ParseHeader(b, big)) == b && IsWords(ParseHeader(b, big))
  {
    hide LittleEndian, FromMemory, FixEndian;
    FieldIsWire(b[0..4], big);
    FieldIsWire(b[4..8], big);
    FieldIsWire(b[8..12], big);
    FieldIsWire(b[12..16], big);
    FieldIsWire(b[16..20], big);
    FieldIsWire(b[20..24], big);
    UnwiresLittleEndian(b[0..4], big);
    UnwiresLittleEndian(b[4..8], big);
    UnwiresLittleEndian(b[8..12], big);
    UnwiresLittleEndian(b[12..16], big);
    UnwiresLittleEndian(b[16..20], big);
    UnwiresLittleEndian(b[20..24], big);
    assert b == b[0..4] + b[4..8] + b[8..12] + b[12..16] + b[16..20] + b[20..24];
  }

  /**
   The other way: whatever bytes arrive, a packet that is accepted is one that could have been
   sent, and the bytes read are exactly its serialization.
   */
  lemma AcceptedPacketsAreWire(stream: seq<byte>, pos: nat, big: bool, frag: Fragmentation)
    requires pos <= |stream| && RemoteRead(stream, pos, big, frag).Ok?
    ensures var r := RemoteRead(stream, pos, big, frag);
      && Sendable(r.value) && Sealed(r.value) == r.value
      && pos <= r.pos <= |stream| && stream[pos..r.pos] == Header(r.value.msg) + r.value.data
  {
    hide Header, ParseHeader, Sum, UsbRead;
    var r := RemoteRead(stream, pos, big, frag);
    ReadsNothingElse(stream, pos, HEADER_SIZE, frag);
    var body := pos + HEADER_SIZE;
    ParsedHeaderIsWire(stream[pos..body], big);
    ReadsNothingElse(stream, body, r.value.msg.dataLength, frag);
    assert stream[pos..r.pos] == stream[pos..body] + stream[body..r.pos];
  }

  /** The header's six words for a packet: command and arguments as given, the rest computed. */
  function HeaderWords(p: Packet): seq<nat>
    requires Sendable(p)
  {
    [p.msg.command, p.msg.arg0, p.msg.arg1, |p.data|, Total(p.data), 0xffff_ffff - p.msg.command]
  }

  /**
   On the wire, whatever the host: 24 bytes, each word lowest byte first, and then the payload. The
   last word and the command add up to all ones.
   */
  lemma WireInNumbers(p: Packet, big: bool, j: nat)
    requires Sendable(p) && j < 6
    ensures var w, b := HeaderWords(p)[j], Wire(Sealed(p), big);
      && |b| == 24 + |p.data| && b[24..] == p.data && |p.data| <= 4096
      && b[4 * j..4 * j + 4] == [w % 0x100, w / 0x100 % 0x100, w / 0x1_0000 % 0x100, w / 0x100_0000 % 0x100]
  {
    SumDoesNotWrap(p.data);
    WordBytes(HeaderWords(p)[j]);
    hide InMemory, LittleEndian, FixEndian, Sum, Total;
    var m := Sealed(p).msg;
    SealedChecks(p);
    WiresLittleEndian(m.command, big);
    WiresLittleEndian(m.arg0, big);
    WiresLittleEndian(m.arg1, big);
    WiresLittleEndian(m.dataLength, big);
    WiresLittleEndian(m.dataCheck, big);
    WiresLittleEndian(m.magic, big);
    HeaderIsItsWords(m, FixEndians(m, big), big);
    assert Wire(Sealed(p), big) == Header(m) + p.data;
    HeaderSlice(m, j);
    assert Wire(Sealed(p), big)[4 * j..4 * j + 4] == Header(m)[4 * j..4 * j + 4];
  }

  lemma WordBytes(w: nat)
    ensures LittleEndian(w) == [w % 0x100, w / 0x100 % 0x100, w / 0x1_0000 % 0x100, w / 0x100_0000 % 0x100]
  {
  }

  lemma HeaderSlice(m: Message, j: nat)
    requires j < 6
    ensures Header(m)[4 * j..4 * j + 4]
            == LittleEndian([m.command, m.arg0, m.arg1, m.dataLength, m.dataCheck, m.magic][j])
  {
    hide LittleEndian;
  }
}
