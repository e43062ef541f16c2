/**
 Configuration descriptors (USB 2.0 specification, sections 9.6.3, 9.6.5 and 9.6.6): what the
 parser computes for any memory contents, and the printer it undoes.

 The parser is given an address and the size the configuration claims to have. Memory is
 total: bytes past the end of the buffer have some value, and the parser may look at them.
 */
module Descriptors {
  import opened RecordLists
  import opened Words

  const DESC_HEADER_LENGTH := 2
  const INTERFACE_DESC_LENGTH := 9
  const ENDPOINT_DESC_LENGTH := 7
  const ENDPOINT_AUDIO_DESC_LENGTH := 9
  const USB_MAXENDPOINTS := 32
  const USB_MAXINTERFACES := 32

  const LIBUSB_DT_DEVICE := 1
  const LIBUSB_DT_CONFIG := 2
  const LIBUSB_DT_INTERFACE := 4
  const LIBUSB_DT_ENDPOINT := 5

  const LIBUSB_ERROR_IO := -1

  datatype Endpoint = Endpoint(
    bLength: byte, bDescriptorType: byte, bEndpointAddress: byte, bmAttributes: byte,
    wMaxPacketSize: nat, bInterval: byte, bRefresh: byte, bSynchAddress: byte, extra: seq<byte>)

  datatype AltSetting = AltSetting(
    bLength: byte, bDescriptorType: byte, bInterfaceNumber: byte, bAlternateSetting: byte,
    bNumEndpoints: byte, bInterfaceClass: byte, bInterfaceSubClass: byte, bInterfaceProtocol: byte,
    iInterface: byte, extra: seq<byte>, endpoints: seq<Endpoint>)

  type Interface = seq<AltSetting>

  datatype Config = Config(
    bLength: byte, bDescriptorType: byte, wTotalLength: nat, bNumInterfaces: byte,
    bConfigurationValue: byte, iConfiguration: byte, bmAttributes: byte, MaxPower: byte,
    extra: seq<byte>, interfaces: seq<Interface>)

  // ---------------------------------------------------------------- reading memory

  function Bytes(mem: Memory, at: nat, n: nat): (r: seq<byte>)
    ensures |r| == n
    ensures forall i :: 0 <= i < n ==> r[i] == mem(at + i)
  {
    seq(n, i requires 0 <= i => mem(at + i))
  }

  /** A 16-bit field: little-endian on the bus, in the host's order when already converted. */
  function Word(mem: Memory, at: nat, little: bool): nat {
    if little then mem(at) + 256 * mem(at + 1) else 256 * mem(at) + mem(at + 1)
  }

  predicate Standard(t: byte) {
    t == LIBUSB_DT_ENDPOINT || t == LIBUSB_DT_INTERFACE || t == LIBUSB_DT_CONFIG || t == LIBUSB_DT_DEVICE
  }

  // ---------------------------------------------------------------- the parser

  /**
   The length of the class- and vendor-specific descriptors at `at`. Only the configuration
   loop (`checked`) rejects a record that runs past `size`.
   */
  function SkipExtra(mem: Memory, at: nat, size: int, checked: bool): Result<()>
    decreases size
  {
    if size < DESC_HEADER_LENGTH then Parsed((), 0)
    else if mem(at) < 2 || (checked && mem(at) > size) then Failed(LIBUSB_ERROR_IO)
    else if Standard(mem(at + 1)) then Parsed((), 0)
    else Later(mem(at), SkipExtra(mem, at + mem(at), size - mem(at), checked))
  }

  /** The same result, `n` bytes further on. */
  function Later<T>(n: nat, r: Result<T>): Result<T> {
    if r.Parsed? then Parsed(r.value, n + r.length) else r
  }

  const NO_ENDPOINT := Endpoint(0, 0, 0, 0, 0, 0, 0, 0, [])

  function EndpointFields(mem: Memory, at: nat, little: bool): Endpoint {
    if mem(at) >= ENDPOINT_AUDIO_DESC_LENGTH then
      Endpoint(mem(at), mem(at + 1), mem(at + 2), mem(at + 3), Word(mem, at + 4, little),
               mem(at + 6), mem(at + 7), mem(at + 8), [])
    else if mem(at) >= ENDPOINT_DESC_LENGTH then
      Endpoint(mem(at), mem(at + 1), mem(at + 2), mem(at + 3), Word(mem, at + 4, little),
               mem(at + 6), 0, 0, [])
    else NO_ENDPOINT
  }

  function ParseEndpoint(mem: Memory, at: nat, size: int, little: bool): Result<Endpoint> {
    if mem(at) > size then Failed(LIBUSB_ERROR_IO)
    else if mem(at + 1) != LIBUSB_DT_ENDPOINT then Parsed(NO_ENDPOINT, 0)
    else
      var begin := at + mem(at);
      var skip := SkipExtra(mem, begin, size - mem(at), false);
      if skip.Parsed?
      then Parsed(EndpointFields(mem, at, little).(extra := Bytes(mem, begin, skip.length)),
                  mem(at) + skip.length)
      else Failed(LIBUSB_ERROR_IO)
  }

  function EndpointParser(mem: Memory, little: bool): Parser<Endpoint> {
    (at: nat, size: int) => ParseEndpoint(mem, at, size, little)
  }

  function AltFields(mem: Memory, at: nat): AltSetting {
    AltSetting(mem(at), mem(at + 1), mem(at + 2), mem(at + 3), mem(at + 4), mem(at + 5),
               mem(at + 6), mem(at + 7), mem(at + 8), [], [])
  }

  /** A foreign descriptor where an endpoint or an interface should be ends the interface early. */
  predicate Unexpected(mem: Memory, at: nat, size: int) {
    size >= DESC_HEADER_LENGTH && (mem(at + 1) == LIBUSB_DT_CONFIG || mem(at + 1) == LIBUSB_DT_DEVICE)
  }

  /** One alternate setting: its descriptor, its extras and its endpoints. */
  function ParseAlt(mem: Memory, at: nat, size: int, little: bool): Result<AltSetting> {
    var fields := AltFields(mem, at);
    var begin := at + fields.bLength;
    var skip := SkipExtra(mem, begin, size - fields.bLength, false);
    if !skip.Parsed? then Failed(LIBUSB_ERROR_IO)
    else
      var alt := fields.(extra := Bytes(mem, begin, skip.length));
      var used := fields.bLength + skip.length;
      if Unexpected(mem, at + used, size - used) then Parsed(alt, used)
      else if alt.bNumEndpoints > USB_MAXENDPOINTS then Failed(LIBUSB_ERROR_IO)
      else
        var eps := Many(EndpointParser(mem, little), at + used, size - used, alt.bNumEndpoints);
        if eps.Parsed? then Parsed(alt.(endpoints := eps.value), used + eps.length)
        else Failed(LIBUSB_ERROR_IO)
  }

  /** An alternate of the same interface follows. */
  predicate AlternateFollows(mem: Memory, at: nat, size: int) {
    size >= INTERFACE_DESC_LENGTH && mem(at + 1) == LIBUSB_DT_INTERFACE && mem(at + 3) != 0
  }

  function AltParser(mem: Memory, little: bool): Parser<AltSetting> {
    (at: nat, size: int) => ParseAlt(mem, at, size, little)
  }

  function AlternateTest(mem: Memory): (nat, int) -> bool {
    (at: nat, size: int) => AlternateFollows(mem, at, size)
  }

  function ParseInterface(mem: Memory, at: nat, size: int, little: bool): Result<Interface> {
    if size < INTERFACE_DESC_LENGTH then Parsed([], 0)
    else Chain(AltParser(mem, little), AlternateTest(mem), at, size)
  }

  /** An interface with the class-specific bytes in front of it. */
  function ParseNextInterface(mem: Memory, at: nat, size: int, little: bool): Result<(seq<byte>, Interface)> {
    var skip := SkipExtra(mem, at, size, true);
    if !skip.Parsed? then Failed(LIBUSB_ERROR_IO)
    else match ParseInterface(mem, at + skip.length, size - skip.length, little)
      case Parsed(alts, n) => Parsed((Bytes(mem, at, skip.length), alts), skip.length + n)
      case Failed(code) => Failed(code)
      case Hang => Hang
  }

  function InterfaceParser(mem: Memory, little: bool): Parser<(seq<byte>, Interface)> {
    (at: nat, size: int) => ParseNextInterface(mem, at, size, little)
  }

  /** Only the first non-empty run of extra bytes is kept. */
  function FirstExtra(interfaces: seq<(seq<byte>, Interface)>): seq<byte> {
    if interfaces == [] then [] else if interfaces[0].0 != [] then interfaces[0].0
    else FirstExtra(interfaces[1..])
  }

  function Interfaces(interfaces: seq<(seq<byte>, Interface)>): seq<Interface> {
    if interfaces == [] then [] else [interfaces[0].1] + Interfaces(interfaces[1..])
  }

  function ConfigFields(mem: Memory, at: nat, little: bool): Config {
    Config(mem(at), mem(at + 1), Word(mem, at + 2, little), mem(at + 4), mem(at + 5), mem(at + 6),
           mem(at + 7), mem(at + 8), [], [])
  }

  /** The length parsed counts from the start; the caller is told wTotalLength minus it. */
  function ParseConfiguration(mem: Memory, at: nat, little: bool): Result<Config> {
    var config := ConfigFields(mem, at, little);
    if config.bNumInterfaces > USB_MAXINTERFACES then Failed(LIBUSB_ERROR_IO)
    else match Many(InterfaceParser(mem, little), at + config.bLength, config.wTotalLength - config.bLength,
                    config.bNumInterfaces)
      case Parsed(found, n) => Parsed(config.(extra := FirstExtra(found), interfaces := Interfaces(found)),
                                      config.bLength + n)
      case Failed(code) => Failed(code)
      case Hang => Hang
  }

  // ---------------------------------------------------------------- the printer

  function PrintWord(w: nat, little: bool): seq<byte> {
    if little then [w % 256, w / 256 % 256] else [w / 256 % 256, w % 256]
  }

  function EndpointHead(e: Endpoint, little: bool): seq<byte> {
    [e.bLength, e.bDescriptorType, e.bEndpointAddress, e.bmAttributes] + PrintWord(e.wMaxPacketSize, little)
    + [e.bInterval] + (if e.bLength == ENDPOINT_AUDIO_DESC_LENGTH then [e.bRefresh, e.bSynchAddress] else [])
  }

  function EndpointPrinter(little: bool): Endpoint -> seq<byte> {
    (e: Endpoint) => EndpointHead(e, little) + e.extra
  }

  function AltHead(a: AltSetting): seq<byte> {
    [a.bLength, a.bDescriptorType, a.bInterfaceNumber, a.bAlternateSetting, a.bNumEndpoints,
     a.bInterfaceClass, a.bInterfaceSubClass, a.bInterfaceProtocol, a.iInterface]
  }

  function AltPrinter(little: bool): AltSetting -> seq<byte> {
    (a: AltSetting) => AltHead(a) + a.extra + PrintMany(EndpointPrinter(little), a.endpoints)
  }

  /** Extra bytes and interface; only the first interface of a configuration has extra bytes. */
  function InterfacePrinter(little: bool): ((seq<byte>, Interface)) -> seq<byte> {
    (i: (seq<byte>, Interface)) => i.0 + PrintMany(AltPrinter(little), i.1)
  }

  function ConfigHead(c: Config, little: bool): seq<byte> {
    [c.bLength, c.bDescriptorType] + PrintWord(c.wTotalLength, little)
    + [c.bNumInterfaces, c.bConfigurationValue, c.iConfiguration, c.bmAttributes, c.MaxPower]
  }

  /** The interfaces, the configuration's extra bytes in front of the first. */
  function WithExtra(extra: seq<byte>, interfaces: seq<Interface>): seq<(seq<byte>, Interface)>
    decreases |interfaces|
  {
    if interfaces == [] then [] else [(extra, interfaces[0])] + WithExtra([], interfaces[1..])
  }

  function PrintConfig(c: Config, little: bool): seq<byte> {
    ConfigHead(c, little) + PrintMany(InterfacePrinter(little), WithExtra(c.extra, c.interfaces))
  }

  // ---------------------------------------------------------------- well-formed trees

  /** A sequence of records of non-standard types. */
  predicate ExtraRecords(extra: seq<byte>) {
    extra == []
    || (|extra| >= 2 && 2 <= extra[0] <= |extra| && !Standard(extra[1]) && ExtraRecords(extra[extra[0]..]))
  }

  predicate WellFormedEndpoint(e: Endpoint) {
    && e.bDescriptorType == LIBUSB_DT_ENDPOINT
    && (e.bLength == ENDPOINT_AUDIO_DESC_LENGTH
        || (e.bLength == ENDPOINT_DESC_LENGTH && e.bRefresh == 0 && e.bSynchAddress == 0))
    && e.wMaxPacketSize < 0x10000
    && ExtraRecords(e.extra)
  }

  predicate WellFormedEndpoints(es: seq<Endpoint>) {
    es == [] || (WellFormedEndpoint(es[0]) && WellFormedEndpoints(es[1..]))
  }

  predicate WellFormedAlt(a: AltSetting) {
    && a.bLength == INTERFACE_DESC_LENGTH && a.bDescriptorType == LIBUSB_DT_INTERFACE
    && a.bNumEndpoints == |a.endpoints| && a.bNumEndpoints <= USB_MAXENDPOINTS
    && ExtraRecords(a.extra)
    && WellFormedEndpoints(a.endpoints)
  }

  predicate WellFormedAlts(alts: seq<AltSetting>) {
    alts == [] || (WellFormedAlt(alts[0]) && WellFormedAlts(alts[1..]))
  }

  /** A zero would start the next interface. */
  predicate Numbered(alts: seq<AltSetting>) {
    alts == [] || (alts[0].bAlternateSetting != 0 && Numbered(alts[1..]))
  }

  predicate WellFormedInterface(alts: Interface) {
    alts != [] && WellFormedAlts(alts) && alts[0].bAlternateSetting == 0 && Numbered(alts[1..])
  }

  predicate WellFormedInterfaces(interfaces: seq<Interface>) {
    interfaces == [] || (WellFormedInterface(interfaces[0]) && WellFormedInterfaces(interfaces[1..]))
  }

  /** A configuration tree that also says how long its serialization is. */
  predicate WellFormed(c: Config, little: bool) {
    && c.bLength == 9 && c.bDescriptorType == LIBUSB_DT_CONFIG
    && c.bNumInterfaces == |c.interfaces| && c.bNumInterfaces <= USB_MAXINTERFACES
    && ExtraRecords(c.extra) && (c.interfaces == [] ==> c.extra == [])
    && WellFormedInterfaces(c.interfaces)
    && c.wTotalLength == |PrintConfig(c, little)| < 0x10000
  }

  // ---------------------------------------------------------------- round trip: the pieces

  lemma BytesAre(mem: Memory, at: nat, data: seq<byte>)
    requires Holds(mem, at, data)
    ensures Bytes(mem, at, |data|) == data
  {
  }

  /** Nothing is left, or a standard endpoint or interface descriptor follows. */
  predicate Boundary(mem: Memory, at: nat, left: int) {
    left == 0 || (left >= 2 && mem(at) >= 2
                  && (mem(at + 1) == LIBUSB_DT_ENDPOINT || mem(at + 1) == LIBUSB_DT_INTERFACE))
  }

  function BoundaryTest(mem: Memory): (nat, int) -> bool {
    (at: nat, left: int) => Boundary(mem, at, left)
  }

  /** Nothing is left, or another interface descriptor follows. */
  predicate InterfaceNext(mem: Memory, at: nat, left: int) {
    left == 0 || (left >= INTERFACE_DESC_LENGTH && 2 <= mem(at) <= left && mem(at + 1) == LIBUSB_DT_INTERFACE)
  }

  function InterfaceTest(mem: Memory): (nat, int) -> bool {
    (at: nat, left: int) => InterfaceNext(mem, at, left)
  }

  /** The first of some records, and the others behind it. */
  lemma FirstRecord(mem: Memory, at: nat, extra: seq<byte>)
    requires ExtraRecords(extra) && Holds(mem, at, extra) && extra != []
    ensures |extra| >= 2 && 2 <= extra[0] <= |extra| && mem(at) == extra[0] && !Standard(mem(at + 1))
    ensures ExtraRecords(extra[extra[0]..]) && Holds(mem, at + extra[0], extra[extra[0]..])
  {
    var n := extra[0];
    HoldsByte(mem, at, extra, 0);
    HoldsByte(mem, at, extra, 1);
    assert extra == extra[..n] + extra[n..];
    HoldsParts(mem, at, extra[..n], extra[n..]);
  }

  /** Well-formed extra records are stepped over, whatever comes after them. */
  lemma {:induction false} SkipsPast(mem: Memory, at: nat, extra: seq<byte>, size: int, checked: bool)
    requires ExtraRecords(extra) && Holds(mem, at, extra) && size >= |extra|
    ensures SkipExtra(mem, at, size, checked)
            == Later(|extra|, SkipExtra(mem, at + |extra|, size - |extra|, checked))
    decreases |extra|
  {
    hide ExtraRecords, Holds;
    if extra != [] {
      FirstRecord(mem, at, extra);
      SkipsPast(mem, at + extra[0], extra[extra[0]..], size - extra[0], checked);
    }
  }

  lemma SkipsExtra(mem: Memory, at: nat, extra: seq<byte>, size: int, checked: bool)
    requires ExtraRecords(extra) && Holds(mem, at, extra) && size >= |extra|
    requires Boundary(mem, at + |extra|, size - |extra|)
    requires checked && size > |extra| ==> mem(at + |extra|) <= size - |extra|
    ensures SkipExtra(mem, at, size, checked) == Parsed((), |extra|)
  {
    SkipsPast(mem, at, extra, size, checked);
  }

  /** A record whose length cannot be right: below 2, or, where that is checked, past the end. */
  predicate BadLength(mem: Memory, at: nat, size: int, checked: bool) {
    size >= DESC_HEADER_LENGTH && (mem(at) < 2 || (checked && mem(at) > size))
  }

  ghost predicate BadAfter(mem: Memory, at: nat, size: int, checked: bool, extra: seq<byte>) {
    ExtraRecords(extra) && Holds(mem, at, extra) && BadLength(mem, at + |extra|, size - |extra|, checked)
  }

  /** The first record of a longer list of extra records. */
  lemma ExtraStep(mem: Memory, at: nat, extra: seq<byte>)
    requires 2 <= mem(at) && !Standard(mem(at + 1))
    requires ExtraRecords(extra) && Holds(mem, at + mem(at), extra)
    ensures ExtraRecords(Bytes(mem, at, mem(at)) + extra) && Holds(mem, at, Bytes(mem, at, mem(at)) + extra)
  {
    var first := Bytes(mem, at, mem(at));
    assert (first + extra)[0] == mem(at) && (first + extra)[1] == mem(at + 1);
    assert (first + extra)[mem(at)..] == extra;
    forall i | 0 <= i < |first + extra| ensures mem(at + i) == (first + extra)[i] {
      if i >= |first| {
        assert mem(at + mem(at) + (i - |first|)) == extra[i - |first|];
      }
    }
  }

  lemma NoRecords(mem: Memory, at: nat)
    ensures ExtraRecords([]) && Holds(mem, at, [])
  {
  }

  /**
   Extras are rejected exactly when, after some well-formed non-standard records, a record with
   an impossible length starts inside the remaining bytes.
   */
  lemma {:induction false} RejectsExactlyBadLengths(mem: Memory, at: nat, size: int, checked: bool)
    ensures SkipExtra(mem, at, size, checked) == Failed(LIBUSB_ERROR_IO)
            <==> exists extra :: BadAfter(mem, at, size, checked, extra)
    ensures !SkipExtra(mem, at, size, checked).Hang?
    decreases size
  {
    hide ExtraRecords, Holds;
    NoRecords(mem, at);
    forall extra | BadAfter(mem, at, size, checked, extra)
      ensures SkipExtra(mem, at, size, checked) == Failed(LIBUSB_ERROR_IO)
    {
      SkipsPast(mem, at, extra, size, checked);
    }
    if BadLength(mem, at, size, checked) {
      assert BadAfter(mem, at, size, checked, []);
    } else if size >= DESC_HEADER_LENGTH && !Standard(mem(at + 1)) {
      var n := mem(at);
      RejectsExactlyBadLengths(mem, at + n, size - n, checked);
      if SkipExtra(mem, at, size, checked) == Failed(LIBUSB_ERROR_IO) {
        var extra :| BadAfter(mem, at + n, size - n, checked, extra);
        ExtraStep(mem, at, extra);
        assert BadAfter(mem, at, size, checked, Bytes(mem, at, n) + extra);
      }
    }
  }

  /** After some well-formed non-standard records, one more that is longer than what is left. */
  ghost predicate OverrunAfter(mem: Memory, at: nat, size: int, extra: seq<byte>) {
    ExtraRecords(extra) && Holds(mem, at, extra) && TooLong(mem, at + |extra|, size - |extra|)
  }

  predicate TooLong(mem: Memory, at: nat, size: int) {
    size >= DESC_HEADER_LENGTH && mem(at) >= 2 && !Standard(mem(at + 1)) && mem(at) > size
  }

  /**
   Where lengths are not checked, the extras that are skipped, and copied, reach past the
   claimed size exactly when a well-formed run of records is followed by one that does.
   */
  lemma {:induction false} OverrunsExactly(mem: Memory, at: nat, size: int)
    requires size >= 0
    ensures var r := SkipExtra(mem, at, size, false);
      r.Parsed? && r.length > size <==> exists extra :: OverrunAfter(mem, at, size, extra)
    decreases size
  {
    hide ExtraRecords, Holds;
    NoRecords(mem, at);
    forall extra | OverrunAfter(mem, at, size, extra)
      ensures SkipExtra(mem, at, size, false).Parsed? && SkipExtra(mem, at, size, false).length > size
    {
      SkipsPast(mem, at, extra, size, false);
    }
    if size >= DESC_HEADER_LENGTH && mem(at) >= 2 && !Standard(mem(at + 1)) {
      var n := mem(at);
      if n > size {
        assert OverrunAfter(mem, at, size, []);
      } else {
        OverrunsExactly(mem, at + n, size - n);
        if SkipExtra(mem, at, size, false).Parsed? && SkipExtra(mem, at, size, false).length > size {
          var extra :| OverrunAfter(mem, at + n, size - n, extra);
          ExtraStep(mem, at, extra);
          assert OverrunAfter(mem, at, size, Bytes(mem, at, n) + extra);
        }
      }
    }
  }

  lemma EndpointHeadRoundTrip(mem: Memory, at: nat, e: Endpoint, little: bool)
    requires WellFormedEndpoint(e) && Holds(mem, at, EndpointHead(e, little))
    ensures |EndpointHead(e, little)| == e.bLength
    ensures EndpointFields(mem, at, little) == e.(extra := [])
    ensures mem(at) == e.bLength && mem(at + 1) == LIBUSB_DT_ENDPOINT
  {
    var h := EndpointHead(e, little);
    assert mem(at + 0) == h[0] && mem(at + 1) == h[1] && mem(at + 2) == h[2] && mem(at + 3) == h[3];
    assert mem(at + 4) == h[4] && mem(at + 5) == h[5] && mem(at + 6) == h[6];
    if e.bLength == ENDPOINT_AUDIO_DESC_LENGTH {
      assert mem(at + 7) == h[7] && mem(at + 8) == h[8];
    }
  }

  lemma EndpointRoundTrip(mem: Memory, at: nat, e: Endpoint, little: bool, size: int)
    requires WellFormedEndpoint(e) && Holds(mem, at, EndpointHead(e, little) + e.extra)
    requires size >= |EndpointHead(e, little)| + |e.extra|
    requires Boundary(mem, at + |EndpointHead(e, little)| + |e.extra|, size - |EndpointHead(e, little)| - |e.extra|)
    ensures ParseEndpoint(mem, at, size, little) == Parsed(e, |EndpointHead(e, little)| + |e.extra|)
    ensures Boundary(mem, at, size)
  {
    var head := EndpointHead(e, little);
    HoldsParts(mem, at, head, e.extra);
    EndpointHeadRoundTrip(mem, at, e, little);
    SkipsExtra(mem, at + |head|, e.extra, size - |head|, false);
    BytesAre(mem, at + |head|, e.extra);
  }

  lemma {:induction false} EndpointsUndone(mem: Memory, es: seq<Endpoint>, little: bool)
    requires WellFormedEndpoints(es)
    ensures Undone(EndpointParser(mem, little), EndpointPrinter(little), BoundaryTest(mem), mem, es)
    decreases |es|
  {
    hide ParseEndpoint, WellFormedEndpoint;
    if es != [] {
      var e := es[0];
      forall at: nat, size: int
        ensures UndoneAt(EndpointParser(mem, little), EndpointPrinter(little), BoundaryTest(mem), mem, e, at, size)
      {
        var n := |EndpointHead(e, little)| + |e.extra|;
        if Holds(mem, at, EndpointPrinter(little)(e)) && size >= n && Boundary(mem, at + n, size - n) {
          EndpointRoundTrip(mem, at, e, little, size);
        }
      }
      EndpointsUndone(mem, es[1..], little);
    }
  }

  lemma AltHeadRoundTrip(mem: Memory, at: nat, a: AltSetting)
    requires Holds(mem, at, AltHead(a))
    ensures AltFields(mem, at) == a.(extra := [], endpoints := [])
    ensures mem(at) == a.bLength && mem(at + 1) == a.bDescriptorType && mem(at + 3) == a.bAlternateSetting
  {
    var h := AltHead(a);
    assert mem(at + 0) == h[0] && mem(at + 1) == h[1] && mem(at + 2) == h[2] && mem(at + 3) == h[3];
    assert mem(at + 4) == h[4] && mem(at + 5) == h[5] && mem(at + 6) == h[6] && mem(at + 7) == h[7];
    assert mem(at + 8) == h[8];
  }

  lemma ParseAltStep(mem: Memory, at: nat, size: int, little: bool, a: AltSetting, body: nat)
    requires AltFields(mem, at) == a.(extra := [], endpoints := []) && a.bLength == 9
    requires |a.endpoints| == a.bNumEndpoints <= USB_MAXENDPOINTS
    requires SkipExtra(mem, at + 9, size - 9, false) == Parsed((), |a.extra|)
    requires Bytes(mem, at + 9, |a.extra|) == a.extra
    requires !Unexpected(mem, at + 9 + |a.extra|, size - 9 - |a.extra|)
    requires Many(EndpointParser(mem, little), at + 9 + |a.extra|, size - 9 - |a.extra|, |a.endpoints|)
             == Parsed(a.endpoints, body)
    ensures ParseAlt(mem, at, size, little) == Parsed(a, 9 + |a.extra| + body)
  {
    hide SkipExtra, Many, Unexpected, AltFields;
  }

  lemma AltParts(mem: Memory, at: nat, a: AltSetting, body: seq<byte>)
    requires Holds(mem, at, AltHead(a) + a.extra + body)
    ensures Holds(mem, at, AltHead(a)) && Holds(mem, at + 9, a.extra)
    ensures Holds(mem, at + 9 + |a.extra|, body)
  {
    HoldsParts(mem, at, AltHead(a) + a.extra, body);
    HoldsParts(mem, at, AltHead(a), a.extra);
  }

  lemma EndpointsRoundTrip(mem: Memory, at: nat, es: seq<Endpoint>, little: bool, left: nat, body: seq<byte>)
    requires WellFormedEndpoints(es) && body == PrintMany(EndpointPrinter(little), es)
    requires Holds(mem, at, body) && Boundary(mem, at + |body|, left)
    ensures Many(EndpointParser(mem, little), at, |body| + left, |es|) == Parsed(es, |body|)
    ensures Boundary(mem, at, |body| + left)
  {
    hide Many, PrintMany, Undone, WellFormedEndpoints, EndpointParser, EndpointPrinter;
    EndpointsUndone(mem, es, little);
    ManyUndoesPrintMany(EndpointParser(mem, little), EndpointPrinter(little), BoundaryTest(mem), mem, at, es, left);
    assert BoundaryTest(mem)(at, |body| + left);
  }

  lemma AltRoundTrip(mem: Memory, at: nat, a: AltSetting, little: bool, size: int, body: seq<byte>)
    requires WellFormedAlt(a) && body == PrintMany(EndpointPrinter(little), a.endpoints)
    requires Holds(mem, at, AltHead(a) + a.extra + body)
    requires size >= 9 + |a.extra| + |body|
    requires InterfaceNext(mem, at + 9 + |a.extra| + |body|, size - 9 - |a.extra| - |body|)
    ensures ParseAlt(mem, at, size, little) == Parsed(a, 9 + |a.extra| + |body|)
    ensures InterfaceNext(mem, at, size)
  {
    hide PrintMany, Many, SkipExtra, ParseAlt;
    AltParts(mem, at, a, body);
    AltHeadRoundTrip(mem, at, a);
    EndpointsRoundTrip(mem, at + 9 + |a.extra|, a.endpoints, little, size - 9 - |a.extra| - |body|, body);
    SkipsExtra(mem, at + 9, a.extra, size - 9, false);
    BytesAre(mem, at + 9, a.extra);
    ParseAltStep(mem, at, size, little, a, |body|);
  }

  lemma AltSeen(mem: Memory, at: nat, a: AltSetting, more: seq<byte>)
    requires WellFormedAlt(a) && Holds(mem, at, AltHead(a) + more)
    ensures mem(at) == 9 && mem(at + 1) == LIBUSB_DT_INTERFACE && mem(at + 3) == a.bAlternateSetting
  {
    HoldsParts(mem, at, AltHead(a), more);
    AltHeadRoundTrip(mem, at, a);
  }

  lemma {:induction false} AltsUndone(mem: Memory, alts: seq<AltSetting>, little: bool)
    requires WellFormedAlts(alts)
    ensures Undone(AltParser(mem, little), AltPrinter(little), InterfaceTest(mem), mem, alts)
    ensures NonEmpty(AltPrinter(little), alts)
    decreases |alts|
  {
    hide PrintMany, ParseAlt, WellFormedAlt, EndpointPrinter;
    if alts != [] {
      var a := alts[0];
      var body := PrintMany(EndpointPrinter(little), a.endpoints);
      forall at: nat, size: int
        ensures UndoneAt(AltParser(mem, little), AltPrinter(little), InterfaceTest(mem), mem, a, at, size)
      {
        var n := 9 + |a.extra| + |body|;
        if Holds(mem, at, AltPrinter(little)(a)) && size >= n && InterfaceNext(mem, at + n, size - n) {
          AltRoundTrip(mem, at, a, little, size, body);
        }
      }
      AltsUndone(mem, alts[1..], little);
    }
  }

  lemma {:induction false} AltsSeen(mem: Memory, alts: seq<AltSetting>, little: bool)
    requires WellFormedAlts(alts) && Numbered(alts)
    ensures Seen(AlternateTest(mem), AltPrinter(little), mem, alts)
    decreases |alts|
  {
    if alts != [] {
      var a := alts[0];
      var more := a.extra + PrintMany(EndpointPrinter(little), a.endpoints);
      assert AltPrinter(little)(a) == AltHead(a) + more;
      forall at: nat, size: int
        ensures SeenAt(AlternateTest(mem), AltPrinter(little), mem, a, at, size)
      {
        if Holds(mem, at, AltHead(a) + more) {
          AltSeen(mem, at, a, more);
        }
      }
      AltsSeen(mem, alts[1..], little);
    }
  }

  /** Nothing is left, or the first alternate setting of another interface follows. */
  predicate NewInterface(mem: Memory, at: nat, left: int) {
    InterfaceNext(mem, at, left) && (left > 0 ==> mem(at + 3) == 0)
  }

  function NewInterfaceTest(mem: Memory): (nat, int) -> bool {
    (at: nat, left: int) => NewInterface(mem, at, left)
  }

  lemma InterfaceHead(mem: Memory, at: nat, alts: Interface, little: bool, data: seq<byte>)
    requires WellFormedInterface(alts) && data == PrintMany(AltPrinter(little), alts) && Holds(mem, at, data)
    ensures |data| >= INTERFACE_DESC_LENGTH && mem(at + 3) == 0
  {
    hide EndpointPrinter, ExtraRecords, Numbered;
    var rest := alts[0].extra + PrintMany(EndpointPrinter(little), alts[0].endpoints)
                + PrintMany(AltPrinter(little), alts[1..]);
    assert data == AltHead(alts[0]) + rest;
    AltSeen(mem, at, alts[0], rest);
  }

  lemma AltsRoundTrip(mem: Memory, at: nat, alts: Interface, little: bool, left: nat, data: seq<byte>)
    requires WellFormedInterface(alts) && data == PrintMany(AltPrinter(little), alts)
    requires Holds(mem, at, data)
    requires InterfaceNext(mem, at + |data|, left) && !AlternateFollows(mem, at + |data|, left)
    ensures Chain(AltParser(mem, little), AlternateTest(mem), at, |data| + left) == Parsed(alts, |data|)
    ensures InterfaceNext(mem, at, |data| + left)
  {
    hide Chain, PrintMany, ParseAlt, Seen, Undone, NonEmpty;
    AltsUndone(mem, alts, little);
    AltsSeen(mem, alts[1..], little);
    NonEmptyAlt(alts[0], little);
    ChainUndoesPrintMany(AltParser(mem, little), AlternateTest(mem), AltPrinter(little), InterfaceTest(mem), mem,
                         at, alts, left);
    assert InterfaceTest(mem)(at, |data| + left);
  }

  lemma NonEmptyAlt(a: AltSetting, little: bool)
    ensures AltPrinter(little)(a) != []
  {
    assert AltPrinter(little)(a)[0] == a.bLength;
  }

  /** The alternates are grouped into one interface, which ends where the next one begins. */
  lemma InterfaceRoundTrip(mem: Memory, at: nat, alts: Interface, little: bool, size: int, data: seq<byte>)
    requires WellFormedInterface(alts) && data == PrintMany(AltPrinter(little), alts)
    requires Holds(mem, at, data) && size >= |data|
    requires NewInterface(mem, at + |data|, size - |data|)
    ensures ParseInterface(mem, at, size, little) == Parsed(alts, |data|)
    ensures NewInterface(mem, at, size) && size > 0
  {
    hide Chain, PrintMany, WellFormedInterface;
    AltsRoundTrip(mem, at, alts, little, size - |data|, data);
    InterfaceHead(mem, at, alts, little, data);
  }

  lemma ParseNextInterfaceStep(mem: Memory, at: nat, size: int, little: bool, extra: seq<byte>, alts: Interface, n: nat)
    requires SkipExtra(mem, at, size, true) == Parsed((), |extra|) && Bytes(mem, at, |extra|) == extra
    requires ParseInterface(mem, at + |extra|, size - |extra|, little) == Parsed(alts, n)
    ensures ParseNextInterface(mem, at, size, little) == Parsed((extra, alts), |extra| + n)
  {
    hide SkipExtra, ParseInterface, Bytes;
  }

  lemma NextInterfaceRoundTrip(mem: Memory, at: nat, extra: seq<byte>, alts: Interface, little: bool,
                               size: int, data: seq<byte>)
    requires WellFormedInterface(alts) && ExtraRecords(extra) && data == PrintMany(AltPrinter(little), alts)
    requires Holds(mem, at, extra) && Holds(mem, at + |extra|, data) && size >= |extra| + |data|
    requires NewInterface(mem, at + |extra| + |data|, size - |extra| - |data|)
    ensures ParseNextInterface(mem, at, size, little) == Parsed((extra, alts), |extra| + |data|)
    ensures extra == [] ==> NewInterface(mem, at, size)
  {
    hide PrintMany, WellFormedInterface, ParseInterface, ParseNextInterface, SkipExtra;
    InterfaceRoundTrip(mem, at + |extra|, alts, little, size - |extra|, data);
    SkipsExtra(mem, at, extra, size, true);
    BytesAre(mem, at, extra);
    ParseNextInterfaceStep(mem, at, size, little, extra, alts, |data|);
  }

  lemma {:induction false} InterfacesUndone(mem: Memory, interfaces: seq<Interface>, little: bool)
    requires WellFormedInterfaces(interfaces)
    ensures Undone(InterfaceParser(mem, little), InterfacePrinter(little), NewInterfaceTest(mem), mem,
                   WithExtra([], interfaces))
    decreases |interfaces|
  {
    hide PrintMany, ParseNextInterface, WellFormedInterface, AltPrinter;
    if interfaces != [] {
      var i := ([], interfaces[0]);
      var data := PrintMany(AltPrinter(little), interfaces[0]);
      assert InterfacePrinter(little)(i) == [] + data == data;
      forall at: nat, size: int
        ensures UndoneAt(InterfaceParser(mem, little), InterfacePrinter(little), NewInterfaceTest(mem), mem, i, at, size)
      {
        if Holds(mem, at, data) && size >= |data| && NewInterface(mem, at + |data|, size - |data|) {
          NextInterfaceRoundTrip(mem, at, [], interfaces[0], little, size, data);
        }
      }
      InterfacesUndone(mem, interfaces[1..], little);
      assert WithExtra([], interfaces)[0] == i && WithExtra([], interfaces)[1..] == WithExtra([], interfaces[1..]);
    }
  }

  lemma {:induction false} WithExtraParts(extra: seq<byte>, interfaces: seq<Interface>)
    requires interfaces == [] ==> extra == []
    ensures |WithExtra(extra, interfaces)| == |interfaces|
    ensures FirstExtra(WithExtra(extra, interfaces)) == extra
    ensures Interfaces(WithExtra(extra, interfaces)) == interfaces
    decreases |interfaces|
  {
    if interfaces != [] {
      WithExtraParts([], interfaces[1..]);
      assert WithExtra(extra, interfaces)[1..] == WithExtra([], interfaces[1..]);
      assert [interfaces[0]] + interfaces[1..] == interfaces;
    }
  }

  lemma PlainInterfacesRoundTrip(mem: Memory, at: nat, interfaces: seq<Interface>, little: bool, data: seq<byte>)
    requires WellFormedInterfaces(interfaces) && Holds(mem, at, data)
    requires data == PrintMany(InterfacePrinter(little), WithExtra([], interfaces))
    ensures Many(InterfaceParser(mem, little), at, |data|, |interfaces|) == Parsed(WithExtra([], interfaces), |data|)
    ensures NewInterface(mem, at, |data|)
  {
    hide Many, PrintMany, ParseNextInterface, Undone, InterfacePrinter, InterfaceParser, WithExtra, FirstExtra;
    hide Interfaces, WellFormedInterfaces;
    InterfacesUndone(mem, interfaces, little);
    WithExtraParts([], interfaces);
    ManyUndoesPrintMany(InterfaceParser(mem, little), InterfacePrinter(little), NewInterfaceTest(mem), mem,
                        at, WithExtra([], interfaces), 0);
    assert NewInterfaceTest(mem)(at, |data| + 0);
  }

  lemma FirstInterfacePrints(extra: seq<byte>, interfaces: seq<Interface>, little: bool)
    requires interfaces != []
    ensures WithExtra(extra, interfaces) == [(extra, interfaces[0])] + WithExtra([], interfaces[1..])
    ensures PrintMany(InterfacePrinter(little), WithExtra(extra, interfaces))
            == extra + (PrintMany(AltPrinter(little), interfaces[0])
                        + PrintMany(InterfacePrinter(little), WithExtra([], interfaces[1..])))
  {
    hide AltPrinter;
    assert WithExtra(extra, interfaces)[1..] == WithExtra([], interfaces[1..]);
  }

  lemma FirstInterfaceRoundTrip(mem: Memory, at: nat, extra: seq<byte>, alts: Interface, others: seq<Interface>,
                                little: bool, first: seq<byte>, rest: seq<byte>)
    requires WellFormedInterface(alts) && WellFormedInterfaces(others) && ExtraRecords(extra)
    requires first == PrintMany(AltPrinter(little), alts)
    requires rest == PrintMany(InterfacePrinter(little), WithExtra([], others))
    requires Holds(mem, at, extra + (first + rest))
    ensures Many(InterfaceParser(mem, little), at, |extra + (first + rest)|, |others| + 1)
            == Parsed([(extra, alts)] + WithExtra([], others), |extra + (first + rest)|)
  {
    hide Many, PrintMany, WithExtra, ParseNextInterface, WellFormedInterface, WellFormedInterfaces;
    HoldsParts(mem, at, extra, first + rest);
    HoldsParts(mem, at + |extra|, first, rest);
    PlainInterfacesRoundTrip(mem, at + |extra| + |first|, others, little, rest);
    NextInterfaceRoundTrip(mem, at, extra, alts, little, |extra + (first + rest)|, first);
    WithExtraParts([], others);
    ManyFirst(InterfaceParser(mem, little), at, |extra + (first + rest)|, (extra, alts), |extra| + |first|,
              WithExtra([], others), |rest|);
  }

  lemma InterfacesRoundTrip(mem: Memory, at: nat, extra: seq<byte>, interfaces: seq<Interface>, little: bool,
                            data: seq<byte>)
    requires WellFormedInterfaces(interfaces) && ExtraRecords(extra) && (interfaces == [] ==> extra == [])
    requires data == PrintMany(InterfacePrinter(little), WithExtra(extra, interfaces)) && Holds(mem, at, data)
    ensures Many(InterfaceParser(mem, little), at, |data|, |interfaces|)
            == Parsed(WithExtra(extra, interfaces), |data|)
  {
    hide InterfacePrinter, InterfaceParser, AltPrinter, ExtraRecords, WellFormedInterface;
    if interfaces != [] {
      FirstInterfacePrints(extra, interfaces, little);
      FirstInterfaceRoundTrip(mem, at, extra, interfaces[0], interfaces[1..], little,
                              PrintMany(AltPrinter(little), interfaces[0]),
                              PrintMany(InterfacePrinter(little), WithExtra([], interfaces[1..])));
    }
  }

  lemma ConfigHeadRoundTrip(mem: Memory, at: nat, c: Config, little: bool)
    requires c.wTotalLength < 0x10000 && Holds(mem, at, ConfigHead(c, little))
    ensures |ConfigHead(c, little)| == 9
    ensures ConfigFields(mem, at, little) == c.(extra := [], interfaces := [])
  {
    var h := ConfigHead(c, little);
    assert mem(at + 0) == h[0] && mem(at + 1) == h[1] && mem(at + 2) == h[2] && mem(at + 3) == h[3];
    assert mem(at + 4) == h[4] && mem(at + 5) == h[5] && mem(at + 6) == h[6] && mem(at + 7) == h[7];
    assert mem(at + 8) == h[8];
  }

  lemma ParseConfigurationStep(mem: Memory, at: nat, c: Config, little: bool,
                               found: seq<(seq<byte>, Interface)>, n: nat)
    requires ConfigFields(mem, at, little) == c.(extra := [], interfaces := [])
    requires c.bLength == 9 && c.bNumInterfaces <= USB_MAXINTERFACES
    requires FirstExtra(found) == c.extra && Interfaces(found) == c.interfaces
    requires Many(InterfaceParser(mem, little), at + 9, c.wTotalLength - 9, c.bNumInterfaces) == Parsed(found, n)
    ensures ParseConfiguration(mem, at, little) == Parsed(c, 9 + n)
  {
    hide Many, FirstExtra, Interfaces, InterfaceParser, ConfigFields;
  }

  // ---------------------------------------------------------------- main results

  /**
   Parser undoes printer: from memory that holds the serialization of a well-formed
   configuration, whatever lies behind it, the parser recovers the very same tree and has
   nothing left over.
   */
  lemma ParserUndoesPrinter(mem: Memory, at: nat, c: Config, little: bool)
    requires WellFormed(c, little) && Holds(mem, at, PrintConfig(c, little))
    ensures ParseConfiguration(mem, at, little) == Parsed(c, c.wTotalLength)
  {
    hide Many, PrintMany, WithExtra, ParseConfiguration, WellFormedInterfaces, ConfigHead;
    var data := PrintMany(InterfacePrinter(little), WithExtra(c.extra, c.interfaces));
    HoldsParts(mem, at, ConfigHead(c, little), data);
    ConfigHeadRoundTrip(mem, at, c, little);
    InterfacesRoundTrip(mem, at + 9, c.extra, c.interfaces, little, data);
    WithExtraParts(c.extra, c.interfaces);
    ParseConfigurationStep(mem, at, c, little, WithExtra(c.extra, c.interfaces), |data|);
  }

  /** So the wire format is unambiguous. */
  lemma PrintingIsInjective(c: Config, d: Config, little: bool)
    requires WellFormed(c, little) && WellFormed(d, little)
    requires PrintConfig(c, little) == PrintConfig(d, little)
    ensures c == d
  {
    var data := PrintConfig(c, little);
    var mem: Memory := (i: nat) => if i < |data| then data[i] else 0;
    ParserUndoesPrinter(mem, 0, c, little);
    ParserUndoesPrinter(mem, 0, d, little);
  }

  // ---------------------------------------------------------------- the parser always ends

  /** A setting of length zero is looked at again as an extra descriptor, and rejected for its length. */
  lemma AlternatesTakeSpace(mem: Memory, at: nat, size: int, little: bool)
    requires size >= INTERFACE_DESC_LENGTH
    ensures var one := ParseAlt(mem, at, size, little);
      !one.Hang? && (one.Parsed? ==> one.length > 0) && (mem(at) == 0 ==> one == Failed(LIBUSB_ERROR_IO))
  {
    hide Many, Bytes, EndpointParser, Unexpected;
  }

  lemma {:induction false} InterfaceEnds(mem: Memory, at: nat, size: int, little: bool)
    ensures !ParseInterface(mem, at, size, little).Hang?
    decreases if size < 0 then 0 else size
  {
    hide ParseAlt;
    if size >= INTERFACE_DESC_LENGTH {
      var one := ParseAlt(mem, at, size, little);
      AlternatesTakeSpace(mem, at, size, little);
      if one.Parsed? && AlternateFollows(mem, at + one.length, size - one.length) {
        InterfaceEnds(mem, at + one.length, size - one.length, little);
      }
    }
  }

  lemma {:induction false} InterfacesEnd(mem: Memory, at: nat, size: int, n: nat, little: bool)
    ensures !Many(InterfaceParser(mem, little), at, size, n).Hang?
    decreases n
  {
    hide SkipExtra, ParseInterface;
    if n > 0 {
      var skip := SkipExtra(mem, at, size, true);
      if skip.Parsed? { InterfaceEnds(mem, at + skip.length, size - skip.length, little); }
      var one := ParseNextInterface(mem, at, size, little);
      if one.Parsed? { InterfacesEnd(mem, at + one.length, size - one.length, n - 1, little); }
    }
  }

  /**
   The parser ends for every memory: no loop of it reads the same record for ever. An alternate
   setting that claims length zero makes it fail.
   */
  lemma ParserAlwaysEnds(mem: Memory, at: nat, size: int, little: bool)
    ensures !ParseConfiguration(mem, at, little).Hang? && !ParseInterface(mem, at, size, little).Hang?
    ensures size >= INTERFACE_DESC_LENGTH && mem(at) == 0
            ==> ParseInterface(mem, at, size, little) == Failed(LIBUSB_ERROR_IO)
  {
    hide Many, InterfaceParser, ParseAlt;
    var config := ConfigFields(mem, at, little);
    InterfacesEnd(mem, at + config.bLength, config.wTotalLength - config.bLength, config.bNumInterfaces, little);
    InterfaceEnds(mem, at, size, little);
    if size >= INTERFACE_DESC_LENGTH { AlternatesTakeSpace(mem, at, size, little); }
  }
}
