/**
 The parser as the library runs it: loops that advance a buffer pointer, subtract from the
 remaining size and fill the output structures. Each is proved to compute what `Descriptors`
 specifies, for any memory contents.
 */
module DescriptorParser {
  import opened RecordLists
  import opened Words
  import D = Descriptors

  // ---------------------------------------------------------------- fields by format string

  /** The fields that `format[i..]` describes: `b` a byte, `w` a 16-bit word, anything else nothing. */
  function Fields(mem: Memory, at: nat, format: string, i: nat, little: bool): seq<nat>
    requires i <= |format|
    decreases |format| - i
  {
    if i == |format| then []
    else if format[i] == 'b' then [mem(at)] + Fields(mem, at + 1, format, i + 1, little)
    else if format[i] == 'w' then [D.Word(mem, at, little)] + Fields(mem, at + 2, format, i + 1, little)
    else Fields(mem, at, format, i + 1, little)
  }

  /** The number of bytes that `format[i..]` describes. */
  function Width(format: string, i: nat): nat
    requires i <= |format|
    decreases |format| - i
  {
    if i == |format| then 0
    else (if format[i] == 'b' then 1 else if format[i] == 'w' then 2 else 0) + Width(format, i + 1)
  }

  method ParseDescriptor(mem: Memory, source: nat, format: string, little: bool) returns (fields: seq<nat>, read: nat)
    ensures fields == Fields(mem, source, format, 0, little)
    ensures read == Width(format, 0)
  {
    fields := [];
    var sp, cp := source, 0;
    while cp < |format|
      invariant cp <= |format| && source <= sp
      invariant Width(format, 0) == sp - source + Width(format, cp)
      invariant Fields(mem, source, format, 0, little) == fields + Fields(mem, sp, format, cp, little)
    {
      if format[cp] == 'b' {
        fields := fields + [mem(sp)];
        sp := sp + 1;
      } else if format[cp] == 'w' {
        fields := fields + [D.Word(mem, sp, little)];
        sp := sp + 2;
      }
      cp := cp + 1;
    }
    read := sp - source;
  }

  /** A run of `n` byte fields is `n` consecutive bytes; the rest of the format reads on from there. */
  lemma {:induction false} ByteFields(mem: Memory, at: nat, format: string, i: nat, n: nat, little: bool)
    requires i + n <= |format| && forall j :: i <= j < i + n ==> format[j] == 'b'
    ensures |Fields(mem, at, format, i, little)| == n + |Fields(mem, at + n, format, i + n, little)|
    ensures forall j :: 0 <= j < n ==> Fields(mem, at, format, i, little)[j] == mem(at + j)
    ensures Fields(mem, at, format, i, little)[n..] == Fields(mem, at + n, format, i + n, little)
    decreases n
  {
    if n > 0 {
      ByteFields(mem, at + 1, format, i + 1, n - 1, little);
      var fields, others := Fields(mem, at, format, i, little), Fields(mem, at + 1, format, i + 1, little);
      assert fields == [mem(at) as nat] + others;
      assert fields[n..] == others[n - 1..];
      forall j | 0 <= j < n ensures fields[j] == mem(at + j) {
        if j > 0 {
          assert fields[j] == others[j - 1] == mem(at + 1 + (j - 1));
        }
      }
    }
  }

  /** What the two endpoint formats, the header format and the interface format pick up. */
  lemma ReadHeader(mem: Memory, at: nat, little: bool)
    ensures Fields(mem, at, "bb", 0, little) == [mem(at) as nat, mem(at + 1) as nat]
  {
    ByteFields(mem, at, "bb", 0, 2, little);
  }

  lemma ReadEndpoint(mem: Memory, at: nat, little: bool)
    ensures Fields(mem, at, "bbbbwb", 0, little)
            == [mem(at) as nat, mem(at + 1) as nat, mem(at + 2) as nat, mem(at + 3) as nat,
                D.Word(mem, at + 4, little), mem(at + 6) as nat]
  {
    ByteFields(mem, at, "bbbbwb", 0, 4, little);
    ByteFields(mem, at + 6, "bbbbwb", 5, 1, little);
  }

  lemma ReadAudioEndpoint(mem: Memory, at: nat, little: bool)
    ensures Fields(mem, at, "bbbbwbbb", 0, little)
            == [mem(at) as nat, mem(at + 1) as nat, mem(at + 2) as nat, mem(at + 3) as nat,
                D.Word(mem, at + 4, little), mem(at + 6) as nat, mem(at + 7) as nat, mem(at + 8) as nat]
  {
    ByteFields(mem, at, "bbbbwbbb", 0, 4, little);
    ByteFields(mem, at + 6, "bbbbwbbb", 5, 3, little);
  }

  lemma ReadInterface(mem: Memory, at: nat, little: bool)
    ensures Fields(mem, at, "bbbbbbbbb", 0, little)
            == [mem(at) as nat, mem(at + 1) as nat, mem(at + 2) as nat, mem(at + 3) as nat, mem(at + 4) as nat,
                mem(at + 5) as nat, mem(at + 6) as nat, mem(at + 7) as nat, mem(at + 8) as nat]
  {
    ByteFields(mem, at, "bbbbbbbbb", 0, 9, little);
  }

  lemma ReadConfiguration(mem: Memory, at: nat, little: bool)
    ensures Fields(mem, at, "bbwbbbbb", 0, little)
            == [mem(at) as nat, mem(at + 1) as nat, D.Word(mem, at + 2, little), mem(at + 4) as nat,
                mem(at + 5) as nat, mem(at + 6) as nat, mem(at + 7) as nat, mem(at + 8) as nat]
  {
    ByteFields(mem, at, "bbwbbbbb", 0, 2, little);
    ByteFields(mem, at + 4, "bbwbbbbb", 3, 5, little);
  }

  // ---------------------------------------------------------------- descriptors nobody asked for

  /** The loop that steps over class- and vendor-specific descriptors. */
  method SkipExtra(mem: Memory, at: nat, size: int, checked: bool) returns (r: Result<()>)
    ensures r == D.SkipExtra(mem, at, size, checked)
  {
    var buffer: nat, left, parsed: nat := at, size, 0;
    while left >= D.DESC_HEADER_LENGTH
      invariant D.SkipExtra(mem, at, size, checked)
                == D.Later(parsed, D.SkipExtra(mem, buffer, left, checked))
    {
      var header, _ := ParseDescriptor(mem, buffer, "bb", false);
      ReadHeader(mem, buffer, false);
      if (checked && header[0] > left) || header[0] < 2 {
        return Failed(D.LIBUSB_ERROR_IO);
      }
      if D.Standard(header[1]) {
        return Parsed((), parsed);
      }
      buffer := buffer + header[0];
      left := left - header[0];
      parsed := parsed + header[0];
    }
    return Parsed((), parsed);
  }

  // ---------------------------------------------------------------- endpoints

  /** Descriptors shorter than an endpoint leave the zeroed structure as it is. */
  method ReadEndpointFields(mem: Memory, at: nat, bLength: nat, little: bool) returns (endpoint: D.Endpoint)
    requires bLength == mem(at)
    ensures endpoint == D.EndpointFields(mem, at, little)
  {
    if bLength >= D.ENDPOINT_AUDIO_DESC_LENGTH {
      var f, _ := ParseDescriptor(mem, at, "bbbbwbbb", little);
      ReadAudioEndpoint(mem, at, little);
      endpoint := D.Endpoint(f[0], f[1], f[2], f[3], f[4], f[5], f[6], f[7], []);
    } else if bLength >= D.ENDPOINT_DESC_LENGTH {
      var f, _ := ParseDescriptor(mem, at, "bbbbwb", little);
      ReadEndpoint(mem, at, little);
      endpoint := D.Endpoint(f[0], f[1], f[2], f[3], f[4], f[5], 0, 0, []);
    } else {
      endpoint := D.NO_ENDPOINT;
    }
  }

  method ParseEndpoint(mem: Memory, at: nat, size: int, little: bool) returns (r: Result<D.Endpoint>)
    ensures r == D.ParseEndpoint(mem, at, size, little)
  {
    hide D.EndpointFields, D.SkipExtra;
    var header, _ := ParseDescriptor(mem, at, "bb", false);
    ReadHeader(mem, at, false);
    if header[0] > size {
      return Failed(D.LIBUSB_ERROR_IO);
    }
    if header[1] != D.LIBUSB_DT_ENDPOINT {
      return Parsed(D.NO_ENDPOINT, 0);
    }
    var endpoint := ReadEndpointFields(mem, at, header[0], little);
    var begin := at + header[0];
    var skip := SkipExtra(mem, begin, size - header[0], false);
    if !skip.Parsed? {
      return Failed(D.LIBUSB_ERROR_IO);
    }
    endpoint := endpoint.(extra := D.Bytes(mem, begin, skip.length));
    return Parsed(endpoint, header[0] + skip.length);
  }

  /** What a loop over records has done so far, in front of what is still to come. */
  function After<T>(done: seq<T>, n: nat, r: Result<seq<T>>): Result<seq<T>> {
    if r.Parsed? then Parsed(done + r.value, n + r.length) else r
  }

  lemma AfterNothing<T>(r: Result<seq<T>>)
    ensures After([], 0, r) == r
  {
    if r.Parsed? {
      assert [] + r.value == r.value;
    }
  }

  lemma AfterOneMore<T>(done: seq<T>, n: nat, x: T, len: nat, r: Result<seq<T>>)
    ensures After(done, n, Before(x, len, r)) == After(done + [x], n + len, r)
  {
    if r.Parsed? {
      assert done + ([x] + r.value) == (done + [x]) + r.value;
    }
  }

  method ParseEndpoints(mem: Memory, at: nat, size: int, count: nat, little: bool) returns (r: Result<seq<D.Endpoint>>)
    ensures r == Many(D.EndpointParser(mem, little), at, size, count)
  {
    hide D.ParseEndpoint;
    var buffer: nat, left, parsed: nat := at, size, 0;
    var endpoints: seq<D.Endpoint> := [];
    var i := 0;
    AfterNothing(Many(D.EndpointParser(mem, little), at, size, count));
    while i < count
      invariant i <= count
      invariant Many(D.EndpointParser(mem, little), at, size, count)
                == After(endpoints, parsed, Many(D.EndpointParser(mem, little), buffer, left, count - i))
    {
      var one := ParseEndpoint(mem, buffer, left, little);
      match one {
        case Failed(code) =>
          return Failed(code);
        case Hang =>
          return Hang;
        case Parsed(endpoint, n) =>
          AfterOneMore(endpoints, parsed, endpoint, n,
                       Many(D.EndpointParser(mem, little), buffer + n, left - n, count - i - 1));
          endpoints := endpoints + [endpoint];
          buffer, left, parsed := buffer + n, left - n, parsed + n;
      }
      i := i + 1;
    }
    assert endpoints + [] == endpoints;
    return Parsed(endpoints, parsed);
  }

  // ---------------------------------------------------------------- interfaces

  method ReadInterfaceFields(mem: Memory, at: nat) returns (ifp: D.AltSetting)
    ensures ifp == D.AltFields(mem, at) && ifp.bLength == mem(at)
  {
    var f, _ := ParseDescriptor(mem, at, "bbbbbbbbb", false);
    ReadInterface(mem, at, false);
    ifp := D.AltSetting(f[0], f[1], f[2], f[3], f[4], f[5], f[6], f[7], f[8], [], []);
  }

  /** One round of the interface loop: an alternate setting, its extras and its endpoints. */
  method ParseAlternate(mem: Memory, at: nat, size: int, little: bool) returns (r: Result<D.AltSetting>)
    ensures r == D.ParseAlt(mem, at, size, little)
  {
    hide D.SkipExtra, D.EndpointParser, Many, D.Unexpected, D.AltFields;
    var ifp := ReadInterfaceFields(mem, at);
    var begin, left := at + ifp.bLength, size - ifp.bLength;
    var skip := SkipExtra(mem, begin, left, false);
    if !skip.Parsed? {
      return Failed(D.LIBUSB_ERROR_IO);
    }
    var buffer, parsed := begin + skip.length, ifp.bLength + skip.length;
    left := left - skip.length;
    ifp := ifp.(extra := D.Bytes(mem, begin, skip.length));
    if D.Unexpected(mem, buffer, left) {
      return Parsed(ifp, parsed);
    }
    if ifp.bNumEndpoints > D.USB_MAXENDPOINTS {
      return Failed(D.LIBUSB_ERROR_IO);
    }
    var endpoints := ParseEndpoints(mem, buffer, left, ifp.bNumEndpoints, little);
    if !endpoints.Parsed? {
      return Failed(D.LIBUSB_ERROR_IO);
    }
    return Parsed(ifp.(endpoints := endpoints.value), parsed + endpoints.length);
  }

  /** Every round takes some of the size, so the loop ends for any memory contents. */
  method ParseInterface(mem: Memory, at: nat, size: int, little: bool) returns (r: Result<D.Interface>)
    ensures r == D.ParseInterface(mem, at, size, little) && !r.Hang?
  {
    hide D.ParseAlt;
    D.InterfaceEnds(mem, at, size, little);
    var buffer: nat, left, parsed: nat := at, size, 0;
    var altsetting: D.Interface := [];
    AfterNothing(D.ParseInterface(mem, at, size, little));
    while left >= D.INTERFACE_DESC_LENGTH
      invariant D.ParseInterface(mem, at, size, little)
                == After(altsetting, parsed, D.ParseInterface(mem, buffer, left, little))
    {
      var one := ParseAlternate(mem, buffer, left, little);
      D.AlternatesTakeSpace(mem, buffer, left, little);
      if !one.Parsed? {
        return Failed(one.code);
      }
      var n := one.length;
      AfterOneMore(altsetting, parsed, one.value, n, D.ParseInterface(mem, buffer + n, left - n, little));
      altsetting := altsetting + [one.value];
      buffer, left, parsed := buffer + n, left - n, parsed + n;
      if !D.AlternateFollows(mem, buffer, left) {
        return Parsed(altsetting, parsed);
      }
    }
    assert altsetting + [] == altsetting;
    return Parsed(altsetting, parsed);
  }

  // ---------------------------------------------------------------- configurations

  lemma {:induction false} OneMoreInterface(found: seq<(seq<byte>, D.Interface)>, extra: seq<byte>, alts: D.Interface)
    ensures D.Interfaces(found + [(extra, alts)]) == D.Interfaces(found) + [alts]
    ensures D.FirstExtra(found + [(extra, alts)]) == if D.FirstExtra(found) == [] then extra else D.FirstExtra(found)
    decreases |found|
  {
    if found == [] {
      assert found + [(extra, alts)] == [(extra, alts)];
    } else {
      OneMoreInterface(found[1..], extra, alts);
      assert (found + [(extra, alts)])[1..] == found[1..] + [(extra, alts)];
    }
  }

  /** One round of the configuration loop: extra bytes, then an interface. */
  method ParseNextInterface(mem: Memory, at: nat, size: int, little: bool)
    returns (r: Result<(seq<byte>, D.Interface)>)
    ensures r == D.ParseNextInterface(mem, at, size, little) && !r.Hang?
  {
    hide D.SkipExtra, D.ParseInterface;
    var skip := SkipExtra(mem, at, size, true);
    if !skip.Parsed? {
      return Failed(D.LIBUSB_ERROR_IO);
    }
    var one := ParseInterface(mem, at + skip.length, size - skip.length, little);
    if !one.Parsed? {
      return Failed(one.code);
    }
    return Parsed((D.Bytes(mem, at, skip.length), one.value), skip.length + one.length);
  }

  /** The configuration loop; of the extra bytes in front of the interfaces it keeps the first run. */
  method ParseInterfaces(mem: Memory, at: nat, size: int, count: nat, little: bool)
    returns (r: Result<seq<D.Interface>>, extra: seq<byte>)
    ensures !r.Hang?
    ensures match Many(D.InterfaceParser(mem, little), at, size, count)
      case Parsed(found, n) => r == Parsed(D.Interfaces(found), n) && extra == D.FirstExtra(found)
      case Failed(code) => r == Failed(code)
      case Hang => false
  {
    hide D.ParseNextInterface;
    var buffer: nat, left, parsed: nat := at, size, 0;
    var interfaces: seq<D.Interface> := [];
    extra := [];
    ghost var all := Many(D.InterfaceParser(mem, little), at, size, count);
    ghost var done: seq<(seq<byte>, D.Interface)> := [];
    var i := 0;
    AfterNothing(all);
    while i < count
      invariant i <= count
      invariant extra == D.FirstExtra(done) && interfaces == D.Interfaces(done)
      invariant all == After(done, parsed, Many(D.InterfaceParser(mem, little), buffer, left, count - i))
    {
      var one := ParseNextInterface(mem, buffer, left, little);
      if !one.Parsed? {
        return Failed(one.code), extra;
      }
      var n := one.length;
      OneMoreInterface(done, one.value.0, one.value.1);
      AfterOneMore(done, parsed, one.value, n, Many(D.InterfaceParser(mem, little), buffer + n, left - n, count - i - 1));
      done := done + [one.value];
      if extra == [] {
        extra := one.value.0;
      }
      interfaces := interfaces + [one.value.1];
      buffer, left, parsed := buffer + n, left - n, parsed + n;
      i := i + 1;
    }
    assert done + [] == done;
    r := Parsed(interfaces, parsed);
  }

  method ParseConfiguration(mem: Memory, at: nat, little: bool) returns (r: Result<D.Config>)
    ensures r == D.ParseConfiguration(mem, at, little) && !r.Hang?
  {
    hide Many, D.InterfaceParser, D.Interfaces, D.FirstExtra;
    var f, _ := ParseDescriptor(mem, at, "bbwbbbbb", little);
    ReadConfiguration(mem, at, little);
    var config := D.Config(f[0], f[1], f[2], f[3], f[4], f[5], f[6], f[7], [], []);
    if config.bNumInterfaces > D.USB_MAXINTERFACES {
      return Failed(D.LIBUSB_ERROR_IO);
    }
    var interfaces, extra := ParseInterfaces(mem, at + config.bLength, config.wTotalLength - config.bLength,
                                             config.bNumInterfaces, little);
    if !interfaces.Parsed? {
      return Failed(interfaces.code);
    }
    return Parsed(config.(extra := extra, interfaces := interfaces.value), config.bLength + interfaces.length);
  }
}
