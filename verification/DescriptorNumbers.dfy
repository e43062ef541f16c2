/**
 The parser's contracts in the numbers of the USB 2.0 specification (tables 9-5, 9-10, 9-12 and
 9-13), for any memory: which bytes are which fields, and which types and limits count.
 */
module DescriptorNumbers {
  import opened Descriptors
  import opened RecordLists
  import opened Words

  /** Device, configuration, interface and endpoint descriptors. */
  lemma StandardInNumbers(t: byte)
    ensures Standard(t) <==> t == 1 || t == 2 || t == 4 || t == 5
  {
  }

  /** Records of other types that take `n` bytes, each begun with at least two bytes left. */
  predicate Records(mem: Memory, at: nat, size: int, checked: bool, n: nat)
    decreases n
  {
    n == 0
    || (size >= 2 && 2 <= mem(at) <= n && (checked ==> mem(at) <= size) && mem(at + 1) !in {1, 2, 4, 5}
        && Records(mem, at + mem(at), size - mem(at), checked, n - mem(at)))
  }

  /** Too little is left for a record, or a standard one follows. */
  predicate Stops(mem: Memory, at: nat, size: int, checked: bool) {
    size < 2 || (mem(at) >= 2 && (checked ==> mem(at) <= size) && mem(at + 1) in {1, 2, 4, 5})
  }

  lemma {:induction false} ExtrasInNumbers(mem: Memory, at: nat, size: int, checked: bool, n: nat)
    ensures SkipExtra(mem, at, size, checked) == Parsed((), n)
            <==> Records(mem, at, size, checked, n) && Stops(mem, at + n, size - n, checked)
    decreases size
  {
    if size >= 2 && mem(at) >= 2 && (checked ==> mem(at) <= size) && !Standard(mem(at + 1)) && n >= mem(at) {
      ExtrasInNumbers(mem, at + mem(at), size - mem(at), checked, n - mem(at));
    }
  }

  /** Two bytes of a field, in the order the caller asks for. */
  function Field16(mem: Memory, at: nat, little: bool): nat {
    if little then mem(at) + 256 * mem(at + 1) else mem(at) * 256 + mem(at + 1)
  }

  /** A descriptor of another type is left where it is; one of at least seven bytes is an endpoint. */
  lemma EndpointInNumbers(mem: Memory, at: nat, size: int, little: bool, n: nat)
    ensures mem(at) > size ==> ParseEndpoint(mem, at, size, little) == Failed(-1)
    ensures mem(at) <= size && mem(at + 1) != 5
            ==> ParseEndpoint(mem, at, size, little) == Parsed(Endpoint(0, 0, 0, 0, 0, 0, 0, 0, []), 0)
    ensures 7 <= mem(at) <= size && mem(at + 1) == 5
            && Records(mem, at + mem(at), size - mem(at), false, n)
            && Stops(mem, at + mem(at) + n, size - mem(at) - n, false)
            ==> ParseEndpoint(mem, at, size, little)
                == Parsed(Endpoint(mem(at), 5, mem(at + 2), mem(at + 3), Field16(mem, at + 4, little), mem(at + 6),
                                   if mem(at) >= 9 then mem(at + 7) else 0, if mem(at) >= 9 then mem(at + 8) else 0,
                                   Bytes(mem, at + mem(at), n)),
                          mem(at) + n)
    ensures mem(at) < 7 && mem(at) <= size && mem(at + 1) == 5
            && Records(mem, at + mem(at), size - mem(at), false, n)
            && Stops(mem, at + mem(at) + n, size - mem(at) - n, false)
            ==> ParseEndpoint(mem, at, size, little)
                == Parsed(Endpoint(0, 0, 0, 0, 0, 0, 0, 0, Bytes(mem, at + mem(at), n)), mem(at) + n)
  {
    hide SkipExtra, Records, Stops;
    ExtrasInNumbers(mem, at + mem(at), size - mem(at), false, n);
  }

  lemma {:induction false} ManyGivesAll<T>(p: Parser<T>, at: nat, size: int, n: nat)
    ensures Many(p, at, size, n).Parsed? ==> |Many(p, at, size, n).value| == n
    decreases n
  {
    if n > 0 && p(at, size).Parsed? {
      ManyGivesAll(p, at + p(at, size).length, size - p(at, size).length, n - 1);
    }
  }

  /**
   A setting's fields are its nine bytes. Behind its `n` bytes of extras a configuration or device
   descriptor ends it without endpoints; else it has as many as byte 4 says, 32 at most.
   */
  lemma SettingInNumbers(mem: Memory, at: nat, size: int, little: bool, n: nat)
    requires Records(mem, at + mem(at), size - mem(at), false, n)
    requires Stops(mem, at + mem(at) + n, size - mem(at) - n, false)
    ensures var r, foreign := ParseAlt(mem, at, size, little),
                size - mem(at) - n >= 2 && mem(at + mem(at) + n + 1) in {1, 2};
      && (r.Parsed? ==> r.value == AltSetting(
            mem(at), mem(at + 1), mem(at + 2), mem(at + 3), mem(at + 4), mem(at + 5), mem(at + 6), mem(at + 7),
            mem(at + 8), Bytes(mem, at + mem(at), n), r.value.endpoints))
      && (r.Parsed? ==> |r.value.endpoints| == if foreign then 0 else mem(at + 4))
      && (!foreign && mem(at + 4) > 32 ==> r == Failed(-1))
      && (!foreign && mem(at + 4) <= 32
          ==> var es := Many(EndpointParser(mem, little), at + mem(at) + n, size - mem(at) - n, mem(at + 4));
              (r.Parsed? <==> es.Parsed?) && (r.Parsed? ==> r.value.endpoints == es.value))
      && (foreign || mem(at + 4) == 0 ==> r.Parsed? && r.length == mem(at) + n)
  {
    hide SkipExtra, Records, Stops, EndpointParser;
    ExtrasInNumbers(mem, at + mem(at), size - mem(at), false, n);
    ManyGivesAll(EndpointParser(mem, little), at + mem(at) + n, size - mem(at) - n, mem(at + 4));
  }

  /** Another setting of the same interface: nine bytes left, type 4, and not number 0. */
  lemma AlternatesInNumbers(mem: Memory, at: nat, size: int, little: bool)
    ensures AlternateFollows(mem, at, size) <==> size >= 9 && mem(at + 1) == 4 && mem(at + 3) != 0
    ensures size < 9 ==> ParseInterface(mem, at, size, little) == Parsed([], 0)
  {
  }

  lemma InterfacesKeepCount(found: seq<(seq<byte>, Interface)>)
    ensures |Interfaces(found)| == |found|
  {
  }

  /** The extra bytes in front of the first interface that has any. */
  ghost predicate FirstNonEmpty(found: seq<(seq<byte>, Interface)>, extra: seq<byte>) {
    if extra == [] then forall i :: 0 <= i < |found| ==> found[i].0 == []
    else exists i :: 0 <= i < |found| && found[i].0 == extra && forall j :: 0 <= j < i ==> found[j].0 == []
  }

  lemma {:induction false} FirstExtraIsFirst(found: seq<(seq<byte>, Interface)>)
    ensures FirstNonEmpty(found, FirstExtra(found))
    decreases |found|
  {
    if found != [] && found[0].0 == [] {
      FirstExtraIsFirst(found[1..]);
      if FirstExtra(found) != [] {
        var i :| 0 <= i < |found[1..]| && found[1..][i].0 == FirstExtra(found)
                 && forall j :: 0 <= j < i ==> found[1..][j].0 == [];
        assert forall j :: 0 < j < i + 1 ==> found[j] == found[1..][j - 1];
        assert found[i + 1].0 == FirstExtra(found);
      } else {
        assert forall j :: 0 < j < |found| ==> found[j] == found[1..][j - 1];
      }
    }
  }

  /** A configuration's fields are its bytes, and it has as many interfaces as byte 4 says, 32 at most. */
  lemma ConfigurationInNumbers(mem: Memory, at: nat, little: bool)
    ensures var r := ParseConfiguration(mem, at, little);
      && (mem(at + 4) > 32 ==> r == Failed(-1))
      && (mem(at + 4) <= 32
          ==> var all := Many(InterfaceParser(mem, little), at + mem(at),
                             Field16(mem, at + 2, little) - mem(at), mem(at + 4));
              (r.Parsed? <==> all.Parsed?)
              && (r.Parsed? ==> r.value.interfaces == Interfaces(all.value) && FirstNonEmpty(all.value, r.value.extra)))
      && (r.Parsed? ==> r.value == Config(
            mem(at), mem(at + 1), Field16(mem, at + 2, little), mem(at + 4), mem(at + 5), mem(at + 6), mem(at + 7),
            mem(at + 8), r.value.extra, r.value.interfaces))
      && (r.Parsed? ==> |r.value.interfaces| == mem(at + 4))
  {
    hide InterfaceParser, FirstExtra, Interfaces;
    var config := ConfigFields(mem, at, little);
    var all := Many(InterfaceParser(mem, little), at + mem(at), config.wTotalLength - mem(at), mem(at + 4));
    ManyGivesAll(InterfaceParser(mem, little), at + mem(at), config.wTotalLength - mem(at), mem(at + 4));
    if all.Parsed? {
      InterfacesKeepCount(all.value);
      FirstExtraIsFirst(all.value);
    }
  }

  /** The trees that survive the round trip are those of the specification's tables. */
  lemma TreesInNumbers(c: Config, i: nat, j: nat, k: nat, little: bool)
    requires WellFormed(c, little)
    ensures c.bLength == 9 && c.bDescriptorType == 2 && |c.interfaces| == c.bNumInterfaces <= 32
    ensures i < |c.interfaces| && j < |c.interfaces[i]|
            ==> var a := c.interfaces[i][j];
                && a.bLength == 9 && a.bDescriptorType == 4 && |a.endpoints| == a.bNumEndpoints <= 32
                && (a.bAlternateSetting == 0 <==> j == 0)
                && (k < |a.endpoints| ==> a.endpoints[k].bDescriptorType == 5 && a.endpoints[k].bLength in {7, 9})
  {
    hide PrintConfig;
    if i < |c.interfaces| && j < |c.interfaces[i]| {
      InterfaceOf(c.interfaces, i);
      SettingOf(c.interfaces[i], j);
      if j > 0 { NumberOf(c.interfaces[i][1..], j - 1); }
      if k < |c.interfaces[i][j].endpoints| { EndpointOf(c.interfaces[i][j].endpoints, k); }
    }
  }

  lemma {:induction false} InterfaceOf(interfaces: seq<Interface>, i: nat)
    requires WellFormedInterfaces(interfaces) && i < |interfaces|
    ensures WellFormedInterface(interfaces[i])
    decreases i
  {
    if i > 0 { InterfaceOf(interfaces[1..], i - 1); }
  }

  lemma {:induction false} SettingOf(alts: seq<AltSetting>, i: nat)
    requires WellFormedAlts(alts) && i < |alts|
    ensures WellFormedAlt(alts[i])
    decreases i
  {
    if i > 0 { SettingOf(alts[1..], i - 1); }
  }

  lemma {:induction false} NumberOf(alts: seq<AltSetting>, i: nat)
    requires Numbered(alts) && i < |alts|
    ensures alts[i].bAlternateSetting != 0
    decreases i
  {
    if i > 0 { NumberOf(alts[1..], i - 1); }
  }

  lemma {:induction false} EndpointOf(es: seq<Endpoint>, i: nat)
    requires WellFormedEndpoints(es) && i < |es|
    ensures WellFormedEndpoint(es[i])
    decreases i
  {
    if i > 0 { EndpointOf(es[1..], i - 1); }
  }
}
