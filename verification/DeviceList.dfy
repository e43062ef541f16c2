/**
 The same calls on device objects: counts changed in place, the context's list, the growing
 array of discovered devices, and handles. Each is proved to do what `DeviceRefs` says.
 */
module DeviceList {
  import opened DeviceRefs
  import opened Usbfs

  const DISCOVERED_DEVICES_SIZE_STEP := 8

  class Device {
    ghost const id: nat
    const session: nat
    var refcnt: int

    constructor (ghost id: nat, session: nat)
      ensures this.id == id && this.session == session && refcnt == 1
    {
      this.id, this.session, refcnt := id, session, 1;
    }

    ghost function AsDev(): Dev
      reads this`refcnt
    {
      Dev(id, session, refcnt)
    }
  }

  class Handle {
    const dev: Device

    constructor (dev: Device)
      ensures this.dev == dev
    {
      this.dev := dev;
    }
  }

  ghost function View(s: seq<Device>): (r: seq<Dev>)
    reads s`refcnt
    ensures |r| == |s|
    ensures forall i :: 0 <= i < |s| ==> r[i] == s[i].AsDev()
  {
    if s == [] then [] else [s[0].AsDev()] + View(s[1..])
  }

  ghost function Ids(s: seq<Device>): (r: seq<nat>)
    ensures |r| == |s|
    ensures forall i :: 0 <= i < |s| ==> r[i] == s[i].id
  {
    if s == [] then [] else [s[0].id] + Ids(s[1..])
  }

  ghost function DevIds(s: seq<Handle>): (r: seq<nat>)
    ensures |r| == |s|
    ensures forall i :: 0 <= i < |s| ==> r[i] == s[i].dev.id
  {
    if s == [] then [] else [s[0].dev.id] + DevIds(s[1..])
  }

  /** Devices are numbered in the order in which they were allocated. */
  ghost predicate Registered(all: seq<Device>, sessions: seq<nat>) {
    |all| == |sessions| && forall i :: 0 <= i < |all| ==> all[i].id == i && all[i].session == sessions[i]
  }

  /** Each open handle has a reference of its own, to a device of the context. */
  ghost predicate HandlesCount(openDevs: seq<Handle>, all: seq<Device>, held: multiset<nat>) {
    multiset(DevIds(openDevs)) <= held
    && forall k :: 0 <= k < |openDevs| ==> openDevs[k].dev.id < |all| && all[openDevs[k].dev.id] == openDevs[k].dev
  }

  /** These references are not those of open handles. */
  ghost predicate Owned(openDevs: seq<Handle>, held: multiset<nat>, ids: multiset<nat>) {
    multiset(DevIds(openDevs)) + ids <= held
  }

  lemma MoreStillCount(openDevs: seq<Handle>, all: seq<Device>, held: multiset<nat>, more: seq<Device>,
                       ids: multiset<nat>)
    requires HandlesCount(openDevs, all, held) && all <= more
    ensures HandlesCount(openDevs, more, held + ids) && Owned(openDevs, held + ids, ids)
  {
  }

  /** A reference that is not a handle's can be given up. */
  lemma OwnersMayRelease(openDevs: seq<Handle>, all: seq<Device>, held: multiset<nat>, id: nat)
    requires HandlesCount(openDevs, all, held) && Owned(openDevs, held, multiset{id})
    ensures HandlesCount(openDevs, all, held - multiset{id}) && id in held
  {
  }

  lemma OwnsTheRest(openDevs: seq<Handle>, all: seq<Device>, others: multiset<nat>, ids: seq<nat>, i: nat)
    requires HandlesCount(openDevs, all, others) && i < |ids|
    ensures Owned(openDevs, others + multiset(ids[i..]), multiset{ids[i]})
  {
    assert ids[i..] == [ids[i]] + ids[i + 1..];
  }

  lemma OwnersMayReleaseAll(openDevs: seq<Handle>, all: seq<Device>, held: multiset<nat>, ids: multiset<nat>)
    requires HandlesCount(openDevs, all, held) && Owned(openDevs, held, ids)
    ensures HandlesCount(openDevs, all, held - ids) && held == held - ids + ids
  {
  }

  lemma HandleComes(openDevs: seq<Handle>, all: seq<Device>, held: multiset<nat>, handle: Handle)
    requires HandlesCount(openDevs, all, held) && handle.dev.id < |all| && all[handle.dev.id] == handle.dev
    ensures HandlesCount([handle] + openDevs, all, held + multiset{handle.dev.id})
  {
    assert DevIds([handle] + openDevs) == [handle.dev.id] + DevIds(openDevs);
  }

  lemma OneOut(ids: seq<nat>, k: nat)
    requires k < |ids|
    ensures multiset(ids) == multiset(ids[..k] + ids[k + 1..]) + multiset{ids[k]}
  {
    assert ids == ids[..k] + [ids[k]] + ids[k + 1..];
  }

  /** A handle that goes leaves its reference to be given up. */
  lemma HandleGoes(openDevs: seq<Handle>, all: seq<Device>, held: multiset<nat>, k: nat)
    requires HandlesCount(openDevs, all, held) && k < |openDevs|
    ensures var rest, dev := openDevs[..k] + openDevs[k + 1..], openDevs[k].dev;
      HandlesCount(rest, all, held) && Owned(rest, held, multiset{dev.id}) && dev.id < |all| && all[dev.id] == dev
  {
    hide DevIds;
    var rest, ids := openDevs[..k] + openDevs[k + 1..], DevIds(openDevs);
    assert DevIds(rest) == ids[..k] + ids[k + 1..];
    OneOut(ids, k);
    forall i | 0 <= i < |rest| ensures rest[i] == openDevs[if i < k then i else i + 1] {
    }
  }

  /** `dev` taken off the list. */
  function Without(s: seq<Device>, dev: Device): seq<Device> {
    if s == [] then [] else if s[0] == dev then s[1..] else [s[0]] + Without(s[1..], dev)
  }

  // ---------------------------------------------------------------- discovered devices

  class DiscoveredDevs {
    var len: nat
    var devices: array<Device?>

    ghost predicate Valid()
      reads this, devices
    {
      len <= devices.Length && forall i :: 0 <= i < len ==> devices[i] != null
    }

    function Entries(): seq<Device>
      requires Valid()
      reads this, devices
    {
      seq(len, i requires 0 <= i < len && Valid() reads this, devices => devices[i] as Device)
    }

    constructor ()
      ensures Valid() && Entries() == [] && fresh(devices)
    {
      len := 0;
      devices := new Device?[DISCOVERED_DEVICES_SIZE_STEP];
    }

    /** Grows by eight places when full; what was discovered stays. */
    method Append(dev: Device)
      requires Valid()
      modifies this, devices
      ensures Valid() && Entries() == old(Entries()) + [dev]
      ensures devices == old(devices) || fresh(devices)
    {
      ghost var entries := Entries();
      if len < devices.Length {
        devices[len] := dev;
        len := len + 1;
        assert Entries() == entries + [dev];
        return;
      }
      var bigger := new Device?[devices.Length + DISCOVERED_DEVICES_SIZE_STEP];
      for i := 0 to len
        modifies bigger
        invariant forall j :: 0 <= j < i ==> bigger[j] == devices[j]
      {
        bigger[i] := devices[i];
      }
      devices := bigger;
      devices[len] := dev;
      len := len + 1;
      assert Entries() == entries + [dev];
    }
  }

  // ---------------------------------------------------------------- the context

  class Context {
    var usbDevs: seq<Device>      // newest first
    var openDevs: seq<Handle>
    ghost var all: seq<Device>    // every device ever allocated
    ghost var sessions: seq<nat>
    ghost var held: multiset<nat> // every reference anywhere, those of the handles too

    constructor ()
      ensures Valid() && Pool() == DeviceRefs.Pool([], []) && held == multiset{} && openDevs == []
    {
      usbDevs, openDevs, all, sessions, held := [], [], [], [], multiset{};
    }

    ghost function Pool(): DeviceRefs.Pool
      reads this, usbDevs`refcnt
    {
      DeviceRefs.Pool(View(usbDevs), sessions)
    }

    /** The device is one of this context's. */
    ghost predicate Mine(dev: Device)
      reads this
    {
      dev.id < |all| && all[dev.id] == dev
    }

    /** A pointer that may be used: there is a reference to it. */
    ghost predicate Usable(dev: Device)
      reads this
    {
      Mine(dev) && dev.id in held
    }

    ghost predicate Valid()
      reads this, usbDevs`refcnt
    {
      && Registered(all, sessions) && (forall k :: 0 <= k < |usbDevs| ==> Mine(usbDevs[k]))
      && Consistent(Pool(), held) && HandlesCount(openDevs, all, held)
    }

    /** Where a usable device is on the list; its id is nowhere else. */
    lemma PlaceOf(dev: Device) returns (k: nat)
      requires Valid() && Usable(dev)
      ensures k < |usbDevs| && usbDevs[k] == dev
      ensures forall i :: 0 <= i < |usbDevs| && i != k ==> usbDevs[i].id != dev.id
    {
      hide Live, View, Unique;
      LiveMeans(sessions, held);
      assert Listed(View(usbDevs), dev.id);
      var j :| 0 <= j < |usbDevs| && View(usbDevs)[j].id == dev.id;
      assert usbDevs[j].AsDev() == View(usbDevs)[j] && Mine(usbDevs[j]);
      k := j;
      forall i | 0 <= i < |usbDevs| && i != k ensures usbDevs[i].id != dev.id {
        assert View(usbDevs)[i].id != View(usbDevs)[k].id;
      }
    }

    method RefDevice(dev: Device)
      requires Valid() && Usable(dev)
      modifies dev`refcnt, this`held
      ensures Valid() && Pool() == old(Pool()).(devs := Ref(old(Pool()).devs, dev.id))
      ensures held == old(held) + multiset{dev.id} && Owned(openDevs, held, multiset{dev.id})
    {
      hide View, Consistent, Ref, HandlesCount, Owned, Registered;
      ghost var k := PlaceOf(dev);
      ghost var q := View(usbDevs);
      MoreStillCount(openDevs, all, held, all, multiset{dev.id});
      RefKeeps(Pool(), held, dev.id);
      RefAt(q, k);
      dev.refcnt := dev.refcnt + 1;
      held := held + multiset{dev.id};
      assert View(usbDevs) == q[k := q[k].(refcnt := q[k].refcnt + 1)];
    }

    /** The last reference takes the device off the list. */
    method UnrefDevice(dev: Device)
      requires Valid() && Mine(dev) && Owned(openDevs, held, multiset{dev.id})
      modifies dev`refcnt, this`held, this`usbDevs
      ensures Valid() && Pool() == old(Pool()).(devs := Unref(old(Pool()).devs, dev.id))
      ensures held == old(held) - multiset{dev.id}
    {
      hide View, Consistent, Unref, Without, HandlesCount, Owned, Registered;
      OwnersMayRelease(openDevs, all, held, dev.id);
      ghost var k := PlaceOf(dev);
      ghost var q := View(usbDevs);
      UnrefKeeps(Pool(), held, dev.id);
      UnrefAt(q, k);
      WithoutAt(usbDevs, k);
      dev.refcnt := dev.refcnt - 1;
      held := held - multiset{dev.id};
      if dev.refcnt == 0 {
        usbDevs := Without(usbDevs, dev);
        assert View(usbDevs) == q[..k] + q[k + 1..];
      } else {
        assert View(usbDevs) == q[k := q[k].(refcnt := q[k].refcnt - 1)];
      }
    }

    /** The new device has one reference, its caller's. */
    method AllocDevice(session: nat) returns (dev: Device)
      requires Valid() && Find(View(usbDevs), session) == []
      modifies this`usbDevs, this`all, this`sessions, this`held
      ensures Valid() && fresh(dev) && Usable(dev) && dev.id == |old(sessions)|
      ensures Pool() == Alloc(old(Pool()), session) && all == old(all) + [dev]
      ensures held == old(held) + multiset{dev.id} && Owned(openDevs, held, multiset{dev.id})
    {
      hide View, Consistent, Find, HandlesCount, Owned;
      ghost var q := View(usbDevs);
      AllocKeeps(Pool(), held, session);
      dev := new Device(|sessions|, session);
      MoreStillCount(openDevs, all, held, all + [dev], multiset{|sessions|});
      held := held + multiset{|sessions|};
      all, sessions := all + [dev], sessions + [session];
      usbDevs := [dev] + usbDevs;
      assert View(usbDevs) == [dev.AsDev()] + q;
    }

    method GetDeviceBySessionId(session: nat) returns (ret: Device?)
      requires Valid()
      ensures ret == null <==> Find(View(usbDevs), session) == []
      ensures ret != null ==> Usable(ret) && Find(View(usbDevs), session) == [ret.id] && ret.session == session
    {
      hide HandlesCount, Owned, Registered, Consistent, View;
      ret := null;
      ghost var q := View(usbDevs);
      for i := 0 to |usbDevs|
        invariant Find(q, session) == Find(q[i..], session)
      {
        assert q[i..][0] == usbDevs[i].AsDev() && q[i..][1..] == q[i + 1..];
        if usbDevs[i].session == session {
          FoundIsHeld(Pool(), held, session);
          return usbDevs[i];
        }
      }
    }

    /** The references of the discovery list. */
    ghost predicate Discovers(discovered: DiscoveredDevs)
      reads this, discovered, discovered.devices
    {
      discovered.Valid() && forall i :: 0 <= i < discovered.len ==> Mine(discovered.Entries()[i])
    }

    method Discover(discovered: DiscoveredDevs, dev: Device)
      requires Valid() && Discovers(discovered) && Usable(dev)
      modifies dev`refcnt, this`held, discovered, discovered.devices
      ensures Valid() && Discovers(discovered) && discovered.Entries() == old(discovered.Entries()) + [dev]
      ensures discovered.devices == old(discovered.devices) || fresh(discovered.devices)
      ensures Pool() == old(Pool()).(devs := Ref(old(Pool()).devs, dev.id))
      ensures held == old(held) + multiset{dev.id} && Owned(openDevs, held, multiset{dev.id})
    {
      hide HandlesCount, Owned, Registered, Consistent, View, Ref;
      RefDevice(dev);
      discovered.Append(dev);
    }

    /** The caller's own reference goes to the discovery list, or is given up. */
    method HandOver(discovered: DiscoveredDevs, dev: Device, answer: int)
      requires Valid() && Discovers(discovered) && Usable(dev) && Owned(openDevs, held, multiset{dev.id})
      modifies dev`refcnt, this`held, this`usbDevs, discovered, discovered.devices
      ensures Valid() && Discovers(discovered)
      ensures discovered.devices == old(discovered.devices) || fresh(discovered.devices)
      ensures discovered.Entries() == if answer >= 0 then old(discovered.Entries()) + [dev] else old(discovered.Entries())
      ensures held == if answer >= 0 then old(held) else old(held) - multiset{dev.id}
      ensures var q := old(Pool());
        Pool() == q.(devs := if answer >= 0 then Unref(Ref(q.devs, dev.id), dev.id) else Unref(q.devs, dev.id))
    {
      hide HandlesCount, Owned, Registered, Consistent, View, Ref, Unref;
      AddedAndTaken(held, dev.id);
      if answer >= 0 {
        Discover(discovered, dev);
      }
      UnrefDevice(dev);
    }

    /** A new device that cannot be read is dropped again; otherwise the list alone keeps it. */
    method DiscoverNew(discovered: DiscoveredDevs, session: nat, answer: int) returns (code: int, ghost dev: Device)
      requires Valid() && Discovers(discovered) && Find(View(usbDevs), session) == []
      modifies this, discovered, discovered.devices
      ensures Valid() && Discovers(discovered) && all == old(all) + [dev] && openDevs == old(openDevs) && fresh(dev)
      ensures discovered.devices == old(discovered.devices) || fresh(discovered.devices)
      ensures code == (if answer < 0 then answer else 0) && dev.id == |old(sessions)|
      ensures discovered.Entries() == if code >= 0 then old(discovered.Entries()) + [dev] else old(discovered.Entries())
      ensures held == if code >= 0 then old(held) + multiset{dev.id} else old(held)
      ensures var q := Alloc(old(Pool()), session);
        Pool() == q.(devs := if code >= 0 then Unref(Ref(q.devs, dev.id), dev.id) else Unref(q.devs, dev.id))
    {
      hide HandlesCount, Owned, Registered, Consistent, View, Find, Ref, Unref;
      var it := AllocDevice(session);
      dev := it;
      AddedAndTaken(old(held), it.id);
      HandOver(discovered, it, answer);
      code := if answer < 0 then answer else 0;
    }

    /** A known device is shared. */
    method EnumerateDevice(discovered: DiscoveredDevs, session: nat, answer: int)
      returns (code: int, ghost dev: Device)
      requires Valid() && Discovers(discovered)
      modifies this, all`refcnt, discovered, discovered.devices
      ensures Valid() && Discovers(discovered) && old(all) <= all && openDevs == old(openDevs)
      ensures discovered.devices == old(discovered.devices) || fresh(discovered.devices)
      ensures forall i :: |old(all)| <= i < |all| ==> fresh(all[i])
      ensures discovered.Entries() == if code >= 0 then old(discovered.Entries()) + [dev] else old(discovered.Entries())
      ensures held == if code >= 0 then old(held) + multiset{dev.id} else old(held)
      ensures Enumerate(old(Pool()), Ids(old(discovered.Entries())), session, answer)
              == Scanned(Pool(), if code >= 0 then Ids(old(discovered.Entries())) + [dev.id] else Ids(old(discovered.Entries())), code)
    {
      hide HandlesCount, Owned, Registered, Consistent, View, Find, Ref, Unref, Ids;
      var known := GetDeviceBySessionId(session);
      if known != null {
        dev := known;
        Discover(discovered, known);
        code := 0;
      } else {
        code, dev := DiscoverNew(discovered, session, answer);
      }
    }

    // -------------------------------------------------------------- lists of devices

    method RefEach(list: seq<Device>, ghost others: multiset<nat>)
      requires Valid() && held == others + multiset(Ids(list)) && forall i :: 0 <= i < |list| ==> Mine(list[i])
      modifies this`held, all`refcnt
      ensures Valid() && Pool() == old(Pool()).(devs := RefAll(old(Pool()).devs, Ids(list)))
      ensures held == old(held) + multiset(Ids(list))
    {
      hide HandlesCount, Owned, Registered, Consistent, View, Ref, Ids;
      ghost var ids, base := Ids(list), held;
      AddNone(base, ids);
      for i := 0 to |list|
        invariant Valid() && held == base + multiset(ids[..i])
        invariant RefAll(old(Pool()).devs, ids) == RefAll(View(usbDevs), ids[i..])
      {
        StillHeld(others, ids, i);
        AddNext(base, ids, i);
        RefDevice(list[i]);
      }
    }

    /** The references are given up one by one; devices may go on the way. */
    method UnrefEach(list: seq<Device>, ghost others: multiset<nat>)
      requires Valid() && HandlesCount(openDevs, all, others)
      requires held == others + multiset(Ids(list)) && forall i :: 0 <= i < |list| ==> Mine(list[i])
      modifies this`held, this`usbDevs, all`refcnt
      ensures Valid() && Pool() == old(Pool()).(devs := UnrefAll(old(Pool()).devs, Ids(list)))
      ensures held == others
    {
      hide HandlesCount, Owned, Registered, Consistent, View, Unref, Ids;
      ghost var ids := Ids(list);
      ManyAddedAndTaken(others, ids);
      assert ids[0..] == ids;
      for i := 0 to |list|
        invariant Valid() && held == others + multiset(ids[i..])
        invariant UnrefAll(old(Pool()).devs, ids) == UnrefAll(View(usbDevs), ids[i..])
      {
        TakeOne(others, ids, i);
        OwnsTheRest(openDevs, all, others, ids, i);
        UnrefDevice(list[i]);
      }
    }

    method ScanOne(found: Found, discovered: DiscoveredDevs, ghost others: multiset<nat>) returns (code: int)
      requires Valid() && Discovers(discovered) && held == others + multiset(Ids(discovered.Entries()))
      modifies this, all`refcnt, discovered, discovered.devices
      ensures Valid() && Discovers(discovered) && old(all) <= all && openDevs == old(openDevs)
      ensures forall i :: |old(all)| <= i < |all| ==> fresh(all[i])
      ensures discovered.devices == old(discovered.devices) || fresh(discovered.devices)
      ensures DeviceRefs.ScanOne(old(Pool()), Ids(old(discovered.Entries())), found)
              == Scanned(Pool(), Ids(discovered.Entries()), code)
      ensures held == others + multiset(Ids(discovered.Entries()))
    {
      hide HandlesCount, Owned, Registered, Consistent, View, Enumerate, Ids;
      ghost var before := discovered.Entries();
      if found.bus > 255 || found.address > 255 {
        return LIBUSB_ERROR_INVALID_PARAM;
      }
      ghost var dev;
      code, dev := EnumerateDevice(discovered, SessionId(found.bus, found.address), found.answer);
      OneMoreId(before, dev, others);
    }

    /** Ends at the first device that fails. */
    method ScanDevices(found: seq<Found>, discovered: DiscoveredDevs) returns (code: int)
      requires Valid() && Discovers(discovered) && discovered.Entries() == []
      modifies this, all`refcnt, discovered, discovered.devices
      ensures Valid() && Discovers(discovered) && old(all) <= all && openDevs == old(openDevs)
      ensures forall i :: |old(all)| <= i < |all| ==> fresh(all[i])
      ensures Scan(old(Pool()), [], found) == Scanned(Pool(), Ids(discovered.Entries()), code)
      ensures held == old(held) + multiset(Ids(discovered.Entries()))
    {
      hide HandlesCount, Owned, Registered, Consistent, View, DeviceRefs.ScanOne, Ids;
      assert Ids(discovered.Entries()) == [] && found[0..] == found;
      ManyAddedAndTaken(held, []);
      for i := 0 to |found|
        invariant Valid() && Discovers(discovered) && old(all) <= all && openDevs == old(openDevs)
        invariant forall j :: |old(all)| <= j < |all| ==> fresh(all[j])
        invariant discovered.devices == old(discovered.devices) || fresh(discovered.devices)
        invariant Scan(old(Pool()), [], found) == Scan(Pool(), Ids(discovered.Entries()), found[i..])
        invariant held == old(held) + multiset(Ids(discovered.Entries()))
      {
        assert found[i..][0] == found[i] && found[i..][1..] == found[i + 1..];
        var one := ScanOne(found[i], discovered, old(held));
        if one < 0 {
          return one;
        }
      }
      code := 0;
    }

    /** The discovered devices are referenced again for the caller's list, then the discovery list goes. */
    method GetDeviceList(found: seq<Found>) returns (len: int, list: seq<Device>)
      requires Valid()
      modifies this, all`refcnt
      ensures Valid() && old(all) <= all && openDevs == old(openDevs)
      ensures GetList(old(Pool()), found) == Scanned(Pool(), Ids(list), if len < 0 then len else 0)
      ensures held == old(held) + multiset(Ids(list))
      ensures len >= 0 ==> len == |list| && forall i :: 0 <= i < |list| ==> Usable(list[i])
    {
      hide HandlesCount, Owned, Registered, Consistent, View, Ids, Scan, RefAll, UnrefAll;
      ghost var base, known := held, all;
      var discovered := new DiscoveredDevs();
      var code := ScanDevices(found, discovered);
      var devs := discovered.Entries();
      MoreStillCount(openDevs, known, base, all, multiset{});
      assert base + multiset{} == base;
      if code < 0 {
        UnrefEach(devs, base);
        AddNone(base, Ids(devs));
        return code, [];
      }
      RefEach(devs, base);
      MoreStillCount(openDevs, all, base, all, multiset(Ids(devs)));
      UnrefEach(devs, base + multiset(Ids(devs)));
      AllUsable(devs, base);
      return |devs|, devs;
    }

    lemma AllUsable(devs: seq<Device>, others: multiset<nat>)
      requires Valid() && held == others + multiset(Ids(devs)) && forall i :: 0 <= i < |devs| ==> Mine(devs[i])
      ensures forall i :: 0 <= i < |devs| ==> Usable(devs[i])
    {
      forall i | 0 <= i < |devs| ensures devs[i].id in held {
        assert Ids(devs)[i] in multiset(Ids(devs));
      }
    }

    /** Optionally gives up the list's references. */
    method FreeDeviceList(list: seq<Device>, unrefDevices: bool)
      requires Valid() && forall i :: 0 <= i < |list| ==> Mine(list[i])
      requires unrefDevices ==> Owned(openDevs, held, multiset(Ids(list)))
      modifies this`held, this`usbDevs, all`refcnt
      ensures Valid()
      ensures Pool() == if unrefDevices then old(Pool()).(devs := UnrefAll(old(Pool()).devs, Ids(list))) else old(Pool())
      ensures held == if unrefDevices then old(held) - multiset(Ids(list)) else old(held)
    {
      hide HandlesCount, Owned, Registered, Consistent, View, Ids, UnrefAll;
      if unrefDevices {
        OwnersMayReleaseAll(openDevs, all, held, multiset(Ids(list)));
        UnrefEach(list, held - multiset(Ids(list)));
      }
    }

    // -------------------------------------------------------------- handles

    /** The handle holds a reference; a device that cannot be opened gets it back. */
    method Open(dev: Device, success: bool) returns (handle: Handle?)
      requires Valid() && Usable(dev)
      modifies dev`refcnt, this`held, this`usbDevs, this`openDevs
      ensures Valid() && (handle == null <==> !success)
      ensures handle != null ==> fresh(handle) && handle.dev == dev && openDevs == [handle] + old(openDevs)
      ensures handle != null ==> held == old(held) + multiset{dev.id}
      ensures handle != null ==> Pool() == old(Pool()).(devs := Ref(old(Pool()).devs, dev.id))
      ensures handle == null ==> Pool() == old(Pool()) && held == old(held) && openDevs == old(openDevs)
    {
      hide HandlesCount, Owned, Registered, Consistent, View, Ref, Unref;
      AddedAndTaken(held, dev.id);
      RefThenUnref(Pool(), held, dev.id);
      RefDevice(dev);
      if !success {
        UnrefDevice(dev);
        return null;
      }
      handle := new Handle(dev);
      HandleComes(openDevs, all, old(held), handle);
      openDevs := [handle] + openDevs;
    }

    /** Closing takes the handle off the list and gives up its reference. */
    method Close(handle: Handle)
      requires Valid() && handle in openDevs
      modifies handle.dev`refcnt, this`held, this`usbDevs, this`openDevs
      ensures Valid() && Pool() == old(Pool()).(devs := Unref(old(Pool()).devs, handle.dev.id))
      ensures held == old(held) - multiset{handle.dev.id}
      ensures multiset(openDevs) == multiset(old(openDevs)) - multiset{handle}
    {
      hide HandlesCount, Owned, Registered, Consistent, View, Unref;
      var k :| 0 <= k < |openDevs| && openDevs[k] == handle;
      assert openDevs == openDevs[..k] + [handle] + openDevs[k + 1..];
      HandleGoes(openDevs, all, held, k);
      openDevs := openDevs[..k] + openDevs[k + 1..];
      UnrefDevice(handle.dev);
    }
  }

  /** A reference taken and given back leaves the list as it was. */
  lemma RefThenUnref(p: DeviceRefs.Pool, held: multiset<nat>, id: nat)
    requires Consistent(p, held) && id in held
    ensures Unref(Ref(p.devs, id), id) == p.devs
  {
    hide Live;
    RefIsLive(p.sessions, held, id);
    UnrefIsLive(p.sessions, held + multiset{id}, id);
    AddedAndTaken(held, id);
  }

  lemma OneMoreId(entries: seq<Device>, dev: Device, others: multiset<nat>)
    ensures Ids(entries + [dev]) == Ids(entries) + [dev.id]
    ensures others + multiset(Ids(entries + [dev])) == others + multiset(Ids(entries)) + multiset{dev.id}
  {
    hide Ids;
    assert Ids(entries + [dev]) == Ids(entries) + [dev.id];
    AddOne(others, Ids(entries), dev.id);
  }

  lemma StillHeld(others: multiset<nat>, ids: seq<nat>, i: nat)
    requires i < |ids|
    ensures ids[i] in others + multiset(ids) + multiset(ids[..i])
  {
    assert ids[i] in multiset(ids);
  }

  lemma AddNext(others: multiset<nat>, ids: seq<nat>, i: nat)
    requires i < |ids|
    ensures ids[i..][0] == ids[i] && ids[i..][1..] == ids[i + 1..]
    ensures others + multiset(ids[..i + 1]) == others + multiset(ids[..i]) + multiset{ids[i]}
  {
    assert ids[..i + 1] == ids[..i] + [ids[i]];
  }

  lemma AddNone(others: multiset<nat>, ids: seq<nat>)
    ensures others + multiset(ids[..0]) == others && ids[..|ids|] == ids && ids[0..] == ids
  {
  }

  lemma TakeOne(others: multiset<nat>, ids: seq<nat>, i: nat)
    requires i < |ids|
    ensures ids[i..][0] == ids[i] && ids[i..][1..] == ids[i + 1..] && ids[i] in others + multiset(ids[i..])
    ensures others + multiset(ids[i..]) - multiset{ids[i]} == others + multiset(ids[i + 1..])
  {
    assert ids[i..] == [ids[i]] + ids[i + 1..];
  }

  ghost predicate OnlyAt(q: seq<Dev>, k: nat)
  {
    k < |q| && forall i :: 0 <= i < |q| && i != k ==> q[i].id != q[k].id
  }

  lemma {:induction false} RefAt(q: seq<Dev>, k: nat)
    requires OnlyAt(q, k)
    ensures Ref(q, q[k].id) == q[k := q[k].(refcnt := q[k].refcnt + 1)]
    decreases k
  {
    if k > 0 {
      RefAt(q[1..], k - 1);
    }
  }

  lemma {:induction false} UnrefAt(q: seq<Dev>, k: nat)
    requires OnlyAt(q, k)
    ensures Unref(q, q[k].id) == if q[k].refcnt == 1 then q[..k] + q[k + 1..]
                                 else q[k := q[k].(refcnt := q[k].refcnt - 1)]
    decreases k
  {
    if k > 0 {
      UnrefAt(q[1..], k - 1);
      assert q[..k] == [q[0]] + q[1..][..k - 1] && q[k + 1..] == q[1..][k..];
    }
  }

  lemma {:induction false} WithoutAt(s: seq<Device>, k: nat)
    requires k < |s| && forall i :: 0 <= i < k ==> s[i] != s[k]
    ensures Without(s, s[k]) == s[..k] + s[k + 1..]
    decreases k
  {
    if k > 0 {
      var rest := s[1..];
      assert rest[k - 1] == s[k] && forall i :: 0 <= i < k - 1 ==> rest[i] == s[i + 1];
      WithoutAt(rest, k - 1);
      assert Without(s, s[k]) == [s[0]] + (rest[..k - 1] + rest[k..]);
    }
  }
}
