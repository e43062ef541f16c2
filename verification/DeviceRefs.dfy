/**
 Devices and their reference counts: which devices the library keeps, and how listing, opening
 and closing pass references on. A device is named by how many were allocated before it.
 */
module DeviceRefs {
  import opened Usbfs

  datatype Dev = Dev(id: nat, session: nat, refcnt: int)

  /** The context's list of devices, newest first, and the session ids of all ever allocated. */
  datatype Pool = Pool(devs: seq<Dev>, sessions: seq<nat>)

  /** A device met while scanning, and what reading its descriptors returns. */
  datatype Found = Found(bus: nat, address: nat, answer: int)

  function SessionId(bus: nat, address: nat): nat
    requires bus < 256 && address < 256
  {
    bus * 256 + address
  }

  lemma SessionIdsDiffer(b0: nat, a0: nat, b1: nat, a1: nat)
    requires b0 < 256 && a0 < 256 && b1 < 256 && a1 < 256
    ensures SessionId(b0, a0) == SessionId(b1, a1) <==> b0 == b1 && a0 == a1
  {
  }

  // ---------------------------------------------------------------- the list of devices

  function Ref(devs: seq<Dev>, id: nat): seq<Dev> {
    if devs == [] then []
    else if devs[0].id == id then [devs[0].(refcnt := devs[0].refcnt + 1)] + devs[1..]
    else [devs[0]] + Ref(devs[1..], id)
  }

  /** The last reference takes the device off the list. */
  function Unref(devs: seq<Dev>, id: nat): seq<Dev> {
    if devs == [] then []
    else if devs[0].id != id then [devs[0]] + Unref(devs[1..], id)
    else if devs[0].refcnt == 1 then devs[1..]
    else [devs[0].(refcnt := devs[0].refcnt - 1)] + devs[1..]
  }

  /** The first device with that session id. */
  function Find(devs: seq<Dev>, session: nat): (r: seq<nat>)
    ensures |r| <= 1
  {
    if devs == [] then [] else if devs[0].session == session then [devs[0].id] else Find(devs[1..], session)
  }

  function RefAll(devs: seq<Dev>, ids: seq<nat>): seq<Dev>
    decreases |ids|
  {
    if ids == [] then devs else RefAll(Ref(devs, ids[0]), ids[1..])
  }

  function UnrefAll(devs: seq<Dev>, ids: seq<nat>): seq<Dev>
    decreases |ids|
  {
    if ids == [] then devs else UnrefAll(Unref(devs, ids[0]), ids[1..])
  }

  /** A new device has one reference and goes to the front. */
  function Alloc(p: Pool, session: nat): Pool {
    Pool([Dev(|p.sessions|, session, 1)] + p.devs, p.sessions + [session])
  }

  /** A negative code is an error. */
  datatype Scanned = Scanned(pool: Pool, discovered: seq<nat>, code: int) {
    predicate Ok() { code >= 0 }
  }

  /** A known device is shared; a new one is kept alive by the discovery list alone. */
  function Enumerate(p: Pool, discovered: seq<nat>, session: nat, answer: int): Scanned {
    var known := Find(p.devs, session);
    if known != [] then Scanned(p.(devs := Ref(p.devs, known[0])), discovered + [known[0]], 0)
    else
      var id, q := |p.sessions|, Alloc(p, session);
      if answer < 0 then Scanned(q.(devs := Unref(q.devs, id)), discovered, answer)
      else Scanned(q.(devs := Unref(Ref(q.devs, id), id)), discovered + [id], 0)
  }

  /** The scan ends at the first failure. */
  function Scan(p: Pool, discovered: seq<nat>, found: seq<Found>): Scanned
    decreases |found|
  {
    if found == [] then Scanned(p, discovered, 0)
    else
      var one := ScanOne(p, discovered, found[0]);
      if one.Ok() then Scan(one.pool, one.discovered, found[1..]) else one
  }

  /** Bus numbers and addresses are bytes. */
  function ScanOne(p: Pool, discovered: seq<nat>, found: Found): Scanned {
    if found.bus > 255 || found.address > 255 then Scanned(p, discovered, LIBUSB_ERROR_INVALID_PARAM)
    else Enumerate(p, discovered, SessionId(found.bus, found.address), found.answer)
  }

  /** The discovered devices are copied into the list handed out, and released. */
  function GetList(p: Pool, found: seq<Found>): Scanned {
    var s := Scan(p, [], found);
    if s.Ok() then Scanned(s.pool.(devs := UnrefAll(RefAll(s.pool.devs, s.discovered), s.discovered)), s.discovered, 0)
    else Scanned(s.pool.(devs := UnrefAll(s.pool.devs, s.discovered)), [], s.code)
  }

  // ---------------------------------------------------------------- calls

  /** `owned` are the references in lists and in callers' hands; each handle has one more. */
  datatype State = State(pool: Pool, owned: multiset<nat>, handles: seq<nat>)

  datatype Event =
    | List(found: seq<Found>)
    | FreeList(ids: seq<nat>, unref: bool)
    | RefDevice(id: nat)
    | UnrefDevice(id: nat)
    | Open(id: nat, ok: bool)
    | Close(handle: nat)

  const INITIAL := State(Pool([], []), multiset{}, [])

  function Held(s: State): multiset<nat> {
    s.owned + multiset(s.handles)
  }

  /** Callers pass devices they have a reference to, and give back only references they own. */
  predicate Enabled(s: State, e: Event) {
    match e
    case List(_) => true
    case FreeList(ids, unref) => unref ==> multiset(ids) <= s.owned
    case RefDevice(id) => id in Held(s)
    case UnrefDevice(id) => id in s.owned
    case Open(id, _) => id in Held(s)
    case Close(handle) => handle < |s.handles|
  }

  function Next(s: State, e: Event): State {
    if !Enabled(s, e) then s
    else match e
      case List(found) =>
        var r := GetList(s.pool, found);
        State(r.pool, s.owned + multiset(r.discovered), s.handles)
      case FreeList(ids, unref) =>
        if unref then State(s.pool.(devs := UnrefAll(s.pool.devs, ids)), s.owned - multiset(ids), s.handles) else s
      case RefDevice(id) => State(s.pool.(devs := Ref(s.pool.devs, id)), s.owned + multiset{id}, s.handles)
      case UnrefDevice(id) => State(s.pool.(devs := Unref(s.pool.devs, id)), s.owned - multiset{id}, s.handles)
      case Open(id, ok) =>
        var devs := Ref(s.pool.devs, id);
        if ok then State(s.pool.(devs := devs), s.owned, [id] + s.handles)
        else State(s.pool.(devs := Unref(devs, id)), s.owned, s.handles)
      case Close(handle) =>
        State(s.pool.(devs := Unref(s.pool.devs, s.handles[handle])), s.owned,
              s.handles[..handle] + s.handles[handle + 1..])
  }

  function Run(s: State, es: seq<Event>): State
    decreases |es|
  {
    if es == [] then s else Next(Run(s, es[..|es| - 1]), es[|es| - 1])
  }

  // ---------------------------------------------------------------- the reference: live devices

  /** Exactly the devices with references, newest first, each counted. */
  function Live(sessions: seq<nat>, held: multiset<nat>): seq<Dev> {
    if sessions == [] then []
    else
      var id := |sessions| - 1;
      if held[id] > 0 then [Dev(id, sessions[id], held[id])] + Live(sessions[..id], held)
      else Live(sessions[..id], held)
  }

  lemma {:induction false} LiveIgnores(sessions: seq<nat>, held: multiset<nat>, other: multiset<nat>)
    requires forall id :: 0 <= id < |sessions| ==> held[id] == other[id]
    ensures Live(sessions, held) == Live(sessions, other)
    decreases |sessions|
  {
    if sessions != [] { LiveIgnores(sessions[..|sessions| - 1], held, other); }
  }

  lemma {:induction false} RefIsLive(sessions: seq<nat>, held: multiset<nat>, id: nat)
    requires id < |sessions| && held[id] > 0
    ensures Ref(Live(sessions, held), id) == Live(sessions, held + multiset{id})
    decreases |sessions|
  {
    var last := |sessions| - 1;
    if id == last {
      LiveIgnores(sessions[..last], held, held + multiset{id});
    } else {
      RefIsLive(sessions[..last], held, id);
      if held[last] > 0 {
        assert Live(sessions, held)[1..] == Live(sessions[..last], held);
      }
    }
  }

  lemma {:induction false} UnrefIsLive(sessions: seq<nat>, held: multiset<nat>, id: nat)
    requires id < |sessions| && held[id] > 0
    ensures Unref(Live(sessions, held), id) == Live(sessions, held - multiset{id})
    decreases |sessions|
  {
    var last := |sessions| - 1;
    if id == last {
      LiveIgnores(sessions[..last], held, held - multiset{id});
    } else {
      UnrefIsLive(sessions[..last], held, id);
      if held[last] > 0 {
        assert Live(sessions, held)[1..] == Live(sessions[..last], held);
      }
    }
  }

  lemma AllocIsLive(sessions: seq<nat>, held: multiset<nat>, session: nat)
    requires held[|sessions|] == 0
    ensures Live(sessions + [session], held + multiset{|sessions|})
            == [Dev(|sessions|, session, 1)] + Live(sessions, held)
    ensures Live(sessions + [session], held) == Live(sessions, held)
  {
    assert (sessions + [session])[..|sessions|] == sessions;
    LiveIgnores(sessions, held, held + multiset{|sessions|});
  }

  ghost predicate Unique(sessions: seq<nat>, held: multiset<nat>) {
    forall i, j :: 0 <= i < j < |sessions| && held[i] > 0 && held[j] > 0 ==> sessions[i] != sessions[j]
  }

  ghost predicate Known(sessions: seq<nat>, held: multiset<nat>) {
    forall id :: id in held ==> 0 <= id < |sessions|
  }

  /** The device list is what the references say, and session ids are unique on it. */
  ghost predicate Consistent(p: Pool, held: multiset<nat>) {
    p.devs == Live(p.sessions, held) && Known(p.sessions, held) && Unique(p.sessions, held)
  }

  lemma {:induction false} FindIsLive(sessions: seq<nat>, held: multiset<nat>, session: nat)
    ensures var r := Find(Live(sessions, held), session);
      if r == [] then forall id :: 0 <= id < |sessions| && held[id] > 0 ==> sessions[id] != session
      else 0 <= r[0] < |sessions| && held[r[0]] > 0 && sessions[r[0]] == session
    decreases |sessions|
  {
    if sessions != [] {
      var last := |sessions| - 1;
      FindIsLive(sessions[..last], held, session);
      if held[last] > 0 {
        assert Live(sessions, held)[1..] == Live(sessions[..last], held);
      }
    }
  }

  // ---------------------------------------------------------------- every call keeps it

  lemma {:induction false} RefAllIsLive(sessions: seq<nat>, held: multiset<nat>, ids: seq<nat>)
    requires forall id :: id in ids ==> id < |sessions| && held[id] > 0
    ensures RefAll(Live(sessions, held), ids) == Live(sessions, held + multiset(ids))
    decreases |ids|
  {
    if ids != [] {
      assert ids[0] in ids && forall id :: id in ids[1..] ==> id in ids;
      RefIsLive(sessions, held, ids[0]);
      RefAllIsLive(sessions, held + multiset{ids[0]}, ids[1..]);
      assert ids == [ids[0]] + ids[1..];
      assert held + multiset{ids[0]} + multiset(ids[1..]) == held + multiset(ids);
    } else {
      assert held + multiset(ids) == held;
    }
  }

  lemma {:induction false} UnrefAllIsLive(sessions: seq<nat>, held: multiset<nat>, ids: seq<nat>)
    requires Known(sessions, held) && multiset(ids) <= held
    ensures UnrefAll(Live(sessions, held), ids) == Live(sessions, held - multiset(ids))
    decreases |ids|
  {
    if ids != [] {
      assert ids == [ids[0]] + ids[1..];
      assert ids[0] in multiset(ids) && ids[0] in held;
      UnrefIsLive(sessions, held, ids[0]);
      UnrefAllIsLive(sessions, held - multiset{ids[0]}, ids[1..]);
      assert held - multiset{ids[0]} - multiset(ids[1..]) == held - multiset(ids);
    } else {
      assert held - multiset(ids) == held;
    }
  }

  lemma FewerStayUnique(sessions: seq<nat>, held: multiset<nat>, fewer: multiset<nat>)
    requires Unique(sessions, held) && fewer <= held
    ensures Unique(sessions, fewer)
  {
    forall i, j | 0 <= i < j < |sessions| && fewer[i] > 0 && fewer[j] > 0 ensures sessions[i] != sessions[j] {
      assert held[i] > 0 && held[j] > 0;
    }
  }

  lemma RefKeeps(p: Pool, held: multiset<nat>, id: nat)
    requires Consistent(p, held) && id in held
    ensures Consistent(p.(devs := Ref(p.devs, id)), held + multiset{id})
  {
    hide Live;
    RefIsLive(p.sessions, held, id);
    forall i | 0 <= i < |p.sessions| && (held + multiset{id})[i] > 0 ensures held[i] > 0 {
    }
  }

  lemma UnrefKeeps(p: Pool, held: multiset<nat>, id: nat)
    requires Consistent(p, held) && id in held
    ensures Consistent(p.(devs := Unref(p.devs, id)), held - multiset{id})
  {
    hide Live;
    UnrefIsLive(p.sessions, held, id);
    FewerStayUnique(p.sessions, held, held - multiset{id});
  }

  lemma AllocKeeps(p: Pool, held: multiset<nat>, session: nat)
    requires Consistent(p, held) && Find(p.devs, session) == []
    ensures Consistent(Alloc(p, session), held + multiset{|p.sessions|})
  {
    hide Live, Find;
    FindIsLive(p.sessions, held, session);
    assert |p.sessions| !in held;
    AllocIsLive(p.sessions, held, session);
    var sessions, more := p.sessions + [session], held + multiset{|p.sessions|};
    forall i, j | 0 <= i < j < |sessions| && more[i] > 0 && more[j] > 0 ensures sessions[i] != sessions[j] {
      assert held[i] > 0 && (j < |p.sessions| ==> held[j] > 0);
    }
  }

  lemma AddOne(held: multiset<nat>, ids: seq<nat>, id: nat)
    ensures held + multiset(ids + [id]) == held + multiset(ids) + multiset{id}
  {
  }

  lemma AddedAndTaken(held: multiset<nat>, id: nat)
    ensures held + multiset{id} - multiset{id} == held
  {
  }

  lemma ManyAddedAndTaken(held: multiset<nat>, ids: seq<nat>)
    ensures held + multiset(ids) - multiset(ids) == held
    ensures held + multiset([]) == held
  {
  }

  /** A new device lives on if and only if the discovery list takes a reference. */
  lemma NewDeviceKeeps(p: Pool, held: multiset<nat>, session: nat)
    requires Consistent(p, held) && Find(p.devs, session) == []
    ensures var id, q := |p.sessions|, Alloc(p, session);
      Consistent(q.(devs := Unref(q.devs, id)), held)
      && Consistent(q.(devs := Unref(Ref(q.devs, id), id)), held + multiset{id})
  {
    hide Consistent, Find, Ref, Unref;
    var id, q := |p.sessions|, Alloc(p, session);
    AllocKeeps(p, held, session);
    UnrefKeeps(q, held + multiset{id}, id);
    AddedAndTaken(held, id);
    RefKeeps(q, held + multiset{id}, id);
    UnrefKeeps(q.(devs := Ref(q.devs, id)), held + multiset{id} + multiset{id}, id);
    AddedAndTaken(held + multiset{id}, id);
  }

  /** What enumerating one device keeps. `held` are all references outside the discovery list. */
  lemma EnumerateKeeps(p: Pool, discovered: seq<nat>, session: nat, answer: int, held: multiset<nat>)
    requires Consistent(p, held + multiset(discovered))
    ensures var s := Enumerate(p, discovered, session, answer);
      && Consistent(s.pool, held + multiset(s.discovered)) && p.sessions <= s.pool.sessions
      && (!s.Ok() ==> s.discovered == discovered && s.code == answer)
      && (s.Ok() ==> |s.discovered| == |discovered| + 1 && discovered <= s.discovered
                     && 0 <= s.discovered[|discovered|] < |s.pool.sessions|
                     && s.pool.sessions[s.discovered[|discovered|]] == session)
      && (!s.Ok() <==> Find(p.devs, session) == [] && answer < 0)
  {
    hide Consistent, Find, Ref, Unref;
    var all := held + multiset(discovered);
    var known := Find(p.devs, session);
    if known != [] {
      FoundIsHeld(p, all, session);
      RefKeeps(p, all, known[0]);
      AddOne(held, discovered, known[0]);
    } else {
      NewDeviceKeeps(p, all, session);
      AddOne(held, discovered, |p.sessions|);
    }
  }

  lemma FoundIsHeld(p: Pool, held: multiset<nat>, session: nat)
    requires Consistent(p, held) && Find(p.devs, session) != []
    ensures var id := Find(p.devs, session)[0]; id in held && id < |p.sessions| && p.sessions[id] == session
  {
    FindIsLive(p.sessions, held, session);
  }

  /** Every device in the list has the session id of the device met at that place of the scan. */
  ghost predicate Matches(sessions: seq<nat>, discovered: seq<nat>, found: seq<Found>)
  {
    |discovered| == |found|
    && forall i :: 0 <= i < |found| ==>
         found[i].bus < 256 && found[i].address < 256 && 0 <= discovered[i] < |sessions|
         && sessions[discovered[i]] == SessionId(found[i].bus, found[i].address)
  }

  lemma {:induction false} ScanKeeps(p: Pool, before: seq<Found>, discovered: seq<nat>, found: seq<Found>,
                                     held: multiset<nat>)
    requires Consistent(p, held + multiset(discovered)) && Matches(p.sessions, discovered, before)
    ensures var s := Scan(p, discovered, found);
      && Consistent(s.pool, held + multiset(s.discovered)) && p.sessions <= s.pool.sessions
      && (s.Ok() ==> Matches(s.pool.sessions, s.discovered, before + found))
    decreases |found|
  {
    hide Consistent, Enumerate;
    if found == [] {
      assert before + found == before;
    } else if found[0].bus <= 255 && found[0].address <= 255 {
      var one := Enumerate(p, discovered, SessionId(found[0].bus, found[0].address), found[0].answer);
      EnumerateKeeps(p, discovered, SessionId(found[0].bus, found[0].address), found[0].answer, held);
      if one.Ok() {
        ScanKeeps(one.pool, before + [found[0]], one.discovered, found[1..], held);
        assert before + [found[0]] + found[1..] == before + found;
      }
    }
  }

  lemma RefAllKeeps(p: Pool, held: multiset<nat>, ids: seq<nat>)
    requires Consistent(p, held) && multiset(ids) <= held
    ensures Consistent(p.(devs := RefAll(p.devs, ids)), held + multiset(ids))
  {
    hide Live, RefAll;
    forall id | id in ids ensures id < |p.sessions| && held[id] > 0 {
      assert id in multiset(ids) && id in held;
    }
    RefAllIsLive(p.sessions, held, ids);
    forall i | (held + multiset(ids))[i] > 0 ensures held[i] > 0 {
    }
  }

  lemma UnrefAllKeeps(p: Pool, held: multiset<nat>, ids: seq<nat>)
    requires Consistent(p, held) && multiset(ids) <= held
    ensures Consistent(p.(devs := UnrefAll(p.devs, ids)), held - multiset(ids))
  {
    hide Live, UnrefAll;
    UnrefAllIsLive(p.sessions, held, ids);
    FewerStayUnique(p.sessions, held, held - multiset(ids));
  }

  /**
   Listing. On success the references are those before and one for each entry; on failure they
   are exactly those before, and the context's list is too: devices met on the way are gone.
   */
  lemma GetListKeeps(p: Pool, found: seq<Found>, held: multiset<nat>)
    requires Consistent(p, held)
    ensures var s := GetList(p, found);
      && Consistent(s.pool, held + multiset(s.discovered)) && p.sessions <= s.pool.sessions
      && (s.Ok() ==> Matches(s.pool.sessions, s.discovered, found))
      && (!s.Ok() ==> s.discovered == [])
  {
    hide Scan, Consistent, RefAll, UnrefAll;
    ManyAddedAndTaken(held, []);
    ScanKeeps(p, [], [], found, held);
    assert [] + found == found;
    var s := Scan(p, [], found);
    var all := held + multiset(s.discovered);
    ManyAddedAndTaken(held, s.discovered);
    ManyAddedAndTaken(all, s.discovered);
    if s.Ok() {
      RefAllKeeps(s.pool, all, s.discovered);
      UnrefAllKeeps(s.pool.(devs := RefAll(s.pool.devs, s.discovered)), all + multiset(s.discovered), s.discovered);
    } else {
      UnrefAllKeeps(s.pool, all, s.discovered);
    }
  }

  lemma {:induction false} LiveOfMore(sessions: seq<nat>, more: seq<nat>, held: multiset<nat>)
    requires sessions <= more && Known(sessions, held)
    ensures Live(more, held) == Live(sessions, held)
    decreases |more|
  {
    if |more| > |sessions| {
      LiveOfMore(sessions, more[..|more| - 1], held);
      assert |more| - 1 !in held;
    } else {
      assert more == sessions;
    }
  }

  /** What a device can make the scan fail with, zero if it cannot. */
  function Failure(f: Found): int {
    if f.bus > 255 || f.address > 255 then LIBUSB_ERROR_INVALID_PARAM else if f.answer < 0 then f.answer else 0
  }

  lemma {:induction false} ScanFailsLikeADevice(p: Pool, discovered: seq<nat>, found: seq<Found>)
    ensures var s := Scan(p, discovered, found);
      !s.Ok() ==> exists i :: 0 <= i < |found| && Failure(found[i]) == s.code
    decreases |found|
  {
    hide Ref, Unref, Find;
    if found != [] {
      var one := ScanOne(p, discovered, found[0]);
      if one.Ok() {
        ScanFailsLikeADevice(one.pool, one.discovered, found[1..]);
        var s := Scan(p, discovered, found);
        if !s.Ok() {
          var i :| 0 <= i < |found[1..]| && Failure(found[1..][i]) == s.code;
          assert found[i + 1] == found[1..][i];
        }
      } else {
        assert Failure(found[0]) == one.code;
      }
    }
  }

  /** A listing fails only with the error of a device met, and leaves the device list as it was. */
  lemma FailedListingChangesNothing(p: Pool, found: seq<Found>, held: multiset<nat>)
    requires Consistent(p, held) && !GetList(p, found).Ok()
    ensures GetList(p, found).pool.devs == p.devs
    ensures exists i :: 0 <= i < |found| && Failure(found[i]) == GetList(p, found).code
  {
    assert exists i :: 0 <= i < |found| && Failure(found[i]) == GetList(p, found).code by {
      ScanFailsLikeADevice(p, [], found);
      assert GetList(p, found).code == Scan(p, [], found).code;
    }
    hide GetList, Live, Unique;
    GetListKeeps(p, found, held);
    assert held + multiset([]) == held;
    LiveOfMore(p.sessions, GetList(p, found).pool.sessions, held);
  }

  /** Freeing a list with its references undoes the listing. */
  lemma FreeingUndoesListing(p: Pool, found: seq<Found>, held: multiset<nat>)
    requires Consistent(p, held) && GetList(p, found).Ok()
    ensures UnrefAll(GetList(p, found).pool.devs, GetList(p, found).discovered) == p.devs
  {
    hide GetList, Live, Unique, UnrefAll;
    GetListKeeps(p, found, held);
    var s := GetList(p, found);
    UnrefAllIsLive(s.pool.sessions, held + multiset(s.discovered), s.discovered);
    assert held + multiset(s.discovered) - multiset(s.discovered) == held;
    LiveOfMore(p.sessions, s.pool.sessions, held);
  }

  // ---------------------------------------------------------------- over every run

  ghost predicate Inv(s: State) {
    Consistent(s.pool, Held(s))
  }

  lemma HeldAfterClose(owned: multiset<nat>, handles: seq<nat>, k: nat)
    requires k < |handles|
    ensures owned + multiset(handles[..k] + handles[k + 1..]) == owned + multiset(handles) - multiset{handles[k]}
    ensures handles[k] in owned + multiset(handles)
  {
    assert handles == handles[..k] + [handles[k]] + handles[k + 1..];
    assert multiset(handles) == multiset(handles[..k] + handles[k + 1..]) + multiset{handles[k]};
  }

  lemma HeldAfterOpen(owned: multiset<nat>, handles: seq<nat>, id: nat)
    ensures owned + multiset([id] + handles) == owned + multiset(handles) + multiset{id}
    ensures owned + multiset{id} + multiset(handles) == owned + multiset(handles) + multiset{id}
  {
  }

  lemma HeldAfterRelease(owned: multiset<nat>, handles: seq<nat>, ids: multiset<nat>)
    requires ids <= owned
    ensures owned - ids + multiset(handles) == owned + multiset(handles) - ids
    ensures ids <= owned + multiset(handles)
  {
  }

  lemma HeldAfterList(owned: multiset<nat>, handles: seq<nat>, ids: seq<nat>)
    ensures owned + multiset(ids) + multiset(handles) == owned + multiset(handles) + multiset(ids)
  {
  }

  lemma StepKeeps(s: State, e: Event)
    requires Inv(s)
    ensures Inv(Next(s, e))
  {
    hide Consistent, GetList, Ref, Unref, UnrefAll;
    if Enabled(s, e) {
      match e {
        case List(found) =>
          GetListKeeps(s.pool, found, Held(s));
          HeldAfterList(s.owned, s.handles, GetList(s.pool, found).discovered);
        case FreeList(ids, unref) =>
          if unref {
            HeldAfterRelease(s.owned, s.handles, multiset(ids));
            UnrefAllKeeps(s.pool, Held(s), ids);
          }
        case RefDevice(id) =>
          RefKeeps(s.pool, Held(s), id);
          HeldAfterOpen(s.owned, s.handles, id);
        case UnrefDevice(id) =>
          HeldAfterRelease(s.owned, s.handles, multiset{id});
          UnrefKeeps(s.pool, Held(s), id);
        case Open(id, ok) =>
          RefKeeps(s.pool, Held(s), id);
          HeldAfterOpen(s.owned, s.handles, id);
          UnrefKeeps(s.pool.(devs := Ref(s.pool.devs, id)), Held(s) + multiset{id}, id);
          AddedAndTaken(Held(s), id);
        case Close(handle) =>
          HeldAfterClose(s.owned, s.handles, handle);
          UnrefKeeps(s.pool, Held(s), s.handles[handle]);
      }
    }
  }

  lemma {:induction false} InvHolds(es: seq<Event>)
    ensures Inv(Run(INITIAL, es))
    decreases |es|
  {
    hide Next, Consistent;
    if es != [] {
      InvHolds(es[..|es| - 1]);
      StepKeeps(Run(INITIAL, es[..|es| - 1]), es[|es| - 1]);
    } else {
      InitiallyConsistent();
    }
  }

  lemma InitiallyConsistent()
    ensures Consistent(INITIAL.pool, Held(INITIAL))
  {
  }

  ghost predicate Listed(devs: seq<Dev>, id: nat) {
    exists i :: 0 <= i < |devs| && devs[i].id == id
  }

  predicate Counted(d: Dev, sessions: seq<nat>, held: multiset<nat>) {
    d.id < |sessions| && d.refcnt == held[d.id] > 0 && d.session == sessions[d.id]
  }

  lemma {:induction false} LiveIsCounted(sessions: seq<nat>, held: multiset<nat>)
    ensures forall i :: 0 <= i < |Live(sessions, held)| ==> Counted(Live(sessions, held)[i], sessions, held)
    ensures forall i, j :: 0 <= i < j < |Live(sessions, held)| ==> Live(sessions, held)[i].id > Live(sessions, held)[j].id
    decreases |sessions|
  {
    if sessions != [] {
      var last := |sessions| - 1;
      var rest, devs := Live(sessions[..last], held), Live(sessions, held);
      LiveIsCounted(sessions[..last], held);
      forall i | 0 <= i < |rest| ensures Counted(rest[i], sessions, held) && rest[i].id < last {
        assert Counted(rest[i], sessions[..last], held);
      }
      assert devs == if held[last] > 0 then [Dev(last, sessions[last], held[last])] + rest else rest;
    }
  }

  lemma {:induction false} LiveIsComplete(sessions: seq<nat>, held: multiset<nat>, id: nat)
    requires id < |sessions| && held[id] > 0
    ensures Listed(Live(sessions, held), id)
    decreases |sessions|
  {
    var last := |sessions| - 1;
    var devs := Live(sessions, held);
    if id == last {
      assert devs[0].id == id;
    } else {
      var rest := Live(sessions[..last], held);
      LiveIsComplete(sessions[..last], held, id);
      var i :| 0 <= i < |rest| && rest[i].id == id;
      assert devs[i + |devs| - |rest|] == rest[i];
    }
  }

  lemma LiveMeans(sessions: seq<nat>, held: multiset<nat>)
    ensures var devs := Live(sessions, held);
      && (forall i :: 0 <= i < |devs| ==> Counted(devs[i], sessions, held))
      && (forall i, j :: 0 <= i < j < |devs| ==> devs[i].id > devs[j].id)
      && (forall id :: 0 <= id < |sessions| && held[id] > 0 ==> Listed(devs, id))
  {
    hide Live;
    LiveIsCounted(sessions, held);
    forall id | 0 <= id < |sessions| && held[id] > 0 ensures Listed(Live(sessions, held), id) {
      LiveIsComplete(sessions, held, id);
    }
  }

  /**
   Reference conservation over every run of calls: each listed device's count is the number of
   references held to it, a device is listed exactly while there is one, and no two listed
   devices share a session id.
   */
  lemma ReferencesAreConserved(es: seq<Event>)
    ensures var s := Run(INITIAL, es);
      && (forall i :: 0 <= i < |s.pool.devs| ==> s.pool.devs[i].refcnt == Held(s)[s.pool.devs[i].id] > 0)
      && (forall id :: Listed(s.pool.devs, id) <==> Held(s)[id] > 0)
      && (forall i, j :: 0 <= i < j < |s.pool.devs| ==> s.pool.devs[i].session != s.pool.devs[j].session
                                                        && s.pool.devs[i].id != s.pool.devs[j].id)
  {
    hide Run, Live, Find;
    InvHolds(es);
    var s := Run(INITIAL, es);
    LiveMeans(s.pool.sessions, Held(s));
    CountedOnce(s.pool, Held(s));
    forall id | Listed(s.pool.devs, id) ensures Held(s)[id] > 0 {
      var i :| 0 <= i < |s.pool.devs| && s.pool.devs[i].id == id;
      assert Counted(s.pool.devs[i], s.pool.sessions, Held(s));
    }
    forall id | Held(s)[id] > 0 ensures Listed(s.pool.devs, id) {
      assert id in Held(s);
    }
  }

  lemma CountedOnce(p: Pool, held: multiset<nat>)
    requires Consistent(p, held)
    ensures forall i :: 0 <= i < |p.devs| ==> Counted(p.devs[i], p.sessions, held)
    ensures forall i, j :: 0 <= i < j < |p.devs| ==> p.devs[i].session != p.devs[j].session
                                                     && p.devs[i].id != p.devs[j].id
  {
    LiveIsCounted(p.sessions, held);
    assert p.devs == Live(p.sessions, held);
    forall i, j | 0 <= i < j < |p.devs| ensures p.devs[i].session != p.devs[j].session {
      assert Counted(p.devs[i], p.sessions, held) && Counted(p.devs[j], p.sessions, held);
    }
  }

  /** What each call does to the references its caller may rely on; the device list follows from them. */
  lemma CallsMoveReferences(s: State, e: Event)
    requires Inv(s) && Enabled(s, e)
    ensures var t := Next(s, e);
      match e
      case List(found) =>
        (exists ids: seq<nat> :: t.owned == s.owned + multiset(ids) && (ids == [] || Matches(t.pool.sessions, ids, found)))
        && t.handles == s.handles
      case FreeList(ids, unref) => t.owned == (if unref then s.owned - multiset(ids) else s.owned) && t.handles == s.handles
      case RefDevice(id) => t.owned == s.owned + multiset{id} && t.handles == s.handles
      case UnrefDevice(id) => t.owned == s.owned - multiset{id} && t.handles == s.handles
      case Open(id, ok) => t.owned == s.owned && t.handles == if ok then [id] + s.handles else s.handles
      case Close(k) => t.owned == s.owned && t.handles == s.handles[..k] + s.handles[k + 1..]
  {
    hide Consistent, GetList, Ref, Unref, UnrefAll, Held;
    if e.List? {
      var r := GetList(s.pool, e.found);
      GetListKeeps(s.pool, e.found, Held(s));
      assert Next(s, e).owned == s.owned + multiset(r.discovered);
    }
  }

  /** When every reference has been given back and every handle closed, nothing is left. */
  lemma NothingLeaks(es: seq<Event>)
    requires var s := Run(INITIAL, es); s.owned == multiset{} && s.handles == []
    ensures Run(INITIAL, es).pool.devs == []
  {
    hide Run, Live;
    InvHolds(es);
    var s := Run(INITIAL, es);
    assert Held(s) == multiset{};
    NobodyIsLive(s.pool.sessions);
  }

  lemma {:induction false} NobodyIsLive(sessions: seq<nat>)
    ensures Live(sessions, multiset{}) == []
    decreases |sessions|
  {
    if sessions != [] { NobodyIsLive(sessions[..|sessions| - 1]); }
  }

  /** Entries of a list just made that match the same device are one device, even across lists. */
  lemma ListingsShareDevices(es: seq<Event>, found: seq<Found>, i: nat, d: Dev)
    requires var s := Run(INITIAL, es); var r := GetList(s.pool, found);
      r.Ok() && i < |found| && d in s.pool.devs
      && found[i].bus < 256 && found[i].address < 256 && d.session == SessionId(found[i].bus, found[i].address)
    ensures var r := GetList(Run(INITIAL, es).pool, found);
      |r.discovered| == |found| && r.discovered[i] == d.id
  {
    hide Run, GetList, Live;
    InvHolds(es);
    var s := Run(INITIAL, es);
    var r := GetList(s.pool, found);
    GetListKeeps(s.pool, found, Held(s));
    LiveMeans(s.pool.sessions, Held(s));
    var k :| 0 <= k < |s.pool.devs| && s.pool.devs[k] == d;
    assert Counted(Live(s.pool.sessions, Held(s))[k], s.pool.sessions, Held(s));
    var now := Held(s) + multiset(r.discovered);
    var id := r.discovered[i];
    assert id in multiset(r.discovered) && now[id] > 0 && now[d.id] > 0;
    assert r.pool.sessions[d.id] == s.pool.sessions[d.id] == d.session == r.pool.sessions[id];
  }
}
