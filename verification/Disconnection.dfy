/** The disconnection of a device, whose transfers are completed one after the other. */
module Disconnection {
  import opened Backends
  import opened FlyingTransfers
  import opened Timeouts
  import opened TransferLayers
  import opened TransferTimer
  import opened Usbfs

  function OnHandle(q: seq<Flight>, handle: nat): seq<Flight> {
    if q == [] then [] else (if q[0].handle == handle then [q[0]] else []) + OnHandle(q[1..], handle)
  }

  function OffHandle(q: seq<Flight>, handle: nat): seq<Flight> {
    if q == [] then [] else (if q[0].handle == handle then [] else [q[0]]) + OffHandle(q[1..], handle)
  }

  /** The list without the first `n` transfers of a handle. */
  function Without(q: seq<Flight>, handle: nat, n: nat): seq<Flight> {
    if q == [] || n == 0 then q
    else if q[0].handle == handle then Without(q[1..], handle, n - 1)
    else [q[0]] + Without(q[1..], handle, n)
  }

  lemma {:induction false} FirstOnIsFirst(q: seq<Flight>, handle: nat)
    requires Distinct(q)
    ensures FirstOn(q, handle) == [] <==> OnHandle(q, handle) == []
    ensures FirstOn(q, handle) != []
            ==> FirstOn(q, handle)[0] == OnHandle(q, handle)[0].id
                && Get(q, FirstOn(q, handle)[0]) == OnHandle(q, handle)[0]
    decreases |q|
  {
    if q != [] { FirstOnIsFirst(q[1..], handle); }
  }

  lemma {:induction false} DeletingTheFirst(q: seq<Flight>, handle: nat)
    requires Distinct(q) && FirstOn(q, handle) != []
    ensures OnHandle(q, handle) != []
    ensures Delete(q, FirstOn(q, handle)[0]) == Without(q, handle, 1)
    ensures OnHandle(Without(q, handle, 1), handle) == OnHandle(q, handle)[1..]
    decreases |q|
  {
    if q[0].handle != handle {
      DeletingTheFirst(q[1..], handle);
      assert Without(q, handle, 1)[1..] == Without(q[1..], handle, 1);
    }
  }

  lemma {:induction false} WithoutMore(q: seq<Flight>, handle: nat, n: nat)
    ensures Without(Without(q, handle, 1), handle, n) == Without(q, handle, n + 1)
    decreases |q|
  {
    if q != [] && q[0].handle != handle {
      WithoutMore(q[1..], handle, n);
      assert Without(q, handle, 1)[1..] == Without(q[1..], handle, 1);
    }
  }

  lemma {:induction false} WithoutAll(q: seq<Flight>, handle: nat)
    ensures Without(q, handle, |OnHandle(q, handle)|) == OffHandle(q, handle)
    ensures OnHandle(q, handle) == [] ==> OffHandle(q, handle) == q
    decreases |q|
  {
    if q != [] { WithoutAll(q[1..], handle); }
  }

  lemma {:induction false} WithoutLeaves(q: seq<Flight>, handle: nat, n: nat)
    ensures forall f :: f in Without(q, handle, n) ==> f in q
    decreases |q|
  {
    if q != [] && n > 0 {
      WithoutLeaves(q[1..], handle, if q[0].handle == handle then n - 1 else n);
    }
  }

  /** The callback of the k-th transfer of a handle, if the timer can be set for the transfers then left. */
  function Delivered(s: State, q: seq<Flight>, handle: nat, k: nat): (r: seq<Report>)
    decreases |OnHandle(q, handle)| - k
  {
    var mine := OnHandle(q, handle);
    if k >= |mine| then []
    else (if Rearms(s.support, Without(q, handle, k + 1))
          then [Report(mine[k].id, TransferNoDevice, Field(s, mine[k].id), s.clock, mine[k].timedOut)] else [])
         + Delivered(s, q, handle, k + 1)
  }

  function Undelivered(s: State, q: seq<Flight>, handle: nat, k: nat): (r: seq<nat>)
    decreases |OnHandle(q, handle)| - k
  {
    var mine := OnHandle(q, handle);
    if k >= |mine| then []
    else (if Rearms(s.support, Without(q, handle, k + 1)) then [] else [mine[k].id]) + Undelivered(s, q, handle, k + 1)
  }

  lemma {:induction false} OneRoundLess(s: State, t: State, q: seq<Flight>, handle: nat, k: nat)
    requires Distinct(q) && FirstOn(q, handle) != []
    requires t.support == s.support && t.fields == s.fields && t.clock == s.clock
    ensures Delivered(t, Without(q, handle, 1), handle, k) == Delivered(s, q, handle, k + 1)
    ensures Undelivered(t, Without(q, handle, 1), handle, k) == Undelivered(s, q, handle, k + 1)
    decreases |OnHandle(q, handle)| - k
  {
    hide Rearms, Without, OnHandle;
    DeletingTheFirst(q, handle);
    WithoutMore(q, handle, k + 1);
    if k + 1 < |OnHandle(q, handle)| {
      OneRoundLess(s, t, q, handle, k + 1);
    }
  }

  lemma AbandonEffect(s: State, handle: nat)
    requires Distinct(s.flying) && FirstOn(s.flying, handle) != [] && OnHandle(s.flying, handle) != []
    ensures var t, rest := Abandon(s, FirstOn(s.flying, handle)[0]), Without(s.flying, handle, 1);
      var f := OnHandle(s.flying, handle)[0];
      && t.flying == rest && t.fields == s.fields && t.clock == s.clock && t.support == s.support
      && t.reports == s.reports + (if Rearms(s.support, rest)
           then [Report(f.id, TransferNoDevice, Field(s, f.id), s.clock, f.timedOut)] else [])
      && t.lost == s.lost + (if Rearms(s.support, rest) then [] else [f.id])
  {
    hide Rearms, Without, OnHandle, Delete, TimerFor;
    FirstOnIsFirst(s.flying, handle);
    DeletingTheFirst(s.flying, handle);
  }

  /**
   Disconnection ends, having completed exactly the transfers of that handle, in list order: the
   others keep flying in the same order, and each of the handle's transfers gets a callback
   exactly if the timer could be set for what was then left on the list.
   */
  lemma {:induction false} DisconnectCompletesExactly(s: State, handle: nat)
    requires ListInv(s)
    ensures var t := HandleDisconnect(s, handle);
      && t.flying == OffHandle(s.flying, handle)
      && t.reports == s.reports + Delivered(s, s.flying, handle, 0)
      && t.lost == s.lost + Undelivered(s, s.flying, handle, 0)
    decreases |s.flying|
  {
    hide ListInv, Abandon, OnHandle, OffHandle, Without, Rearms, Delete, FirstOn, Distinct, Field;
    var found := FirstOn(s.flying, handle);
    assert Distinct(s.flying) by { OrderedAndDistinct(s); }
    FirstOnIsFirst(s.flying, handle);
    if found != [] {
      var t := Abandon(s, found[0]);
      DeletingTheFirst(s.flying, handle);
      AbandonEffect(s, handle);
      AbandonKeepsList(s, found[0]);
      DisconnectCompletesExactly(t, handle);
      OneRoundLess(s, t, s.flying, handle, 0);
      WithoutMore(s.flying, handle, |OnHandle(t.flying, handle)|);
      WithoutAll(t.flying, handle);
    }
    WithoutAll(s.flying, handle);
  }

  lemma OrderedAndDistinct(s: State)
    requires ListInv(s)
    ensures Sorted(s.flying) && Distinct(s.flying)
  {
  }

  lemma EveryWithout(q: seq<Flight>, handle: nat, n: nat, p: Timeval -> bool)
    requires Every(q, p)
    ensures Every(Without(q, handle, n), p)
  {
    var r := Without(q, handle, n);
    WithoutLeaves(q, handle, n);
    forall i | 0 <= i < |r| ensures p(r[i].deadline) {
      assert r[i] in q;
    }
  }

  function Ids(q: seq<Flight>): seq<nat> {
    if q == [] then [] else [q[0].id] + Ids(q[1..])
  }

  /** One NO_DEVICE callback for each transfer, in list order. */
  function NoDevice(s: State, q: seq<Flight>): seq<Report> {
    if q == [] then []
    else [Report(q[0].id, TransferNoDevice, Field(s, q[0].id), s.clock, q[0].timedOut)] + NoDevice(s, q[1..])
  }

  lemma {:induction false} AllOrNone(s: State, q: seq<Flight>, handle: nat, k: nat)
    requires k <= |OnHandle(q, handle)|
    requires s.support.Available? ==> Every(q, Carried)
    ensures !s.support.Unavailable?
            ==> Delivered(s, q, handle, k) == NoDevice(s, OnHandle(q, handle)[k..]) && Undelivered(s, q, handle, k) == []
    ensures s.support.Unavailable?
            ==> Delivered(s, q, handle, k) == [] && Undelivered(s, q, handle, k) == Ids(OnHandle(q, handle)[k..])
    decreases |OnHandle(q, handle)| - k
  {
    hide OnHandle, Without, Every;
    var mine := OnHandle(q, handle);
    if k < |mine| {
      AllOrNone(s, q, handle, k + 1);
      assert mine[k..][1..] == mine[k + 1..];
      if s.support.Available? {
        EveryWithout(q, handle, k + 1, Carried);
        NextIsCarried(Without(q, handle, k + 1));
      }
    }
  }

  /**
   Where no deadline on the list missed the carry, each of the handle's transfers gets one NO_DEVICE
   callback; where the timerfd is missing, none does.
   */
  lemma DisconnectTellsAllOrNone(s: State, handle: nat)
    requires ListInv(s) && (s.support.Available? ==> Every(s.flying, Carried))
    ensures var t, mine := Next(s, Disconnect(handle)), OnHandle(s.flying, handle);
      if s.support.Unavailable? then t.reports == s.reports && t.lost == s.lost + Ids(mine)
      else t.reports == s.reports + NoDevice(s, mine) && t.lost == s.lost
  {
    hide ListInv, OnHandle, Every;
    NextDisconnects(s, handle);
    DisconnectCompletesExactly(s, handle);
    AllOrNone(s, s.flying, handle, 0);
    assert OnHandle(s.flying, handle)[0..] == OnHandle(s.flying, handle);
  }

  lemma NextDisconnects(s: State, handle: nat)
    ensures Next(s, Disconnect(handle)) == HandleDisconnect(s, handle)
  {
  }

  lemma {:induction false} OnHandleIsListed(q: seq<Flight>, handle: nat, id: nat)
    requires Distinct(q)
    ensures Distinct(OnHandle(q, handle)) && (Has(OnHandle(q, handle), id) ==> Has(q, id))
    decreases |q|
  {
    if q != [] {
      OnHandleIsListed(q[1..], handle, id);
      OnHandleIsListed(q[1..], handle, q[0].id);
      if q[0].handle == handle {
        assert OnHandle(q, handle)[1..] == OnHandle(q[1..], handle);
      } else {
        assert OnHandle(q, handle) == OnHandle(q[1..], handle);
      }
    }
  }

  /** The backend's data is cleared for the handle's transfers and not touched for any other. */
  lemma {:induction false} DisconnectClearsExactly(s: State, handle: nat, id: nat)
    requires ListInv(s) && LayersInv(s)
    ensures var t := HandleDisconnect(s, handle);
      && (id in t.backend <==> id in s.backend)
      && (id in s.backend
          ==> t.backend[id] == if Has(OnHandle(s.flying, handle), id) then Clear(s.backend[id]) else s.backend[id])
    decreases |s.flying|
  {
    hide ListInv, LayersInv, OnHandle, Without, Rearms, Delete, FirstOn, Distinct, Clear;
    var found, mine := FirstOn(s.flying, handle), OnHandle(s.flying, handle);
    assert Distinct(s.flying) by { OrderedAndDistinct(s); }
    FirstOnIsFirst(s.flying, handle);
    OnHandleIsListed(s.flying, handle, id);
    if found != [] {
      DeletingTheFirst(s.flying, handle);
      AbandonEffect(s, handle);
      AbandonKeepsList(s, found[0]);
      AbandonKeepsLayers(s, found[0]);
      DisconnectClearsExactly(Abandon(s, found[0]), handle, id);
      assert !Has(mine[1..], mine[0].id) by { FirstIsOnlyOne(mine); }
    }
  }

  lemma FirstIsOnlyOne(q: seq<Flight>)
    requires Distinct(q) && q != []
    ensures !Has(q[1..], q[0].id)
  {
  }
}
