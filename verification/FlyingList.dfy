/**
 The flying list as it is in memory: a circular doubly linked list whose head is a node like
 any other, changed by four primitives and scanned by loops. Each operation is proved to do to
 the list what `FlyingTransfers` and `TransferLayers` say.
 */
module FlyingList {
  import opened Backends
  import opened FlyingTransfers
  import opened Timeouts
  import opened Usbfs
  import L = TransferLayers
  import EventSleep

  const LIBUSB_ERROR_OTHER := -99

  /** A transfer with its embedded links. The list head is a node whose other fields are not used. */
  class Node {
    var prev: Node
    var next: Node
    const id: nat
    const handle: nat
    const timeout: nat            // in milliseconds, 0 for none
    var deadline: Timeval
    var timedOut: bool

    /** list_init: a ring of its own. */
    constructor (id: nat, handle: nat, timeout: nat)
      ensures Ring([this]) && AsFlight() == Flight(id, handle, NEVER, false) && this.timeout == timeout
    {
      prev, next := this, this;
      this.id, this.handle, this.timeout, deadline, timedOut := id, handle, timeout, NEVER, false;
    }

    function AsFlight(): Flight
      reads this`deadline, this`timedOut
    {
      Flight(id, handle, deadline, timedOut)
    }
  }

  // ---------------------------------------------------------------- rings

  ghost predicate Ring(s: seq<Node>)
    reads s`prev, s`next
  {
    |s| > 0 && AllDifferent(s) && Linked(s) && s[|s| - 1].next == s[0] && s[0].prev == s[|s| - 1]
  }

  ghost predicate AllDifferent(s: seq<Node>) {
    forall i, j :: 0 <= i < j < |s| ==> s[i] != s[j]
  }

  ghost predicate Linked(s: seq<Node>)
    reads s`prev, s`next
  {
    forall i :: 0 <= i < |s| - 1 ==> s[i].next == s[i + 1] && s[i + 1].prev == s[i]
  }

  lemma OneMoreDiffers(s: seq<Node>, k: nat, entry: Node)
    requires AllDifferent(s) && k <= |s| && entry !in s
    ensures AllDifferent(s[..k] + [entry] + s[k..])
  {
    var t := s[..k] + [entry] + s[k..];
    forall i, j | 0 <= i < j < |t| ensures t[i] != t[j] {
      assert i != k ==> t[i] == s[if i < k then i else i - 1];
      assert j != k ==> t[j] == s[if j < k then j else j - 1];
    }
  }

  lemma OneLessDiffers(s: seq<Node>, k: nat)
    requires AllDifferent(s) && k < |s|
    ensures AllDifferent(s[..k] + s[k + 1..])
  {
    var t := s[..k] + s[k + 1..];
    forall i, j | 0 <= i < j < |t| ensures t[i] != t[j] {
      assert t[i] == s[if i < k then i else i + 1] && t[j] == s[if j < k then j else j + 1];
    }
  }

  /** The nodes around the place where a new one goes, told from all others. */
  lemma Neighbours(s: seq<Node>, j: nat)
    requires Ring(s) && 0 < j <= |s|
    ensures var n := if j == |s| then 0 else j;
      s[j - 1].next == s[n] && s[n].prev == s[j - 1]
      && forall i :: 0 <= i < |s| ==> (s[i] == s[j - 1] <==> i == j - 1) && (s[i] == s[n] <==> i == n)
  {
  }

  /** Where the nodes are linked as the longer sequence wants it, they form the ring. */
  lemma Woven(s: seq<Node>, j: nat, entry: Node)
    requires 0 < j <= |s| && AllDifferent(s[..j] + [entry] + s[j..])
    requires s[j - 1].next == entry && entry.prev == s[j - 1]
    requires var n := if j == |s| then 0 else j; entry.next == s[n] && s[n].prev == entry
    requires forall i :: 0 <= i < |s| - 1 && i != j - 1 ==> s[i].next == s[i + 1] && s[i + 1].prev == s[i]
    requires j < |s| ==> s[|s| - 1].next == s[0] && s[0].prev == s[|s| - 1]
    ensures Ring(s[..j] + [entry] + s[j..])
  {
    hide AllDifferent;
    var t := s[..j] + [entry] + s[j..];
    assert t[0] == s[0] && t[|t| - 1] == if j == |s| then entry else s[|s| - 1];
    forall i | 0 <= i < |t| - 1 ensures t[i].next == t[i + 1] && t[i + 1].prev == t[i] {
      assert t[i] == if i < j then s[i] else if i == j then entry else s[i - 1];
      assert t[i + 1] == if i + 1 < j then s[i + 1] else if i + 1 == j then entry else s[i];
    }
  }

  /** `entry` goes behind `head`, the node at `k`. */
  method ListAdd(entry: Node, head: Node, ghost s: seq<Node>, ghost k: nat)
    requires Ring(s) && entry !in s && k < |s| && head == s[k]
    modifies entry`prev, entry`next, s`prev, s`next
    ensures Ring(s[..k + 1] + [entry] + s[k + 1..])
  {
    Neighbours(s, k + 1);
    OneMoreDiffers(s, k + 1, entry);
    hide AllDifferent;
    entry.next := head.next;
    entry.prev := head;
    head.next.prev := entry;
    head.next := entry;
    Woven(s, k + 1, entry);
  }

  /** `entry` goes in front of `head`, the node at `k`: in front of the list head is at the end. */
  method ListAddTail(entry: Node, head: Node, ghost s: seq<Node>, ghost k: nat)
    requires Ring(s) && entry !in s && k < |s| && head == s[k]
    modifies entry`prev, entry`next, s`prev, s`next
    ensures var j := if k == 0 then |s| else k; Ring(s[..j] + [entry] + s[j..])
  {
    ghost var j := if k == 0 then |s| else k;
    Neighbours(s, j);
    OneMoreDiffers(s, j, entry);
    hide AllDifferent;
    entry.next := head;
    entry.prev := head.prev;
    head.prev.next := entry;
    head.prev := entry;
    Woven(s, j, entry);
  }

  /** The neighbours close the gap; the node keeps its own links. */
  method ListDel(entry: Node, ghost s: seq<Node>, ghost k: nat)
    requires Ring(s) && 0 < k < |s| && entry == s[k]
    modifies s`prev, s`next
    ensures Ring(s[..k] + s[k + 1..])
  {
    ghost var n := if k == |s| - 1 then 0 else k + 1;
    assert entry.next == s[n] && entry.prev == s[k - 1];
    entry.next.prev := entry.prev;
    entry.prev.next := entry.next;
    OneLessDiffers(s, k);
    ghost var t := s[..k] + s[k + 1..];
    assert forall i :: 0 <= i < |t| ==> t[i] == if i < k then s[i] else s[i + 1];
  }

  function Flights(s: seq<Node>): (r: seq<Flight>)
    reads s`deadline, s`timedOut
    ensures |r| == |s|
    ensures forall i :: 0 <= i < |s| ==> r[i] == s[i].AsFlight()
  {
    if s == [] then [] else [s[0].AsFlight()] + Flights(s[1..])
  }

  // ---------------------------------------------------------------- the context

  class Context {
    const support: L.Support
    const head: Node
    ghost var nodes: seq<Node>    // behind the head, in order
    var timer: L.Timer
    var clock: nat
    var backend: map<nat, Backend>
    ghost var fields: map<nat, Timeval>
    ghost var accepted: seq<nat>
    ghost var reports: seq<L.Report>
    ghost var lost: seq<nat>

    constructor (support: L.Support)
      ensures Valid() && nodes == [] && State() == L.Initial(support) && fresh(head)
    {
      this.support := support;
      head := new Node(0, 0, 0);
      nodes, timer, clock := [], L.Disarmed, 0;
      backend, fields, accepted, reports, lost := map[], map[], [], [], [];
    }

    ghost predicate Valid()
      reads this, head`prev, head`next, nodes`prev, nodes`next
    {
      Ring([head] + nodes) && (timer.Armed? ==> support.Available?)
    }

    ghost function Flying(): seq<Flight>
      reads this, nodes`deadline, nodes`timedOut
    {
      Flights(nodes)
    }

    ghost function State(): L.State
      reads this, nodes`deadline, nodes`timedOut
    {
      L.State(support, timer, clock, Flying(), backend, fields, accepted, reports, lost)
    }

    /** The k-th node of the list, and the head behind the last. */
    ghost function At(k: nat): Node
      reads this
    {
      if k < |nodes| then nodes[k] else head
    }

    lemma Links(k: nat)
      requires Valid() && k <= |nodes|
      ensures head.next == At(0) && (At(k) == head <==> k == |nodes|)
      ensures k < |nodes| ==> nodes[k].next == At(k + 1)
      ensures head !in nodes
    {
      var s := [head] + nodes;
      assert s[0] == head && forall i :: 0 <= i < |nodes| ==> nodes[i] == s[i + 1];
      assert k < |nodes| ==> s[k + 1] == nodes[k];
    }

    /** Puts the transfer in front of the k-th node, or at the end. */
    method PutAt(transfer: Node, cur: Node, ghost k: nat)
      requires Valid() && transfer !in nodes && transfer != head && k <= |nodes| && cur == At(k)
      modifies this`nodes, transfer`prev, transfer`next, head`prev, head`next, nodes`prev, nodes`next
      ensures Valid() && nodes == old(nodes)[..k] + [transfer] + old(nodes)[k..]
    {
      hide Ring;
      ghost var s := [head] + nodes;
      ghost var j := if k == |nodes| then 0 else k + 1;
      ListAddTail(transfer, cur, s, j);
      nodes := nodes[..k] + [transfer] + nodes[k..];
      assert [head] + nodes == s[..k + 1] + [transfer] + s[k + 1..];
    }

    method PutFirst(transfer: Node)
      requires Valid() && transfer !in nodes && transfer != head && nodes == []
      modifies this`nodes, transfer`prev, transfer`next, head`prev, head`next, nodes`prev, nodes`next
      ensures Valid() && nodes == [transfer]
    {
      ListAdd(transfer, head, [head] + nodes, 0);
      nodes := [transfer];
      assert [head] + nodes == [head][..1] + [transfer] + [head][1..];
    }

    /** The first transfer that expires later, or the head; and whether that is the first of all. */
    method FindPlace(deadline: Timeval) returns (cur: Node, first: int)
      requires Valid() && IsSet(deadline)
      ensures cur == At(Place(Flying(), deadline)) && first == if Place(Flying(), deadline) == 0 then 1 else 0
    {
      hide Ring;
      Links(0);
      cur, first := head.next, 1;
      ghost var k := 0;
      while cur != head
        invariant k <= |nodes| && cur == At(k) && first == if k == 0 then 1 else 0
        invariant forall i :: 0 <= i < k ==> !Before(deadline, nodes[i].deadline)
        decreases |nodes| - k
      {
        Links(k);
        if !IsSet(cur.deadline) || Later(cur.deadline, deadline) {
          break;
        }
        first := 0;
        cur := cur.next;
        k := k + 1;
      }
      Links(k);
      PlaceIs(Flying(), deadline, k);
    }

    method Enlist(transfer: Node) returns (r: int)
      requires Valid() && transfer !in nodes && transfer != head
      modifies this`nodes, transfer`prev, transfer`next, head`prev, head`next, nodes`prev, nodes`next
      ensures Valid() && nodes == old(Listed(nodes, transfer))
      ensures r == if First(old(Flying()), transfer.deadline) then 1 else 0
    {
      hide Ring, Insert, Place;
      ghost var q := Flying();
      Links(0);
      if head.next == head {
        PutFirst(transfer);
        r := if IsSet(transfer.deadline) then 1 else 0;
      } else if !IsSet(transfer.deadline) {
        PlaceIs(q, transfer.deadline, |nodes|);
        PutAt(transfer, head, |nodes|);
        r := 0;
      } else {
        var cur, first := FindPlace(transfer.deadline);
        PutAt(transfer, cur, Place(q, transfer.deadline));
        r := first;
      }
    }

    /** Returns 1 if the transfer has a timeout and it is the next to expire. */
    method AddToFlyingList(transfer: Node) returns (r: int)
      requires Valid() && transfer !in nodes && transfer != head
      modifies this`nodes, transfer`prev, transfer`next, head`prev, head`next, nodes`prev, nodes`next
      ensures Valid() && nodes == old(Listed(nodes, transfer))
      ensures Flying() == Insert(old(Flying()), transfer.AsFlight())
      ensures r == if First(old(Flying()), transfer.deadline) then 1 else 0
    {
      hide Ring, Insert, Place;
      ghost var listed := Listed(nodes, transfer);
      ListedFlights(nodes, transfer);
      r := Enlist(transfer);
      Unmoved(listed);
    }

    method Unlink(transfer: Node, ghost k: nat)
      requires Valid() && k < |nodes| && nodes[k] == transfer
      modifies this`nodes, head`prev, head`next, nodes`prev, nodes`next
      ensures Valid() && nodes == old(nodes)[..k] + old(nodes)[k + 1..]
    {
      hide Ring;
      ghost var s := [head] + nodes;
      ListDel(transfer, s, k + 1);
      nodes := nodes[..k] + nodes[k + 1..];
      assert [head] + nodes == s[..k + 1] + s[k + 2..];
    }

    /** list_del on the k-th node. */
    method Remove(transfer: Node, ghost k: nat)
      requires Valid() && k < |nodes| && nodes[k] == transfer && Distinct(Flying())
      modifies this`nodes, head`prev, head`next, nodes`prev, nodes`next
      ensures Valid() && nodes == old(nodes)[..k] + old(nodes)[k + 1..]
      ensures Flying() == Delete(old(Flying()), transfer.id)
    {
      hide Ring, Distinct, Delete, Has;
      ghost var left := nodes[..k] + nodes[k + 1..];
      DeleteNode(nodes, k);
      Unlink(transfer, k);
      Unmoved(left);
    }

    // -------------------------------------------------------------- the timerfd

    /** timerfd_settime with an absolute time. */
    method SetTimerfd(at: Timeval) returns (ok: bool)
      modifies this`timer
      ensures ok == (support.Available? && Carried(at))
      ensures timer == if ok then L.Armed(at) else old(timer)
    {
      ok := support.Available? && Carried(at);
      if ok {
        timer := L.Armed(at);
      }
    }

    method DisarmTimerfd() returns (r: int)
      requires Valid()
      modifies this`timer
      ensures Valid()
      ensures r == if support.Unavailable? then LIBUSB_ERROR_OTHER else 0
      ensures timer == if support.Available? then L.Disarmed else old(timer)
    {
      if support.NotCompiled? {
        return 0;
      }
      if support.Unavailable? {
        return LIBUSB_ERROR_OTHER;
      }
      timer := L.Disarmed;
      r := 0;
    }

    /** 1 if the next deadline was armed, 0 if there is none; negative if arming it fails. */
    method ArmTimerfdForNextTimeout() returns (r: int)
      requires Valid()
      modifies this`timer
      ensures Valid()
      ensures r == 0 <==> support.NotCompiled? || NextToArm(Flying()) == []
      ensures r >= 0 <==> r == 0 || (support.Available? && Carried(NextToArm(Flying())[0]))
      ensures timer == if r > 0 then L.Armed(NextToArm(Flying())[0]) else old(timer)
    {
      hide Ring, NextToArm, Flights;
      if support.NotCompiled? {
        return 0;
      }
      Links(0);
      var cur := head.next;
      ghost var k, q := 0, Flying();
      while cur != head
        invariant k <= |nodes| && cur == At(k) && timer == old(timer) && Valid() && Flying() == q
        invariant NextToArm(q) == NextToArm(q[k..])
        decreases |nodes| - k
      {
        Links(k);
        NextFrom(q, k);
        assert cur.AsFlight() == q[k];
        if !IsSet(cur.deadline) {
          return 0;
        }
        if !cur.timedOut {
          var ok := SetTimerfd(cur.deadline);
          return if ok then 1 else LIBUSB_ERROR_OTHER;
        }
        cur := cur.next;
        k := k + 1;
      }
      Links(k);
      NextFrom(q, k);
      r := 0;
    }

    // -------------------------------------------------------------- completion

    /** Arms for the next timeout, or disarms: neither works without the timerfd. */
    method Rearm() returns (r: int)
      requires Valid()
      modifies this`timer
      ensures Valid()
      ensures r == 0 <==> L.Rearms(support, Flying())
      ensures timer == if r == 0 then L.TimerFor(support, Flying()) else old(timer)
    {
      hide Ring, Flights, NextToArm;
      r := ArmTimerfdForNextTimeout();
      if r < 0 {
        return;
      }
      if r == 0 {
        r := DisarmTimerfd();
        return;
      }
      r := 0;
    }

    /** usbi_handle_transfer_completion: without a timer set, it returns before the callback. */
    method HandleTransferCompletion(transfer: Node, status: TransferStatus, ghost k: nat) returns (r: int)
      requires Valid() && k < |nodes| && nodes[k] == transfer && Distinct(Flying())
      modifies this`nodes, this`timer, this`reports, this`lost
      modifies head`prev, head`next, nodes`prev, nodes`next
      ensures Valid() && nodes == old(nodes)[..k] + old(nodes)[k + 1..]
      ensures State() == L.Complete(old(State()), transfer.id, status)
      ensures r == 0 <==> L.Rearms(support, Flying())
    {
      hide Ring, Distinct, Delete, Flights, L.Rearms, L.TimerFor, L.Complete, Has;
      FlagOfNode(Flying(), k);
      assert Flying()[k] == transfer.AsFlight();
      ghost var before, flag := State(), transfer.timedOut;
      Remove(transfer, k);
      r := Rearm();
      if r == 0 {
        reports := reports + [L.Report(transfer.id, status, L.Field(State(), transfer.id), clock, flag)];
      } else {
        lost := lost + [transfer.id];
      }
      CompletionIs(before, State(), transfer.id, status, flag);
    }

    /** The kernel does something to a URB of a transfer, and what comes of it is handled. */
    method HandleUrb(transfer: Node, event: UrbEvent, ghost k: nat)
      requires Valid() && Distinct(Flying()) && L.LayersInv(State()) && transfer.id in backend
      requires Has(Flying(), transfer.id) ==> k < |nodes| && nodes[k] == transfer
      modifies this`nodes, this`timer, this`backend, this`reports, this`lost
      modifies head`prev, head`next, nodes`prev, nodes`next
      ensures Valid() && State() == L.HandleUrb(old(State()), transfer.id, event)
    {
      hide Ring, Distinct, Flights, L.Complete, Step, Verdict, L.LayersInv;
      ghost var before := State();
      var verdict := Verdict(backend[transfer.id], event);
      if verdict != [] { L.VerdictMeansFlying(before, transfer.id, event); }
      backend := backend[transfer.id := Step(backend[transfer.id], event)];
      if verdict != [] {
        var r := HandleTransferCompletion(transfer, verdict[0], k);
      }
    }

    /** libusb_cancel_transfer: list and timer wait for what the backend reports. */
    method CancelTransfer(transfer: Node) returns (r: int)
      requires Valid() && transfer.id in backend
      modifies this`backend
      ensures Valid() && State() == L.CancelTransfer(old(State()), transfer.id)
      ensures r == if Live(old(backend[transfer.id])) then 0 else LIBUSB_ERROR_NOT_FOUND
    {
      hide Ring, Flights, Backends.Cancel, Live;
      r := if Live(backend[transfer.id]) then 0 else LIBUSB_ERROR_NOT_FOUND;
      backend := L.CancelOne(backend, transfer.id);
    }

    // -------------------------------------------------------------- submission

    /** calculate_timeout leaves the deadline alone if there is no timeout. */
    method PrepareTransfer(transfer: Node)
      requires Valid() && transfer !in nodes && transfer != head
      modifies this`fields, transfer`deadline, transfer`timedOut
      ensures Valid() && Flying() == old(Flying())
      ensures transfer.AsFlight() == Flight(transfer.id, transfer.handle,
                                            CalculateTimeout(clock, transfer.timeout, old(transfer.deadline)), false)
      ensures fields == old(fields)[transfer.id := transfer.deadline]
    {
      hide Ring, Flights, CalculateTimeout;
      transfer.timedOut := false;
      transfer.deadline := CalculateTimeout(clock, transfer.timeout, transfer.deadline);
      fields := fields[transfer.id := transfer.deadline];
      Unmoved(nodes);
    }

    /** The deadline is computed and the transfer listed, before the backend hears of it. */
    method ListTransfer(transfer: Node) returns (first: bool, ghost k: nat)
      requires Valid() && transfer !in nodes && transfer != head
      requires transfer.deadline == L.Field(State(), transfer.id)
      modifies this`nodes, this`fields, transfer, head`prev, head`next, nodes`prev, nodes`next
      ensures Valid() && k <= |old(nodes)| && nodes == old(nodes)[..k] + [transfer] + old(nodes)[k..]
      ensures var deadline := CalculateTimeout(clock, transfer.timeout, L.Field(old(State()), transfer.id));
        transfer.deadline == deadline && fields == old(fields)[transfer.id := deadline]
        && transfer.AsFlight() == Flight(transfer.id, transfer.handle, deadline, false)
        && Flying() == Insert(old(Flying()), transfer.AsFlight())
        && (first <==> First(old(Flying()), deadline))
    {
      hide Ring, Insert, CalculateTimeout, Flights, First, Place;
      PrepareTransfer(transfer);
      k := Place(Flying(), transfer.deadline);
      var r := AddToFlyingList(transfer);
      first := r != 0;
    }

    /** A context without a timerfd has nothing to arm. */
    method ArmForFirst(deadline: Timeval) returns (r: int)
      requires Valid()
      modifies this`timer
      ensures Valid()
      ensures timer == if support.Available? && Carried(deadline) then L.Armed(deadline) else old(timer)
      ensures r == if support.Available? && !Carried(deadline) then LIBUSB_ERROR_OTHER else 0
    {
      r := 0;
      if support.Available? {
        var ok := SetTimerfd(deadline);
        r := if ok then 0 else LIBUSB_ERROR_OTHER;
      }
    }

    /** The transfer is taken out again, as if it had not been listed. */
    method Withdraw(transfer: Node, ghost q: seq<Flight>, ghost k: nat)
      requires Valid() && k < |nodes| && nodes[k] == transfer
      requires Distinct(q) && !Has(q, transfer.id) && Flying() == Insert(q, transfer.AsFlight())
      modifies this`nodes, head`prev, head`next, nodes`prev, nodes`next
      ensures Valid() && Flying() == Delete(old(Flying()), transfer.id)
    {
      hide Ring, Distinct, Delete, Insert, Has, Flights;
      InsertKeepsDistinct(q, transfer.AsFlight());
      Remove(transfer, k);
    }

    /** What happens once the transfer is listed; `failure` is the backend's error if it does not take it. */
    method AskBackend(transfer: Node, request: Request, failure: int, first: bool, ghost q: seq<Flight>, ghost k: nat)
      returns (r: int)
      requires Valid() && k < |nodes| && nodes[k] == transfer && failure != 0
      requires Distinct(q) && !Has(q, transfer.id) && Flying() == Insert(q, transfer.AsFlight())
      modifies this`nodes, this`timer, this`backend, this`accepted, head`prev, head`next, nodes`prev, nodes`next
      ensures Valid() && backend == old(backend)[transfer.id := L.Submitted(old(backend), transfer.id, request)]
      ensures !Live(L.Submitted(old(backend), transfer.id, request))
              ==> r == failure && Flying() == Delete(old(Flying()), transfer.id)
                  && timer == old(timer) && accepted == old(accepted)
      ensures Live(L.Submitted(old(backend), transfer.id, request))
              ==> (r == 0 <==> !(support.Available? && first && !Carried(transfer.deadline)))
                  && Flying() == old(Flying()) && accepted == old(accepted) + [transfer.id]
                  && timer == if support.Available? && first && Carried(transfer.deadline)
                              then L.Armed(transfer.deadline) else old(timer)
    {
      hide Ring, Distinct, Delete, Insert, Has, Flights, Live, L.Submitted;
      backend := backend[transfer.id := L.Submitted(backend, transfer.id, request)];
      if !Live(backend[transfer.id]) {
        Withdraw(transfer, q, k);
        return failure;
      }
      accepted := accepted + [transfer.id];
      r := 0;
      if first {
        r := ArmForFirst(transfer.deadline);
      }
    }

    /** libusb_submit_transfer. */
    method SubmitTransfer(transfer: Node, request: Request, failure: int) returns (r: int)
      requires Valid() && transfer !in nodes && transfer != head && failure != 0
      requires Distinct(Flying()) && !Has(Flying(), transfer.id)
      requires transfer.deadline == L.Field(State(), transfer.id)
      modifies this`nodes, this`timer, this`backend, this`fields, this`accepted
      modifies transfer, head`prev, head`next, nodes`prev, nodes`next
      ensures Valid()
      ensures State() == L.SubmitTransfer(old(State()), transfer.id, transfer.handle, transfer.timeout, request)
      ensures r == 0 <==> !L.SubmitReportsError(old(State()), transfer.id, transfer.timeout, request)
      ensures !Live(L.Submitted(old(backend), transfer.id, request)) ==> r == failure
    {
      hide Ring, Distinct, Delete, Insert, Has, CalculateTimeout, Flights, First, Place, Live, L.Submitted;
      ghost var q := Flying();
      var first, k := ListTransfer(transfer);
      r := AskBackend(transfer, request, failure, first, q, k);
    }

    // -------------------------------------------------------------- timeouts

    lemma NodesDiffer(k: nat)
      requires Valid() && k < |nodes|
      ensures forall i :: 0 <= i < |nodes| && i != k ==> nodes[i] != nodes[k]
    {
      var s := [head] + nodes;
      forall i | 0 <= i < |nodes| && i != k ensures nodes[i] != nodes[k] {
        assert s[i + 1] == nodes[i] && s[k + 1] == nodes[k];
      }
    }

    /** The flag first, so that the cancellation is reported as a timeout. */
    method HandleTimeout(transfer: Node, ghost k: nat)
      requires Valid() && k < |nodes| && nodes[k] == transfer
      modifies this`backend, transfer`timedOut
      ensures Valid() && Flying() == old(Flying())[k := old(Flying())[k].(timedOut := true)]
      ensures backend == L.ExpireOne(old(backend), transfer.id)
    {
      hide Ring, Expire;
      NodesDiffer(k);
      transfer.timedOut := true;
      backend := L.ExpireOne(backend, transfer.id);
    }

    /** Stops at the first deadline that is still to come, and at the first infinite one. */
    method HandleExpired(now: Timeval)
      requires Valid()
      modifies this`backend, nodes`timedOut
      ensures Valid() && Flying() == FlagExpired(old(Flying()), now)
      ensures backend == L.CancelExpired(old(Flying()), now, old(backend))
    {
      hide Ring, Flights, FlagExpired, ScannedTo, L.CancelExpired, L.ExpireOne;
      ghost var q, b := Flying(), backend;
      Links(0);
      var cur := head.next;
      ghost var k, p := 0, q;
      ScanStarts(q, now);
      assert q[0..] == q;
      while cur != head
        invariant k <= |nodes| && cur == At(k) && Valid()
        invariant Flying() == p && ScannedTo(q, now, k, p)
        invariant L.CancelExpired(q[k..], now, backend) == L.CancelExpired(q, now, b)
        decreases |nodes| - k
      {
        Links(k);
        ScanGoesOn(q, now, k, p);
        CancelsFrom(q, now, k, p, backend);
        assert cur.AsFlight() == p[k];
        if !IsSet(cur.deadline) {
          return;
        }
        if !cur.timedOut {
          if Later(cur.deadline, now) {
            return;
          }
          HandleTimeout(cur, k);
        }
        p := p[k := p[k].(timedOut := true)];
        cur := cur.next;
        k := k + 1;
      }
      Links(k);
      ScanGoesOn(q, now, k, p);
      CancelsFrom(q, now, k, p, backend);
    }

    method HandleTimeoutsLocked()
      requires Valid()
      modifies this`backend, nodes`timedOut
      ensures Valid() && State() == L.HandleTimeouts(old(State()))
    {
      hide Ring, Flights, FlagExpired, L.CancelExpired, Now;
      HandleExpired(Now(clock));
    }

    /** The timerfd fired: handle what is due, then arm for the next. */
    method HandleTimerfdTrigger() returns (r: int)
      requires Valid() && timer.Armed?
      modifies this`timer, this`backend, nodes`timedOut
      ensures Valid() && State() == L.HandleTrigger(old(State()))
      ensures r >= 0 <==> L.Rearms(support, Flying())
    {
      hide Ring, Flights, FlagExpired, NextToArm;
      r := DisarmTimerfd();
      HandleTimeoutsLocked();
      r := ArmTimerfdForNextTimeout();
    }

    /** libusb_get_next_timeout; a context with a timerfd needs no help with timeouts. */
    method GetNextTimeout() returns (found: bool, tv: Timeval)
      requires Valid()
      ensures found <==> !support.Available? && EventSleep.NextTimeout(Flying(), clock) != []
      ensures found ==> tv == EventSleep.NextTimeout(Flying(), clock)[0]
    {
      hide Ring, Flights;
      tv := NEVER;
      if support.Available? {
        return false, tv;
      }
      Links(0);
      var cur := head.next;
      ghost var k := 0;
      while cur != head && cur.timedOut
        invariant k <= |nodes| && cur == At(k)
        invariant EventSleep.NextPending(Flying()) == EventSleep.NextPending(Flying()[k..])
        decreases |nodes| - k
      {
        Links(k);
        cur := cur.next;
        k := k + 1;
      }
      Links(k);
      if cur == head || !IsSet(cur.deadline) {
        return false, tv;
      }
      var now := Now(clock);
      found := true;
      if Later(cur.deadline, now) {
        tv := Minus(cur.deadline, now);
      }
    }

    // -------------------------------------------------------------- disconnection

    method FindOnHandle(handle: nat) returns (found: Node?, ghost k: nat)
      requires Valid()
      ensures found == null <==> L.FirstOn(Flying(), handle) == []
      ensures found != null ==> k < |nodes| && found == nodes[k] && L.FirstOn(Flying(), handle) == [found.id]
    {
      hide Ring, Flights;
      Links(0);
      var cur := head.next;
      k := 0;
      while cur != head
        invariant k <= |nodes| && cur == At(k)
        invariant L.FirstOn(Flying(), handle) == L.FirstOn(Flying()[k..], handle)
        decreases |nodes| - k
      {
        Links(k);
        if cur.handle == handle {
          return cur, k;
        }
        cur := cur.next;
        k := k + 1;
      }
      Links(k);
      found := null;
    }

    /** The backend lets go of the URBs before the transfer is completed. */
    method Abandon(transfer: Node, ghost k: nat)
      requires Valid() && k < |nodes| && nodes[k] == transfer && Distinct(Flying())
      modifies this`nodes, this`timer, this`backend, this`reports, this`lost
      modifies head`prev, head`next, nodes`prev, nodes`next
      ensures Valid() && nodes == old(nodes)[..k] + old(nodes)[k + 1..]
      ensures State() == L.Abandon(old(State()), transfer.id)
    {
      hide Ring, Flights, Distinct, L.Complete, L.Rearms, L.ClearOne;
      ghost var before := State();
      backend := L.ClearOne(backend, transfer.id);
      assert State() == L.WithBackend(before, backend);
      var r := HandleTransferCompletion(transfer, TransferNoDevice, k);
    }

    /** Transfers may come and go while a callback runs, so every round starts from the head. */
    method HandleDisconnect(handle: nat)
      requires Valid() && Distinct(Flying())
      modifies this`nodes, this`timer, this`backend, this`reports, this`lost
      modifies head`prev, head`next, nodes`prev, nodes`next
      ensures Valid() && State() == L.HandleDisconnect(old(State()), handle)
    {
      hide Ring, Flights, Distinct, Delete, Has, L.Abandon, L.FirstOn, L.HandleDisconnect;
      while true
        invariant Valid() && Distinct(Flying())
        invariant Within(nodes, old(nodes))
        invariant L.HandleDisconnect(State(), handle) == L.HandleDisconnect(old(State()), handle)
        decreases |nodes|
      {
        var found, k := FindOnHandle(handle);
        DisconnectStep(State(), handle);
        if found == null {
          break;
        }
        DeleteKeepsDistinct(Flying(), found.id);
        StillWithin(nodes, old(nodes), k);
        Abandon(found, k);
      }
    }
  }

  /** One round of the disconnection. */
  lemma DisconnectStep(s: L.State, handle: nat)
    ensures var found := L.FirstOn(s.flying, handle);
      L.HandleDisconnect(s, handle) == if found == [] then s else L.HandleDisconnect(L.Abandon(s, found[0]), handle)
    ensures forall id :: L.Abandon(s, id).flying == Delete(s.flying, id)
  {
  }

  ghost predicate Within(s: seq<Node>, all: seq<Node>) {
    forall i :: 0 <= i < |s| ==> s[i] in all
  }

  lemma StillWithin(s: seq<Node>, all: seq<Node>, k: nat)
    requires Within(s, all) && k < |s|
    ensures Within(s[..k] + s[k + 1..], all)
  {
  }

  /** What makes a completion. */
  lemma CompletionIs(s: L.State, t: L.State, id: nat, status: TransferStatus, flag: bool)
    requires flag == L.IsFlagged(s.flying, id)
    requires t.support == s.support && t.clock == s.clock && t.backend == s.backend && t.fields == s.fields
    requires t.accepted == s.accepted && t.flying == Delete(s.flying, id)
    requires if L.Rearms(t.support, t.flying)
             then t.timer == L.TimerFor(t.support, t.flying) && t.lost == s.lost
                  && t.reports == s.reports + [L.Report(id, status, L.Field(t, id), t.clock, flag)]
             else t.timer == s.timer && t.lost == s.lost + [id] && t.reports == s.reports
    ensures t == L.Complete(s, id, status)
  {
    hide Delete, L.Rearms, L.TimerFor, L.IsFlagged;
  }

  lemma FlagOfNode(q: seq<Flight>, k: nat)
    requires k < |q| && Distinct(q)
    ensures L.IsFlagged(q, q[k].id) == q[k].timedOut
  {
    GetNode(q, k);
  }

  lemma GetNode(q: seq<Flight>, k: nat)
    requires k < |q| && Distinct(q)
    ensures Has(q, q[k].id) && Get(q, q[k].id) == q[k]
  {
    HasMember(q, k);
    var f := Get(q, q[k].id);
    var j :| 0 <= j < |q| && q[j] == f;
    DistinctAt(q, j, k);
  }

  /** What the list looks like once the scan has passed its first `k` transfers. */
  ghost predicate ScannedTo(q: seq<Flight>, now: Timeval, k: nat, p: seq<Flight>) {
    k <= |q| == |p| && p[k..] == q[k..] && FlagExpired(q, now) == p[..k] + FlagExpired(q[k..], now)
  }

  lemma ScanStarts(q: seq<Flight>, now: Timeval)
    ensures ScannedTo(q, now, 0, q)
  {
    assert q[..0] + FlagExpired(q, now) == FlagExpired(q, now) && q[0..] == q;
  }

  lemma ScanGoesOn(q: seq<Flight>, now: Timeval, k: nat, p: seq<Flight>)
    requires ScannedTo(q, now, k, p)
    ensures |p| == |q|
    ensures k == |q| || !IsSet(p[k].deadline) || (!p[k].timedOut && Later(p[k].deadline, now)) ==> p == FlagExpired(q, now)
    ensures k < |q| && IsSet(p[k].deadline) && (p[k].timedOut || !Later(p[k].deadline, now))
            ==> ScannedTo(q, now, k + 1, p[k := p[k].(timedOut := true)])
    ensures k < |q| && p[k].timedOut ==> p[k := p[k].(timedOut := true)] == p
  {
    assert p == p[..k] + p[k..];
    if k < |q| {
      var f, p' := p[k].(timedOut := true), p[k := p[k].(timedOut := true)];
      assert p[k] == p[k..][0] == q[k..][0] == q[k] && q[k..][1..] == q[k + 1..];
      assert p'[k + 1..] == p[k..][1..] == q[k + 1..];
      assert p'[..k + 1] == p[..k] + [f];
      assert p[..k] + ([f] + FlagExpired(q[k + 1..], now)) == p'[..k + 1] + FlagExpired(q[k + 1..], now);
    }
  }

  /** What the scan does to the backend from the k-th transfer on. */
  lemma CancelsFrom(q: seq<Flight>, now: Timeval, k: nat, p: seq<Flight>, backend: map<nat, Backend>)
    requires ScannedTo(q, now, k, p)
    ensures |p| == |q|
    ensures L.CancelExpired(q[k..], now, backend)
            == if k == |q| || !IsSet(p[k].deadline) then backend
               else if p[k].timedOut then L.CancelExpired(q[k + 1..], now, backend)
               else if Later(p[k].deadline, now) then backend
               else L.CancelExpired(q[k + 1..], now, L.ExpireOne(backend, p[k].id))
  {
    hide FlagExpired, L.ExpireOne;
    if k < |q| {
      assert p[k] == p[k..][0] == q[k..][0] == q[k] && q[k..][1..] == q[k + 1..];
    }
  }

  lemma NextFrom(q: seq<Flight>, k: nat)
    requires k <= |q|
    ensures NextToArm(q[k..]) == if k == |q| || !IsSet(q[k].deadline) then []
                                 else if !q[k].timedOut then [q[k].deadline]
                                 else NextToArm(q[k + 1..])
  {
    assert k < |q| ==> q[k..][0] == q[k] && q[k..][1..] == q[k + 1..];
  }

  lemma DeleteNode(s: seq<Node>, k: nat)
    requires k < |s| && Distinct(Flights(s))
    ensures Flights(s[..k] + s[k + 1..]) == Delete(Flights(s), s[k].id)
  {
    hide Delete, Has, Distinct, Flights;
    var q := Flights(s);
    HasMember(q, k);
    var j := DeleteAt(q, s[k].id);
    DistinctAt(q, j, k);
    DropNode(s, k);
  }

  lemma DropNode(s: seq<Node>, k: nat)
    requires k < |s|
    ensures Flights(s[..k] + s[k + 1..]) == Flights(s)[..k] + Flights(s)[k + 1..]
  {
    hide Flights;
    var t := s[..k] + s[k + 1..];
    forall i | 0 <= i < |t| ensures t[i] == s[if i < k then i else i + 1] {
    }
  }

  lemma {:induction false} DistinctAt(q: seq<Flight>, i: nat, j: nat)
    requires Distinct(q) && i < |q| && j < |q| && q[i].id == q[j].id
    ensures i == j
    decreases |q|
  {
    if i > 0 && j > 0 {
      DistinctAt(q[1..], i - 1, j - 1);
    } else if i != j {
      HasMember(q[1..], if i == 0 then j - 1 else i - 1);
    }
  }

  twostate lemma Unmoved(s: seq<Node>)
    requires forall i :: 0 <= i < |s| ==> s[i].deadline == old(s[i].deadline) && s[i].timedOut == old(s[i].timedOut)
    ensures Flights(s) == old(Flights(s))
  {
  }

  /** The nodes with the transfer in its place. */
  ghost function Listed(nodes: seq<Node>, transfer: Node): seq<Node>
    reads nodes`deadline, nodes`timedOut, transfer`deadline
  {
    var k := Place(Flights(nodes), transfer.deadline);
    nodes[..k] + [transfer] + nodes[k..]
  }

  lemma ListedFlights(nodes: seq<Node>, transfer: Node)
    ensures Flights(Listed(nodes, transfer)) == Insert(Flights(nodes), transfer.AsFlight())
  {
  }

  lemma PlaceIs(q: seq<Flight>, deadline: Timeval, k: nat)
    requires k <= |q| && forall i :: 0 <= i < k ==> !Before(deadline, q[i].deadline)
    requires k < |q| ==> Before(deadline, q[k].deadline)
    ensures Place(q, deadline) == k
  {
  }
}
