/**
 The list of flying transfers, the timerfd and the completion path, as functions: the list is
 a sequence kept in order of deadline, and every early exit from a scan relies on that order.
 */
module FlyingTransfers {
  import opened Timeouts

  /** A submitted transfer. A deadline of zero is an infinite one. */
  datatype Flight = Flight(id: nat, handle: nat, deadline: Timeval, timedOut: bool)

  // ---------------------------------------------------------------- the order of the list

  /** Expires strictly sooner. */
  predicate Before(a: Timeval, b: Timeval) {
    IsSet(a) && (!IsSet(b) || Later(b, a))
  }

  predicate Sorted(q: seq<Flight>) {
    forall i, j :: 0 <= i < j < |q| ==> !Before(q[j].deadline, q[i].deadline)
  }

  /** Where a transfer goes: in front of the first that expires later. */
  function Place(q: seq<Flight>, deadline: Timeval): (k: nat)
    ensures k <= |q|
    ensures forall i :: 0 <= i < k ==> !Before(deadline, q[i].deadline)
    ensures k < |q| ==> Before(deadline, q[k].deadline)
  {
    if q == [] || Before(deadline, q[0].deadline) then 0
    else
      var k := Place(q[1..], deadline);
      assert forall i :: 0 < i < k + 1 ==> q[i] == q[1..][i - 1];
      k + 1
  }

  function Insert(q: seq<Flight>, f: Flight): seq<Flight> {
    var k := Place(q, f.deadline);
    q[..k] + [f] + q[k..]
  }

  /** What add_to_flying_list returns. */
  predicate First(q: seq<Flight>, deadline: Timeval) {
    IsSet(deadline) && Place(q, deadline) == 0
  }

  /** Inserting keeps the list sorted; among equal deadlines the newcomer comes last. */
  lemma InsertKeepsSorted(q: seq<Flight>, f: Flight)
    requires Sorted(q)
    ensures Sorted(Insert(q, f))
  {
    var k, r := Place(q, f.deadline), Insert(q, f);
    forall i, j | 0 <= i < j < |r| ensures !Before(r[j].deadline, r[i].deadline) {
      if i == k {
        assert Before(f.deadline, q[k].deadline) && (j == k + 1 || !Before(q[j - 1].deadline, q[k].deadline));
        assert r[j] == q[j - 1];
      } else if j == k {
        assert r[i] == q[i];
      }
    }
  }

  /** On a sorted list the answer 1 means just what it should: finite, and sooner than all others. */
  lemma FirstIsSoonest(q: seq<Flight>, deadline: Timeval)
    requires Sorted(q)
    ensures First(q, deadline)
            <==> IsSet(deadline) && forall i :: 0 <= i < |q| ==> Before(deadline, q[i].deadline)
  {
    if First(q, deadline) {
      forall i | 0 <= i < |q| ensures Before(deadline, q[i].deadline) {
        assert i > 0 ==> !Before(q[i].deadline, q[0].deadline);
      }
    }
  }

  /** Infinite deadlines are at the very end. */
  lemma InfiniteOnesComeLast(q: seq<Flight>, i: nat, j: nat)
    requires Sorted(q) && i < j < |q| && !IsSet(q[i].deadline)
    ensures !IsSet(q[j].deadline)
  {
    assert !Before(q[j].deadline, q[i].deadline);
  }

  lemma InsertStep(q: seq<Flight>, f: Flight)
    ensures Insert(q, f) == if q == [] || Before(f.deadline, q[0].deadline) then [f] + q
                            else [q[0]] + Insert(q[1..], f)
  {
    if q != [] && !Before(f.deadline, q[0].deadline) {
      var k := Place(q[1..], f.deadline);
      assert Place(q, f.deadline) == k + 1;
      assert q[..k + 1] == [q[0]] + q[1..][..k] && q[k + 1..] == q[1..][k..];
    }
  }

  // ---------------------------------------------------------------- taking one out

  predicate Has(q: seq<Flight>, id: nat) {
    q != [] && (q[0].id == id || Has(q[1..], id))
  }

  function Get(q: seq<Flight>, id: nat): (f: Flight)
    requires Has(q, id)
    ensures f.id == id && f in q
  {
    if q[0].id == id then q[0] else Get(q[1..], id)
  }

  function Delete(q: seq<Flight>, id: nat): (r: seq<Flight>)
    ensures |r| == if Has(q, id) then |q| - 1 else |q|
  {
    if q == [] then [] else if q[0].id == id then q[1..] else [q[0]] + Delete(q[1..], id)
  }

  predicate Distinct(q: seq<Flight>) {
    q == [] || (!Has(q[1..], q[0].id) && Distinct(q[1..]))
  }

  lemma {:induction false} HasMember(q: seq<Flight>, i: nat)
    requires i < |q|
    ensures Has(q, q[i].id)
    decreases |q|
  {
    if i > 0 {
      HasMember(q[1..], i - 1);
      assert q[1..][i - 1] == q[i];
    }
  }

  /** Deleting takes one element out and leaves the others where they were. */
  lemma {:induction false} DeleteAt(q: seq<Flight>, id: nat) returns (k: nat)
    requires Has(q, id)
    ensures k < |q| && q[k].id == id && Delete(q, id) == q[..k] + q[k + 1..]
    decreases |q|
  {
    if q[0].id == id {
      k := 0;
    } else {
      k := DeleteAt(q[1..], id);
      k := k + 1;
      assert q[..k] == [q[0]] + q[1..][..k - 1] && q[k + 1..] == q[1..][k..];
    }
  }

  lemma DeleteKeepsSorted(q: seq<Flight>, id: nat)
    requires Sorted(q)
    ensures Sorted(Delete(q, id))
  {
    if Has(q, id) {
      var k := DeleteAt(q, id);
      var r := Delete(q, id);
      forall i, j | 0 <= i < j < |r| ensures !Before(r[j].deadline, r[i].deadline) {
        assert r[i] == q[if i < k then i else i + 1] && r[j] == q[if j < k then j else j + 1];
      }
    } else {
      DeleteAbsent(q, id);
    }
  }

  lemma {:induction false} DeleteAbsent(q: seq<Flight>, id: nat)
    requires !Has(q, id)
    ensures Delete(q, id) == q
    decreases |q|
  {
    if q != [] { DeleteAbsent(q[1..], id); }
  }

  lemma {:induction false} HasAfterDelete(q: seq<Flight>, id: nat, other: nat)
    requires Distinct(q)
    ensures Has(Delete(q, id), other) <==> Has(q, other) && other != id
    decreases |q|
  {
    if q != [] && q[0].id != id {
      HasAfterDelete(q[1..], id, other);
      assert Delete(q, id)[1..] == Delete(q[1..], id);
    }
  }

  lemma {:induction false} DeleteKeepsDistinct(q: seq<Flight>, id: nat)
    requires Distinct(q)
    ensures Distinct(Delete(q, id))
    decreases |q|
  {
    if q != [] && q[0].id != id {
      DeleteKeepsDistinct(q[1..], id);
      HasAfterDelete(q[1..], id, q[0].id);
      assert Delete(q, id)[1..] == Delete(q[1..], id);
    }
  }

  lemma {:induction false} HasAfterInsert(q: seq<Flight>, f: Flight, id: nat)
    ensures Has(Insert(q, f), id) <==> id == f.id || Has(q, id)
    decreases |q|
  {
    InsertStep(q, f);
    if q != [] && !Before(f.deadline, q[0].deadline) {
      HasAfterInsert(q[1..], f, id);
      assert Insert(q, f)[1..] == Insert(q[1..], f);
    } else {
      assert Insert(q, f)[1..] == q;
    }
  }

  lemma {:induction false} InsertKeepsDistinct(q: seq<Flight>, f: Flight)
    requires Distinct(q) && !Has(q, f.id)
    ensures Distinct(Insert(q, f))
    decreases |q|
  {
    InsertStep(q, f);
    if q != [] && !Before(f.deadline, q[0].deadline) {
      InsertKeepsDistinct(q[1..], f);
      HasAfterInsert(q[1..], f, q[0].id);
      assert Insert(q, f)[1..] == Insert(q[1..], f);
    } else {
      assert Insert(q, f)[1..] == q;
    }
  }

  /** A submission that fails leaves no trace on the list. */
  lemma {:induction false} DeleteUndoesInsert(q: seq<Flight>, f: Flight)
    requires !Has(q, f.id)
    ensures Delete(Insert(q, f), f.id) == q
    decreases |q|
  {
    InsertStep(q, f);
    if q != [] && !Before(f.deadline, q[0].deadline) {
      DeleteUndoesInsert(q[1..], f);
      assert Insert(q, f)[1..] == Insert(q[1..], f);
    }
  }

  // ---------------------------------------------------------------- timeouts

  /** The deadline that arm_timerfd_for_next_timeout arms, if any. */
  function NextToArm(q: seq<Flight>): seq<Timeval> {
    if q == [] || !IsSet(q[0].deadline) then []
    else if !q[0].timedOut then [q[0].deadline]
    else NextToArm(q[1..])
  }

  predicate Pending(f: Flight) {
    IsSet(f.deadline) && !f.timedOut
  }

  /** The scan stops at the first infinite transfer, yet finds the least pending deadline. */
  lemma {:induction false} NextToArmIsLeast(q: seq<Flight>)
    requires Sorted(q)
    ensures NextToArm(q) == [] <==> forall i :: 0 <= i < |q| ==> !Pending(q[i])
    ensures NextToArm(q) != [] ==> |NextToArm(q)| == 1
    ensures NextToArm(q) != [] ==> exists k :: 0 <= k < |q| && Pending(q[k]) && NextToArm(q)[0] == q[k].deadline
    ensures NextToArm(q) != []
            ==> forall i :: 0 <= i < |q| && Pending(q[i]) ==> !Before(q[i].deadline, NextToArm(q)[0])
    decreases |q|
  {
    if q != [] && !IsSet(q[0].deadline) {
      forall i | 0 <= i < |q| ensures !Pending(q[i]) {
        if i > 0 { InfiniteOnesComeLast(q, 0, i); }
      }
    } else if q != [] && !q[0].timedOut {
      assert Pending(q[0]);
    } else if q != [] {
      NextToArmIsLeast(q[1..]);
      if NextToArm(q[1..]) != [] {
        var k :| 0 <= k < |q[1..]| && Pending(q[1..][k]) && NextToArm(q[1..])[0] == q[1..][k].deadline;
        assert q[k + 1] == q[1..][k];
      }
      forall i | 0 <= i < |q| && Pending(q[i])
        ensures NextToArm(q) != [] && !Before(q[i].deadline, NextToArm(q)[0])
      {
        assert i > 0 && q[1..][i - 1] == q[i];
      }
    }
  }

  /** The scan of handle_timeouts_locked: it stops at the first deadline still to come. */
  function FlagExpired(q: seq<Flight>, now: Timeval): seq<Flight> {
    if q == [] || !IsSet(q[0].deadline) then q
    else if q[0].timedOut then [q[0]] + FlagExpired(q[1..], now)
    else if Later(q[0].deadline, now) then q
    else [q[0].(timedOut := true)] + FlagExpired(q[1..], now)
  }

  predicate Expired(f: Flight, now: Timeval) {
    IsSet(f.deadline) && !Later(f.deadline, now)
  }

  /** The reference: every transfer looked at. */
  function Flagged(f: Flight, now: Timeval): Flight {
    if Expired(f, now) then f.(timedOut := true) else f
  }

  /** The early-exit scan refines a full filter. */
  lemma {:induction false} ScanFlagsExactlyTheExpired(q: seq<Flight>, now: Timeval)
    requires Sorted(q)
    ensures |FlagExpired(q, now)| == |q|
    ensures forall i :: 0 <= i < |q| ==> FlagExpired(q, now)[i] == Flagged(q[i], now)
    decreases |q|
  {
    if q == [] {
    } else if !IsSet(q[0].deadline) || (!q[0].timedOut && Later(q[0].deadline, now)) {
      forall i | 0 <= i < |q| ensures q[i] == Flagged(q[i], now) {
        assert i > 0 ==> !Before(q[i].deadline, q[0].deadline);
      }
    } else {
      ScanFlagsExactlyTheExpired(q[1..], now);
      var r, t := FlagExpired(q, now), FlagExpired(q[1..], now);
      forall i | 0 <= i < |q| ensures r[i] == Flagged(q[i], now) {
        if i > 0 {
          assert r[i] == t[i - 1] && q[1..][i - 1] == q[i];
        }
      }
    }
  }

  lemma {:induction false} FlaggingKeepsIds(q: seq<Flight>, now: Timeval, id: nat)
    ensures Has(FlagExpired(q, now), id) <==> Has(q, id)
    decreases |q|
  {
    if q != [] {
      FlaggingKeepsIds(q[1..], now, id);
      if FlagExpired(q, now) != q {
        assert FlagExpired(q, now)[1..] == FlagExpired(q[1..], now);
      }
    }
  }

  lemma {:induction false} FlaggingKeepsDistinct(q: seq<Flight>, now: Timeval)
    requires Distinct(q)
    ensures Distinct(FlagExpired(q, now))
    decreases |q|
  {
    if q != [] && FlagExpired(q, now) != q {
      FlaggingKeepsDistinct(q[1..], now);
      FlaggingKeepsIds(q[1..], now, q[0].id);
      assert FlagExpired(q, now)[1..] == FlagExpired(q[1..], now);
    }
  }

  lemma FlaggingKeepsSorted(q: seq<Flight>, now: Timeval)
    requires Sorted(q)
    ensures Sorted(FlagExpired(q, now))
  {
    ScanFlagsExactlyTheExpired(q, now);
    var r := FlagExpired(q, now);
    forall i, j | 0 <= i < j < |r| ensures !Before(r[j].deadline, r[i].deadline) {
      assert r[i] == Flagged(q[i], now) && r[j] == Flagged(q[j], now);
    }
  }

  // ---------------------------------------------------------------- what a transfer looks like afterwards

  lemma {:induction false} GetAfterDelete(q: seq<Flight>, id: nat, other: nat)
    requires Distinct(q) && Has(q, other) && other != id
    ensures Has(Delete(q, id), other) && Get(Delete(q, id), other) == Get(q, other)
    decreases |q|
  {
    HasAfterDelete(q, id, other);
    if q[0].id != id && q[0].id != other {
      GetAfterDelete(q[1..], id, other);
      assert Delete(q, id)[1..] == Delete(q[1..], id);
    }
  }

  lemma {:induction false} GetAfterInsert(q: seq<Flight>, f: Flight, id: nat)
    requires !Has(q, f.id) && (id == f.id || Has(q, id))
    ensures Has(Insert(q, f), id) && Get(Insert(q, f), id) == if id == f.id then f else Get(q, id)
    decreases |q|
  {
    HasAfterInsert(q, f, id);
    InsertStep(q, f);
    if q != [] && !Before(f.deadline, q[0].deadline) {
      assert Insert(q, f)[1..] == Insert(q[1..], f);
      if q[0].id != id { GetAfterInsert(q[1..], f, id); }
    } else {
      assert Insert(q, f)[1..] == q;
    }
  }
}
