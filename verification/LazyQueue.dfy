/** The lazy priority queue: two rotating heaps ordered by upper estimates of the
    priorities, whose items are compared by actual priority only when popped.
 */
module LazyQueueModel {
  import opened Common
  import opened Heap
  import opened SStackModel
  import opened QueueView
  import opened QueueEmission
  import HeapOps

  class LazyQueue {
    const reports: Reports
    const popQueue: SStack
    const period: int
    var queue0: SStack
    var queue1: SStack
    var maxUntil: int
    var indexOffset: nat
    var lastRefresh1: int
    var lastRefresh2: int
    ghost var Repr: set<object>

    ghost predicate Structure()
      reads this, Repr
    {
      && this !in Repr && reports in Repr
      && queue0 in Repr && queue1 in Repr && popQueue in Repr
      && queue0.Repr <= Repr && queue1.Repr <= Repr && popQueue.Repr <= Repr
      && queue0 != queue1 && queue0 != popQueue && queue1 != popQueue
      && queue0.Repr !! queue1.Repr && queue0.Repr !! popQueue.Repr && queue1.Repr !! popQueue.Repr
      && queue0.Shape() && queue1.Shape() && popQueue.Shape()
      && queue0.reports == reports && queue1.reports == reports && popQueue.reports == null
      && indexOffset <= 1 && queue0.tag == indexOffset && queue1.tag == 1 - indexOffset
    }

    ghost function Held(): View
      reads this, queue0, queue1, popQueue
    {
      View(queue0.items, queue1.items, popQueue.items)
    }

    /** Holds throughout, also while items are in `popQueue`. */
    ghost predicate Core()
      reads this, Repr
    {
      Structure() && Good(Held(), reports.last, indexOffset)
    }

    /** Between calls nothing is left in `popQueue`. */
    ghost predicate Valid()
      reads this, Repr
    {
      Core() && popQueue.items == []
    }

    /** The literal and the first `Reset`. */
    constructor (now: int, period: int)
      ensures Valid() && fresh(Repr) && QueuedIds(Held()) == {} && this.period == period
      ensures lastRefresh1 == now && lastRefresh2 == now
    {
      hide SStack.Shape, Good, DistinctIds, Indexed, IdsOf;
      EmptyGood();
      var r := new Reports();
      var p := new SStack(0, null);
      var a := new SStack(0, r);
      var b := new SStack(1, r);
      reports, popQueue, queue0, queue1, this.period := r, p, a, b, period;
      lastRefresh1, lastRefresh2, maxUntil, indexOffset := now, now, 0, 0;
      Repr := {r, p, a, b} + a.Repr + b.Repr + p.Repr;
      new;
      assert Structure();
      assert Held() == View([], [], []);
    }

    /** `heap.Push` into the newer queue. */
    method Insert(x: Item)
      requires Core() && x.id !in QueuedIds(Held()) && x.id !in IdsOf(Held().pq)
      modifies this`Repr, Repr
      ensures Core() && fresh(Repr - old(Repr))
      ensures Held() == old(Held()).(q1 := Pushed(old(Held().q1), x))
    {
      hide SStack.Shape, Pushed, Good, OthersKept, DistinctIds, Indexed, IdsOf, HeapOf;
      ghost var v, last := Held(), reports.last;
      assert queue1.Valid() by { Parts(v, last, indexOffset); queue1.SizeOf(); }
      HeapOps.Push(queue1, x);
      Repr := Repr + queue1.Repr;
      assert Structure();
      assert Held() == v.(q1 := Pushed(v.q1, x));
      InsertGood(v, x, last, reports.last, indexOffset);
    }

    /** `heap.Pop` of the older queue. */
    method TakeOld() returns (x: Item)
      requires Core() && Held().q0 != []
      modifies Repr
      ensures Core() && x == old(Held().q0[0])
      ensures Held() == old(Held()).(q0 := Popped(old(Held().q0)))
    {
      hide SStack.Shape, Popped, Good, OthersKept, DistinctIds, Indexed, IdsOf, HeapOf;
      ghost var v, last := Held(), reports.last;
      assert queue0.Valid() by { Parts(v, last, indexOffset); queue0.SizeOf(); }
      x := HeapOps.Pop(queue0);
      assert Structure();
      assert Held() == v.(q0 := Popped(v.q0));
      PopGood(v, 0, last, reports.last, indexOffset);
    }

    /** `heap.Pop` of the newer queue. */
    method TakeNew() returns (x: Item)
      requires Core() && Held().q1 != []
      modifies Repr
      ensures Core() && x == old(Held().q1[0])
      ensures Held() == old(Held()).(q1 := Popped(old(Held().q1)))
    {
      hide SStack.Shape, Popped, Good, OthersKept, DistinctIds, Indexed, IdsOf, HeapOf;
      ghost var v, last := Held(), reports.last;
      assert queue1.Valid() by { Parts(v, last, indexOffset); queue1.SizeOf(); }
      x := HeapOps.Pop(queue1);
      assert Structure();
      assert Held() == v.(q1 := Popped(v.q1));
      PopGood(v, 1, last, reports.last, indexOffset);
    }

    /** `heap.Remove` from the older queue. */
    method RemoveOld(i: nat) returns (x: Item)
      requires Core() && i < |Held().q0|
      modifies Repr
      ensures Core() && x == old(Held().q0[i])
      ensures Held() == old(Held()).(q0 := Removed(old(Held().q0), i))
      ensures x.id in reports.last && reports.last[x.id] == -1
    {
      hide SStack.Shape, Removed, Good, OthersKept, DistinctIds, Indexed, IdsOf, HeapOf;
      ghost var v, last := Held(), reports.last;
      assert queue0.Valid() by { Parts(v, last, indexOffset); queue0.SizeOf(); }
      x := HeapOps.Remove(queue0, i);
      assert Structure();
      assert Held() == v.(q0 := Removed(v.q0, i));
      RemoveGood(v, 0, i, last, reports.last, indexOffset);
    }

    /** `heap.Remove` from the newer queue. */
    method RemoveNew(i: nat) returns (x: Item)
      requires Core() && i < |Held().q1|
      modifies Repr
      ensures Core() && x == old(Held().q1[i])
      ensures Held() == old(Held()).(q1 := Removed(old(Held().q1), i))
      ensures x.id in reports.last && reports.last[x.id] == -1
    {
      hide SStack.Shape, Removed, Good, OthersKept, DistinctIds, Indexed, IdsOf, HeapOf;
      ghost var v, last := Held(), reports.last;
      assert queue1.Valid() by { Parts(v, last, indexOffset); queue1.SizeOf(); }
      x := HeapOps.Remove(queue1, i);
      assert Structure();
      assert Held() == v.(q1 := Removed(v.q1, i));
      RemoveGood(v, 1, i, last, reports.last, indexOffset);
    }

    /** `heap.Push` into the queue of actual priorities. */
    method Hold(x: Item)
      requires Core() && x.id !in QueuedIds(Held()) && x.id !in IdsOf(Held().pq)
      modifies this`Repr, Repr
      ensures Core() && fresh(Repr - old(Repr))
      ensures Held() == old(Held()).(pq := Pushed(old(Held().pq), x))
    {
      hide SStack.Shape, Pushed, Good, OthersKept, DistinctIds, Indexed, IdsOf, HeapOf;
      ghost var v, last := Held(), reports.last;
      assert popQueue.Valid() by { Parts(v, last, indexOffset); popQueue.SizeOf(); }
      HeapOps.Push(popQueue, x);
      Repr := Repr + popQueue.Repr;
      assert Structure();
      assert Held() == v.(pq := Pushed(v.pq, x));
      HoldPush(v, x, last, indexOffset);
    }

    /** `heap.Pop` of the queue of actual priorities. */
    method Release() returns (x: Item)
      requires Core() && Held().pq != []
      modifies Repr
      ensures Core() && x == old(Held().pq[0])
      ensures Held() == old(Held()).(pq := Popped(old(Held().pq)))
    {
      hide SStack.Shape, Popped, Good, OthersKept, DistinctIds, Indexed, IdsOf, HeapOf;
      ghost var v, last := Held(), reports.last;
      assert popQueue.Valid() by { Parts(v, last, indexOffset); popQueue.SizeOf(); }
      x := HeapOps.Pop(popQueue);
      assert Structure();
      assert Held() == v.(pq := Popped(v.pq));
      HoldPop(v, last, indexOffset);
    }

    method Push(id: nat, maxPriority: (nat, int) -> int)
      requires Valid() && id !in QueuedIds(Held())
      modifies this`Repr, Repr
      ensures Valid() && fresh(Repr - old(Repr))
      ensures Held() == old(Held()).(q1 := Pushed(old(Held().q1), Item(id, maxPriority(id, maxUntil))))
    {
      Insert(Item(id, maxPriority(id, maxUntil)));
    }

    /** `peekIndex`, by the roots of the two heaps. */
    method PeekIndex() returns (k: int)
      requires Core()
      ensures Peeked(Held(), k)
    {
      hide SStack.Shape, Good, Peeked;
      var n0 := queue0.Len();
      var n1 := queue1.Len();
      if n0 != 0 {
        k := 0;
        if n1 != 0 {
          var x0 := queue0.First();
          var x1 := queue1.First();
          if x1.pri > x0.pri { k := 1; }
        }
      } else {
        k := if n1 != 0 then 1 else -1;
      }
      RootsDecide(Held(), reports.last, indexOffset, k);
    }

    /** The last loop of `MultiPop`: ranked items go back into the newer queue. */
    method Return(maxPriority: (nat, int) -> int)
      requires Core()
      modifies this`Repr, Repr
      ensures Core() && fresh(Repr - old(Repr)) && Held().pq == []
      ensures Returning(old(Held()), Held(), Until(maxPriority, maxUntil))
    {
      hide SStack.Shape, Good, Pushed, Popped, IdsOf;
      ghost var w := Held();
      ghost var estimate := Until(maxPriority, maxUntil);
      var n := popQueue.Len();
      while n != 0
        invariant Core() && fresh(Repr - old(Repr)) && n == |Held().pq|
        invariant Returning(w, Held(), estimate)
        decreases n
      {
        ReturnOne(w, Held(), estimate, reports.last, indexOffset);
        var x := Release();
        Insert(Item(x.id, maxPriority(x.id, maxUntil)));
        n := popQueue.Len();
      }
    }

    /** The callback pushes what it wants to push. */
    method Call(priority: nat -> int, maxPriority: (nat, int) -> int, cb: Callback, ghost v0: View, out: seq<Item>)
      requires Core() && Calling(v0, Held(), out, priority, Until(maxPriority, maxUntil), cb, 0)
      requires Proper(QueuedIds(v0), cb)
      modifies this`Repr, Repr
      ensures Core() && fresh(Repr - old(Repr)) && Emitting(v0, Held(), out, priority, Until(maxPriority, maxUntil), cb)
      ensures Held().pq == old(Held()).pq && (cb.pushes(out) == [] ==> Held() == old(Held()))
    {
      hide SStack.Shape, Good, Pushed, IdsOf, QueuedIds, Emitting, Calling, Proper;
      ghost var estimate := Until(maxPriority, maxUntil);
      var ids := cb.pushes(out);
      for j := 0 to |ids|
        invariant Core() && fresh(Repr - old(Repr)) && Calling(v0, Held(), out, priority, estimate, cb, j)
        invariant Held().pq == old(Held()).pq && (j == 0 ==> Held() == old(Held()))
      {
        CallPush(v0, Held(), out, priority, estimate, cb, j, reports.last, indexOffset);
        Insert(Item(ids[j], maxPriority(ids[j], maxUntil)));
      }
      CallEnd(v0, Held(), out, priority, estimate, cb);
    }

    /** Does the best ranked item exceed all estimates? */
    method Exceeds(next: int) returns (r: bool)
      requires Core() && Peeked(Held(), next) && Held().pq != []
      ensures r <==> forall x | x in Held().q0 || x in Held().q1 :: x.pri < Held().pq[0].pri
      ensures !r ==> next != -1
    {
      hide SStack.Shape, Good;
      r := true;
      if next != -1 {
        var p := popQueue.First();
        var top;
        if next == 0 { top := queue0.First(); } else { top := queue1.First(); }
        r := top.pri < p.pri;
      }
    }

    /** The best ranked item is passed to the callback. */
    method PassOn(priority: nat -> int, maxPriority: (nat, int) -> int, cb: Callback, ghost v0: View, out0: seq<Item>)
      returns (out: seq<Item>)
      requires Core() && Emitting(v0, Held(), out0, priority, Until(maxPriority, maxUntil), cb) && Proper(QueuedIds(v0), cb)
      requires Held().pq != [] && forall x | x in Held().q0 || x in Held().q1 :: x.pri < Held().pq[0].pri
      modifies this`Repr, Repr
      ensures Core() && fresh(Repr - old(Repr)) && Emitting(v0, Held(), out, priority, Until(maxPriority, maxUntil), cb)
      ensures out == out0 + [old(Held()).pq[0]] && |Held().pq| == |old(Held()).pq| - 1
      ensures cb.pushes(out) == [] ==> Held().q0 == old(Held()).q0 && Held().q1 == old(Held()).q1
    {
      hide SStack.Shape, Good, Popped, IdsOf, QueuedIds, Emitting, Calling, Proper;
      EmitTop(v0, Held(), out0, priority, Until(maxPriority, maxUntil), cb, reports.last, indexOffset);
      PopLength(Held().pq);
      var x := Release();
      out := out0 + [x];
      Call(priority, maxPriority, cb, v0, out);
    }

    /** The inner loop of `MultiPop`: pass on ranked items while they exceed all estimates. */
    method Emit(priority: nat -> int, maxPriority: (nat, int) -> int, cb: Callback, ghost limit: nat, ghost v0: View,
                out0: seq<Item>)
      returns (out: seq<Item>, stopped: bool, next: int)
      requires Core() && Emitting(v0, Held(), out0, priority, Until(maxPriority, maxUntil), cb) && Running(out0, cb)
      requires Proper(QueuedIds(v0), cb) && Settles(cb, limit)
      modifies this`Repr, Repr
      ensures Core() && fresh(Repr - old(Repr)) && Emitting(v0, Held(), out, priority, Until(maxPriority, maxUntil), cb)
      ensures stopped ==> Stopped(out, cb)
      ensures !stopped ==> Running(out, cb) && Peeked(Held(), next) && (next == -1 ==> Held().pq == [])
      ensures !stopped ==>
        || Todo(limit, out) < Todo(limit, out0)
        || (Todo(limit, out) == Todo(limit, out0) && Held().q0 == old(Held()).q0 && Held().q1 == old(Held()).q1)
    {
      hide SStack.Shape, Good, Popped, IdsOf, QueuedIds, Emitting, Calling, Proper, Running, Stopped;
      ghost var estimate := Until(maxPriority, maxUntil);
      out, stopped := out0, false;
      next := PeekIndex();
      var n := popQueue.Len();
      while n != 0
        invariant Core() && fresh(Repr - old(Repr)) && Emitting(v0, Held(), out, priority, estimate, cb) && n == |Held().pq|
        invariant Running(out, cb) && Peeked(Held(), next)
        invariant
          || Todo(limit, out) < Todo(limit, out0)
          || (Todo(limit, out) == Todo(limit, out0) && Held().q0 == old(Held()).q0 && Held().q1 == old(Held()).q1)
        decreases Todo(limit, out), n
      {
        var exceeds := Exceeds(next);
        if !exceeds { return; }
        Continue(out, Held().pq[0], cb);
        out := PassOn(priority, maxPriority, cb, v0, out);
        if !cb.more(out) { return out, true, next; }
        next := PeekIndex();
        n := popQueue.Len();
      }
    }

    /** The top of one queue is taken out and ranked by its actual priority. */
    method Rank(next: int, priority: nat -> int, ghost estimate: nat -> int, ghost cb: Callback, ghost v0: View,
                ghost out: seq<Item>)
      requires Core() && Emitting(v0, Held(), out, priority, estimate, cb) && next != -1 && Peeked(Held(), next)
      modifies this`Repr, Repr
      ensures Core() && fresh(Repr - old(Repr)) && Emitting(v0, Held(), out, priority, estimate, cb)
      ensures |Held().q0| + |Held().q1| == old(|Held().q0| + |Held().q1|) - 1
    {
      hide SStack.Shape, Good, Popped, Pushed, IdsOf, Emitting;
      var x;
      if next == 0 {
        EmitTake(v0, Held(), 0, out, priority, estimate, cb, reports.last, indexOffset);
        x := TakeOld();
      } else {
        EmitTake(v0, Held(), 1, out, priority, estimate, cb, reports.last, indexOffset);
        x := TakeNew();
      }
      Hold(Item(x.id, priority(x.id)));
    }

    /** Items by actual priority, until the callback has enough; it may push items while it is
        called, as long as it does not do so for ever. */
    method MultiPop(priority: nat -> int, maxPriority: (nat, int) -> int, cb: Callback, ghost limit: nat)
      returns (out: seq<Item>)
      requires Valid() && Proper(QueuedIds(Held()), cb) && Settles(cb, limit)
      modifies this`Repr, Repr
      ensures Valid() && fresh(Repr - old(Repr))
      ensures Emitted(old(Held()), Held(), out, priority, Until(maxPriority, maxUntil), cb)
      ensures Stopped(out, cb) || (Running(out, cb) && QueuedIds(Held()) == {})
    {
      hide SStack.Shape, Good, IdsOf, QueuedIds, Emitting, Running, Stopped, Emitted, Returning, Peeked, Proper, Settles;
      out := [];
      RunningStart(cb);
      ghost var v0, estimate := Held(), Until(maxPriority, maxUntil);
      EmitStart(v0, priority, estimate, cb);
      var next := PeekIndex();
      while next != -1
        invariant Core() && fresh(Repr - old(Repr)) && Emitting(v0, Held(), out, priority, estimate, cb)
        invariant Running(out, cb) && Peeked(Held(), next) && (next == -1 ==> Held().pq == [])
        decreases Todo(limit, out), |Held().q0| + |Held().q1|
      {
        Rank(next, priority, estimate, cb, v0, out);
        var stopped;
        out, stopped, next := Emit(priority, maxPriority, cb, limit, v0, out);
        if stopped {
          ghost var w := Held();
          Return(maxPriority);
          EmitEnd(v0, w, Held(), out, priority, estimate, cb);
          return;
        }
      }
      EmitAll(v0, Held(), out, priority, estimate, cb);
    }

    /** `Pop` keeps the first item it is passed. */
    method Pop(priority: nat -> int, maxPriority: (nat, int) -> int) returns (r: Option<Item>)
      requires Valid()
      modifies this`Repr, Repr
      ensures Valid() && fresh(Repr - old(Repr))
      ensures r.None? <==> old(QueuedIds(Held())) == {}
      ensures r.None? ==> QueuedIds(Held()) == {}
      ensures r.Some? ==> Best(old(Held()), Held(), r.value, priority)
    {
      hide SStack.Shape, Good, IdsOf, Running, Stopped, Emitted, Best;
      ghost var v0 := Held();
      QuietProper(QueuedIds(v0), KEEP_FIRST);
      var out := MultiPop(priority, maxPriority, KEEP_FIRST, 0);
      PopOne(v0, Held(), out, priority, Until(maxPriority, maxUntil));
      r := if out == [] then None else Some(out[0]);
    }

    /** The queues change places, and with them the parity of their indices. */
    method Turn()
      requires Core()
      modifies this
      ensures Core() && Repr == old(Repr) && popQueue.items == old(popQueue.items)
      ensures Held() == var v := old(Held()); View(v.q1, v.q0, v.pq)
      ensures maxUntil == old(maxUntil) && lastRefresh1 == old(lastRefresh1) && lastRefresh2 == old(lastRefresh2)
    {
      hide SStack.Shape, Good;
      Rotate(Held(), reports.last, indexOffset);
      queue0, queue1 := queue1, queue0;
      indexOffset := 1 - indexOffset;
    }

    /** `refresh`: re-estimate the older queue and exchange the two. */
    method RefreshAt(now: int, maxPriority: (nat, int) -> int)
      requires Valid()
      modifies this, Repr
      ensures Valid() && fresh(Repr - old(Repr)) && maxUntil == now + 2 * period
      ensures Refreshed(old(Held()), Held(), Until(maxPriority, now + period))
      ensures lastRefresh1 == old(lastRefresh1) && lastRefresh2 == old(lastRefresh2)
    {
      hide SStack.Shape, Good, Pushed, Popped, IdsOf, Moving, Refreshed;
      maxUntil := now + period;
      ghost var w, estimate := Held(), Until(maxPriority, maxUntil);
      MoveStart(w, estimate);
      var n := queue0.Len();
      while n != 0
        invariant Valid() && fresh(Repr - old(Repr)) && n == |Held().q0| && Moving(w, Held(), estimate)
        invariant maxUntil == now + period
        invariant lastRefresh1 == old(lastRefresh1) && lastRefresh2 == old(lastRefresh2)
        decreases n
      {
        MoveOne(w, Held(), estimate, reports.last, indexOffset);
        var x := TakeOld();
        Push(x.id, maxPriority);
        n := queue0.Len();
      }
      MoveEnd(w, Held(), estimate);
      Turn();
      maxUntil := maxUntil + period;
    }

    /** `Refresh`: until the last refresh but one is less than two periods ago. */
    method Refresh(now: int, maxPriority: (nat, int) -> int)
      requires Valid() && period > 0
      modifies this, Repr
      ensures Valid() && fresh(Repr - old(Repr)) && now - lastRefresh2 < 2 * period
      ensures old(now - lastRefresh2 < 2 * period) ==>
        Held() == old(Held()) && maxUntil == old(maxUntil) && lastRefresh1 == old(lastRefresh1) && lastRefresh2 == old(lastRefresh2)
      ensures old(now - lastRefresh2 >= 2 * period) ==> maxUntil == now + 2 * period && lastRefresh1 == now
      ensures old(now - lastRefresh2 >= 2 * period && now - lastRefresh1 < 2 * period) ==>
        Refreshed(old(Held()), Held(), Until(maxPriority, now + period)) && lastRefresh2 == old(lastRefresh1)
      ensures old(now - lastRefresh2 >= 2 * period && now - lastRefresh1 >= 2 * period) ==>
        AllNew(old(Held()), Held(), Until(maxPriority, now + period)) && lastRefresh2 == now
    {
      hide SStack.Shape, Good, IdsOf, Refreshed, AllNew;
      ghost var estimate, first, rounds := Until(maxPriority, now + period), Held(), 0;
      while now - lastRefresh2 >= 2 * period
        invariant Valid() && fresh(Repr - old(Repr)) && 0 <= rounds <= 2
        invariant rounds == 0 ==> Held() == old(Held()) && maxUntil == old(maxUntil)
        invariant rounds == 0 ==> lastRefresh1 == old(lastRefresh1) && lastRefresh2 == old(lastRefresh2)
        invariant rounds > 0 ==> maxUntil == now + 2 * period && lastRefresh1 == now && old(now - lastRefresh2 >= 2 * period)
        invariant rounds == 1 ==> Refreshed(old(Held()), Held(), estimate) && lastRefresh2 == old(lastRefresh1)
        invariant rounds == 2 ==> AllNew(old(Held()), Held(), estimate) && lastRefresh2 == now && old(now - lastRefresh1 >= 2 * period)
        decreases 2 - rounds
      {
        first := Held();
        RefreshAt(now, maxPriority);
        if rounds == 1 { RefreshedTwice(old(Held()), first, Held(), estimate); }
        lastRefresh2 := lastRefresh1;
        lastRefresh1 := now;
        rounds := rounds + 1;
      }
    }

    /** `Remove`: the lowest bit of the index names the queue, the rest the position in it. */
    method Remove(index: int) returns (r: Option<nat>)
      requires Valid() && (index >= 0 ==> IsIndex(Held(), indexOffset, index))
      modifies Repr
      ensures Valid()
      ensures index < 0 ==> r == None && Held() == old(Held())
      ensures index >= 0 ==> r.Some? && r.value == old(ItemAt(Held(), indexOffset, index).id) && TakenOut(old(Held()), Held(), r.value)
      ensures index >= 0 ==> r.value in reports.last && reports.last[r.value] == -1
      ensures forall id | id in old(QueuedIds(Held())) && id in old(reports.last) && old(reports.last)[id] == index :: r == Some(id)
    {
      hide SStack.Shape, Good, IdsOf, QueuedIds, Removed, TakenOut;
      ghost var v, last := Held(), reports.last;
      forall id | id in QueuedIds(v) && id in last && last[id] == index
        ensures index >= 0 && ItemAt(v, indexOffset, index).id == id
      {
        LastIndex(v, last, indexOffset, id);
      }
      if index < 0 { return None; }
      var x;
      if index % 2 == indexOffset {
        TakeOut(v, 0, last, indexOffset, index / 2);
        x := RemoveOld(index / 2);
      } else {
        TakeOut(v, 1, last, indexOffset, index / 2);
        x := RemoveNew(index / 2);
      }
      r := Some(x.id);
    }

    /** `Update`: the item at `index` gets a new estimate. */
    method Update(index: int, maxPriority: (nat, int) -> int)
      requires Valid() && IsIndex(Held(), indexOffset, index)
      modifies this`Repr, Repr
      ensures Valid() && fresh(Repr - old(Repr))
      ensures var id := old(ItemAt(Held(), indexOffset, index).id);
        forall x :: x in Held().q0 || x in Held().q1 <==>
          ((x in old(Held()).q0 || x in old(Held()).q1) && x.id != id) || x == Item(id, maxPriority(id, maxUntil))
    {
      hide SStack.Shape, Good, IdsOf, Pushed;
      var r := Remove(index);
      Parts(Held(), reports.last, indexOffset);
      PushFacts(Held().q1, Item(r.value, maxPriority(r.value, maxUntil)));
      Push(r.value, maxPriority);
    }
  }

  method NewLazyQueue(now: int, period: int, maxPriority: (nat, int) -> int) returns (q: LazyQueue)
    ensures q.Valid() && fresh(q) && fresh(q.Repr) && QueuedIds(q.Held()) == {} && q.period == period
    ensures q.lastRefresh1 == now && q.lastRefresh2 == now && q.maxUntil == now + 2 * period
  {
    hide SStack.Shape, Good, IdsOf;
    q := new LazyQueue(now, period);
    q.RefreshAt(now, maxPriority);
  }
}
