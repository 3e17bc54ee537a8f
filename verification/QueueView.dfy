/** What a lazy queue holds, as values: the two rotating heaps, the heap of items taken
    out to be compared by actual priority, and the last index reported for each item.
 */
module QueueView {
  import opened Heap
  import opened SStackModel

  datatype View = View(q0: seq<Item>, q1: seq<Item>, pq: seq<Item>)

  ghost function QueuedIds(v: View): set<nat> {
    IdsOf(v.q0) + IdsOf(v.q1)
  }

  ghost predicate HeapOf(s: seq<Item>) {
    IsHeap(s, |s|) && DistinctIds(s)
  }

  /** Items in neither queue were last reported with index -1. */
  ghost predicate Gone(v: View, last: map<nat, int>) {
    forall id | id in last && id !in QueuedIds(v) :: last[id] == -1
  }

  /** Three heaps without a common item; `offset` says which queue reports even indices. */
  ghost predicate Good(v: View, last: map<nat, int>, offset: nat) {
    && offset <= 1
    && HeapOf(v.q0) && HeapOf(v.q1) && HeapOf(v.pq)
    && IdsOf(v.q0) !! IdsOf(v.q1) && IdsOf(v.q0) !! IdsOf(v.pq) && IdsOf(v.q1) !! IdsOf(v.pq)
    && Indexed(v.q0, last, offset) && Indexed(v.q1, last, 1 - offset)
    && Gone(v, last)
  }

  lemma EmptyGood()
    ensures Good(View([], [], []), map[], 0) && QueuedIds(View([], [], [])) == {}
  {
  }

  lemma Parts(v: View, last: map<nat, int>, offset: nat)
    requires Good(v, last, offset)
    ensures offset <= 1 && HeapOf(v.q0) && HeapOf(v.q1) && HeapOf(v.pq)
    ensures DistinctIds(v.q0) && DistinctIds(v.q1) && DistinctIds(v.pq)
    ensures IdsOf(v.q0) !! IdsOf(v.q1) && IdsOf(v.q0) !! IdsOf(v.pq) && IdsOf(v.q1) !! IdsOf(v.pq)
    ensures Indexed(v.q0, last, offset) && Indexed(v.q1, last, 1 - offset)
  {
  }

  // ---------- how the three heaps change ----------

  lemma IndexedKept(s: seq<Item>, last: map<nat, int>, last': map<nat, int>, tag: nat, ids: set<nat>)
    requires Indexed(s, last, tag) && OthersKept(last, last', ids) && IdsOf(s) !! ids
    ensures Indexed(s, last', tag)
  {
    forall i | 0 <= i < |s| ensures s[i].id in last' && last'[s[i].id] == Virtual(tag, i) {
      assert s[i].id in IdsOf(s);
    }
  }

  /** The items that leave `s` for `s'` were reported gone, and no others are concerned. */
  ghost predicate Reported(s: seq<Item>, s': seq<Item>, last: map<nat, int>, last': map<nat, int>) {
    && OthersKept(last, last', IdsOf(s) + IdsOf(s'))
    && forall id | id in IdsOf(s) && id !in IdsOf(s') :: id in last' && last'[id] == -1
  }

  /** The older queue is 0, the newer one 1. */
  ghost function Queue(v: View, k: nat): seq<Item> {
    if k == 0 then v.q0 else v.q1
  }

  ghost function With(v: View, k: nat, s: seq<Item>): View {
    if k == 0 then v.(q0 := s) else v.(q1 := s)
  }

  /** Which indices queue `k` reports: even ones or odd ones. */
  ghost function Tag(offset: nat, k: nat): nat
    requires offset <= 1
  {
    if k == 0 then offset else 1 - offset
  }

  lemma Change(v: View, k: nat, s': seq<Item>, last: map<nat, int>, last': map<nat, int>, offset: nat)
    requires Good(v, last, offset) && k <= 1 && HeapOf(s') && Indexed(s', last', Tag(offset, k))
    requires IdsOf(s') !! IdsOf(Queue(v, 1 - k)) && IdsOf(s') !! IdsOf(v.pq)
    requires Reported(Queue(v, k), s', last, last')
    ensures Good(With(v, k, s'), last', offset)
  {
    hide HeapOf, IdsOf, Indexed;
    IndexedKept(Queue(v, 1 - k), last, last', Tag(offset, 1 - k), IdsOf(Queue(v, k)) + IdsOf(s'));
  }

  lemma InsertGood(v: View, x: Item, last: map<nat, int>, last': map<nat, int>, offset: nat)
    requires Good(v, last, offset) && x.id !in QueuedIds(v) && x.id !in IdsOf(v.pq)
    requires DistinctIds(Pushed(v.q1, x)) && Indexed(Pushed(v.q1, x), last', 1 - offset)
    requires OthersKept(last, last', IdsOf(v.q1) + {x.id})
    ensures Good(v.(q1 := Pushed(v.q1, x)), last', offset)
  {
    hide IdsOf, IsHeap, Pushed, Indexed, DistinctIds, OthersKept;
    var s' := Pushed(v.q1, x);
    PushFacts(v.q1, x);
    assert IdsOf(v.q1) + IdsOf(s') == IdsOf(v.q1) + {x.id};
    Change(v, 1, s', last, last', offset);
  }

  lemma LoseGood(v: View, k: nat, s': seq<Item>, x: Item, last: map<nat, int>, last': map<nat, int>, offset: nat)
    requires Good(v, last, offset) && k <= 1 && HeapOf(s') && Indexed(s', last', Tag(offset, k))
    requires IdsOf(s') == IdsOf(Queue(v, k)) - {x.id} && x.id in last' && last'[x.id] == -1
    requires OthersKept(last, last', IdsOf(Queue(v, k)))
    ensures Good(With(v, k, s'), last', offset)
  {
    hide IdsOf, Indexed, OthersKept, HeapOf;
    assert IdsOf(Queue(v, k)) + IdsOf(s') == IdsOf(Queue(v, k));
    Change(v, k, s', last, last', offset);
  }

  lemma PopGood(v: View, k: nat, last: map<nat, int>, last': map<nat, int>, offset: nat)
    requires Good(v, last, offset) && k <= 1 && Queue(v, k) != []
    requires DistinctIds(Popped(Queue(v, k))) && Indexed(Popped(Queue(v, k)), last', Tag(offset, k))
    requires var x := Queue(v, k)[0]; x.id in last' && last'[x.id] == -1
    requires OthersKept(last, last', IdsOf(Queue(v, k)))
    ensures Good(With(v, k, Popped(Queue(v, k))), last', offset)
  {
    hide IdsOf, Indexed, OthersKept, IsHeap, DistinctIds, Popped;
    PopFacts(Queue(v, k));
    LoseGood(v, k, Popped(Queue(v, k)), Queue(v, k)[0], last, last', offset);
  }

  lemma RemoveGood(v: View, k: nat, i: nat, last: map<nat, int>, last': map<nat, int>, offset: nat)
    requires Good(v, last, offset) && k <= 1 && i < |Queue(v, k)|
    requires DistinctIds(Removed(Queue(v, k), i)) && Indexed(Removed(Queue(v, k), i), last', Tag(offset, k))
    requires var x := Queue(v, k)[i]; x.id in last' && last'[x.id] == -1
    requires OthersKept(last, last', IdsOf(Queue(v, k)))
    ensures Good(With(v, k, Removed(Queue(v, k), i)), last', offset)
  {
    hide IdsOf, Indexed, OthersKept, IsHeap, DistinctIds, Removed;
    RemoveFacts(Queue(v, k), i);
    LoseGood(v, k, Removed(Queue(v, k), i), Queue(v, k)[i], last, last', offset);
  }

  lemma HoldPush(v: View, x: Item, last: map<nat, int>, offset: nat)
    requires Good(v, last, offset) && x.id !in QueuedIds(v) && DistinctIds(Pushed(v.pq, x))
    ensures Good(v.(pq := Pushed(v.pq, x)), last, offset)
  {
    hide IdsOf, Indexed, IsHeap, DistinctIds, Pushed;
    PushFacts(v.pq, x);
  }

  lemma HoldPop(v: View, last: map<nat, int>, offset: nat)
    requires Good(v, last, offset) && v.pq != [] && DistinctIds(Popped(v.pq))
    ensures Good(v.(pq := Popped(v.pq)), last, offset)
  {
    hide IdsOf, Indexed, IsHeap, DistinctIds, Popped;
    PopFacts(v.pq);
  }

  lemma Rotate(v: View, last: map<nat, int>, offset: nat)
    requires Good(v, last, offset)
    ensures Good(View(v.q1, v.q0, v.pq), last, 1 - offset)
  {
  }

  // ---------- one item in or out of a heap ----------

  lemma WithoutAt(s: seq<Item>, i: nat)
    requires i < |s|
    ensures multiset(s) == multiset(s[..i] + s[i + 1..]) + multiset{s[i]}
  {
    assert s == s[..i] + [s[i]] + s[i + 1..];
  }

  lemma OthersAt(s: seq<Item>, i: nat, y: Item)
    requires DistinctIds(s) && i < |s|
    ensures y in s[..i] + s[i + 1..] <==> y in s && y.id != s[i].id
  {
    var t := s[..i] + s[i + 1..];
    if y in t {
      var k :| 0 <= k < |t| && t[k] == y;
      assert y == s[if k < i then k else k + 1];
    }
    if y in s && y.id != s[i].id {
      var k :| 0 <= k < |s| && s[k] == y;
      assert y == t[if k < i then k else k - 1];
    }
  }

  lemma SameMembers(s: seq<Item>, t: seq<Item>, y: Item)
    requires multiset(s) == multiset(t)
    ensures y in s <==> y in t
  {
    assert y in multiset(s) <==> y in multiset(t);
  }

  lemma Cancel(a: multiset<Item>, b: multiset<Item>, x: Item)
    requires a + multiset{x} == b + multiset{x}
    ensures a == b
  {
    assert a == a + multiset{x} - multiset{x};
    assert b == b + multiset{x} - multiset{x};
  }

  lemma DropIds(s: seq<Item>, s': seq<Item>, x: Item)
    requires DistinctIds(s) && multiset(s) == multiset(s') + multiset{x}
    ensures IdsOf(s') == IdsOf(s) - {x.id} && x in s && forall y :: y in s' <==> y in s && y.id != x.id
  {
    assert x in multiset(s);
    var i :| 0 <= i < |s| && s[i] == x;
    var t := s[..i] + s[i + 1..];
    WithoutAt(s, i);
    Cancel(multiset(s'), multiset(t), x);
    forall y ensures y in s' <==> y in s && y.id != x.id {
      OthersAt(s, i, y);
      SameMembers(s', t, y);
    }
  }

  lemma AddIds(s: seq<Item>, s': seq<Item>, x: Item)
    requires multiset(s') == multiset(s) + multiset{x}
    ensures IdsOf(s') == IdsOf(s) + {x.id} && forall y :: y in s' <==> y in s || y == x
  {
    forall y ensures y in s' <==> y in s || y == x {
      assert y in multiset(s') <==> y in multiset(s) || y == x;
    }
  }

  /** `heap.Push` of a new item. */
  lemma PushFacts(s: seq<Item>, x: Item)
    requires IsHeap(s, |s|)
    ensures IsHeap(Pushed(s, x), |Pushed(s, x)|) && |Pushed(s, x)| == |s| + 1
    ensures IdsOf(Pushed(s, x)) == IdsOf(s) + {x.id} && forall y :: y in Pushed(s, x) <==> y in s || y == x
  {
    hide IdsOf, IsHeap, Up;
    PushedHeap(s, x);
    AddIds(s, Pushed(s, x), x);
  }

  /** `heap.Pop`: the item with the greatest key. */
  lemma PopFacts(s: seq<Item>)
    requires HeapOf(s) && s != []
    ensures var r := Popped(s);
      && IsHeap(r, |r|) && |r| == |s| - 1 && IdsOf(r) == IdsOf(s) - {s[0].id} && s[0].id in IdsOf(s)
      && (forall y | y in r :: y in s) && forall y | y in s :: y.pri <= s[0].pri
  {
    PoppedHeap(s);
    DropIds(s, Popped(s), s[0]);
  }

  lemma PopLength(s: seq<Item>)
    requires s != []
    ensures |Popped(s)| == |s| - 1
  {
  }

  lemma RemoveFacts(s: seq<Item>, i: nat)
    requires HeapOf(s) && i < |s|
    ensures var r := Removed(s, i);
      && IsHeap(r, |r|) && |r| == |s| - 1 && IdsOf(r) == IdsOf(s) - {s[i].id} && s[i].id in IdsOf(s)
      && forall y :: y in r <==> y in s && y.id != s[i].id
  {
    hide Removed;
    RemovedHeap(s, i);
    DropIds(s, Removed(s, i), s[i]);
  }

  // ---------- popping by actual priority ----------

  /** Every stored estimate bounds the item's actual priority. */
  ghost predicate Bounded(v: View, priority: nat -> int) {
    forall x | x in v.q0 || x in v.q1 :: priority(x.id) <= x.pri
  }

  ghost predicate Exact(s: seq<Item>, priority: nat -> int) {
    forall x | x in s :: x.pri == priority(x.id)
  }

  ghost predicate Descending(s: seq<Item>) {
    forall i, j | 0 <= i < j < |s| :: s[i].pri >= s[j].pri
  }

  /** `k` names the queue with the greatest estimate, or is -1 when both are empty. */
  ghost predicate Peeked(v: View, k: int) {
    && (k == -1 || k == 0 || k == 1)
    && (k == -1 ==> v.q0 == [] && v.q1 == [])
    && (k == 0 ==> v.q0 != [] && forall x | x in v.q0 || x in v.q1 :: x.pri <= v.q0[0].pri)
    && (k == 1 ==> v.q1 != [] && forall x | x in v.q0 || x in v.q1 :: x.pri <= v.q1[0].pri)
  }

  /** Comparing the two roots is enough. */
  lemma RootsDecide(v: View, last: map<nat, int>, offset: nat, k: int)
    requires Good(v, last, offset)
    requires k == if v.q0 != [] && (v.q1 == [] || v.q1[0].pri <= v.q0[0].pri) then 0 else if v.q1 != [] then 1 else -1
    ensures Peeked(v, k)
  {
    forall x | x in v.q0 ensures x.pri <= v.q0[0].pri {
      var i :| 0 <= i < |v.q0| && v.q0[i] == x;
      RootGreatest(v.q0, |v.q0|, i);
    }
    forall x | x in v.q1 ensures x.pri <= v.q1[0].pri {
      var i :| 0 <= i < |v.q1| && v.q1[i] == x;
      RootGreatest(v.q1, |v.q1|, i);
    }
  }

  function Until(maxPriority: (nat, int) -> int, until: int): nat -> int {
    (id: nat) => maxPriority(id, until)
  }

  /** Ranked items go back with a new estimate; `w` is what was held when that began. */
  ghost predicate Returning(w: View, v: View, estimate: nat -> int) {
    && QueuedIds(v) + IdsOf(v.pq) == QueuedIds(w) + IdsOf(w.pq)
    && v.q0 == w.q0 && forall x | x in v.q1 :: x in w.q1 || x.pri == estimate(x.id)
  }

  lemma ReturnOne(w: View, v: View, estimate: nat -> int, last: map<nat, int>, offset: nat)
    requires Returning(w, v, estimate) && Good(v, last, offset) && v.pq != []
    ensures var x := Item(v.pq[0].id, estimate(v.pq[0].id));
      && Returning(w, View(v.q0, Pushed(v.q1, x), Popped(v.pq)), estimate)
      && x.id !in QueuedIds(v) && x.id !in IdsOf(Popped(v.pq)) && |Popped(v.pq)| == |v.pq| - 1
  {
    hide IdsOf, IsHeap, Popped, Pushed, Indexed, Gone, DistinctIds;
    PopFacts(v.pq);
    PushFacts(v.q1, Item(v.pq[0].id, estimate(v.pq[0].id)));
  }

  // ---------- refreshing ----------

  /** The older queue is emptied into the newer one, each item with a new estimate; `w` is
      what was held when that began. */
  ghost predicate Moving(w: View, v: View, estimate: nat -> int) {
    && v.pq == w.pq && QueuedIds(v) == QueuedIds(w) && (forall x | x in v.q0 :: x in w.q0)
    && forall x :: x in v.q1 <==> x in w.q1 || (x.id in IdsOf(w.q0) && x.id !in IdsOf(v.q0) && x.pri == estimate(x.id))
  }

  lemma MoveOne(w: View, v: View, estimate: nat -> int, last: map<nat, int>, offset: nat)
    requires Moving(w, v, estimate) && Good(v, last, offset) && v.q0 != []
    ensures var x := Item(v.q0[0].id, estimate(v.q0[0].id));
      && Moving(w, View(Popped(v.q0), Pushed(v.q1, x), v.pq), estimate)
      && x.id !in QueuedIds(v.(q0 := Popped(v.q0))) && x.id !in IdsOf(v.pq) && |Popped(v.q0)| == |v.q0| - 1
  {
    assert v.q0[0] in w.q0 && v.q0[0].id in IdsOf(w.q0);
    var x := Item(v.q0[0].id, estimate(v.q0[0].id));
    PopFacts(v.q0);
    PushFacts(v.q1, x);
    MovedMembers(w, v, estimate, x);
  }

  lemma MovedMembers(w: View, v: View, estimate: nat -> int, x: Item)
    requires Moving(w, v, estimate) && HeapOf(v.q0) && HeapOf(v.q1) && v.q0 != []
    requires x.id == v.q0[0].id && x.pri == estimate(x.id) && x.id in IdsOf(w.q0)
    ensures forall y :: y in Pushed(v.q1, x) <==>
      y in w.q1 || (y.id in IdsOf(w.q0) && y.id !in IdsOf(Popped(v.q0)) && y.pri == estimate(y.id))
  {
    hide IdsOf, IsHeap, Popped, Pushed, DistinctIds;
    PopFacts(v.q0);
    PushFacts(v.q1, x);
    assert forall y: Item :: y == x <==> y.id == x.id && y.pri == estimate(y.id);
  }

  /** After a refresh the older queue holds everything: the items of the newer one as they
      were, and the others with a new estimate. */
  ghost predicate Refreshed(w: View, v: View, estimate: nat -> int) {
    && v.q1 == [] && v.pq == w.pq && QueuedIds(v) == QueuedIds(w)
    && forall x :: x in v.q0 <==> x in w.q1 || (x.id in IdsOf(w.q0) && x.pri == estimate(x.id))
  }

  lemma MoveEnd(w: View, v: View, estimate: nat -> int)
    requires Moving(w, v, estimate) && v.q0 == []
    ensures Refreshed(w, View(v.q1, v.q0, v.pq), estimate)
  {
    assert IdsOf(v.q0) == {};
  }

  lemma MoveStart(w: View, estimate: nat -> int)
    ensures Moving(w, w, estimate)
  {
  }

  /** Every item has a new estimate. */
  ghost predicate AllNew(w: View, v: View, estimate: nat -> int) {
    && v.q1 == [] && v.pq == w.pq && QueuedIds(v) == QueuedIds(w)
    && forall x :: x in v.q0 <==> x.id in QueuedIds(w) && x.pri == estimate(x.id)
  }

  lemma RefreshedTwice(w: View, u: View, v: View, estimate: nat -> int)
    requires Refreshed(w, u, estimate) && Refreshed(u, v, estimate)
    ensures AllNew(w, v, estimate)
  {
    assert IdsOf(u.q1) == {};
  }

  // ---------- removing by index ----------

  /** `index` is the position of an item in one of the queues, as reported. */
  ghost predicate IsIndex(v: View, offset: nat, index: int) {
    index >= 0 && index / 2 < |if index % 2 == offset then v.q0 else v.q1|
  }

  ghost function ItemAt(v: View, offset: nat, index: int): Item
    requires IsIndex(v, offset, index)
  {
    (if index % 2 == offset then v.q0 else v.q1)[index / 2]
  }

  /** The last index reported for a queued item leads to that item. */
  lemma LastIndex(v: View, last: map<nat, int>, offset: nat, id: nat)
    requires Good(v, last, offset) && id in QueuedIds(v)
    ensures id in last && IsIndex(v, offset, last[id]) && ItemAt(v, offset, last[id]).id == id
  {
    hide HeapOf, Gone;
    if id in IdsOf(v.q0) {
      var x :| x in v.q0 && x.id == id;
      var i :| 0 <= i < |v.q0| && v.q0[i] == x;
    } else {
      var x :| x in v.q1 && x.id == id;
      var i :| 0 <= i < |v.q1| && v.q1[i] == x;
    }
  }

  /** The item `id` is gone, the others are as they were. */
  ghost predicate TakenOut(w: View, v: View, id: nat) {
    && v.pq == w.pq && id in QueuedIds(w) && QueuedIds(v) == QueuedIds(w) - {id}
    && forall x :: x in v.q0 || x in v.q1 <==> (x in w.q0 || x in w.q1) && x.id != id
  }

  lemma TakeOut(v: View, k: nat, last: map<nat, int>, offset: nat, i: nat)
    requires Good(v, last, offset) && k <= 1 && i < |Queue(v, k)|
    ensures TakenOut(v, With(v, k, Removed(Queue(v, k), i)), Queue(v, k)[i].id)
  {
    hide IsHeap, Removed, Indexed, Gone, DistinctIds;
    RemoveFacts(Queue(v, k), i);
    NotIn(Queue(v, 1 - k), Queue(v, k)[i].id);
  }

  lemma NotIn(s: seq<Item>, id: nat)
    ensures id !in IdsOf(s) ==> forall x | x in s :: x.id != id
  {
  }
}
