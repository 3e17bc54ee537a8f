/** Popping by actual priority, with a callback that may push items while it is called.

    What is held at any moment follows from the items passed to the callback so far and from
    what it pushed.  Each item passed on is the best of all that is held at that moment.
 */
module QueueEmission {
  import opened Heap
  import opened SStackModel
  import opened QueueView

  /** A callback, by the items it has been passed so far: the items it pushes before it returns,
      and whether it wants more. */
  datatype Callback = Callback(pushes: seq<Item> -> seq<nat>, more: seq<Item> -> bool)

  // ---------- what is held ----------

  ghost function Ids(ids: seq<nat>): set<nat> {
    set id | id in ids
  }

  /** What is held once the last item of `out` was taken, before the callback pushes. */
  ghost function Taken(held: set<nat>, out: seq<Item>, cb: Callback): set<nat>
    requires out != []
    decreases |out|, 0
  {
    Left(held, out[..|out| - 1], cb) - {out[|out| - 1].id}
  }

  /** What is held once the items of `out` were passed on, if `held` was before. */
  ghost function Left(held: set<nat>, out: seq<Item>, cb: Callback): set<nat>
    decreases |out|, 1
  {
    if out == [] then held else Taken(held, out, cb) + Ids(cb.pushes(out))
  }

  ghost predicate IsHeld(held: set<nat>, out: seq<Item>, cb: Callback, k: nat)
    requires k < |out|
  {
    out[k].id in Left(held, out[..k], cb)
  }

  /** Every item passed on was held. */
  ghost predicate Feasible(held: set<nat>, out: seq<Item>, cb: Callback) {
    forall k | 0 <= k < |out| :: IsHeld(held, out, cb, k)
  }

  ghost predicate IsBest(held: set<nat>, out: seq<Item>, cb: Callback, priority: nat -> int, k: nat)
    requires k < |out|
  {
    forall id | id in Left(held, out[..k], cb) :: priority(id) <= out[k].pri
  }

  /** Nothing that was held when an item was passed on is better than it. */
  ghost predicate Ranked(held: set<nat>, out: seq<Item>, cb: Callback, priority: nat -> int) {
    forall k | 0 <= k < |out| :: IsBest(held, out, cb, priority, k)
  }

  ghost predicate Distinct(ids: seq<nat>) {
    forall i, j | 0 <= i < j < |ids| :: ids[i] != ids[j]
  }

  /** The callback pushes only items that are not held, each once. */
  ghost predicate Proper(held: set<nat>, cb: Callback) {
    forall out | out != [] && Feasible(held, out, cb) ::
      Distinct(cb.pushes(out)) && Ids(cb.pushes(out)) !! Taken(held, out, cb)
  }

  /** After `limit` items the callback pushes nothing more, or stops. */
  ghost predicate Settles(cb: Callback, limit: nat) {
    forall out | |out| > limit :: cb.pushes(out) == [] || !cb.more(out)
  }

  ghost function Todo(limit: nat, out: seq<Item>): nat {
    if |out| < limit then limit - |out| else 0
  }

  /** Estimates bound priorities, also those of the items that the callback pushes. */
  ghost predicate Sure(v0: View, cb: Callback, priority: nat -> int, estimate: nat -> int) {
    Bounded(v0, priority) && forall out, id | id in cb.pushes(out) :: priority(id) <= estimate(id)
  }

  ghost predicate History(held: set<nat>, out: seq<Item>, cb: Callback, priority: nat -> int, sure: bool) {
    Exact(out, priority) && Feasible(held, out, cb) && (sure ==> Ranked(held, out, cb, priority))
  }

  lemma HistoryStart(held: set<nat>, cb: Callback, priority: nat -> int, sure: bool)
    ensures History(held, [], cb, priority, sure)
  {
  }

  lemma HistoryStep(held: set<nat>, out: seq<Item>, x: Item, cb: Callback, priority: nat -> int, sure: bool)
    requires History(held, out, cb, priority, sure) && x.id in Left(held, out, cb) && x.pri == priority(x.id)
    requires sure ==> forall id | id in Left(held, out, cb) :: priority(id) <= x.pri
    ensures History(held, out + [x], cb, priority, sure) && Taken(held, out + [x], cb) == Left(held, out, cb) - {x.id}
  {
    hide Left;
    var out' := out + [x];
    assert out'[..|out|] == out;
    forall k | 0 <= k < |out'|
      ensures IsHeld(held, out', cb, k) && (sure ==> IsBest(held, out', cb, priority, k))
    {
      assert k < |out| ==> out'[..k] == out[..k] && out'[k] == out[k];
      assert k < |out| ==> IsHeld(held, out, cb, k) && (sure ==> IsBest(held, out, cb, priority, k));
    }
  }

  // ---------- the state of the loop ----------

  ghost function HeldIds(v: View): set<nat> {
    QueuedIds(v) + IdsOf(v.pq)
  }

  /** Every item has the estimate it had, or a new one. */
  ghost predicate Origin(v0: View, v: View, estimate: nat -> int) {
    forall x | x in v.q0 || x in v.q1 :: x in v0.q0 || x in v0.q1 || x.pri == estimate(x.id)
  }

  ghost predicate Keeps(v0: View, v: View, priority: nat -> int, estimate: nat -> int, sure: bool) {
    Exact(v.pq, priority) && Origin(v0, v, estimate) && (sure ==> Bounded(v, priority))
  }

  ghost predicate Emitting(v0: View, v: View, out: seq<Item>, priority: nat -> int, estimate: nat -> int, cb: Callback) {
    var sure := Sure(v0, cb, priority, estimate);
    && Keeps(v0, v, priority, estimate, sure) && HeldIds(v) == Left(QueuedIds(v0), out, cb)
    && History(QueuedIds(v0), out, cb, priority, sure)
  }

  /** The callback was passed the last item of `out` and has pushed `j` items since. */
  ghost predicate Calling(v0: View, v: View, out: seq<Item>, priority: nat -> int, estimate: nat -> int, cb: Callback, j: nat) {
    var sure := Sure(v0, cb, priority, estimate);
    && out != [] && j <= |cb.pushes(out)| && Keeps(v0, v, priority, estimate, sure)
    && HeldIds(v) == Taken(QueuedIds(v0), out, cb) + Ids(cb.pushes(out)[..j])
    && History(QueuedIds(v0), out, cb, priority, sure)
  }

  lemma EmitStart(v: View, priority: nat -> int, estimate: nat -> int, cb: Callback)
    requires v.pq == []
    ensures Emitting(v, v, [], priority, estimate, cb)
  {
    assert IdsOf([]) == {};
    HistoryStart(QueuedIds(v), cb, priority, Sure(v, cb, priority, estimate));
  }

  /** The top of a queue is taken out to be ranked by its actual priority. */
  lemma EmitTake(v0: View, v: View, k: nat, out: seq<Item>, priority: nat -> int, estimate: nat -> int, cb: Callback,
                 last: map<nat, int>, offset: nat)
    requires Emitting(v0, v, out, priority, estimate, cb) && Good(v, last, offset) && k <= 1 && Queue(v, k) != []
    ensures var x, s := Queue(v, k)[0], Popped(Queue(v, k));
      && Emitting(v0, With(v, k, s).(pq := Pushed(v.pq, Item(x.id, priority(x.id)))), out, priority, estimate, cb)
      && x.id !in QueuedIds(With(v, k, s)) && x.id !in IdsOf(v.pq) && |s| == |Queue(v, k)| - 1
  {
    hide IdsOf, IsHeap, Popped, Pushed, Indexed, Gone, DistinctIds, Left, History, Sure;
    var x := Queue(v, k)[0];
    PopFacts(Queue(v, k));
    PushFacts(v.pq, Item(x.id, priority(x.id)));
  }

  /** Everything held is at most as good as the best ranked item once that exceeds all estimates. */
  lemma TopIsBest(v: View, priority: nat -> int, last: map<nat, int>, offset: nat)
    requires Good(v, last, offset) && v.pq != [] && Exact(v.pq, priority) && Bounded(v, priority)
    requires forall x | x in v.q0 || x in v.q1 :: x.pri < v.pq[0].pri
    ensures forall id | id in HeldIds(v) :: priority(id) <= v.pq[0].pri
  {
    PopFacts(v.pq);
    forall id | id in HeldIds(v) ensures priority(id) <= v.pq[0].pri {
      var x :| (x in v.q0 || x in v.q1 || x in v.pq) && x.id == id;
    }
  }

  /** The best ranked item is passed on once it exceeds all estimates. */
  lemma EmitTop(v0: View, v: View, out: seq<Item>, priority: nat -> int, estimate: nat -> int, cb: Callback,
                last: map<nat, int>, offset: nat)
    requires Emitting(v0, v, out, priority, estimate, cb) && Good(v, last, offset) && v.pq != []
    requires forall x | x in v.q0 || x in v.q1 :: x.pri < v.pq[0].pri
    ensures Calling(v0, v.(pq := Popped(v.pq)), out + [v.pq[0]], priority, estimate, cb, 0)
  {
    hide IdsOf, IsHeap, Popped, Indexed, Gone, DistinctIds, Left, Taken, History, Sure;
    var x := v.pq[0];
    assert x in v.pq;
    PopFacts(v.pq);
    if Sure(v0, cb, priority, estimate) { TopIsBest(v, priority, last, offset); }
    HistoryStep(QueuedIds(v0), out, x, cb, priority, Sure(v0, cb, priority, estimate));
    assert cb.pushes(out + [x])[..0] == [];
  }

  /** What the callback pushes next is not held. */
  lemma PushedNew(held: set<nat>, out: seq<Item>, cb: Callback, j: nat)
    requires Proper(held, cb) && out != [] && Feasible(held, out, cb) && j < |cb.pushes(out)|
    ensures var ids := cb.pushes(out);
      && ids[j] !in Taken(held, out, cb) + Ids(ids[..j]) && Ids(ids[..j + 1]) == Ids(ids[..j]) + {ids[j]}
  {
    hide Taken, Feasible;
    var ids := cb.pushes(out);
    assert ids[j] in Ids(ids);
    assert ids[..j + 1] == ids[..j] + [ids[j]];
  }

  lemma CallPush(v0: View, v: View, out: seq<Item>, priority: nat -> int, estimate: nat -> int, cb: Callback, j: nat,
                 last: map<nat, int>, offset: nat)
    requires Calling(v0, v, out, priority, estimate, cb, j) && Proper(QueuedIds(v0), cb) && j < |cb.pushes(out)|
    requires Good(v, last, offset)
    ensures var id := cb.pushes(out)[j];
      && id !in QueuedIds(v) && id !in IdsOf(v.pq)
      && Calling(v0, v.(q1 := Pushed(v.q1, Item(id, estimate(id)))), out, priority, estimate, cb, j + 1)
  {
    hide IdsOf, IsHeap, Pushed, Indexed, Gone, DistinctIds, Left, Taken, Proper, Ids;
    var id := cb.pushes(out)[j];
    PushedNew(QueuedIds(v0), out, cb, j);
    PushFacts(v.q1, Item(id, estimate(id)));
    assert id in cb.pushes(out);
  }

  lemma CallEnd(v0: View, v: View, out: seq<Item>, priority: nat -> int, estimate: nat -> int, cb: Callback)
    requires Calling(v0, v, out, priority, estimate, cb, |cb.pushes(out)|)
    ensures Emitting(v0, v, out, priority, estimate, cb)
  {
    hide Keeps, HeldIds, History, Sure, Ids, Taken;
    assert cb.pushes(out)[..|cb.pushes(out)|] == cb.pushes(out);
  }

  // ---------- when it ends ----------

  /** The callback asked for more after each of the items passed on. */
  ghost predicate Running(out: seq<Item>, cb: Callback) {
    forall k | 0 < k <= |out| :: cb.more(out[..k])
  }

  lemma RunningStart(cb: Callback)
    ensures Running([], cb)
  {
  }

  /** It asked for no more after the last one, and not before. */
  ghost predicate Stopped(out: seq<Item>, cb: Callback) {
    out != [] && !cb.more(out) && forall k | 0 < k < |out| :: cb.more(out[..k])
  }

  lemma Continue(out: seq<Item>, x: Item, cb: Callback)
    requires Running(out, cb)
    ensures if cb.more(out + [x]) then Running(out + [x], cb) else Stopped(out + [x], cb)
  {
    var out' := out + [x];
    assert out'[..|out'|] == out';
    forall k | 0 < k <= |out| ensures cb.more(out'[..k]) {
      assert out'[..k] == out[..k];
    }
  }

  /** What a pop of several items promises: what is queued afterwards follows from what was passed
      on and pushed, and if estimates bound priorities, each item was the best at its time. */
  ghost predicate Emitted(v0: View, v: View, out: seq<Item>, priority: nat -> int, estimate: nat -> int, cb: Callback) {
    && QueuedIds(v) == Left(QueuedIds(v0), out, cb) && Origin(v0, v, estimate)
    && History(QueuedIds(v0), out, cb, priority, Sure(v0, cb, priority, estimate))
  }

  lemma EmitEnd(v0: View, w: View, v: View, out: seq<Item>, priority: nat -> int, estimate: nat -> int, cb: Callback)
    requires Emitting(v0, w, out, priority, estimate, cb) && Returning(w, v, estimate) && v.pq == []
    ensures Emitted(v0, v, out, priority, estimate, cb)
  {
    hide Left, History, Sure;
    assert IdsOf(v.pq) == {};
  }

  lemma EmitAll(v0: View, v: View, out: seq<Item>, priority: nat -> int, estimate: nat -> int, cb: Callback)
    requires Emitting(v0, v, out, priority, estimate, cb) && Peeked(v, -1) && v.pq == []
    ensures Emitted(v0, v, out, priority, estimate, cb) && QueuedIds(v) == {}
  {
    EmitEnd(v0, v, v, out, priority, estimate, cb);
  }

  // ---------- callbacks that do not push ----------

  ghost predicate Quiet(cb: Callback) {
    forall out :: cb.pushes(out) == []
  }

  lemma QuietProper(held: set<nat>, cb: Callback)
    requires Quiet(cb)
    ensures Proper(held, cb) && Settles(cb, 0)
  {
  }

  lemma AppendIds(out: seq<Item>, x: Item)
    requires DistinctIds(out) && x.id !in IdsOf(out)
    ensures DistinctIds(out + [x]) && IdsOf(out + [x]) == IdsOf(out) + {x.id}
  {
    PushIndexed(out, x, map[], 0);
    assert multiset(out + [x]) == multiset(out) + multiset{x};
    AddIds(out, out + [x], x);
  }

  lemma HistoryPrefix(held: set<nat>, out: seq<Item>, cb: Callback, priority: nat -> int, sure: bool)
    requires History(held, out, cb, priority, sure) && out != []
    ensures History(held, out[..|out| - 1], cb, priority, sure)
  {
    hide Left;
    var o := out[..|out| - 1];
    forall k | 0 <= k < |o| ensures IsHeld(held, o, cb, k) && (sure ==> IsBest(held, o, cb, priority, k)) {
      assert o[..k] == out[..k];
      assert IsHeld(held, out, cb, k) && (sure ==> IsBest(held, out, cb, priority, k));
    }
  }

  /** Without pushes no item is passed on twice, those passed on are gone and the others are left. */
  lemma {:induction false} QuietOnce(held: set<nat>, out: seq<Item>, cb: Callback, priority: nat -> int, sure: bool)
    requires Quiet(cb) && History(held, out, cb, priority, sure)
    ensures DistinctIds(out) && IdsOf(out) <= held && Left(held, out, cb) == held - IdsOf(out)
  {
    hide IdsOf, DistinctIds, History;
    if out == [] {
      assert IdsOf([]) == {} && DistinctIds([]) by { NoIds(); }
    } else {
      var n := |out| - 1;
      var o, x := out[..n], out[n];
      HistoryPrefix(held, out, cb, priority, sure);
      QuietOnce(held, o, cb, priority, sure);
      LastHeld(held, out, cb, priority, sure);
      AppendIds(o, x);
      assert out == o + [x];
    }
  }

  lemma NoIds()
    ensures IdsOf([]) == {} && DistinctIds([])
  {
  }

  lemma LastHeld(held: set<nat>, out: seq<Item>, cb: Callback, priority: nat -> int, sure: bool)
    requires History(held, out, cb, priority, sure) && out != []
    ensures var n := |out| - 1;
      && out[n].id in Left(held, out[..n], cb) && out[n].pri == priority(out[n].id)
      && (sure ==> forall id | id in Left(held, out[..n], cb) :: priority(id) <= out[n].pri)
  {
    hide Left;
    assert IsHeld(held, out, cb, |out| - 1) && (sure ==> IsBest(held, out, cb, priority, |out| - 1));
  }

  /** Without pushes, items come in non-increasing actual priority, and none left is better. */
  lemma {:induction false} QuietOrder(held: set<nat>, out: seq<Item>, cb: Callback, priority: nat -> int)
    requires Quiet(cb) && History(held, out, cb, priority, true)
    ensures Descending(out) && forall id, x | id in Left(held, out, cb) && x in out :: priority(id) <= x.pri
  {
    hide History;
    if out != [] {
      var n := |out| - 1;
      HistoryPrefix(held, out, cb, priority, true);
      QuietOrder(held, out[..n], cb, priority);
      LastHeld(held, out, cb, priority, true);
      assert out == out[..n] + [out[n]];
      assert Left(held, out, cb) <= Left(held, out[..n], cb);
    }
  }

  /** A callback that pushes each of the first `limit` items back as it gets them. */
  function PushBack(limit: nat, more: seq<Item> -> bool): Callback {
    Callback((out: seq<Item>) => if 0 < |out| <= limit then [out[|out| - 1].id] else [], more)
  }

  /** It is one of those that `MultiPop` allows for. */
  lemma PushBackProper(held: set<nat>, limit: nat, more: seq<Item> -> bool)
    ensures Proper(held, PushBack(limit, more)) && Settles(PushBack(limit, more), limit)
  {
    hide Feasible, Left;
  }

  /** The callback of `Pop`. */
  predicate Never(out: seq<Item>) {
    false
  }

  function Nothing(out: seq<Item>): seq<nat> {
    []
  }

  const KEEP_FIRST := Callback(Nothing, Never)

  /** The item of greatest actual priority is taken, and nothing else. */
  ghost predicate Best(v0: View, v: View, x: Item, priority: nat -> int) {
    && x.pri == priority(x.id) && x.id in QueuedIds(v0) && QueuedIds(v) == QueuedIds(v0) - {x.id}
    && (Bounded(v0, priority) ==> forall id | id in QueuedIds(v0) :: priority(id) <= x.pri)
  }

  lemma PopOne(v0: View, v: View, out: seq<Item>, priority: nat -> int, estimate: nat -> int)
    requires Emitted(v0, v, out, priority, estimate, KEEP_FIRST)
    requires Stopped(out, KEEP_FIRST) || (Running(out, KEEP_FIRST) && QueuedIds(v) == {})
    ensures out == [] <==> QueuedIds(v0) == {}
    ensures out != [] ==> Best(v0, v, out[0], priority)
    ensures out == [] ==> QueuedIds(v) == {}
  {
    hide QueuedIds, Origin;
    assert |out| > 0 ==> !KEEP_FIRST.more(out[..1]);
    if out != [] {
      assert |out| == 1 && out[..0] == [];
      QuietOnce(QueuedIds(v0), out, KEEP_FIRST, priority, Sure(v0, KEEP_FIRST, priority, estimate));
      assert IdsOf(out) == {out[0].id};
      assert Bounded(v0, priority) ==> Sure(v0, KEEP_FIRST, priority, estimate);
      LastHeld(QueuedIds(v0), out, KEEP_FIRST, priority, Sure(v0, KEEP_FIRST, priority, estimate));
    }
  }
}
