/** Go's `container/heap` on a sequence of prioritised items, greatest priority first.

    `Up` and `Down` are the sift loops as functions; the classes that run the loops in
    place are proved equal to them.
 */
module Heap {

  datatype Item = Item(id: nat, pri: int)

  function ParentOf(i: nat): nat
    requires i > 0
  {
    (i - 1) / 2
  }

  /** `Less`: greater priority comes first. */
  predicate Before(a: Item, b: Item) {
    a.pri > b.pri
  }

  function Swap(s: seq<Item>, i: nat, j: nat): (r: seq<Item>)
    requires i < |s| && j < |s|
    ensures |r| == |s|
    ensures r[i] == s[j] && r[j] == s[i] && forall k | 0 <= k < |s| && k != i && k != j :: r[k] == s[k]
  {
    s[i := s[j]][j := s[i]]
  }

  lemma SwapPermutes(s: seq<Item>, i: nat, j: nat)
    requires i < |s| && j < |s|
    ensures multiset(Swap(s, i, j)) == multiset(s)
  {
  }

  function Up(s: seq<Item>, j: nat): (r: seq<Item>)
    requires j < |s|
    ensures |r| == |s| && multiset(r) == multiset(s)
    decreases j
  {
    if j == 0 || !Before(s[j], s[ParentOf(j)]) then s
    else
      SwapPermutes(s, ParentOf(j), j);
      Up(Swap(s, ParentOf(j), j), ParentOf(j))
  }

  /** The child that sifting down compares with. */
  function Child(s: seq<Item>, i: nat, n: nat): nat
    requires 2 * i + 1 < n <= |s|
  {
    if 2 * i + 2 < n && Before(s[2 * i + 2], s[2 * i + 1]) then 2 * i + 2 else 2 * i + 1
  }

  /** Sifting down from `i` goes on. */
  predicate Sinks(s: seq<Item>, i: nat, n: nat)
    requires n <= |s|
  {
    2 * i + 1 < n && Before(s[Child(s, i, n)], s[i])
  }

  function Down(s: seq<Item>, i: nat, n: nat): (r: seq<Item>)
    requires n <= |s|
    ensures |r| == |s| && multiset(r) == multiset(s) && r[n..] == s[n..]
    decreases n - i
  {
    if !Sinks(s, i, n) then s
    else
      var c := Child(s, i, n);
      var s' := Swap(s, i, c);
      SwapPermutes(s, i, c);
      assert s'[n..] == s[n..];
      Down(s', c, n)
  }

  // ---------- the heap order ----------

  ghost predicate Ordered(s: seq<Item>, k: nat)
    requires 0 < k < |s|
  {
    s[k].pri <= s[ParentOf(k)].pri
  }

  /** The first `n` items form a heap. */
  ghost predicate IsHeap(s: seq<Item>, n: nat)
    requires n <= |s|
  {
    forall k | 0 < k < n :: Ordered(s, k)
  }

  /** A heap except around `x`, whose children are below its parent. */
  ghost predicate HeapBut(s: seq<Item>, x: nat, n: nat)
    requires n <= |s|
  {
    && (forall k | 0 < k < n && k != x && ParentOf(k) != x :: Ordered(s, k))
    && (forall k | 0 < k < n && 0 < x < n && ParentOf(k) == x :: s[k].pri <= s[ParentOf(x)].pri)
  }

  ghost predicate ChildrenOk(s: seq<Item>, x: nat, n: nat)
    requires n <= |s|
  {
    forall k | 0 < k < n && ParentOf(k) == x :: Ordered(s, k)
  }

  lemma {:induction false} RootGreatest(s: seq<Item>, n: nat, k: nat)
    requires k < n <= |s| && IsHeap(s, n)
    ensures s[k].pri <= s[0].pri
  {
    if k > 0 {
      assert Ordered(s, k);
      RootGreatest(s, n, ParentOf(k));
    }
  }

  lemma {:induction false} UpFixes(s: seq<Item>, j: nat, n: nat)
    requires j < n <= |s| && HeapBut(s, j, n) && ChildrenOk(s, j, n)
    ensures IsHeap(Up(s, j), n) && Up(s, j)[n..] == s[n..]
    decreases j
  {
    if j == 0 || !Before(s[j], s[ParentOf(j)]) {
      forall k | 0 < k < n ensures Ordered(s, k) {
        if k != j && ParentOf(k) == j { assert Ordered(s, k); }
      }
    } else {
      var p := ParentOf(j);
      var s' := Swap(s, p, j);
      forall k | 0 < k < n && k != p && ParentOf(k) != p ensures Ordered(s', k) {
        if ParentOf(k) != j { assert Ordered(s, k); }
      }
      forall k | 0 < k < n && ParentOf(k) == p ensures Ordered(s', k) {
        if k != j { assert Ordered(s, k); }
      }
      if p > 0 {
        assert Ordered(s, p);
        forall k | 0 < k < n && ParentOf(k) == p ensures s'[k].pri <= s'[ParentOf(p)].pri {
          if k != j { assert Ordered(s, k); }
        }
      }
      assert s'[n..] == s[n..];
      UpFixes(s', p, n);
    }
  }

  /** One step down moves the gap to the child. */
  lemma SinkStep(s: seq<Item>, i: nat, n: nat)
    requires i < n <= |s| && HeapBut(s, i, n) && Sinks(s, i, n)
    ensures var c := Child(s, i, n); var s' := Swap(s, i, c); HeapBut(s', c, n) && Ordered(s', c)
  {
    var c := Child(s, i, n);
    var s' := Swap(s, i, c);
    forall k | 0 < k < n && k != c && ParentOf(k) != c ensures Ordered(s', k) {
      if k != i && ParentOf(k) != i { assert Ordered(s, k); }
    }
    forall k | 0 < k < n && ParentOf(k) == c ensures s'[k].pri <= s'[ParentOf(c)].pri {
      assert Ordered(s, k);
    }
  }

  lemma NoSink(s: seq<Item>, i: nat, n: nat)
    requires i < n <= |s| && !Sinks(s, i, n)
    ensures ChildrenOk(s, i, n)
  {
  }

  lemma GapCloses(s: seq<Item>, x: nat, n: nat)
    requires 0 < x < n <= |s| && HeapBut(s, x, n) && ChildrenOk(s, x, n) && Ordered(s, x)
    ensures IsHeap(s, n)
  {
    forall k | 0 < k < n ensures Ordered(s, k) {
      if k != x && ParentOf(k) == x { assert Ordered(s, k); }
    }
  }

  /** Sifting down either moves the item, and then all is in order, or leaves only its
      relation to its parent open. */
  lemma {:induction false} DownFixes(s: seq<Item>, i: nat, n: nat)
    requires i < n <= |s| && HeapBut(s, i, n)
    ensures Sinks(s, i, n) ==> IsHeap(Down(s, i, n), n)
    ensures !Sinks(s, i, n) ==> ChildrenOk(s, i, n)
    decreases n - i
  {
    hide Ordered, Swap, HeapBut, ChildrenOk, IsHeap;
    if Sinks(s, i, n) {
      var c := Child(s, i, n);
      var s' := Swap(s, i, c);
      SinkStep(s, i, n);
      DownFixes(s', c, n);
      if !Sinks(s', c, n) { GapCloses(s', c, n); }
    } else {
      NoSink(s, i, n);
    }
  }

  // ---------- the operations ----------

  function Pushed(s: seq<Item>, x: Item): seq<Item> {
    Up(s + [x], |s|)
  }

  /** What `heap.Pop` leaves; the item it returns is the old root. */
  function Popped(s: seq<Item>): seq<Item>
    requires s != []
  {
    var n := |s| - 1;
    Down(Swap(s, 0, n), 0, n)[..n]
  }

  /** `heap.Fix` at `i`, on the first `n` items. */
  function Fixed(s: seq<Item>, i: nat, n: nat): (r: seq<Item>)
    requires i < n <= |s|
    ensures |r| == |s|
  {
    if Sinks(s, i, n) then Down(s, i, n) else Up(s, i)
  }

  /** What `heap.Remove` leaves; the item it returns is the old one at `i`. */
  function Removed(s: seq<Item>, i: nat): seq<Item>
    requires i < |s|
  {
    var n := |s| - 1;
    if i == n then s[..n] else Fixed(Swap(s, i, n), i, n)[..n]
  }

  lemma PushedHeap(s: seq<Item>, x: Item)
    requires IsHeap(s, |s|)
    ensures IsHeap(Pushed(s, x), |s| + 1) && multiset(Pushed(s, x)) == multiset(s) + multiset{x}
  {
    var t := s + [x];
    forall k | 0 < k < |s| ensures Ordered(t, k) { assert Ordered(s, k); }
    UpFixes(t, |s|, |t|);
  }

  lemma FixedHeap(s: seq<Item>, i: nat, n: nat)
    requires i < n <= |s| && HeapBut(s, i, n)
    ensures IsHeap(Fixed(s, i, n), n) && multiset(Fixed(s, i, n)) == multiset(s) && Fixed(s, i, n)[n..] == s[n..]
  {
    DownFixes(s, i, n);
    if !Sinks(s, i, n) { UpFixes(s, i, n); }
  }

  lemma HeapPrefix(s: seq<Item>, n: nat)
    requires n <= |s| && IsHeap(s, |s|)
    ensures IsHeap(s, n)
  {
  }

  lemma DropLast(r: seq<Item>)
    requires r != [] && IsHeap(r, |r| - 1)
    ensures IsHeap(r[..|r| - 1], |r| - 1) && multiset(r) == multiset(r[..|r| - 1]) + multiset{r[|r| - 1]}
  {
    var n := |r| - 1;
    assert r == r[..n] + [r[n]];
    forall k | 0 < k < n ensures Ordered(r[..n], k) { assert Ordered(r, k); }
  }

  /** Taking out the item at `i` by moving the last one there. */
  lemma RemovedHeap(s: seq<Item>, i: nat)
    requires i < |s| && IsHeap(s, |s|)
    ensures IsHeap(Removed(s, i), |s| - 1) && |Removed(s, i)| == |s| - 1
    ensures multiset(s) == multiset(Removed(s, i)) + multiset{s[i]}
  {
    hide Fixed, IsHeap, Swap, HeapBut, Ordered;
    var n := |s| - 1;
    if i == n {
      HeapPrefix(s, n);
      DropLast(s);
    } else {
      var t := Swap(s, i, n);
      SwapPermutes(s, i, n);
      LastMoved(s, i);
      FixedHeap(t, i, n);
      var r := Fixed(t, i, n);
      assert r[n] == r[n..][0] == t[n..][0] == s[i];
      DropLast(r);
      assert multiset(s) == multiset(r);
    }
  }

  lemma LastMoved(s: seq<Item>, i: nat)
    requires i < |s| - 1 && IsHeap(s, |s|)
    ensures HeapBut(Swap(s, i, |s| - 1), i, |s| - 1)
  {
    var n := |s| - 1;
    var t := Swap(s, i, n);
    forall k | 0 < k < n && k != i && ParentOf(k) != i ensures Ordered(t, k) { assert Ordered(s, k); }
    forall k | 0 < k < n && 0 < i && ParentOf(k) == i ensures t[k].pri <= t[ParentOf(i)].pri {
      assert Ordered(s, k) && Ordered(s, i);
    }
  }

  /** With the gap at the root, sifting down is enough. */
  lemma DownFromRoot(t: seq<Item>, n: nat)
    requires n <= |t| && (n > 0 ==> HeapBut(t, 0, n))
    ensures IsHeap(Down(t, 0, n), n)
  {
    if n > 0 {
      DownFixes(t, 0, n);
      if !Sinks(t, 0, n) {
        forall k | 0 < k < n ensures Ordered(t, k) { if ParentOf(k) == 0 { assert Ordered(t, k); } }
      }
    }
  }

  /** The old root is of greatest priority, and the rest stays a heap. */
  lemma PoppedHeap(s: seq<Item>)
    requires s != [] && IsHeap(s, |s|)
    ensures IsHeap(Popped(s), |s| - 1) && |Popped(s)| == |s| - 1
    ensures multiset(s) == multiset(Popped(s)) + multiset{s[0]}
    ensures forall x | x in s :: x.pri <= s[0].pri
  {
    hide Down, Swap, IsHeap, HeapBut;
    var n := |s| - 1;
    var t := Swap(s, 0, n);
    SwapPermutes(s, 0, n);
    if n > 0 { LastMoved(s, 0); }
    DownFromRoot(t, n);
    var r := Down(t, 0, n);
    assert r[n] == r[n..][0] && t[n] == t[n..][0];
    DropLast(r);
    forall k | 0 <= k < |s| ensures s[k].pri <= s[0].pri { RootGreatest(s, |s|, k); }
  }
}
