/** `container/heap` run on the sortable stack: the sift loops with `Less` and `Swap`, and
    the operations built from them.  Each leaves the sequence that the functions of
    `Heap` describe, and every item reported where it now is.
 */
module HeapOps {
  import opened Heap
  import opened SStackModel

  lemma SwapIds(s: seq<Item>, i: nat, j: nat)
    requires i < |s| && j < |s|
    ensures IdsOf(Heap.Swap(s, i, j)) == IdsOf(s)
  {
    SwapPermutes(s, i, j);
    PermutedIds(s, Heap.Swap(s, i, j));
  }

  lemma PermutedIds(s: seq<Item>, t: seq<Item>)
    requires multiset(s) == multiset(t)
    ensures IdsOf(s) == IdsOf(t)
  {
    forall x | x in s ensures x in t { assert x in multiset(s); }
    forall x | x in t ensures x in s { assert x in multiset(t); }
  }

  lemma KeptTrans(a: map<nat, int>, b: map<nat, int>, c: map<nat, int>, ids: set<nat>)
    requires OthersKept(a, b, ids) && OthersKept(b, c, ids)
    ensures OthersKept(a, c, ids)
  {
  }

  method SiftUp(h: SStack, j0: nat)
    requires h.Valid() && j0 < h.size
    modifies h`items, h.Repr, h.reports
    ensures h.Valid() && h.items == Up(old(h.items), j0)
    ensures h.reports != null ==> OthersKept(old(h.reports.last), h.reports.last, IdsOf(old(h.items)))
  {
    hide SStack.Shape, DistinctIds, Indexed, OthersKept, IdsOf, Heap.Swap;
    var j: nat := j0;
    ghost var ids := IdsOf(h.items);
    KeptSelf(if h.reports != null then h.reports.last else map[], ids);
    while true
      invariant j < h.size && h.Valid() && IdsOf(h.items) == ids
      invariant Up(h.items, j) == Up(old(h.items), j0)
      invariant h.reports != null ==> OthersKept(old(h.reports.last), h.reports.last, ids)
      decreases j
    {
      var i: nat := if j == 0 then 0 else (j - 1) / 2;
      if i == j { break; }
      var less := h.Less(j, i);
      if !less { break; }
      SwapIds(h.items, i, j);
      ghost var before := if h.reports != null then h.reports.last else map[];
      h.Swap(i, j);
      if h.reports != null { KeptTrans(old(h.reports.last), before, h.reports.last, ids); }
      j := i;
    }
  }

  lemma KeptSelf(last: map<nat, int>, ids: set<nat>)
    ensures OthersKept(last, last, ids)
  {
  }

  lemma DownStep(s: seq<Item>, i: nat, n: nat)
    requires n <= |s|
    ensures if Sinks(s, i, n) then Down(s, i, n) == Down(Heap.Swap(s, i, Child(s, i, n)), Child(s, i, n), n)
            else Down(s, i, n) == s
  {
  }

  /** The comparisons of one round of `down`: the child to exchange with, if any. */
  method PickChild(h: SStack, i: nat, n: nat) returns (sinks: bool, j: nat)
    requires h.Shape() && n <= |h.items|
    ensures sinks == Sinks(h.items, i, n) && (sinks ==> i < j < n && j == Child(h.items, i, n))
  {
    hide SStack.Shape;
    var j1: nat := 2 * i + 1;
    if j1 >= n { return false, 0; }
    j := j1;
    var j2: nat := j1 + 1;
    if j2 < n {
      var right := h.Less(j2, j1);
      if right { j := j2; }
    }
    sinks := h.Less(j, i);
  }

  method SiftDown(h: SStack, i0: nat, n: nat) returns (moved: bool)
    requires h.Valid() && n <= |h.items|
    modifies h`items, h.Repr, h.reports
    ensures h.Valid() && h.items == Down(old(h.items), i0, n)
    ensures moved == Sinks(old(h.items), i0, n)
    ensures h.reports != null ==> OthersKept(old(h.reports.last), h.reports.last, IdsOf(old(h.items)))
  {
    hide SStack.Shape, DistinctIds, Indexed, OthersKept, IdsOf, Heap.Swap, Down, Sinks, Child;
    var i: nat := i0;
    ghost var ids := IdsOf(h.items);
    KeptSelf(if h.reports != null then h.reports.last else map[], ids);
    while true
      invariant i0 <= i && h.Valid() && IdsOf(h.items) == ids
      invariant Down(h.items, i, n) == Down(old(h.items), i0, n)
      invariant if i == i0 then h.items == old(h.items) else Sinks(old(h.items), i0, n)
      invariant h.reports != null ==> OthersKept(old(h.reports.last), h.reports.last, ids)
      decreases n - i
    {
      var sinks, j := PickChild(h, i, n);
      DownStep(h.items, i, n);
      if !sinks { break; }
      SwapIds(h.items, i, j);
      ghost var before := if h.reports != null then h.reports.last else map[];
      h.Swap(i, j);
      if h.reports != null { KeptTrans(old(h.reports.last), before, h.reports.last, ids); }
      i := j;
    }
    return i > i0;
  }

  /** Sifting up from `j` leaves what is after `j` alone. */
  lemma {:induction false} UpTail(s: seq<Item>, j: nat, n: nat)
    requires j < n <= |s|
    ensures Up(s, j)[n..] == s[n..]
    decreases j
  {
    if j > 0 && Before(s[j], s[ParentOf(j)]) {
      var s' := Heap.Swap(s, ParentOf(j), j);
      assert s'[n..] == s[n..];
      UpTail(s', ParentOf(j), n);
    }
  }

  lemma KeptUpdate(a: map<nat, int>, b: map<nat, int>, ids: set<nat>, id: nat, x: int)
    requires OthersKept(a, b, ids) && id in ids
    ensures OthersKept(a, b[id := x], ids)
  {
  }

  lemma PushedIds(s: seq<Item>, x: Item)
    ensures IdsOf(s + [x]) == IdsOf(s) + {x.id}
  {
    forall id | id in IdsOf(s) + {x.id} ensures id in IdsOf(s + [x]) {
      if id in IdsOf(s) {
        var y :| y in s && y.id == id;
        assert y in s + [x];
      } else {
        assert x in s + [x];
      }
    }
  }

  method Push(h: SStack, x: Item)
    requires h.Valid() && x.id !in IdsOf(h.items)
    modifies h, h.Repr, h.reports
    ensures h.Valid() && h.items == Pushed(old(h.items), x)
    ensures h.reports != null ==>
      OthersKept(old(h.reports.last), h.reports.last, IdsOf(old(h.items)) + {x.id})
    ensures fresh(h.Repr - old(h.Repr))
  {
    assert h.tag <= 1;
    hide SStack.Shape, DistinctIds, Indexed, OthersKept, IdsOf, Up;
    ghost var was := h.items;
    ghost var ids := IdsOf(was) + {x.id};
    ghost var before := if h.reports != null then h.reports.last else map[];
    KeptSelf(before, ids);
    h.Push(x);
    PushedIds(was, x);
    KeptUpdate(before, before, ids, x.id, Virtual(h.tag, |was|));
    ghost var mid := if h.reports != null then h.reports.last else map[];
    assert h.items == was + [x] && h.size == |was| + 1;
    assert h.reports != null ==> OthersKept(before, mid, ids);
    SiftUp(h, h.size - 1);
    assert h.items == Pushed(was, x);
    if h.reports != null { KeptTrans(before, mid, h.reports.last, ids); }
  }

  method Pop(h: SStack) returns (res: Item)
    requires h.Valid() && h.size > 0
    modifies h, h.Repr, h.reports
    ensures h.Valid() && res == old(h.items)[0] && h.items == Popped(old(h.items))
    ensures h.reports != null ==>
      && OthersKept(old(h.reports.last), h.reports.last, IdsOf(old(h.items)))
      && res.id in h.reports.last && h.reports.last[res.id] == -1
    ensures h.Repr == old(h.Repr)
  {
    hide SStack.Shape, DistinctIds, Indexed, OthersKept, IdsOf, Down, Heap.Swap;
    ghost var was := h.items;
    ghost var ids := IdsOf(was);
    ghost var before := if h.reports != null then h.reports.last else map[];
    var n: nat := h.size - 1;
    SwapIds(was, 0, n);
    h.Swap(0, n);
    ghost var mid := if h.reports != null then h.reports.last else map[];
    ghost var t := h.items;
    var _ := SiftDown(h, 0, n);
    ghost var r := h.items;
    assert r[n] == r[n..][0] == t[n..][0] == was[0];
    PermutedIds(t, r);
    res := Last(h, before, mid, ids);
  }

  /** `Pop` of the stack, with what was reported since `before`. */
  method Last(h: SStack, ghost before: map<nat, int>, ghost mid: map<nat, int>, ghost ids: set<nat>) returns (res: Item)
    requires h.Valid() && h.size > 0 && IdsOf(h.items) == ids
    requires h.reports != null ==> OthersKept(before, mid, ids) && OthersKept(mid, h.reports.last, ids)
    modifies h, h.Repr, h.reports
    ensures h.Valid() && res == old(h.items)[old(h.size) - 1] && h.items == old(h.items)[..old(h.size) - 1]
    ensures h.reports != null ==>
      && OthersKept(before, h.reports.last, ids)
      && res.id in h.reports.last && h.reports.last[res.id] == -1
    ensures h.Repr == old(h.Repr)
  {
    hide SStack.Shape, DistinctIds, Indexed;
    ghost var late := if h.reports != null then h.reports.last else map[];
    ghost var r := h.items;
    assert r[|r| - 1].id in ids;
    hide OthersKept, IdsOf;
    res := h.Pop();
    if h.reports != null {
      KeptTrans(before, mid, late, ids);
      KeptUpdate(before, late, ids, res.id, -1);
    }
  }

  method Remove(h: SStack, i: nat) returns (res: Item)
    requires h.Valid() && i < h.size
    modifies h, h.Repr, h.reports
    ensures h.Valid() && res == old(h.items)[i] && h.items == Removed(old(h.items), i)
    ensures h.reports != null ==>
      && OthersKept(old(h.reports.last), h.reports.last, IdsOf(old(h.items)))
      && res.id in h.reports.last && h.reports.last[res.id] == -1
    ensures h.Repr == old(h.Repr)
  {
    hide SStack.Shape, DistinctIds, Indexed, OthersKept, IdsOf, Down, Up, Heap.Swap, Fixed;
    ghost var was := h.items;
    ghost var ids := IdsOf(was);
    ghost var before := if h.reports != null then h.reports.last else map[];
    KeptSelf(before, ids);
    var n: nat := h.size - 1;
    ghost var mid := before;
    if n != i {
      SwapIds(was, i, n);
      h.Swap(i, n);
      ghost var t := h.items;
      mid := if h.reports != null then h.reports.last else map[];
      Fix(h, i, n);
      PermutedIds(t, h.items);
      assert h.items[n] == h.items[n..][0] == t[n..][0] == was[i];
    }
    res := Last(h, before, mid, ids);
  }

  method Fix(h: SStack, i: nat, n: nat)
    requires h.Valid() && i < n <= h.size
    modifies h`items, h.Repr, h.reports
    ensures h.Valid() && h.items == Fixed(old(h.items), i, n)
    ensures multiset(h.items) == multiset(old(h.items)) && h.items[n..] == old(h.items)[n..]
    ensures h.reports != null ==> OthersKept(old(h.reports.last), h.reports.last, IdsOf(old(h.items)))
  {
    hide SStack.Shape, DistinctIds, Indexed, OthersKept, IdsOf, Down, Up, Sinks;
    ghost var was := h.items;
    ghost var before := if h.reports != null then h.reports.last else map[];
    var moved := SiftDown(h, i, n);
    if !moved {
      DownStep(was, i, n);
      UpTail(was, i, n);
      ghost var mid := if h.reports != null then h.reports.last else map[];
      SiftUp(h, i);
      if h.reports != null { KeptTrans(before, mid, h.reports.last, IdsOf(was)); }
    }
  }
}
