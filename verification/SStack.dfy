/** The sortable stack: items in blocks of fixed size that are never given back.

    Its contents are a plain sequence.  Every operation reports the new position of the
    items it touches through the index callback; `Reports` records the last report
    per item, which is what the owner of an item has to hand when it wants it removed.
 */
module SStackModel {
  import opened Heap

  const BLOCK_SIZE: nat := 4096

  datatype Slot = Nil | Full(item: Item)

  /** The last index reported for each item. */
  class Reports {
    var last: map<nat, int>

    constructor ()
      ensures last == map[]
    {
      last := map[];
    }
  }

  /** `setIndex0` and `setIndex1`: the positions of the two queues interleaved; -1 is kept. */
  function Virtual(tag: nat, index: int): int
    requires tag <= 1 && index >= -1
  {
    if index == -1 then -1 else index + index + tag
  }

  ghost predicate DistinctIds(s: seq<Item>) {
    forall i, j | 0 <= i < j < |s| :: s[i].id != s[j].id
  }

  ghost function IdsOf(s: seq<Item>): set<nat> {
    set x | x in s :: x.id
  }

  class SStack {
    const tag: nat
    const reports: Reports?  // null when no callback was given
    var size: nat
    var capacity: nat
    var offset: int
    var blocks: seq<array<Slot>>
    var active: array<Slot>
    ghost var items: seq<Item>  // the plain sequence that the blocks stand for
    ghost var Repr: set<array<Slot>>  // the blocks

    /** Where the next item goes: a slot of the active block, or the end of a full one. */
    ghost predicate Shape()
      reads this, Repr
    {
      && tag <= 1
      && (forall k | 0 <= k < |blocks| :: blocks[k] in Repr && blocks[k].Length == BLOCK_SIZE)
      && (forall k, l | 0 <= k < l < |blocks| :: blocks[k] != blocks[l])
      && capacity == |blocks| * BLOCK_SIZE && size <= capacity && 0 <= offset <= BLOCK_SIZE
      && (if offset < BLOCK_SIZE then size % BLOCK_SIZE == offset && size / BLOCK_SIZE < |blocks| && active == blocks[size / BLOCK_SIZE]
          else size % BLOCK_SIZE == 0 && size > 0 && active == blocks[size / BLOCK_SIZE - 1])
      && |items| == size && forall i | 0 <= i < size :: blocks[i / BLOCK_SIZE][i % BLOCK_SIZE] == Full(items[i])
    }

    /** Items are distinct, and each was last reported where it is. */
    ghost predicate Valid()
      reads this, Repr, reports
    {
      && Shape() && |items| == size && DistinctIds(items)
      && (reports != null ==> Indexed(items, reports.last, tag))
    }

    lemma SizeOf()
      requires Shape()
      ensures |items| == size
    {
    }

    constructor (tag: nat, reports: Reports?)
      requires tag <= 1
      ensures Valid() && items == [] && this.tag == tag && this.reports == reports
      ensures fresh(Repr)
    {
      this.tag, this.reports := tag, reports;
      var a := new Slot[BLOCK_SIZE](_ => Nil);
      active := a;
      blocks := [a];
      Repr := {a};
      capacity := BLOCK_SIZE;
      size, offset := 0, 0;
      items := [];
    }

    /** The first part of `Push`: make sure the active block has a free slot. */
    method MakeRoom()
      requires Shape()
      modifies this
      ensures Shape() && items == old(items) && offset < BLOCK_SIZE && size == old(size)
      ensures fresh(Repr - old(Repr))
    {
      if size == capacity {
        var a := new Slot[BLOCK_SIZE](_ => Nil);
        active := a;
        blocks := blocks + [a];
        Repr := Repr + {a};
        capacity := capacity + BLOCK_SIZE;
        offset := 0;
      } else if offset == BLOCK_SIZE {
        active := blocks[size / BLOCK_SIZE];
        offset := 0;
      }
    }

    /** The last part of `Push`: fill the slot. */
    method Put(data: Item)
      requires Shape() && offset < BLOCK_SIZE
      modifies this, active
      ensures Shape() && items == old(items) + [data] && Repr == old(Repr)
    {
      assert forall i | 0 <= i < size :: i / BLOCK_SIZE != size / BLOCK_SIZE || i % BLOCK_SIZE != size % BLOCK_SIZE;
      active[offset] := Full(data);
      offset := offset + 1;
      size := size + 1;
      items := items + [data];
      assert forall i | 0 <= i < size :: blocks[i / BLOCK_SIZE][i % BLOCK_SIZE] == Full(items[i]);
    }

    method Push(data: Item)
      requires Valid() && data.id !in IdsOf(items)
      modifies this, Repr, reports
      ensures Valid() && items == old(items) + [data]
      ensures reports != null ==> reports.last == old(reports.last)[data.id := Virtual(tag, old(size))]
      ensures fresh(Repr - old(Repr))
    {
      ghost var was := items;
      MakeRoom();
      PushIndexed(was, data, if reports != null then reports.last else map[], tag);
      if reports != null {
        reports.last := reports.last[data.id := Virtual(tag, size)];
      }
      assert active in Repr;
      hide Shape, Virtual, DistinctIds, IdsOf;
      Put(data);
    }

    /** The first part of `Pop`: one slot back, into the previous block if need be. */
    method StepBack()
      requires Shape() && size > 0
      modifies this`size, this`offset, this`active
      ensures size == old(size) - 1 && offset == size % BLOCK_SIZE
      ensures size / BLOCK_SIZE < |blocks| && active == blocks[size / BLOCK_SIZE]
    {
      size := size - 1;
      offset := offset - 1;
      if offset < 0 {
        offset := BLOCK_SIZE - 1;
        active := blocks[size / BLOCK_SIZE];
      }
    }

    /** The slot handling of `Pop`. */
    method Take() returns (res: Item)
      requires Shape() && size > 0
      modifies this, Repr
      ensures Shape() && res == old(items)[old(size) - 1] && items == old(items)[..old(size) - 1]
      ensures Repr == old(Repr)
    {
      ghost var was := items;
      assert blocks[(size - 1) / BLOCK_SIZE][(size - 1) % BLOCK_SIZE] == Full(was[size - 1]);
      StepBack();
      res := active[offset].item;
      active[offset] := Nil;
      items := items[..size];
      assert forall i | 0 <= i < size :: blocks[i / BLOCK_SIZE][i % BLOCK_SIZE] == Full(was[i]);
    }

    method Pop() returns (res: Item)
      requires Valid() && size > 0
      modifies this, Repr, reports
      ensures Valid() && res == old(items)[old(size) - 1] && items == old(items)[..old(size) - 1]
      ensures reports != null ==> reports.last == old(reports.last)[res.id := -1]
      ensures Repr == old(Repr)
    {
      ghost var was := items;
      PopIndexed(was, if reports != null then reports.last else map[], tag);
      hide Shape, DistinctIds;
      res := Take();
      if reports != null {
        reports.last := reports.last[res.id := Virtual(tag, -1)];
      }
    }

    method Len() returns (n: nat)
      requires Shape()
      ensures n == |items|
    {
      n := size;
    }

    method Less(i: nat, j: nat) returns (r: bool)
      requires Shape() && i < |items| && j < |items|
      ensures r == Before(items[i], items[j]) && (r <==> items[i].pri > items[j].pri)
    {
      r := blocks[i / BLOCK_SIZE][i % BLOCK_SIZE].item.pri > blocks[j / BLOCK_SIZE][j % BLOCK_SIZE].item.pri;
    }

    /** The first item, as read by the lazy queue. */
    method First() returns (x: Item)
      requires Shape() && items != []
      ensures x == items[0]
    {
      assert blocks[0 / BLOCK_SIZE][0 % BLOCK_SIZE] == Full(items[0]);
      x := blocks[0][0].item;
    }

    /** The slot handling of `Swap`. */
    method Exchange(i: nat, j: nat)
      requires Shape() && i < size && j < size
      modifies this`items, Repr
      ensures Shape() && items == Heap.Swap(old(items), i, j)
    {
      var ib, io, jb, jo := i / BLOCK_SIZE, i % BLOCK_SIZE, j / BLOCK_SIZE, j % BLOCK_SIZE;
      var a, b := blocks[jb][jo], blocks[ib][io];
      blocks[ib][io] := a;
      blocks[jb][jo] := b;
      items := Heap.Swap(items, i, j);
      assert forall k | 0 <= k < size :: blocks[k / BLOCK_SIZE][k % BLOCK_SIZE] == Full(items[k]);
    }

    method Swap(i: nat, j: nat)
      requires Valid() && i < size && j < size
      modifies this`items, Repr, reports
      ensures Valid() && items == Heap.Swap(old(items), i, j)
      ensures reports != null ==> OthersKept(old(reports.last), reports.last, IdsOf(old(items)))
    {
      ghost var was := items;
      SwapIndexed(was, if reports != null then reports.last else map[], tag, i, j);
      var a, b := blocks[j / BLOCK_SIZE][j % BLOCK_SIZE].item, blocks[i / BLOCK_SIZE][i % BLOCK_SIZE].item;
      hide Shape, DistinctIds, IdsOf, SwapReports, Indexed, OthersKept, Heap.Swap;
      if reports != null {
        reports.last := SwapReports(reports.last, tag, a.id, i, b.id, j);
      }
      Exchange(i, j);
    }
  }

  /** The two reports of `Swap`. */
  function SwapReports(last: map<nat, int>, tag: nat, a: nat, i: nat, b: nat, j: nat): map<nat, int>
    requires tag <= 1
  {
    last[a := Virtual(tag, i)][b := Virtual(tag, j)]
  }

  /** Nothing was reported about items outside `ids`. */
  ghost predicate OthersKept(last: map<nat, int>, last': map<nat, int>, ids: set<nat>) {
    forall id | id !in ids :: (id in last' <==> id in last) && (id in last ==> last'[id] == last[id])
  }

  /** Each item was last reported where it is. */
  ghost predicate Indexed(s: seq<Item>, last: map<nat, int>, tag: nat) {
    tag <= 1 && forall i | 0 <= i < |s| :: s[i].id in last && last[s[i].id] == Virtual(tag, i)
  }

  lemma PushIndexed(s: seq<Item>, x: Item, last: map<nat, int>, tag: nat)
    requires DistinctIds(s) && x.id !in IdsOf(s) && tag <= 1
    ensures DistinctIds(s + [x])
    ensures Indexed(s, last, tag) ==> Indexed(s + [x], last[x.id := Virtual(tag, |s|)], tag)
  {
    assert forall i | 0 <= i < |s| :: s[i].id in IdsOf(s);
  }

  lemma PopIndexed(s: seq<Item>, last: map<nat, int>, tag: nat)
    requires DistinctIds(s) && s != []
    ensures DistinctIds(s[..|s| - 1])
    ensures Indexed(s, last, tag) ==> Indexed(s[..|s| - 1], last[s[|s| - 1].id := -1], tag)
  {
  }

  lemma SwapIndexed(s: seq<Item>, last: map<nat, int>, tag: nat, i: nat, j: nat)
    requires DistinctIds(s) && i < |s| && j < |s| && tag <= 1
    ensures DistinctIds(Heap.Swap(s, i, j))
    ensures Indexed(s, last, tag) ==> Indexed(Heap.Swap(s, i, j), SwapReports(last, tag, s[j].id, i, s[i].id, j), tag)
    ensures OthersKept(last, SwapReports(last, tag, s[j].id, i, s[i].id, j), IdsOf(s))
  {
    assert s[i].id in IdsOf(s) && s[j].id in IdsOf(s);
  }
}
