/** `BlockChain`: insertion of blocks, `reorg` and `writeHeadBlock` over the database
    tables.

    The second branch of `reorg` compares number pointers.  Every block object owns its
    number, so two blocks that share one are the same block; whether the block found at the
    head's hash is the very object held as the head depends on the block cache, and is a
    parameter.
 */
module BlockChainModel {
  import opened Common
  import opened CanonicalChain

  datatype Status = Canonical | Side | Failed

  /** What the walk back from both heads finds. */
  datatype Fork = Fork(base: Block, newChain: seq<Block>, deletedTxs: seq<Hash>)

  ghost predicate SameGenesis(bs: Store, a: Block, b: Block)
    requires Closed(bs) && Stored(bs, a) && Stored(bs, b)
  {
    Ancestor(bs, a, 0) == Ancestor(bs, b, 0)
  }

  /** No two blocks share a number object. */
  ghost predicate Owned(samePointer: (Block, Block) -> bool) {
    forall x, y :: samePointer(x, y) ==> x == y
  }

  /** The walk from `b` meets a block whose number is the very object of the head's. */
  ghost predicate MeetsPointer(bs: Store, head: Block, b: Block, samePointer: (Block, Block) -> bool)
    requires Closed(bs) && Stored(bs, b)
  {
    exists n: nat | n <= b.number :: samePointer(Ancestor(bs, b, n), head)
  }

  ghost predicate Descends(bs: Store, b: Block, head: Block)
    requires Closed(bs) && Stored(bs, b)
  {
    head.number <= b.number && Ancestor(bs, b, head.number) == head
  }

  /** When `reorg` gets through: the new head is lower than the old one and has its root, or
      it descends from the old one, which is found as the very object held as the head. */
  ghost predicate Reorganisable(bs: Store, head: Block, b: Block, samePointer: (Block, Block) -> bool)
    requires Closed(bs) && Stored(bs, head) && Stored(bs, b)
  {
    if head.number > b.number then SameGenesis(bs, head, b) else Descends(bs, b, head) && samePointer(head, head)
  }

  /** Only the head itself has the head's number object. */
  lemma PointerIsHead(bs: Store, head: Block, b: Block, samePointer: (Block, Block) -> bool)
    requires Closed(bs) && Stored(bs, b) && Owned(samePointer)
    ensures MeetsPointer(bs, head, b, samePointer) <==> Descends(bs, b, head) && samePointer(head, head)
  {
    hide Ancestor, Closed;
    if MeetsPointer(bs, head, b, samePointer) {
      var n: nat :| n <= b.number && samePointer(Ancestor(bs, b, n), head);
      assert n == head.number;
    }
  }

  /** From a head at least as high as the old one, the walk to a common block gets through
      exactly when the new head descends from the old one: a competing fork of that height
      is never adopted, however heavy. */
  lemma HigherForkRefused(bs: Store, head: Block, b: Block, samePointer: (Block, Block) -> bool)
    requires Closed(bs) && Stored(bs, head) && Stored(bs, b) && Owned(samePointer) && head.number <= b.number
    ensures SameGenesis(bs, head, b) && MeetsPointer(bs, head, b, samePointer) <==>
            Descends(bs, b, head) && samePointer(head, head)
    ensures Reorganisable(bs, head, b, samePointer) ==> SameGenesis(bs, head, b) && Descends(bs, b, head)
  {
    PointerIsHead(bs, head, b, samePointer);
    if Descends(bs, b, head) { AncestorAncestor(bs, b, head.number, 0); }
  }

  /** A new head that is not lower than the old one descends from it. */
  lemma AdoptedDescends(bs: Store, head: Block, b: Block, samePointer: (Block, Block) -> bool)
    requires Closed(bs) && Stored(bs, head) && Stored(bs, b) && b.number > 0
    requires b.parent == head.hash || Reorganisable(bs, head, b, samePointer)
    ensures b.number < head.number || Descends(bs, b, head)
  {
    if b.parent == head.hash { AncestorParent(bs, b, b.number); }
  }

  /** Genesis, the head on top of it, and a competing fork of two blocks. */
  const EXAMPLE_HEAD := Block(2, 1, 1, [], 1)
  const EXAMPLE_FORK := Block(4, 3, 2, [], 1)
  const EXAMPLE_STORE: Store :=
    map[1 := Block(1, ZERO_HASH, 0, [], 1), 2 := EXAMPLE_HEAD, 3 := Block(3, 1, 1, [], 1), 4 := EXAMPLE_FORK]

  /** The longer and heavier fork of one genesis is wanted by fork choice, and refused. */
  lemma HigherForkExample(samePointer: (Block, Block) -> bool, currentPreserve: bool, externPreserve: bool, coin: bool)
    requires Owned(samePointer)
    ensures Closed(EXAMPLE_STORE) && Stored(EXAMPLE_STORE, EXAMPLE_HEAD) && Stored(EXAMPLE_STORE, EXAMPLE_FORK)
    ensures SameGenesis(EXAMPLE_STORE, EXAMPLE_HEAD, EXAMPLE_FORK)
    ensures ReorgNeeded(2, 3, EXAMPLE_HEAD.number, EXAMPLE_FORK.number, currentPreserve, externPreserve, coin)
    ensures !Reorganisable(EXAMPLE_STORE, EXAMPLE_HEAD, EXAMPLE_FORK, samePointer)
  {
    var b := Parent(EXAMPLE_STORE, EXAMPLE_FORK);
    assert Ancestor(EXAMPLE_STORE, EXAMPLE_FORK, 1) == b;
    assert Ancestor(EXAMPLE_STORE, b, 0) == Ancestor(EXAMPLE_STORE, EXAMPLE_HEAD, 0);
  }

  /** The fork found is where the paths meet, with the new path above it and the
      transactions of the old path above it. */
  ghost predicate ForkOf(bs: Store, f: Fork, head: Block, b: Block)
    requires Closed(bs) && Stored(bs, head) && Stored(bs, b)
  {
    && Meet(bs, head, b, f.base.number) && PathDown(bs, b, f.base, f.newChain)
    && (forall t :: t in f.deletedTxs <==> HasTx(bs, head, f.base.number, t))
  }

  /** The height up to which `reorg` writes the new path. */
  function TopNumber(f: Fork): nat {
    if |f.newChain| > 1 then f.newChain[1].number else f.base.number
  }

  /** A total difficulty is the block's own on top of its parent's. */
  ghost predicate TdAt(bs: Store, td: map<Hash, nat>, h: Hash) {
    h in bs && h in td &&
    (bs[h].number > 0 && bs[h].parent in td ==> td[h] == td[bs[h].parent] + bs[h].difficulty)
  }

  /** The difficulties of a block and of all its ancestors but genesis. */
  ghost function Weight(bs: Store, b: Block): nat
    requires Closed(bs) && Stored(bs, b)
    decreases b.number
  {
    if b.number == 0 then 0 else Weight(bs, Parent(bs, b)) + b.difficulty
  }

  /** In every state, a total difficulty is that of genesis and the sum along the path. */
  lemma {:induction false} TdIsWeight(bs: Store, td: map<Hash, nat>, b: Block)
    requires Closed(bs) && Stored(bs, b) && td.Keys == bs.Keys && forall h | h in td :: TdAt(bs, td, h)
    ensures td[b.hash] == td[Ancestor(bs, b, 0).hash] + Weight(bs, b)
    decreases b.number
  {
    if b.number > 0 {
      var p := Parent(bs, b);
      TdIsWeight(bs, td, p);
      assert TdAt(bs, td, b.hash) && p.hash == b.parent;
    }
  }

  class BlockChain {
    var blocks: Store
    var td: map<Hash, nat>
    var canonical: map<nat, Hash>
    var lookup: map<Hash, nat>
    var headHash: Hash
    var current: Block

    /** Total difficulties add up along parents, and the index is the path of the head. */
    ghost predicate Valid()
      reads this
    {
      && Closed(blocks) && Stored(blocks, current) && headHash == current.hash
      && td.Keys == blocks.Keys && (forall h | h in td :: TdAt(blocks, td, h))
      && (forall h | h in blocks :: UniqueTxs(blocks, blocks[h]))
      && IndexAt(blocks, canonical, lookup, current)
    }

    /** `GetBlock` and `ReadBlock`: by hash and number. */
    function GetBlock(h: Hash, number: int): (r: Option<Block>)
      reads this
    {
      if h == ZERO_HASH || h !in blocks || blocks[h].number != number then None else Some(blocks[h])
    }

    /** Stepping back: the parent, unless this is a block of number zero. */
    lemma ParentFound(b: Block)
      requires Closed(blocks) && Stored(blocks, b)
      ensures GetBlock(b.parent, b.number - 1) == if b.number == 0 then None else Some(Parent(blocks, b))
    {
      if b.number > 0 { var p := Parent(blocks, b); }
    }

    /** `writeHeadBlock` */
    method WriteHeadBlock(b: Block)
      modifies `canonical, `lookup, `headHash, `current
      ensures canonical == old(canonical)[b.number := b.hash] && lookup == WithTxs(old(lookup), b)
      ensures headHash == b.hash && current == b
    {
      headHash := b.hash;
      var table := lookup;
      for i := 0 to |b.txs|
        invariant table == lookup + map t | t in b.txs[..i] :: b.number
      {
        assert b.txs[..i + 1] == b.txs[..i] + [b.txs[i]];
        table := table[b.txs[i] := b.number];
      }
      assert b.txs[..|b.txs|] == b.txs;
      lookup := table;
      canonical := canonical[b.number := b.hash];
      current := b;
    }

    /** The first loop of `reorg` when the old head is higher: walk it down to the height of
        the new head, noting its transactions. */
    method ReduceOld(head: Block, number: nat) returns (b: Block, deleted: seq<Hash>)
      requires Closed(blocks) && Stored(blocks, head) && number <= head.number
      ensures b == Ancestor(blocks, head, number)
      ensures forall t :: t in deleted <==> HasTx(blocks, head, number, t)
    {
      b, deleted := head, [];
      while b.number != number
        invariant number <= b.number <= head.number && b == Ancestor(blocks, head, b.number)
        invariant forall t :: t in deleted <==> HasTx(blocks, head, b.number, t)
        decreases b.number
      {
        deleted := deleted + b.txs;
        HasTxStep(blocks, head, b.number);
        AncestorParent(blocks, head, b.number);
        ParentFound(b);
        b := GetBlock(b.parent, b.number - 1).value;
      }
    }

    /** The other first loop: walk the new head down until its number is the very object of
        the old one's; a walk that never meets it ends beyond number zero. */
    method ReduceNew(head: Block, newBlock: Block, samePointer: (Block, Block) -> bool)
      returns (b: Option<Block>, newChain: seq<Block>)
      requires Closed(blocks) && Stored(blocks, newBlock)
      requires Owned(samePointer)
      ensures b.Some? <==> Descends(blocks, newBlock, head) && samePointer(head, head)
      ensures b.Some? ==> b.value == head && PathDown(blocks, newBlock, head, newChain)
    {
      hide Ancestor, Closed, PathDown;
      b, newChain := Some(newBlock), [];
      PathDownStart(blocks, newBlock);
      while b.Some? && !samePointer(b.value, head)
        invariant b.Some? ==> PathDown(blocks, newBlock, b.value, newChain)
        invariant NoPointer(blocks, head, newBlock, if b.Some? then b.value.number else -1, samePointer)
        decreases if b.Some? then b.value.number + 1 else 0
      {
        PointerStep(blocks, head, newBlock, b.value, newChain, samePointer);
        ParentFound(b.value);
        if b.value.number > 0 { PathDownStep(blocks, newBlock, b.value, newChain); }
        newChain := newChain + [b.value];
        b := GetBlock(b.value.parent, b.value.number - 1);
      }
      PointerIsHead(blocks, head, newBlock, samePointer);
      if b.Some? { PointerMet(blocks, head, newBlock, b.value, newChain, samePointer); }
    }

    /** The state of the walk with both sides at one height. */
    ghost predicate Walking(head: Block, newBlock: Block, o: Block, n: Block, newChain: seq<Block>, deleted: seq<Hash>)
      reads this
      requires Closed(blocks) && Stored(blocks, head) && Stored(blocks, newBlock)
    {
      && o.number == n.number && o.number <= head.number && o == Ancestor(blocks, head, o.number)
      && PathDown(blocks, newBlock, n, newChain)
      && (forall t :: t in deleted <==> HasTx(blocks, head, o.number, t))
    }

    lemma WalkStep(head: Block, newBlock: Block, o: Block, n: Block, newChain: seq<Block>, deleted: seq<Hash>)
      requires Closed(blocks) && Stored(blocks, head) && Stored(blocks, newBlock)
      requires Walking(head, newBlock, o, n, newChain, deleted)
      ensures o.number > 0 ==>
                && GetBlock(o.parent, o.number - 1).Some? && GetBlock(n.parent, n.number - 1).Some?
                && Walking(head, newBlock, GetBlock(o.parent, o.number - 1).value, GetBlock(n.parent, n.number - 1).value,
                           newChain + [n], deleted + o.txs)
      ensures o.number == 0 ==> GetBlock(o.parent, o.number - 1).None?
      ensures o.number == 0 && o.hash != n.hash ==> !SameGenesis(blocks, head, newBlock)
    {
      hide Ancestor, Closed, HasTx;
      ParentFound(o);
      ParentFound(n);
      if o.number > 0 {
        AncestorParent(blocks, head, o.number);
        PathDownStep(blocks, newBlock, n, newChain);
        HasTxStep(blocks, head, o.number);
      }
    }

    /** The loop of `reorg` that steps both sides back until their hashes agree. */
    method WalkBack(head: Block, newBlock: Block, o: Block, n: Block, chain: seq<Block>, txs: seq<Hash>) returns (r: Option<Fork>)
      requires Closed(blocks) && Stored(blocks, head) && Stored(blocks, newBlock)
      requires Walking(head, newBlock, o, n, chain, txs)
      ensures r.Some? <==> SameGenesis(blocks, head, newBlock)
      ensures r.Some? ==> ForkOf(blocks, r.value, head, newBlock)
    {
      hide Ancestor, Closed, HasTx;
      var oldB, newB, newChain, deleted := o, n, chain, txs;
      while oldB.hash != newB.hash
        invariant Walking(head, newBlock, oldB, newB, newChain, deleted)
        decreases oldB.number
      {
        WalkStep(head, newBlock, oldB, newB, newChain, deleted);
        deleted := deleted + oldB.txs;
        newChain := newChain + [newB];
        var o' := GetBlock(oldB.parent, oldB.number - 1);
        if o'.None? { return None; }
        var n' := GetBlock(newB.parent, newB.number - 1);
        if n'.None? { return None; }
        oldB, newB := o'.value, n'.value;
      }
      assert oldB == newB;
      SameBelow(blocks, head, newBlock, newB.number, 0);
      r := Some(Fork(oldB, newChain, deleted));
    }

    /** The walk of `reorg` from both heads to a common block; it reads but does not write. */
    method FindFork(head: Block, newBlock: Block, samePointer: (Block, Block) -> bool) returns (r: Option<Fork>)
      requires Closed(blocks) && Stored(blocks, head) && Stored(blocks, newBlock)
      requires Owned(samePointer)
      ensures r.Some? <==> Reorganisable(blocks, head, newBlock, samePointer)
      ensures r.Some? ==> ForkOf(blocks, r.value, head, newBlock)
    {
      hide Ancestor, Closed, HasTx, SameGenesis, ForkOf;
      AncestorSelf(blocks, head);
      if head.number <= newBlock.number { HigherForkRefused(blocks, head, newBlock, samePointer); }
      PathDownStart(blocks, newBlock);
      hide PathDown;
      var oldB, newB, newChain, deleted := head, newBlock, [], [];
      if head.number > newBlock.number {
        oldB, deleted := ReduceOld(head, newBlock.number);
      } else {
        var nb;
        nb, newChain := ReduceNew(head, newBlock, samePointer);
        if nb.None? { return None; }
        newB := nb.value;
        NoTxsAbove(blocks, head);
      }
      r := WalkBack(head, newBlock, oldB, newB, newChain, deleted);
    }

    /** `DeleteTxLookupEntry` for each of the given transactions. */
    method DeleteTxLookups(ts: seq<Hash>)
      modifies `lookup
      ensures lookup == old(lookup) - (set t | t in ts)
    {
      for i := 0 to |ts|
        invariant lookup == old(lookup) - (set t | t in ts[..i])
      {
        assert ts[..i + 1] == ts[..i] + [ts[i]];
        lookup := lookup - {ts[i]};
      }
      assert ts[..|ts|] == ts;
    }

    /** The last loop of `reorg`: while there is a marker at `i`, drop all markers from `i` on. */
    method TruncateAbove(number: nat)
      modifies `canonical
      ensures canonical == if number + 1 in old(canonical) && old(canonical)[number + 1] != ZERO_HASH
                           then Truncate(old(canonical), number + 1) else old(canonical)
    {
      var i := number + 1;
      while i in canonical && canonical[i] != ZERO_HASH
        invariant (i == number + 1 && canonical == old(canonical)) ||
                  (i == number + 2 && canonical == Truncate(old(canonical), number + 1) &&
                   number + 1 in old(canonical) && old(canonical)[number + 1] != ZERO_HASH)
        decreases number + 2 - i
      {
        canonical := Truncate(canonical, i);
        i := i + 1;
      }
    }

    /** The loop of `reorg` that writes the new path, lowest block first, without its head. */
    method InsertNewChain(head: Block, newBlock: Block, f: Fork) returns (addedTxs: seq<Hash>)
      requires Closed(blocks) && Stored(blocks, head) && Stored(blocks, newBlock) && ForkOf(blocks, f, head, newBlock)
      requires CanonicalAt(blocks, canonical, head) && forall h | h in blocks :: UniqueTxs(blocks, blocks[h])
      modifies `canonical, `lookup, `headHash, `current
      ensures CanonWritten(blocks, old(canonical), canonical, newBlock, TopNumber(f))
      ensures Written(blocks, old(lookup), lookup, addedTxs, Ancestor(blocks, newBlock, TopNumber(f)), f.base.number)
    {
      hide Ancestor, Closed, HasTx, Written, CanonWritten, UniqueTxs, CanonicalAt;
      var newChain := f.newChain;
      TopBelow(blocks, f, head, newBlock);
      addedTxs := [];
      WrittenStart(blocks, lookup, f.base);
      CanonStart(blocks, canonical, head, newBlock, f.base.number);
      var i := |newChain| - 1;
      while i >= 1
        invariant -1 <= i < |newChain| && (i < 0 ==> newChain == [])
        invariant Written(blocks, old(lookup), lookup, addedTxs, Ancestor(blocks, newBlock, newBlock.number - i - 1), f.base.number)
        invariant CanonWritten(blocks, old(canonical), canonical, newBlock, newBlock.number - i - 1)
      {
        AncestorParent(blocks, newBlock, newBlock.number - i);
        WrittenStep(blocks, old(lookup), lookup, addedTxs, newChain[i], f.base.number);
        CanonStep(blocks, old(canonical), canonical, newBlock, newBlock.number - i - 1);
        WriteHeadBlock(newChain[i]);
        addedTxs := addedTxs + newChain[i].txs;
        i := i - 1;
      }
    }

    /** `reorg`: refused without a trace, or the index becomes that of the block just below
        the new head (of the new head itself when it lies on the old path). */
    method Reorg(newBlock: Block, samePointer: (Block, Block) -> bool) returns (ok: bool, ghost top: Block)
      requires Valid() && Stored(blocks, newBlock)
      requires Owned(samePointer)
      modifies `canonical, `lookup, `headHash, `current
      ensures ok <==> Reorganisable(blocks, old(current), newBlock, samePointer)
      ensures !ok ==> unchanged(this)
      ensures ok ==> Stored(blocks, top) && IndexAt(blocks, canonical, lookup, top)
      ensures ok ==> top == newBlock || (newBlock.number > 0 && top == Parent(blocks, newBlock))
    {
      hide Ancestor, Closed, HasTx, Reorganisable, LookupAt, Written, LookupMoved, UniqueTxs, CanonWritten, CanonicalAt;
      top := current;
      var head := current;
      var f := FindFork(head, newBlock, samePointer);
      if f.None? { return false, top; }
      var fork := f.value;
      var addedTxs := InsertNewChain(head, newBlock, fork);
      top := Ancestor(blocks, newBlock, TopNumber(fork));
      var gone := HashDifference(fork.deletedTxs, addedTxs);
      WrittenMoved(blocks, old(lookup), lookup, addedTxs, fork.deletedTxs, gone, head, top, fork.base.number);
      DeleteTxLookups(gone);
      TopBelow(blocks, fork, head, newBlock);
      LookupMoves(blocks, old(lookup), lookup, head, top, fork.base.number);
      var number := fork.base.number;
      if |fork.newChain| > 1 { number := fork.newChain[1].number; }
      CanonEnd(blocks, old(canonical), canonical, head, newBlock, number);
      TruncateAbove(number);
      return true, top;
    }

    /** The writes of `writeBlockWithState`: total difficulty and block. */
    method StoreBlock(b: Block)
      requires Valid() && Insertable(blocks, b)
      modifies `blocks, `td
      ensures Valid() && blocks == old(blocks)[b.hash := b] && td == old(td)[b.hash := old(td)[b.parent] + b.difficulty]
      ensures Stored(blocks, b)
    {
      hide Ancestor, HasTx, UniqueTxs, IndexAt;
      var grown := blocks[b.hash := b];
      StoreGrows(blocks, grown, b);
      IndexGrows(blocks, grown, b, canonical, lookup, current);
      UniqueGrows(blocks, grown, b);
      TdGrows(blocks, grown, td, b);
      hide Closed, Insertable;
      td := td[b.hash := td[b.parent] + b.difficulty];
      blocks := grown;
    }

    /** `writeBlockWithState`: the index is the path of the head before and after; the head
        moves to the block exactly when fork choice wants it and it extends the head or
        `reorg` gets through, and never to a lower total difficulty. */
    method WriteBlockWithState(b: Block, currentPreserve: bool, externPreserve: bool, coin: bool,
                               samePointer: (Block, Block) -> bool) returns (status: Status)
      requires Valid()
      requires b.parent in blocks && blocks[b.parent].number == b.number - 1 ==> Insertable(blocks, b)
      requires Owned(samePointer)
      modifies this
      ensures Valid()
      ensures !old(Insertable(blocks, b)) ==> status.Failed? && unchanged(this)
      ensures old(Insertable(blocks, b)) ==> blocks == old(blocks)[b.hash := b]
      ensures !status.Canonical? ==> current == old(current) && canonical == old(canonical) && lookup == old(lookup)
      ensures status.Canonical? ==> current == b && old(current).hash in td && td[old(current).hash] <= td[b.hash]
      ensures status.Canonical? ==> b.number < old(current).number || Descends(blocks, b, old(current))
      ensures old(Insertable(blocks, b)) ==>
                var wanted := ReorgNeeded(td[old(current).hash], td[b.hash], old(current).number, b.number,
                                          currentPreserve, externPreserve, coin);
                && (status.Side? <==> !wanted)
                && (status.Canonical? <==>
                      wanted && (b.parent == old(current).hash || Reorganisable(blocks, old(current), b, samePointer)))
    {
      hide Ancestor, HasTx, UniqueTxs, IndexAt, Reorganisable, ReorgNeeded, WithTxs, HasParent;
      if b.number == 0 || b.parent !in blocks || blocks[b.parent].number != b.number - 1 {
        return Failed;
      }
      StoreBlock(b);
      var head := current;
      var wanted := ReorgNeeded(td[head.hash], td[b.hash], head.number, b.number, currentPreserve, externPreserve, coin);
      if !wanted { return Side; }
      ghost var top := head;
      if b.parent != head.hash {
        var ok;
        ok, top := Reorg(b, samePointer);
        if !ok { return Failed; }
      }
      assert HasParent(blocks, b.hash);
      AdoptedDescends(blocks, head, b, samePointer);
      if top == b {
        IndexRewritten(blocks, canonical, lookup, b);
      } else {
        IndexExtends(blocks, canonical, lookup, b);
      }
      WriteHeadBlock(b);
      return Canonical;
    }
  }

  /** The top of what is written is the new head or its parent, above the fork. */
  lemma TopBelow(bs: Store, f: Fork, head: Block, b: Block)
    requires Closed(bs) && Stored(bs, head) && Stored(bs, b) && ForkOf(bs, f, head, b)
    ensures TopNumber(f) == if f.newChain == [] then b.number else b.number - 1
    ensures var top := Ancestor(bs, b, TopNumber(f));
            && Meet(bs, head, top, f.base.number)
            && (top == b || (b.number > 0 && top == Parent(bs, b)))
  {
    hide Ancestor, Closed, HasTx;
    AncestorSelf(bs, b);
    AncestorAncestor(bs, b, TopNumber(f), f.base.number);
    if b.number > 0 { AncestorParent(bs, b, b.number); }
  }

  lemma PathDownStart(bs: Store, b: Block)
    requires Closed(bs) && Stored(bs, b)
    ensures PathDown(bs, b, b, [])
  {
  }

  /** Above height `m`, no block of the path shares the number object of the head. */
  ghost predicate NoPointer(bs: Store, head: Block, b: Block, m: int, samePointer: (Block, Block) -> bool)
    requires Closed(bs) && Stored(bs, b)
  {
    forall n: nat | m < n <= b.number :: !samePointer(Ancestor(bs, b, n), head)
  }

  lemma PointerStep(bs: Store, head: Block, b: Block, c: Block, chain: seq<Block>, samePointer: (Block, Block) -> bool)
    requires Closed(bs) && Stored(bs, b) && PathDown(bs, b, c, chain) && !samePointer(c, head)
    requires NoPointer(bs, head, b, c.number, samePointer)
    ensures NoPointer(bs, head, b, c.number - 1, samePointer) && Stored(bs, c)
  {
    hide Ancestor, Closed;
  }

  lemma PointerMet(bs: Store, head: Block, b: Block, c: Block, chain: seq<Block>, samePointer: (Block, Block) -> bool)
    requires Closed(bs) && Stored(bs, b) && PathDown(bs, b, c, chain) && samePointer(c, head)
    ensures MeetsPointer(bs, head, b, samePointer)
  {
    hide Ancestor, Closed;
    assert samePointer(Ancestor(bs, b, c.number), head);
  }

  lemma TdGrows(bs: Store, bs': Store, td: map<Hash, nat>, b: Block)
    requires Closed(bs) && Insertable(bs, b) && bs' == bs[b.hash := b] && td.Keys == bs.Keys
    requires forall h | h in td :: TdAt(bs, td, h)
    ensures var td' := td[b.hash := td[b.parent] + b.difficulty];
            td'.Keys == bs'.Keys && forall h | h in td' :: TdAt(bs', td', h)
  {
    var td' := td[b.hash := td[b.parent] + b.difficulty];
    forall h | h in td' ensures TdAt(bs', td', h) {
      if h in td { assert TdAt(bs, td, h) && HasParent(bs, h); }
      if b.hash in td { assert TdAt(bs, td, b.hash); }
    }
  }

  lemma AncestorSelf(bs: Store, b: Block)
    requires Closed(bs) && Stored(bs, b)
    ensures Ancestor(bs, b, b.number) == b
  {
  }

  lemma HasTxStep(bs: Store, b: Block, n: nat)
    requires Closed(bs) && Stored(bs, b) && n <= b.number
    ensures forall t :: HasTx(bs, b, n - 1, t) <==> HasTx(bs, b, n, t) || t in Ancestor(bs, b, n).txs
  {
    forall t
      ensures HasTx(bs, b, n - 1, t) <==> HasTx(bs, b, n, t) || t in Ancestor(bs, b, n).txs
    {
      if HasTx(bs, b, n - 1, t) {
        var m: nat :| n - 1 < m <= b.number && t in Ancestor(bs, b, m).txs;
      }
    }
  }

  lemma NoTxsAbove(bs: Store, b: Block)
    requires Closed(bs) && Stored(bs, b)
    ensures forall t :: !HasTx(bs, b, b.number, t)
  {
  }
}
