/** The canonical index of the chain: which block is canonical at each height, and at
    which height each canonical transaction is found.

    Every head change goes through `writeHeadBlock`, after `reorg` when the new block
    does not extend the head.  The invariant is that the index is exactly the
    ancestor path of the head; it holds after every insertion, whether that
    insertion succeeds, leaves the block on a side chain, or fails.
 */
module CanonicalChain {

  type Hash = nat
  const ZERO_HASH: Hash := 0

  datatype Block = Block(hash: Hash, parent: Hash, number: nat, txs: seq<Hash>, difficulty: nat)

  type Store = map<Hash, Block>

  // ---------- ancestor paths ----------

  ghost predicate HasParent(bs: Store, h: Hash)
    requires h in bs
  {
    bs[h].number > 0 ==> bs[h].parent in bs && bs[bs[h].parent].number == bs[h].number - 1
  }

  /** Blocks are found under their own hash, and parents are known down to number zero. */
  ghost predicate Closed(bs: Store) {
    && ZERO_HASH !in bs
    && (forall h | h in bs :: bs[h].hash == h)
    && (forall h {:trigger HasParent(bs, h)} | h in bs :: HasParent(bs, h))
  }

  ghost predicate Stored(bs: Store, b: Block) {
    b.hash in bs && bs[b.hash] == b
  }

  ghost function Parent(bs: Store, b: Block): (r: Block)
    requires Closed(bs) && Stored(bs, b) && b.number > 0
    ensures Stored(bs, r) && r.number == b.number - 1
    ensures b.parent in bs && r == bs[b.parent]
  {
    assert HasParent(bs, b.hash);
    bs[b.parent]
  }

  /** The block at height `n` on the path from number zero to `b`. */
  ghost function Ancestor(bs: Store, b: Block, n: nat): (r: Block)
    requires Closed(bs) && Stored(bs, b) && n <= b.number
    ensures Stored(bs, r) && r.number == n
    decreases b.number
  {
    if n == b.number then b else Ancestor(bs, Parent(bs, b), n)
  }

  lemma {:induction false} AncestorAncestor(bs: Store, b: Block, m: nat, n: nat)
    requires Closed(bs) && Stored(bs, b) && n <= m <= b.number
    ensures Ancestor(bs, Ancestor(bs, b, m), n) == Ancestor(bs, b, n)
    decreases b.number
  {
    if m < b.number { AncestorAncestor(bs, Parent(bs, b), m, n); }
  }

  lemma AncestorParent(bs: Store, b: Block, n: nat)
    requires Closed(bs) && Stored(bs, b) && 0 < n <= b.number
    ensures Parent(bs, Ancestor(bs, b, n)) == Ancestor(bs, b, n - 1)
  {
    AncestorAncestor(bs, b, n, n - 1);
  }

  lemma AncestorBelow(bs: Store, b: Block)
    requires Closed(bs) && Stored(bs, b) && b.number > 0
    ensures Ancestor(bs, b, b.number) == b
    ensures forall n: nat | n < b.number :: Ancestor(bs, b, n) == Ancestor(bs, Parent(bs, b), n)
  {
  }

  lemma {:induction false} AncestorGrows(bs: Store, bs': Store, b: Block, n: nat)
    requires Closed(bs) && Closed(bs') && Stored(bs, b) && n <= b.number
    requires forall h | h in bs :: h in bs' && bs'[h] == bs[h]
    ensures Ancestor(bs', b, n) == Ancestor(bs, b, n)
    decreases b.number
  {
    if n < b.number { AncestorGrows(bs, bs', Parent(bs, b), n); }
  }

  /** `chain` is the path of `top`, downwards, as far as the block above `b`. */
  ghost predicate PathDown(bs: Store, top: Block, b: Block, chain: seq<Block>)
    requires Closed(bs) && Stored(bs, top)
  {
    && b.number <= top.number && b == Ancestor(bs, top, b.number) && |chain| == top.number - b.number
    && forall i | 0 <= i < |chain| :: chain[i] == Ancestor(bs, top, top.number - i)
  }

  lemma PathDownStep(bs: Store, top: Block, b: Block, chain: seq<Block>)
    requires Closed(bs) && Stored(bs, top) && PathDown(bs, top, b, chain) && b.number > 0
    ensures PathDown(bs, top, Parent(bs, b), chain + [b])
  {
    AncestorParent(bs, top, b.number);
  }

  /** Transaction `t` is in a block of the path above height `lo`. */
  ghost predicate HasTx(bs: Store, b: Block, lo: int, t: Hash)
    requires Closed(bs) && Stored(bs, b)
  {
    exists n: nat | lo < n <= b.number :: t in Ancestor(bs, b, n).txs
  }

  /** No transaction is in two blocks of the path. */
  ghost predicate UniqueTxs(bs: Store, b: Block)
    requires Closed(bs) && Stored(bs, b)
  {
    forall m: nat, n: nat, t | m < n <= b.number && t in Ancestor(bs, b, m).txs :: t !in Ancestor(bs, b, n).txs
  }

  /** The two tables hold the path of `b` and its transactions, and nothing else. */
  ghost predicate IndexAt(bs: Store, canonical: map<nat, Hash>, lookup: map<Hash, nat>, b: Block)
    requires Closed(bs) && Stored(bs, b)
  {
    CanonicalAt(bs, canonical, b) && LookupAt(bs, lookup, b)
  }

  ghost predicate CanonicalAt(bs: Store, canonical: map<nat, Hash>, b: Block)
    requires Closed(bs) && Stored(bs, b)
  {
    && (forall n: nat :: n in canonical <==> n <= b.number)
    && (forall n: nat | n <= b.number :: canonical[n] == Ancestor(bs, b, n).hash)
  }

  ghost predicate LookupAt(bs: Store, lookup: map<Hash, nat>, b: Block)
    requires Closed(bs) && Stored(bs, b)
  {
    && (forall t | t in lookup :: HasTx(bs, b, -1, t))
    && (forall n: nat, t | n <= b.number && t in Ancestor(bs, b, n).txs :: t in lookup && lookup[t] == n)
  }

  /** Two paths that meet at some height agree below it. */
  lemma SameBelow(bs: Store, a: Block, b: Block, n: nat, k: nat)
    requires Closed(bs) && Stored(bs, a) && Stored(bs, b) && k <= n <= a.number && n <= b.number
    requires Ancestor(bs, a, n) == Ancestor(bs, b, n)
    ensures Ancestor(bs, a, k) == Ancestor(bs, b, k)
  {
    AncestorAncestor(bs, a, n, k);
    AncestorAncestor(bs, b, n, k);
  }

  // ---------- fork choice ----------

  /** `ForkChoice.ReorgNeeded`; `coin` stands for the random draw. */
  function ReorgNeeded(localTd: nat, externTd: nat, headNumber: nat, number: nat,
                       currentPreserve: bool, externPreserve: bool, coin: bool): (r: bool)
    ensures r ==> externTd >= localTd
    ensures externTd > localTd ==> r
    ensures externTd == localTd && number != headNumber ==> (r <==> number < headNumber)
    ensures externTd == localTd && number == headNumber ==> (r <==> !currentPreserve && (externPreserve || coin))
  {
    externTd > localTd ||
    (externTd == localTd &&
     (number < headNumber || (number == headNumber && !currentPreserve && (externPreserve || coin))))
  }

  // ---------- the tables ----------

  /** `HashDifference`: the members of `a` that are not in `b`. */
  method HashDifference(a: seq<Hash>, b: seq<Hash>) returns (keep: seq<Hash>)
    ensures forall h :: h in keep <==> h in a && h !in b
  {
    keep := [];
    var remove: set<Hash> := {};
    for i := 0 to |b|
      invariant forall h :: h in remove <==> h in b[..i]
    {
      assert b[..i + 1] == b[..i] + [b[i]];
      remove := remove + {b[i]};
    }
    assert b[..|b|] == b;
    for i := 0 to |a|
      invariant forall h :: h in keep <==> h in a[..i] && h !in b
    {
      assert a[..i + 1] == a[..i] + [a[i]];
      if a[i] !in remove { keep := keep + [a[i]]; }
    }
    assert a[..|a|] == a;
  }

  /** `WriteTxLookupEntries` */
  function WithTxs(lookup: map<Hash, nat>, b: Block): (r: map<Hash, nat>) {
    lookup + map t | t in b.txs :: b.number
  }

  lemma IndexExtends(bs: Store, canonical: map<nat, Hash>, lookup: map<Hash, nat>, b: Block)
    requires Closed(bs) && Stored(bs, b) && b.number > 0 && UniqueTxs(bs, b)
    requires IndexAt(bs, canonical, lookup, Parent(bs, b))
    ensures IndexAt(bs, canonical[b.number := b.hash], WithTxs(lookup, b), b)
  {
    LookupExtends(bs, lookup, b);
    hide Ancestor, Closed, LookupAt, UniqueTxs;
    AncestorBelow(bs, b);
  }

  lemma LookupExtends(bs: Store, lookup: map<Hash, nat>, b: Block)
    requires Closed(bs) && Stored(bs, b) && b.number > 0 && UniqueTxs(bs, b)
    requires LookupAt(bs, lookup, Parent(bs, b))
    ensures LookupAt(bs, WithTxs(lookup, b), b)
  {
    hide Ancestor, Closed;
    var p := Parent(bs, b);
    AncestorBelow(bs, b);
    forall t | t in WithTxs(lookup, b)
      ensures HasTx(bs, b, -1, t)
    {
      if t !in b.txs {
        var n: nat :| n <= p.number && t in Ancestor(bs, p, n).txs;
        assert t in Ancestor(bs, b, n).txs;
      }
    }
  }

  /** Writing a head that is already the top of the index changes nothing. */
  lemma IndexRewritten(bs: Store, canonical: map<nat, Hash>, lookup: map<Hash, nat>, b: Block)
    requires Closed(bs) && Stored(bs, b) && IndexAt(bs, canonical, lookup, b)
    ensures canonical[b.number := b.hash] == canonical && WithTxs(lookup, b) == lookup
  {
    assert Ancestor(bs, b, b.number) == b;
  }

  /** The lookup table after the transactions of `top` above `fork` were written and those
      that only `head` has above `fork` were deleted. */
  ghost predicate LookupMoved(bs: Store, lookup: map<Hash, nat>, lookup': map<Hash, nat>, head: Block, top: Block, fork: nat)
    requires Closed(bs) && Stored(bs, head) && Stored(bs, top)
  {
    && (forall t | t in lookup' :: HasTx(bs, top, fork, t) || (t in lookup && !HasTx(bs, head, fork, t)))
    && (forall t | t in lookup && !HasTx(bs, head, fork, t) && !HasTx(bs, top, fork, t) ::
          t in lookup' && lookup'[t] == lookup[t])
    && (forall n: nat, t | fork < n <= top.number && t in Ancestor(bs, top, n).txs :: t in lookup' && lookup'[t] == n)
  }

  ghost predicate Meet(bs: Store, a: Block, b: Block, n: nat)
    requires Closed(bs) && Stored(bs, a) && Stored(bs, b)
  {
    n <= a.number && n <= b.number && Ancestor(bs, a, n) == Ancestor(bs, b, n)
  }

  /** Then it is the lookup table of `top`, because no path has a transaction twice. */
  lemma LookupMoves(bs: Store, lookup: map<Hash, nat>, lookup': map<Hash, nat>, head: Block, top: Block, fork: nat)
    requires Closed(bs) && Stored(bs, head) && Stored(bs, top) && Meet(bs, head, top, fork)
    requires UniqueTxs(bs, head) && UniqueTxs(bs, top) && LookupAt(bs, lookup, head)
    requires LookupMoved(bs, lookup, lookup', head, top, fork)
    ensures LookupAt(bs, lookup', top)
  {
    hide Ancestor, Closed;
    forall n: nat | n <= fork ensures Ancestor(bs, head, n) == Ancestor(bs, top, n) {
      SameBelow(bs, head, top, fork, n);
    }
    forall t | t in lookup'
      ensures HasTx(bs, top, -1, t)
    {
      if HasTx(bs, top, fork, t) {
        var n: nat :| fork < n <= top.number && t in Ancestor(bs, top, n).txs;
      } else {
        var n: nat :| n <= head.number && t in Ancestor(bs, head, n).txs;
        assert n <= fork;
        assert t in Ancestor(bs, top, n).txs;
      }
    }
    forall n: nat, t | n <= top.number && t in Ancestor(bs, top, n).txs
      ensures t in lookup' && lookup'[t] == n
    {
      if n <= fork { assert t in Ancestor(bs, head, n).txs; }
    }
  }

  /** The tables while the new path is written from above `fork` up to `top`. */
  ghost predicate Written(bs: Store, lookup: map<Hash, nat>, lookup': map<Hash, nat>, added: seq<Hash>, top: Block, fork: nat)
    requires Closed(bs) && Stored(bs, top)
  {
    && (forall t :: t in added <==> HasTx(bs, top, fork, t))
    && (forall t | !HasTx(bs, top, fork, t) :: (t in lookup' <==> t in lookup) && (t in lookup ==> lookup'[t] == lookup[t]))
    && (forall n: nat, t | fork < n <= top.number && t in Ancestor(bs, top, n).txs :: t in lookup' && lookup'[t] == n)
  }

  lemma WrittenStart(bs: Store, lookup: map<Hash, nat>, top: Block)
    requires Closed(bs) && Stored(bs, top)
    ensures Written(bs, lookup, lookup, [], top, top.number)
  {
  }

  lemma HasTxParent(bs: Store, b: Block, fork: nat)
    requires Closed(bs) && Stored(bs, b) && fork < b.number
    ensures forall t :: HasTx(bs, b, fork, t) <==> HasTx(bs, Parent(bs, b), fork, t) || t in b.txs
  {
    hide Ancestor, Closed;
    var p := Parent(bs, b);
    AncestorBelow(bs, b);
    forall t
      ensures HasTx(bs, b, fork, t) <==> HasTx(bs, p, fork, t) || t in b.txs
    {
      if HasTx(bs, p, fork, t) {
        var n: nat :| fork < n <= p.number && t in Ancestor(bs, p, n).txs;
        assert t in Ancestor(bs, b, n).txs;
      }
      if HasTx(bs, b, fork, t) && t !in b.txs {
        var n: nat :| fork < n <= b.number && t in Ancestor(bs, b, n).txs;
        assert t in Ancestor(bs, p, n).txs;
      }
    }
  }

  lemma WrittenStep(bs: Store, lookup: map<Hash, nat>, lookup': map<Hash, nat>, added: seq<Hash>, b: Block, fork: nat)
    requires Closed(bs) && Stored(bs, b) && fork < b.number && UniqueTxs(bs, b)
    requires Written(bs, lookup, lookup', added, Parent(bs, b), fork)
    ensures Written(bs, lookup, WithTxs(lookup', b), added + b.txs, b, fork)
  {
    hide Ancestor, Closed, HasTx;
    var p := Parent(bs, b);
    HasTxParent(bs, b, fork);
    AncestorBelow(bs, b);
    forall n: nat, t | fork < n <= b.number && t in Ancestor(bs, b, n).txs
      ensures t in WithTxs(lookup', b) && WithTxs(lookup', b)[t] == n
    {
      if n < b.number { assert t in Ancestor(bs, p, n).txs && t !in b.txs; }
    }
  }

  /** Deleting what the old path had and the new one has not completes the move. */
  lemma WrittenMoved(bs: Store, lookup: map<Hash, nat>, lookup': map<Hash, nat>, added: seq<Hash>, deleted: seq<Hash>,
                     keep: seq<Hash>, head: Block, top: Block, fork: nat)
    requires Closed(bs) && Stored(bs, head) && Stored(bs, top) && Written(bs, lookup, lookup', added, top, fork)
    requires forall t :: t in deleted <==> HasTx(bs, head, fork, t)
    requires forall t :: t in keep <==> t in deleted && t !in added
    ensures LookupMoved(bs, lookup, lookup' - (set t | t in keep), head, top, fork)
  {
    hide Ancestor, Closed;
    forall n: nat, t | fork < n <= top.number && t in Ancestor(bs, top, n).txs
      ensures t in lookup' && t !in keep && lookup'[t] == n
    {
      assert HasTx(bs, top, fork, t);
    }
  }

  /** `TruncateCanonicalHash` */
  function Truncate(canonical: map<nat, Hash>, from: nat): map<nat, Hash> {
    map n | n in canonical && n < from :: canonical[n]
  }

  /** The canonical table while the path of `b` is written up to height `m`. */
  ghost predicate CanonWritten(bs: Store, canonical: map<nat, Hash>, canonical': map<nat, Hash>, b: Block, m: nat)
    requires Closed(bs) && Stored(bs, b)
  {
    && m <= b.number
    && (forall n: nat :: n in canonical' <==> n in canonical || n <= m)
    && (forall n: nat | n <= m :: canonical'[n] == Ancestor(bs, b, n).hash)
    && (forall n: nat | m < n && n in canonical :: canonical'[n] == canonical[n])
  }

  lemma CanonStart(bs: Store, canonical: map<nat, Hash>, head: Block, b: Block, fork: nat)
    requires Closed(bs) && Stored(bs, head) && Stored(bs, b) && Meet(bs, head, b, fork) && CanonicalAt(bs, canonical, head)
    ensures CanonWritten(bs, canonical, canonical, b, fork)
  {
    hide Ancestor, Closed;
    forall n: nat | n <= fork ensures Ancestor(bs, head, n) == Ancestor(bs, b, n) {
      SameBelow(bs, head, b, fork, n);
    }
  }

  lemma CanonStep(bs: Store, canonical: map<nat, Hash>, canonical': map<nat, Hash>, b: Block, m: nat)
    requires Closed(bs) && Stored(bs, b) && CanonWritten(bs, canonical, canonical', b, m) && m < b.number
    ensures CanonWritten(bs, canonical, canonical'[m + 1 := Ancestor(bs, b, m + 1).hash], b, m + 1)
  {
    hide Ancestor, Closed;
  }

  /** Cutting off what is above leaves exactly the path. */
  lemma CanonEnd(bs: Store, canonical: map<nat, Hash>, canonical': map<nat, Hash>, head: Block, b: Block, m: nat)
    requires Closed(bs) && Stored(bs, head) && Stored(bs, b) && CanonicalAt(bs, canonical, head)
    requires CanonWritten(bs, canonical, canonical', b, m)
    ensures m + 1 in canonical' ==> canonical'[m + 1] != ZERO_HASH
    ensures CanonicalAt(bs, if m + 1 in canonical' then Truncate(canonical', m + 1) else canonical', Ancestor(bs, b, m))
  {
    if m + 1 in canonical' {
      assert m + 1 in canonical;
      assert Stored(bs, Ancestor(bs, head, m + 1));
    }
    hide Ancestor, Closed;
    forall n: nat | n <= m ensures Ancestor(bs, Ancestor(bs, b, m), n) == Ancestor(bs, b, n) {
      AncestorAncestor(bs, b, m, n);
    }
  }

  /** A block may enter the store: its parent is known one height below, its hash is its
      own, and its transactions are not on its path yet. */
  ghost predicate Insertable(bs: Store, b: Block)
    requires Closed(bs)
  {
    && b.hash != ZERO_HASH && (b.hash in bs ==> bs[b.hash] == b)
    && b.number > 0 && b.parent in bs && bs[b.parent].number == b.number - 1
    && (b.hash !in bs ==> forall t | t in b.txs :: !HasTx(bs, bs[b.parent], -1, t))
  }

  lemma StoreGrows(bs: Store, bs': Store, b: Block)
    requires Closed(bs) && Insertable(bs, b) && bs' == bs[b.hash := b]
    ensures Closed(bs') && Stored(bs', b) && forall c: Block | Stored(bs, c) :: Stored(bs', c)
    ensures forall c: Block, n: nat | Stored(bs, c) && n <= c.number :: Ancestor(bs', c, n) == Ancestor(bs, c, n)
  {
    forall h | h in bs' ensures HasParent(bs', h) {
      if h in bs { assert HasParent(bs, h); }
    }
    hide Ancestor;
    forall c: Block, n: nat | Stored(bs, c) && n <= c.number
      ensures Ancestor(bs', c, n) == Ancestor(bs, c, n)
    {
      AncestorGrows(bs, bs', c, n);
    }
  }

  lemma IndexGrows(bs: Store, bs': Store, b: Block, canonical: map<nat, Hash>, lookup: map<Hash, nat>, head: Block)
    requires Closed(bs) && Insertable(bs, b) && bs' == bs[b.hash := b]
    requires Stored(bs, head) && IndexAt(bs, canonical, lookup, head)
    ensures Closed(bs') && Stored(bs', head) && IndexAt(bs', canonical, lookup, head)
  {
    StoreGrows(bs, bs', b);
    hide Ancestor, Closed, Insertable;
    forall t | HasTx(bs, head, -1, t) ensures HasTx(bs', head, -1, t) {
      var n: nat :| n <= head.number && t in Ancestor(bs, head, n).txs;
      assert t in Ancestor(bs', head, n).txs;
    }
  }

  lemma UniqueGrows(bs: Store, bs': Store, b: Block)
    requires Closed(bs) && Insertable(bs, b) && bs' == bs[b.hash := b] && forall h | h in bs :: UniqueTxs(bs, bs[h])
    ensures Closed(bs') && forall h | h in bs' :: UniqueTxs(bs', bs'[h])
  {
    StoreGrows(bs, bs', b);
    var p := bs[b.parent];
    assert Parent(bs', b) == p;
    hide Ancestor;
    AncestorBelow(bs', b);
    assert UniqueTxs(bs, p);
    forall h | h in bs' ensures UniqueTxs(bs', bs'[h]) {
      if h in bs {
        assert UniqueTxs(bs, bs[h]);
      } else {
        forall m: nat, n: nat, t | m < n <= b.number && t in Ancestor(bs', b, m).txs
          ensures t !in Ancestor(bs', b, n).txs
        {
          assert t in Ancestor(bs, p, m).txs;
          assert HasTx(bs, p, -1, t);
        }
      }
    }
  }
}
