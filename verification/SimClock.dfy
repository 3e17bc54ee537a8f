/** The virtual clock: timers in a heap by deadline, each knowing its position.

    A timer is a number; `at` and `index` are the fields of the timer objects.  What the
    clock promises is stated on the map from scheduled timers to deadlines.
 */
module SimClock {
  import opened Heap
  import opened SStackModel
  import opened QueueView
  import HeapOps

  /** The heap of `container/heap`: the earliest deadline is the greatest priority. */
  ghost function ItemsOf(s: seq<nat>, at: map<nat, int>): (r: seq<Item>)
    requires forall id | id in s :: id in at
    ensures |r| == |s|
  {
    seq(|s|, i requires 0 <= i < |s| => assert s[i] in s; Item(s[i], -at[s[i]]))
  }

  /** Each timer knows its position in the heap; the others have index -1. */
  ghost predicate Positioned(s: seq<nat>, index: map<nat, int>) {
    && (forall i | 0 <= i < |s| :: s[i] in index && index[s[i]] == i)
    && forall id | id in index && id !in s :: index[id] == -1
  }

  /** The deadlines of the scheduled timers. */
  ghost function Deadlines(s: seq<nat>, at: map<nat, int>): map<nat, int>
    requires forall id | id in s :: id in at
  {
    map id | id in s :: at[id]
  }

  function Exchanged(s: seq<nat>, i: nat, j: nat): (r: seq<nat>)
    requires i < |s| && j < |s|
    ensures |r| == |s|
  {
    s[i := s[j]][j := s[i]]
  }

  lemma ExchangedMembers(s: seq<nat>, i: nat, j: nat)
    requires i < |s| && j < |s|
    ensures forall id :: id in Exchanged(s, i, j) <==> id in s
  {
    var t := Exchanged(s, i, j);
    forall id | id in s ensures id in t {
      var k :| 0 <= k < |s| && s[k] == id;
      assert t[if k == i then j else if k == j then i else k] == id;
    }
  }

  lemma ExchangedPositions(s: seq<nat>, index: map<nat, int>, i: nat, j: nat)
    requires i < |s| && j < |s| && Positioned(s, index)
    ensures Positioned(Exchanged(s, i, j), index[s[j] := i][s[i] := j])
  {
    ExchangedMembers(s, i, j);
    forall k | 0 <= k < |s| && k != i && k != j ensures s[k] != s[i] && s[k] != s[j] {
      assert index[s[k]] == k;
    }
  }

  lemma ExchangedItems(s: seq<nat>, at: map<nat, int>, i: nat, j: nat)
    requires i < |s| && j < |s| && forall id | id in s :: id in at
    ensures (forall id | id in Exchanged(s, i, j) :: id in at)
    ensures ItemsOf(Exchanged(s, i, j), at) == Heap.Swap(ItemsOf(s, at), i, j)
    ensures Deadlines(Exchanged(s, i, j), at) == Deadlines(s, at)
  {
    ExchangedMembers(s, i, j);
  }

  lemma ExtendedItems(s: seq<nat>, at: map<nat, int>, index: map<nat, int>, id: nat)
    requires id in at && id !in s && (forall x | x in s :: x in at) && Positioned(s, index)
    ensures forall x | x in s + [id] :: x in at
    ensures ItemsOf(s + [id], at) == ItemsOf(s, at) + [Item(id, -at[id])]
    ensures Deadlines(s + [id], at) == Deadlines(s, at)[id := at[id]]
    ensures Positioned(s + [id], index[id := |s|])
  {
    assert id in s + [id];
    forall x | x in s ensures x in s + [id] {}
  }

  lemma ShortenedItems(s: seq<nat>, at: map<nat, int>, index: map<nat, int>)
    requires s != [] && (forall x | x in s :: x in at) && Positioned(s, index)
    ensures var t, id := s[..|s| - 1], s[|s| - 1];
      && id !in t && (forall x :: x in t <==> x in s && x != id)
      && ItemsOf(t, at) == ItemsOf(s, at)[..|s| - 1]
      && Deadlines(t, at) == Deadlines(s, at) - {id}
      && Positioned(t, index[id := -1])
  {
    var t, id := s[..|s| - 1], s[|s| - 1];
    assert s == t + [id];
    assert forall k | 0 <= k < |t| :: t[k] == s[k] && index[s[k]] == k;
  }

  lemma ItemAtIndex(s: seq<nat>, at: map<nat, int>, i: nat)
    requires i < |s| && forall x | x in s :: x in at
    ensures s[i] in at && ItemsOf(s, at)[i] == Item(s[i], -at[s[i]])
  {
  }

  lemma DistinctItems(s: seq<nat>, at: map<nat, int>, index: map<nat, int>)
    requires (forall x | x in s :: x in at) && Positioned(s, index)
    ensures DistinctIds(ItemsOf(s, at))
  {
    assert forall i | 0 <= i < |s| :: index[s[i]] == i;
  }

  /** The root has the earliest deadline. */
  lemma Earliest(s: seq<nat>, at: map<nat, int>)
    requires s != [] && (forall x | x in s :: x in at) && HeapOf(ItemsOf(s, at))
    ensures s[0] in at && forall x | x in s :: at[s[0]] <= at[x]
  {
    var h := ItemsOf(s, at);
    forall x | x in s ensures at[s[0]] <= at[x] {
      var k :| 0 <= k < |s| && s[k] == x;
      RootGreatest(h, |h|, k);
      assert h[k] == Item(x, -at[x]);
    }
  }

  // ---------- what a run of the clock fires ----------

  ghost predicate Unrepeated(s: seq<nat>) {
    forall i, j | 0 <= i < j < |s| :: s[i] != s[j]
  }

  /** The timers fired so far, in order of deadline and before all that are left. */
  ghost predicate Firing(p0: map<nat, int>, p: map<nat, int>, fired: seq<nat>) {
    && Unrepeated(fired) && (forall x | x in fired :: x in p0) && p == p0 - (set x | x in fired)
    && (forall i, j | 0 <= i < j < |fired| :: p0[fired[i]] <= p0[fired[j]])
    && forall x, y | x in fired && y in p :: p0[x] <= p[y]
  }

  /** Exactly the timers due by `end` fire, each once, in order of deadline. */
  ghost predicate FiredBy(p0: map<nat, int>, p: map<nat, int>, fired: seq<nat>, end: int) {
    && Unrepeated(fired) && (forall x :: x in fired <==> x in p0 && p0[x] <= end)
    && (forall i, j | 0 <= i < j < |fired| :: p0[fired[i]] <= p0[fired[j]])
    && p == map x | x in p0 && p0[x] > end :: p0[x]
  }

  lemma FireStart(p: map<nat, int>)
    ensures Firing(p, p, [])
  {
  }

  lemma FireNext(p0: map<nat, int>, p: map<nat, int>, fired: seq<nat>, id: nat)
    requires Firing(p0, p, fired) && id in p && forall y | y in p :: p[id] <= p[y]
    ensures Firing(p0, p - {id}, fired + [id])
  {
    var fired' := fired + [id];
    assert id !in fired;
    assert forall x :: x in fired' <==> x in fired || x == id;
    forall i, j | 0 <= i < j < |fired'| ensures p0[fired'[i]] <= p0[fired'[j]] {
      if j == |fired| { assert fired'[i] in fired; }
    }
  }

  lemma FireEnd(p0: map<nat, int>, p: map<nat, int>, fired: seq<nat>, end: int)
    requires Firing(p0, p, fired) && (forall x | x in fired :: p0[x] <= end) && forall x | x in p :: p[x] > end
    ensures FiredBy(p0, p, fired, end)
  {
    forall x | x in p0 && x !in fired ensures x in p && p0[x] > end {
      assert x in p;
    }
  }

  /** A new deadline for the timer at `i`. */
  lemma ChangedItems(s: seq<nat>, at: map<nat, int>, index: map<nat, int>, i: nat, t: int)
    requires i < |s| && (forall x | x in s :: x in at) && Positioned(s, index)
    ensures forall x | x in s :: x in at[s[i] := t]
    ensures ItemsOf(s, at[s[i] := t]) == ItemsOf(s, at)[i := Item(s[i], -t)]
    ensures Deadlines(s, at[s[i] := t]) == Deadlines(s, at)[s[i] := t]
  {
    assert s[i] in s;
    assert forall k | 0 <= k < |s| && k != i :: index[s[k]] == k && index[s[i]] == i;
  }

  lemma OtherItems(s: seq<nat>, at: map<nat, int>, id: nat, t: int)
    requires id !in s && forall x | x in s :: x in at
    ensures ItemsOf(s, at[id := t]) == ItemsOf(s, at) && Deadlines(s, at[id := t]) == Deadlines(s, at)
  {
  }

  lemma ChangedHeap(s: seq<Item>, i: nat, x: Item)
    requires i < |s| && IsHeap(s, |s|)
    ensures HeapBut(s[i := x], i, |s|)
  {
    var t := s[i := x];
    forall k | 0 < k < |s| && k != i && ParentOf(k) != i ensures Ordered(t, k) { assert Ordered(s, k); }
    forall k | 0 < k < |s| && 0 < i && ParentOf(k) == i ensures t[k].pri <= t[ParentOf(i)].pri {
      assert Ordered(s, k) && Ordered(s, i);
    }
  }

  lemma InPending(s: seq<nat>, at: map<nat, int>, i: nat)
    requires i < |s| && forall x | x in s :: x in at
    ensures s[i] in Deadlines(s, at)
  {
  }

  // ---------- the clock as a state machine ----------

  datatype Clock = Clock(now: int, pending: map<nat, int>, next: nat)

  datatype Op = Schedule(d: int) | Stop(id: nat) | Reset(id: nat, d: int) | Run(d: int)

  ghost function After(c: Clock, op: Op): Clock {
    match op
    case Schedule(d) => Clock(c.now, c.pending[c.next := c.now + d], c.next + 1)
    case Stop(id) => c.(pending := c.pending - {id})
    case Reset(id, d) => c.(pending := c.pending[id := c.now + d])
    case Run(d) => Clock(c.now + d, map x | x in c.pending && c.pending[x] > c.now + d :: c.pending[x], c.next)
  }

  ghost predicate Fires(c: Clock, op: Op, t: nat) {
    op.Run? && t in c.pending && c.pending[t] <= c.now + op.d
  }

  /** Only timers that exist are stopped or reset. */
  ghost predicate Allowed(c: Clock, op: Op) {
    match op
    case Stop(id) => id < c.next
    case Reset(id, _) => id < c.next
    case _ => true
  }

  const START := Clock(0, map[], 0)

  /** A run: the states that the operations lead through. */
  ghost predicate IsRun(cs: seq<Clock>, ops: seq<Op>) {
    && |cs| == |ops| + 1 && cs[0] == START
    && forall k | 0 <= k < |ops| :: Allowed(cs[k], ops[k]) && cs[k + 1] == After(cs[k], ops[k])
  }

  lemma StepOut(c: Clock, op: Op, t: nat)
    ensures c.next <= After(c, op).next
    ensures t < c.next && t !in c.pending && !(op.Reset? && op.id == t) ==> t !in After(c, op).pending
    ensures Fires(c, op, t) || op == Stop(t) ==> t !in After(c, op).pending
    ensures Allowed(c, op) && t in After(c, op).pending && t !in c.pending ==> t < After(c, op).next
  {
  }

  lemma StepKeeps(c: Clock, op: Op, t: nat, at: int)
    ensures Sets(c, op, t, at) ==> t in After(c, op).pending && After(c, op).pending[t] == at
    ensures Sets(c, op, t, at) && Allowed(c, op) ==> t < After(c, op).next
    ensures t < c.next && t in c.pending && c.pending[t] == at && Leaves(c, op, t, at) ==>
      t in After(c, op).pending && After(c, op).pending[t] == at
  {
  }

  lemma {:induction false} OnlyCreated(cs: seq<Clock>, ops: seq<Op>, k: nat, t: nat)
    requires IsRun(cs, ops) && k < |cs| && t in cs[k].pending
    ensures t < cs[k].next
  {
    hide After;
    if k > 0 {
      assert Allowed(cs[k - 1], ops[k - 1]);
      StepOut(cs[k - 1], ops[k - 1], t);
      if t in cs[k - 1].pending { OnlyCreated(cs, ops, k - 1, t); }
    }
  }

  lemma {:induction false} CreatedStay(cs: seq<Clock>, ops: seq<Op>, i: nat, j: nat)
    requires IsRun(cs, ops) && i <= j < |cs|
    ensures cs[i].next <= cs[j].next
    decreases j - i
  {
    hide After;
    if i < j {
      CreatedStay(cs, ops, i, j - 1);
      assert cs[j] == After(cs[j - 1], ops[j - 1]);
      StepOut(cs[j - 1], ops[j - 1], 0);
    }
  }

  ghost predicate ResetBetween(ops: seq<Op>, t: nat, i: nat, j: nat) {
    exists k | i <= k < j && k < |ops| :: ops[k].Reset? && ops[k].id == t
  }

  /** A timer that exists and is not scheduled is scheduled again by `Reset` only. */
  lemma {:induction false} StaysOut(cs: seq<Clock>, ops: seq<Op>, t: nat, i: nat, j: nat)
    requires IsRun(cs, ops) && i <= j < |cs| && t < cs[i].next && t !in cs[i].pending
    requires !ResetBetween(ops, t, i, j)
    ensures t !in cs[j].pending
    decreases j - i
  {
    hide After;
    if i < j {
      StaysOut(cs, ops, t, i, j - 1);
      CreatedStay(cs, ops, i, j - 1);
      assert cs[j] == After(cs[j - 1], ops[j - 1]);
      StepOut(cs[j - 1], ops[j - 1], t);
    }
  }

  /** In every run, a timer fires at most once per scheduling. */
  lemma OncePerScheduling(cs: seq<Clock>, ops: seq<Op>, t: nat, i: nat, j: nat)
    requires IsRun(cs, ops) && i < j < |ops| && Fires(cs[i], ops[i], t) && Fires(cs[j], ops[j], t)
    ensures ResetBetween(ops, t, i + 1, j)
  {
    hide After;
    OnlyCreated(cs, ops, i, t);
    assert cs[i + 1] == After(cs[i], ops[i]);
    StepOut(cs[i], ops[i], t);
    if !ResetBetween(ops, t, i + 1, j) { StaysOut(cs, ops, t, i + 1, j); }
  }

  /** In every run, a stopped timer does not fire unless it was reset. */
  lemma StoppedIsQuiet(cs: seq<Clock>, ops: seq<Op>, t: nat, i: nat, j: nat)
    requires IsRun(cs, ops) && i < j < |ops| && ops[i] == Stop(t) && Fires(cs[j], ops[j], t)
    ensures ResetBetween(ops, t, i + 1, j)
  {
    hide After;
    assert Allowed(cs[i], ops[i]) && cs[i + 1] == After(cs[i], ops[i]);
    StepOut(cs[i], ops[i], t);
    if !ResetBetween(ops, t, i + 1, j) { StaysOut(cs, ops, t, i + 1, j); }
  }

  /** `op` gives timer `t` the deadline `at`. */
  ghost predicate Sets(c: Clock, op: Op, t: nat, at: int) {
    match op
    case Schedule(d) => t == c.next && at == c.now + d
    case Reset(id, d) => t == id && at == c.now + d
    case _ => false
  }

  /** `op` neither stops nor resets `t`, and does not advance the clock to `at`. */
  ghost predicate Leaves(c: Clock, op: Op, t: nat, at: int) {
    match op
    case Schedule(_) => true
    case Stop(id) => id != t
    case Reset(id, _) => id != t
    case Run(d) => c.now + d < at
  }

  lemma {:induction false} KeepsDeadline(cs: seq<Clock>, ops: seq<Op>, t: nat, at: int, i: nat, j: nat)
    requires IsRun(cs, ops) && i < j < |cs| && Sets(cs[i], ops[i], t, at)
    requires forall k | i < k < j :: Leaves(cs[k], ops[k], t, at)
    ensures t in cs[j].pending && cs[j].pending[t] == at && t < cs[j].next
    decreases j - i
  {
    hide After;
    assert Allowed(cs[j - 1], ops[j - 1]) && cs[j] == After(cs[j - 1], ops[j - 1]);
    StepKeeps(cs[j - 1], ops[j - 1], t, at);
    StepOut(cs[j - 1], ops[j - 1], t);
    if i + 1 < j { KeepsDeadline(cs, ops, t, at, i, j - 1); }
  }

  /** In every run, a timer that is left alone fires when the clock first reaches its deadline. */
  lemma FiresWhenDue(cs: seq<Clock>, ops: seq<Op>, t: nat, at: int, i: nat, j: nat)
    requires IsRun(cs, ops) && i < j < |ops| && Sets(cs[i], ops[i], t, at) && ops[j].Run?
    requires forall k | i < k < j :: Leaves(cs[k], ops[k], t, at)
    ensures Fires(cs[j], ops[j], t) <==> cs[j + 1].now >= at
  {
    KeepsDeadline(cs, ops, t, at, i, j);
    assert cs[j + 1] == After(cs[j], ops[j]);
  }

  /** How far the clock was advanced by the operations from `i` to `j`. */
  ghost function Advanced(ops: seq<Op>, i: nat, j: nat): int
    requires i <= j <= |ops|
  {
    if i == j then 0 else Advanced(ops, i, j - 1) + if ops[j - 1].Run? then ops[j - 1].d else 0
  }

  lemma {:induction false} NowIsAdvanced(cs: seq<Clock>, ops: seq<Op>, i: nat, j: nat)
    requires IsRun(cs, ops) && i <= j < |cs|
    ensures cs[j].now == cs[i].now + Advanced(ops, i, j)
    decreases j
  {
    if i < j {
      NowIsAdvanced(cs, ops, i, j - 1);
      assert cs[j] == After(cs[j - 1], ops[j - 1]);
    }
  }

  /** In every run, a timer that was set to `d` and left alone fires in the `Run` that makes the clock
      advance by `d` since. */
  lemma FiresAfter(cs: seq<Clock>, ops: seq<Op>, t: nat, d: int, i: nat, j: nat)
    requires IsRun(cs, ops) && i < j < |ops| && ops[j].Run?
    requires (ops[i] == Schedule(d) && t == cs[i].next) || ops[i] == Reset(t, d)
    requires forall k | i < k < j :: ops[k] != Stop(t) && !(ops[k].Reset? && ops[k].id == t)
    requires forall k | i < k < j && ops[k].Run? :: Advanced(ops, i + 1, k + 1) < d
    ensures Fires(cs[j], ops[j], t) <==> Advanced(ops, i + 1, j + 1) >= d
  {
    hide Advanced, IsRun, After;
    RunParts(cs, ops, i);
    var at := cs[i].now + d;
    RunParts(cs, ops, j);
    NowIsAdvanced(cs, ops, i + 1, j + 1);
    forall k | i < k < j ensures Leaves(cs[k], ops[k], t, at) {
      RunParts(cs, ops, k);
      if ops[k].Run? { NowIsAdvanced(cs, ops, i + 1, k + 1); }
    }
    FiresWhenDue(cs, ops, t, at, i, j);
  }

  lemma RunParts(cs: seq<Clock>, ops: seq<Op>, k: nat)
    requires IsRun(cs, ops) && k < |ops|
    ensures |cs| == |ops| + 1 && cs[k + 1].now == cs[k].now + if ops[k].Run? then ops[k].d else 0
  {
  }

  class Simulated {
    var now: int
    var scheduled: seq<nat>
    var at: map<nat, int>
    var index: map<nat, int>
    var next: nat  // the timers created so far are those below `next`

    ghost predicate Known()
      reads this
    {
      && (forall id: nat :: id in at <==> id < next) && (forall id: nat :: id in index <==> id < next)
      && (forall id | id in scheduled :: id < next)
    }

    ghost function Items(): seq<Item>
      reads this
      requires Known()
    {
      ItemsOf(scheduled, at)
    }

    ghost function Pending(): map<nat, int>
      reads this
      requires Known()
    {
      Deadlines(scheduled, at)
    }

    ghost function State(): Clock
      reads this
      requires Known()
    {
      Clock(now, Pending(), next)
    }

    /** Holds between the steps of the heap operations. */
    ghost predicate Shape()
      reads this
    {
      Known() && Positioned(scheduled, index)
    }

    ghost predicate Valid()
      reads this
    {
      Shape() && HeapOf(Items())
    }

    constructor ()
      ensures Valid() && State() == START
    {
      now, scheduled, at, index, next := 0, [], map[], map[], 0;
      new;
      assert Items() == [];
    }

    method Less(i: nat, j: nat) returns (r: bool)
      requires Shape() && i < |scheduled| && j < |scheduled|
      ensures r == Before(Items()[i], Items()[j])
      ensures scheduled[i] in at && scheduled[j] in at && (r <==> at[scheduled[i]] < at[scheduled[j]])
    {
      r := at[scheduled[i]] < at[scheduled[j]];
    }

    method Swap(i: nat, j: nat)
      requires Shape() && i < |scheduled| && j < |scheduled|
      modifies this`scheduled, this`index
      ensures Shape() && Items() == Heap.Swap(old(Items()), i, j) && Pending() == old(Pending())
    {
      hide ItemsOf, Deadlines, Positioned, Heap.Swap;
      ExchangedItems(scheduled, at, i, j);
      ExchangedPositions(scheduled, index, i, j);
      ExchangedMembers(scheduled, i, j);
      assert scheduled[i] in scheduled && scheduled[j] in scheduled;
      scheduled := Exchanged(scheduled, i, j);
      index := index[scheduled[i] := i][scheduled[j] := j];
    }

    method Up(j0: nat)
      requires Shape() && j0 < |scheduled|
      modifies this`scheduled, this`index
      ensures Shape() && Items() == Heap.Up(old(Items()), j0) && Pending() == old(Pending())
    {
      hide ItemsOf, Deadlines, Positioned, Heap.Swap;
      var j: nat := j0;
      while true
        invariant Shape() && j < |scheduled| && Pending() == old(Pending())
        invariant Heap.Up(Items(), j) == Heap.Up(old(Items()), j0)
        decreases j
      {
        var i: nat := if j == 0 then 0 else (j - 1) / 2;
        if i == j { break; }
        var less := Less(j, i);
        if !less { break; }
        Swap(i, j);
        j := i;
      }
    }

    method PickChild(i: nat, n: nat) returns (sinks: bool, j: nat)
      requires Shape() && n <= |scheduled|
      ensures sinks == Sinks(Items(), i, n) && (sinks ==> i < j < n && j == Child(Items(), i, n))
    {
      hide ItemsOf, Deadlines, Positioned;
      var j1: nat := 2 * i + 1;
      if j1 >= n { return false, 0; }
      j := j1;
      var j2: nat := j1 + 1;
      if j2 < n {
        var right := Less(j2, j1);
        if right { j := j2; }
      }
      sinks := Less(j, i);
    }

    method Down(i0: nat, n: nat) returns (moved: bool)
      requires Shape() && n <= |scheduled|
      modifies this`scheduled, this`index
      ensures Shape() && Items() == Heap.Down(old(Items()), i0, n) && Pending() == old(Pending())
      ensures moved == Sinks(old(Items()), i0, n)
    {
      hide ItemsOf, Deadlines, Positioned, Heap.Swap, Heap.Down, Sinks, Child;
      var i: nat := i0;
      while true
        invariant Shape() && i0 <= i && n <= |scheduled| && Pending() == old(Pending())
        invariant Heap.Down(Items(), i, n) == Heap.Down(old(Items()), i0, n)
        invariant if i == i0 then Items() == old(Items()) else Sinks(old(Items()), i0, n)
        decreases n - i
      {
        var sinks, j := PickChild(i, n);
        HeapOps.DownStep(Items(), i, n);
        if !sinks { break; }
        Swap(i, j);
        i := j;
      }
      return i > i0;
    }

    method Fix(i: nat, n: nat)
      requires Shape() && i < n <= |scheduled|
      modifies this`scheduled, this`index
      ensures Shape() && Items() == Fixed(old(Items()), i, n) && Pending() == old(Pending())
    {
      hide ItemsOf, Deadlines, Positioned, Heap.Up, Heap.Down, Sinks;
      HeapOps.DownStep(Items(), i, n);
      var moved := Down(i, n);
      if !moved { Up(i); }
    }

    /** The slice operations of `simTimerHeap`. */
    method Append(id: nat)
      requires Shape() && id < next && id !in scheduled
      modifies this`scheduled, this`index
      ensures Shape() && Items() == old(Items()) + [Item(id, -at[id])] && Pending() == old(Pending())[id := at[id]]
    {
      hide ItemsOf, Deadlines, Positioned;
      ExtendedItems(scheduled, at, index, id);
      index := index[id := |scheduled|];
      scheduled := scheduled + [id];
    }

    method DropEnd() returns (id: nat)
      requires Shape() && scheduled != []
      modifies this`scheduled, this`index
      ensures Shape() && id == old(scheduled)[old(|scheduled|) - 1]
      ensures Items() == old(Items())[..old(|scheduled|) - 1] && Pending() == old(Pending()) - {id}
      ensures id !in scheduled && forall x :: x in scheduled <==> x in old(scheduled) && x != id
    {
      hide ItemsOf, Deadlines, Positioned;
      ShortenedItems(scheduled, at, index);
      id := scheduled[|scheduled| - 1];
      assert id in scheduled;
      index := index[id := -1];
      scheduled := scheduled[..|scheduled| - 1];
    }

    /** `heap.Pop`. */
    method PopFirst() returns (id: nat)
      requires Valid() && scheduled != []
      modifies this`scheduled, this`index
      ensures Valid() && id in old(Pending()) && Pending() == old(Pending()) - {id} && id == old(scheduled)[0]
      ensures |scheduled| == old(|scheduled|) - 1
    {
      hide ItemsOf, Deadlines, Positioned, Heap.Swap, Heap.Down, IsHeap, DistinctIds;
      ghost var was := Items();
      var n: nat := |scheduled| - 1;
      ItemAtIndex(scheduled, at, 0);
      PopFacts(was);
      InPending(scheduled, at, 0);
      Swap(0, n);
      ghost var t := Items();
      var _ := Down(0, n);
      ghost var r := Items();
      ItemAtIndex(scheduled, at, n);
      assert r[n] == r[n..][0] == t[n..][0] == was[0];
      id := DropEnd();
      DistinctItems(scheduled, at, index);
    }

    /** `heap.Remove`. */
    method RemoveAt(i: nat)
      requires Valid() && i < |scheduled|
      modifies this`scheduled, this`index
      ensures Valid() && Pending() == old(Pending()) - {old(scheduled)[i]}
      ensures old(scheduled)[i] !in scheduled
    {
      hide ItemsOf, Deadlines, Positioned, Heap.Swap, Fixed, IsHeap, DistinctIds, HeapBut;
      ghost var was := Items();
      var n: nat := |scheduled| - 1;
      ItemAtIndex(scheduled, at, i);
      RemovedHeap(was, i);
      if n != i {
        LastMoved(was, i);
        Swap(i, n);
        ghost var t := Items();
        FixedHeap(t, i, n);
        Fix(i, n);
        ItemAtIndex(scheduled, at, n);
        assert Items()[n] == Items()[n..][0] == t[n..][0] == was[i];
      }
      var _ := DropEnd();
      DistinctItems(scheduled, at, index);
    }

    /** `heap.Push`. */
    method PushTimer(id: nat)
      requires Valid() && id < next && id !in scheduled
      modifies this`scheduled, this`index
      ensures Valid() && Pending() == old(Pending())[id := at[id]]
    {
      hide ItemsOf, Deadlines, Positioned, Heap.Up, IsHeap, DistinctIds;
      PushedHeap(Items(), Item(id, -at[id]));
      Append(id);
      Up(|scheduled| - 1);
      DistinctItems(scheduled, at, index);
    }

    /** `schedule`: a new timer. */
    method Schedule(d: int) returns (id: nat)
      requires Valid()
      modifies this`scheduled, this`index, this`at, this`next
      ensures Valid() && id == old(next) && id !in old(Pending())
      ensures State() == After(old(State()), Op.Schedule(d))
    {
      id := next;
      at := at[id := now + d];
      index := index[id := -1];
      next := next + 1;
      assert Items() == old(Items());
      assert Pending() == old(Pending());
      PushTimer(id);
    }

    method Stop(id: nat) returns (stopped: bool)
      requires Valid() && id < next
      modifies this`scheduled, this`index
      ensures Valid() && stopped == (id in old(Pending()))
      ensures State() == After(old(State()), Op.Stop(id))
    {
      if index[id] < 0 { return false; }
      assert scheduled[index[id]] == id;
      RemoveAt(index[id]);
      index := index[id := -1];
      return true;
    }

    /** `Reset` of a timer that has not fired: a new deadline, and `heap.Fix`. */
    method Move(i: nat, t: int)
      requires Valid() && i < |scheduled|
      modifies this`scheduled, this`index, this`at
      ensures Valid() && Pending() == old(Pending())[old(scheduled)[i] := t]
    {
      hide ItemsOf, Deadlines, Positioned, Fixed, IsHeap, DistinctIds, HeapBut;
      ghost var was := Items();
      ChangedItems(scheduled, at, index, i, t);
      ChangedHeap(was, i, Item(scheduled[i], -t));
      assert scheduled[i] in scheduled;
      at := at[scheduled[i] := t];
      FixedHeap(Items(), i, |scheduled|);
      Fix(i, |scheduled|);
      DistinctItems(scheduled, at, index);
    }

    method Reset(id: nat, d: int)
      requires Valid() && id < next
      modifies this`scheduled, this`index, this`at
      ensures Valid() && State() == After(old(State()), Op.Reset(id, d))
    {
      hide ItemsOf, Deadlines, HeapOf;
      if index[id] < 0 {
        OtherItems(scheduled, at, id, now + d);
        at := at[id := now + d];
        PushTimer(id);
      } else {
        assert scheduled[index[id]] == id;
        Move(index[id], now + d);
      }
    }

    /** `Run`: advance the clock; the functions of the timers returned are then called. */
    method Run(d: int) returns (fired: seq<nat>)
      requires Valid()
      modifies this`scheduled, this`index, this`now
      ensures Valid() && State() == After(old(State()), Op.Run(d))
      ensures FiredBy(old(Pending()), Pending(), fired, now)
    {
      hide ItemsOf, Positioned, HeapOf, Firing;
      var end := now + d;
      fired := [];
      FireStart(Pending());
      while |scheduled| > 0 && at[scheduled[0]] <= end
        invariant Valid() && Firing(old(Pending()), Pending(), fired)
        invariant forall x | x in fired :: x in old(Pending()) && old(Pending())[x] <= end
        decreases |scheduled|
      {
        Earliest(scheduled, at);
        FireNext(old(Pending()), Pending(), fired, scheduled[0]);
        var id := PopFirst();
        fired := fired + [id];
      }
      if |scheduled| > 0 { Earliest(scheduled, at); }
      now := end;
      FireEnd(old(Pending()), Pending(), fired, end);
    }
  }
}
