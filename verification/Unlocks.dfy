/** Unlocking accounts for a time: the map of unlocked keys, the goroutines that wait to
    expire them, and the channels that call a goroutine off.

    Every unlock makes a new key instance, named by a number.  A goroutine may see its
    timer at any moment, also when it has been called off.
 */
module Unlocks {

  datatype Kind = Timer | LockCall

  /** An `expire` in progress: for the timer of an unlock, or called by `Lock`. */
  datatype Waiter = Waiter(addr: nat, key: nat, kind: Kind)

  /** `timed` are the instances with an abort channel, `closes` counts how often it was closed,
      `zeroed` are the instances whose key was wiped. */
  datatype State = State(unlocked: map<nat, nat>, timed: set<nat>, closes: map<nat, nat>, zeroed: set<nat>,
                         waiting: multiset<Waiter>, next: nat)

  datatype Action = TimedUnlock(addr: nat, timeout: int) | Lock(addr: nat) | Quit(w: Waiter) | Fire(w: Waiter)

  /** How often the abort channel of `key` was closed; a second time panics. */
  function Count(closes: map<nat, nat>, key: nat): nat {
    if key in closes then closes[key] else 0
  }

  ghost predicate Enabled(s: State, a: Action) {
    match a
    case TimedUnlock(_, _) => true
    case Lock(_) => true
    case Quit(w) => w in s.waiting && w.key in s.timed && Count(s.closes, w.key) > 0
    case Fire(w) => w in s.waiting
  }

  function Unlocked(s: State, addr: nat, timeout: int): State {
    if addr in s.unlocked && s.unlocked[addr] !in s.timed then
      // Unlocked indefinitely: the key that was just decrypted is wiped.
      s.(zeroed := s.zeroed + {s.next}, next := s.next + 1)
    else
      var key := s.next;
      var closes := if addr in s.unlocked then s.closes[s.unlocked[addr] := Count(s.closes, s.unlocked[addr]) + 1] else s.closes;
      var t := s.(unlocked := s.unlocked[addr := key], closes := closes, next := key + 1);
      if timeout > 0 then t.(timed := s.timed + {key}, waiting := s.waiting + multiset{Waiter(addr, key, Timer)}) else t
  }

  function Expired(s: State, w: Waiter): State {
    var t := s.(waiting := s.waiting - multiset{w});
    if w.addr in s.unlocked && s.unlocked[w.addr] == w.key
    then t.(zeroed := s.zeroed + {w.key}, unlocked := s.unlocked - {w.addr}) else t
  }

  function Apply(s: State, a: Action): State {
    match a
    case TimedUnlock(addr, timeout) => Unlocked(s, addr, timeout)
    case Lock(addr) =>
      if addr in s.unlocked then s.(waiting := s.waiting + multiset{Waiter(addr, s.unlocked[addr], LockCall)}) else s
    case Quit(w) => s.(waiting := s.waiting - multiset{w})
    case Fire(w) => Expired(s, w)
  }

  // ---------- what every step keeps ----------

  /** What is in the map is one instance per address, neither wiped nor called off. */
  ghost predicate MapInv(s: State) {
    && (forall a | a in s.unlocked :: s.unlocked[a] < s.next)
    && (forall a, b | a in s.unlocked && b in s.unlocked && s.unlocked[a] == s.unlocked[b] :: a == b)
    && (forall a | a in s.unlocked :: s.unlocked[a] !in s.zeroed && Count(s.closes, s.unlocked[a]) == 0)
  }

  /** Only abort channels are closed, and at most once. */
  ghost predicate CloseInv(s: State) {
    && (forall k | k in s.timed || k in s.zeroed :: k < s.next)
    && forall k: nat | Count(s.closes, k) > 0 :: k < s.next && k in s.timed && Count(s.closes, k) == 1
  }

  ghost predicate WaitInv(s: State) {
    && (forall w | w in s.waiting :: w.key < s.next && (w.kind == Timer ==> w.key in s.timed))
    && (forall w, a | w in s.waiting && a in s.unlocked && s.unlocked[a] == w.key :: a == w.addr)
  }

  ghost predicate Holds(s: State, addr: nat, key: nat) {
    addr in s.unlocked && s.unlocked[addr] == key
  }

  ghost predicate InMap(s: State, key: nat) {
    exists addr :: Holds(s, addr, key)
  }

  /** Every key that was decrypted is in the map, or was called off for a newer one, or was wiped. */
  ghost predicate FateInv(s: State) {
    && (forall k: nat | k < s.next :: InMap(s, k) || Count(s.closes, k) > 0 || k in s.zeroed)
    && forall k: nat | Count(s.closes, k) > 0 :: k !in s.zeroed
  }

  ghost predicate Inv(s: State) {
    MapInv(s) && CloseInv(s) && WaitInv(s) && FateInv(s)
  }

  const INITIAL := State(map[], {}, map[], {}, multiset{}, 0)

  /** Unlocked for good: a new unlock of the address changes nothing. */
  ghost predicate Indefinite(s: State, addr: nat) {
    addr in s.unlocked && s.unlocked[addr] !in s.timed
  }

  lemma UnlockedParts(s: State, addr: nat, timeout: int)
    ensures var t := Unlocked(s, addr, timeout); t.next == s.next + 1 && s.timed <= t.timed <= s.timed + {s.next}
    ensures Indefinite(s, addr) ==> var t := Unlocked(s, addr, timeout);
      t.unlocked == s.unlocked && t.closes == s.closes && t.zeroed == s.zeroed + {s.next}
    ensures !Indefinite(s, addr) ==> var t := Unlocked(s, addr, timeout);
      && t.unlocked == s.unlocked[addr := s.next] && t.zeroed == s.zeroed
      && forall k: nat :: Count(t.closes, k) == Count(s.closes, k) + if Holds(s, addr, k) then 1 else 0
    ensures forall w | w in Unlocked(s, addr, timeout).waiting ::
      w in s.waiting || (w == Waiter(addr, s.next, Timer) && s.next in Unlocked(s, addr, timeout).timed && !Indefinite(s, addr))
  {
  }

  lemma UnlockMap(s: State, addr: nat, timeout: int)
    requires Inv(s)
    ensures MapInv(Unlocked(s, addr, timeout))
  {
    hide Unlocked, Count, WaitInv, FateInv;
    UnlockedParts(s, addr, timeout);
    assert Count(s.closes, s.next) == 0;
  }

  lemma UnlockClose(s: State, addr: nat, timeout: int)
    requires Inv(s)
    ensures CloseInv(Unlocked(s, addr, timeout))
  {
    hide Unlocked, Count, WaitInv, FateInv;
    UnlockedParts(s, addr, timeout);
  }

  lemma UnlockWait(s: State, addr: nat, timeout: int)
    requires Inv(s)
    ensures WaitInv(Unlocked(s, addr, timeout))
  {
    hide Unlocked, Count, FateInv, CloseInv;
    UnlockedParts(s, addr, timeout);
  }

  lemma UnlockFate(s: State, addr: nat, timeout: int)
    requires Inv(s)
    ensures FateInv(Unlocked(s, addr, timeout))
  {
    hide Unlocked, Count, WaitInv;
    UnlockedParts(s, addr, timeout);
    var t := Unlocked(s, addr, timeout);
    forall k: nat | k < t.next ensures InMap(t, k) || Count(t.closes, k) > 0 || k in t.zeroed {
      if k == s.next {
        assert Indefinite(s, addr) || Holds(t, addr, k);
      } else if InMap(s, k) {
        var a :| Holds(s, a, k);
        assert Holds(t, a, k) || (a == addr && Holds(s, addr, k));
      }
    }
  }

  lemma ExpiredParts(s: State, w: Waiter)
    ensures var t := Expired(s, w); t.next == s.next && t.timed == s.timed && t.closes == s.closes
    ensures var t := Expired(s, w);
      if Holds(s, w.addr, w.key) then t.unlocked == s.unlocked - {w.addr} && t.zeroed == s.zeroed + {w.key}
      else t.unlocked == s.unlocked && t.zeroed == s.zeroed
    ensures forall x | x in Expired(s, w).waiting :: x in s.waiting
  {
  }

  lemma ExpireFate(s: State, w: Waiter)
    requires Inv(s)
    ensures FateInv(Expired(s, w))
  {
    hide Expired, Count, WaitInv;
    ExpiredParts(s, w);
    var t := Expired(s, w);
    forall k: nat | k < t.next ensures InMap(t, k) || Count(t.closes, k) > 0 || k in t.zeroed {
      if InMap(s, k) {
        var a :| Holds(s, a, k);
        assert Holds(t, a, k) || (a == w.addr && k == w.key);
      }
    }
  }

  lemma SameFate(s: State, t: State)
    requires Inv(s) && t.unlocked == s.unlocked && t.closes == s.closes && t.zeroed == s.zeroed && t.next == s.next
    ensures FateInv(t)
  {
    forall k: nat | InMap(s, k) ensures InMap(t, k) {
      var a :| Holds(s, a, k);
      assert Holds(t, a, k);
    }
  }

  lemma ExpireInv(s: State, w: Waiter)
    requires Inv(s) && w in s.waiting
    ensures Inv(Expired(s, w))
  {
    hide Expired, Count, FateInv;
    ExpireFate(s, w);
    ExpiredParts(s, w);
  }

  lemma LockInv(s: State, addr: nat)
    requires Inv(s)
    ensures Inv(Apply(s, Lock(addr)))
  {
    hide FateInv, Count;
    var t := Apply(s, Lock(addr));
    SameFate(s, t);
    forall w | w in t.waiting ensures w in s.waiting || (w.kind == LockCall && Holds(s, w.addr, w.key)) {}
  }

  lemma StepInv(s: State, a: Action)
    requires Inv(s) && Enabled(s, a)
    ensures Inv(Apply(s, a))
  {
    match a
    case TimedUnlock(addr, timeout) =>
      UnlockMap(s, addr, timeout);
      UnlockClose(s, addr, timeout);
      UnlockWait(s, addr, timeout);
      UnlockFate(s, addr, timeout);
    case Lock(addr) => LockInv(s, addr);
    case Quit(w) =>
      SameFate(s, Apply(s, a));
      forall x | x in Apply(s, a).waiting ensures x in s.waiting {}
    case Fire(w) => ExpireInv(s, w);
  }

  // ---------- over whole runs ----------

  ghost predicate IsRun(states: seq<State>, acts: seq<Action>) {
    && |states| == |acts| + 1 && states[0] == INITIAL
    && forall i | 0 <= i < |acts| :: Enabled(states[i], acts[i]) && states[i + 1] == Apply(states[i], acts[i])
  }

  lemma {:induction false} RunInv(states: seq<State>, acts: seq<Action>, i: nat)
    requires IsRun(states, acts) && i < |states|
    ensures Inv(states[i])
  {
    if i > 0 {
      RunInv(states, acts, i - 1);
      StepInv(states[i - 1], acts[i - 1]);
    }
  }

  /** In every run no abort channel is closed twice, and no key in the map was wiped. */
  lemma Safe(states: seq<State>, acts: seq<Action>, i: nat)
    requires IsRun(states, acts) && i < |states|
    ensures forall k: nat :: Count(states[i].closes, k) <= 1
    ensures forall a | a in states[i].unlocked :: states[i].unlocked[a] !in states[i].zeroed
  {
    RunInv(states, acts, i);
  }

  /** In every run each key that was decrypted has exactly one fate: it is in the map, its timer was
      called off once for a newer unlock, or it was wiped. */
  lemma OneFate(states: seq<State>, acts: seq<Action>, i: nat, k: nat)
    requires IsRun(states, acts) && i < |states| && k < states[i].next
    ensures InMap(states[i], k) || Count(states[i].closes, k) == 1 || k in states[i].zeroed
    ensures InMap(states[i], k) ==> Count(states[i].closes, k) == 0 && k !in states[i].zeroed
    ensures Count(states[i].closes, k) == 1 ==> k !in states[i].zeroed
  {
    RunInv(states, acts, i);
  }

  /** A timer that fires removes no other instance than its own. */
  lemma OldTimerHarmless(s: State, w: Waiter, addr: nat, key: nat)
    requires Inv(s) && w in s.waiting && Holds(s, addr, key) && key != w.key
    ensures Holds(Apply(s, Fire(w)), addr, key)
  {
  }

  /** An instance leaves the map by its own expiry, or because a newer unlock replaces it, and
      the latter only if it was timed. */
  lemma WhatRemoves(s: State, a: Action, addr: nat, key: nat)
    requires Inv(s) && Enabled(s, a) && Holds(s, addr, key) && !Holds(Apply(s, a), addr, key)
    ensures (a.TimedUnlock? && a.addr == addr && key in s.timed)
            || (a.Fire? && a.w.addr == addr && a.w.key == key && (key !in s.timed ==> a.w.kind == LockCall))
  {
  }

  lemma {:induction false} WaiterFromLock(states: seq<State>, acts: seq<Action>, i: nat, w: Waiter)
    requires IsRun(states, acts) && i < |states| && w in states[i].waiting && w.kind == LockCall
    ensures exists k | 0 <= k < i :: acts[k] == Lock(w.addr) && Holds(states[k], w.addr, w.key)
  {
    hide Apply, Holds;
    assert i > 0 && states[i] == Apply(states[i - 1], acts[i - 1]) by { StartsEmpty(states, acts); }
    NewWaiter(states[i - 1], acts[i - 1], w);
    if w in states[i - 1].waiting { WaiterFromLock(states, acts, i - 1, w); }
  }

  lemma StartsEmpty(states: seq<State>, acts: seq<Action>)
    requires IsRun(states, acts)
    ensures states[0].waiting == multiset{}
  {
  }

  /** Only `Lock` starts an expiry of that kind. */
  lemma NewWaiter(s: State, a: Action, w: Waiter)
    requires w in Apply(s, a).waiting && w.kind == LockCall
    ensures w in s.waiting || (a == Lock(w.addr) && Holds(s, w.addr, w.key))
  {
  }

  lemma StaysIndefinite(s: State, a: Action, key: nat)
    requires key < s.next && key !in s.timed
    ensures key < Apply(s, a).next && key !in Apply(s, a).timed
  {
  }

  /** In every run an indefinite unlock goes only because `Lock` was called for it. */
  lemma {:induction false} IndefiniteGoesByLock(states: seq<State>, acts: seq<Action>, i: nat, j: nat, addr: nat, key: nat)
    requires IsRun(states, acts) && i < j < |states| && key !in states[i].timed
    requires Holds(states[i], addr, key) && !Holds(states[j], addr, key)
    ensures exists k | 0 <= k < j :: acts[k] == Lock(addr) && Holds(states[k], addr, key)
    decreases j - i
  {
    RunInv(states, acts, i);
    if Holds(states[i + 1], addr, key) {
      StaysIndefinite(states[i], acts[i], key);
      IndefiniteGoesByLock(states, acts, i + 1, j, addr, key);
    } else {
      WhatRemoves(states[i], acts[i], addr, key);
      WaiterFromLock(states, acts, i, acts[i].w);
    }
  }

  // ---------- what the operations do ----------

  /** An unlock puts the new instance into the map and leaves the others; for an address that is unlocked
      indefinitely it changes nothing and the new key is wiped.  With a timeout a timer is set. */
  lemma UnlockGives(s: State, addr: nat, timeout: int)
    requires Inv(s)
    ensures var t := Apply(s, TimedUnlock(addr, timeout));
      if Indefinite(s, addr) then t.unlocked == s.unlocked && s.next in t.zeroed
      else
        && Holds(t, addr, s.next) && s.next !in t.zeroed
        && (forall a | a != addr :: a in t.unlocked <==> a in s.unlocked)
        && (forall a | a != addr && a in s.unlocked :: t.unlocked[a] == s.unlocked[a])
        && (s.next in t.timed <==> timeout > 0) && (timeout > 0 ==> Waiter(addr, s.next, Timer) in t.waiting)
  {
  }

  /** An expiry takes its own instance out of the map and wipes it, and touches no other. */
  lemma ExpiryTakes(s: State, w: Waiter)
    requires Inv(s) && w in s.waiting
    ensures var t := Apply(s, Fire(w));
      && !Holds(t, w.addr, w.key) && (Holds(s, w.addr, w.key) ==> w.key in t.zeroed)
      && forall a, k | k != w.key || a != w.addr :: Holds(t, a, k) <==> Holds(s, a, k)
  {
  }

  /** Whoever waits for an instance whose timer was called off can stop waiting. */
  lemma CalledOffQuits(s: State, w: Waiter)
    requires Inv(s) && w in s.waiting && Count(s.closes, w.key) == 1
    ensures Enabled(s, Quit(w)) && Apply(s, Quit(w)).waiting == s.waiting - multiset{w}
  {
  }

  // ---------- nothing is forgotten ----------

  /** Every timed instance in the map has its timer pending. */
  ghost predicate TimersPending(s: State) {
    forall a | a in s.unlocked && s.unlocked[a] in s.timed :: Waiter(a, s.unlocked[a], Timer) in s.waiting
  }

  lemma TimersStep(s: State, a: Action)
    requires Inv(s) && TimersPending(s) && Enabled(s, a)
    ensures TimersPending(Apply(s, a))
  {
    hide FateInv, Unlocked, Expired;
    match a
    case TimedUnlock(addr, timeout) =>
      UnlockedParts(s, addr, timeout);
      UnlockedTimer(s, addr, timeout);
    case Fire(w) =>
      ExpiredParts(s, w);
      ExpiredOthers(s, w);
    case _ =>
  }

  lemma UnlockedTimer(s: State, addr: nat, timeout: int)
    ensures s.waiting <= Unlocked(s, addr, timeout).waiting
    ensures s.next !in s.timed && s.next in Unlocked(s, addr, timeout).timed ==>
      Waiter(addr, s.next, Timer) in Unlocked(s, addr, timeout).waiting
  {
  }

  lemma ExpiredOthers(s: State, w: Waiter)
    ensures forall x | x in s.waiting && x != w :: x in Expired(s, w).waiting
  {
  }

  lemma {:induction false} TimersRun(states: seq<State>, acts: seq<Action>, i: nat)
    requires IsRun(states, acts) && i < |states|
    ensures TimersPending(states[i])
  {
    hide Apply, Inv, TimersPending;
    if i == 0 {
      NoneYet();
    } else {
      RunInv(states, acts, i - 1);
      TimersRun(states, acts, i - 1);
      TimersStep(states[i - 1], acts[i - 1]);
    }
  }

  lemma NoneYet()
    ensures TimersPending(INITIAL)
  {
  }

  /** An instance is never put back. */
  lemma NotBack(s: State, a: Action, addr: nat, key: nat)
    requires Holds(Apply(s, a), addr, key) && key < s.next
    ensures Holds(s, addr, key) && key < Apply(s, a).next
  {
  }

  lemma LockPendingStep(s: State, a: Action, addr: nat, key: nat)
    requires Inv(s) && Enabled(s, a) && Holds(s, addr, key) && Holds(Apply(s, a), addr, key)
    requires Waiter(addr, key, LockCall) in s.waiting || a == Lock(addr)
    ensures Waiter(addr, key, LockCall) in Apply(s, a).waiting
  {
  }

  /** In every run, once `Lock` was called for an instance, its expiry is pending as long as it is there. */
  lemma {:induction false} LockPending(states: seq<State>, acts: seq<Action>, k: nat, i: nat, addr: nat, key: nat)
    requires IsRun(states, acts) && k < i < |states| && acts[k] == Lock(addr)
    requires Holds(states[k], addr, key) && Holds(states[i], addr, key)
    ensures Waiter(addr, key, LockCall) in states[i].waiting
    decreases i
  {
    hide Apply, Inv, Enabled, Holds;
    RunInv(states, acts, i - 1);
    StillThere(states, acts, k, i - 1, i, addr, key);
    if k < i - 1 { LockPending(states, acts, k, i - 1, addr, key); }
    LockPendingStep(states[i - 1], acts[i - 1], addr, key);
  }

  /** What is there at two moments was there in between. */
  lemma {:induction false} StillThere(states: seq<State>, acts: seq<Action>, k: nat, j: nat, i: nat, addr: nat, key: nat)
    requires IsRun(states, acts) && k <= j <= i < |states| && Holds(states[k], addr, key) && Holds(states[i], addr, key)
    ensures Holds(states[j], addr, key)
    decreases i - j
  {
    hide Apply, Enabled;
    if j < i {
      StillThere(states, acts, k, j + 1, i, addr, key);
      RunInv(states, acts, k);
      Grows(states, acts, k, j);
      NotBack(states[j], acts[j], addr, key);
    }
  }

  lemma {:induction false} Grows(states: seq<State>, acts: seq<Action>, k: nat, j: nat)
    requires IsRun(states, acts) && k <= j < |states|
    ensures states[k].next <= states[j].next
    decreases j
  {
    hide Enabled;
    if k < j { Grows(states, acts, k, j - 1); }
  }

  /** In every run, when no expiry is pending, what is left in the map was unlocked indefinitely and
      never locked: every timeout and every `Lock` has had its effect. */
  lemma AtRest(states: seq<State>, acts: seq<Action>, i: nat, addr: nat, key: nat)
    requires IsRun(states, acts) && i < |states| && states[i].waiting == multiset{} && Holds(states[i], addr, key)
    ensures key !in states[i].timed
    ensures forall k | 0 <= k < i && acts[k] == Lock(addr) :: !Holds(states[k], addr, key)
  {
    hide Apply, Inv, Enabled;
    TimersRun(states, acts, i);
    forall k | 0 <= k < i && acts[k] == Lock(addr) ensures !Holds(states[k], addr, key) {
      if Holds(states[k], addr, key) { LockPending(states, acts, k, i, addr, key); }
    }
  }
}
