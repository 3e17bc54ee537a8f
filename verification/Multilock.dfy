/** The keyed multilock as a step system over any number of lock objects.

    A channel of capacity one is a token: buffered, or taken by whoever received it.
    A lock object takes the tokens of its keys in ascending order, one registry
    access and one receive per key.  `Clean` takes idle tokens itself, closes their
    channels and drops them from the registry, while others may still be about to
    receive from them; a receive from a closed channel sends the waiter back to the
    registry.  Each action below is one atomic step of one goroutine.
 */
module Multilock {
  import opened Common
  import opened Strings

  type Pid = nat
  type Chan = nat

  datatype ChanState = ChanState(token: bool, closed: bool)

  /** Where a lock object is in its cycle `Lock`, `Unlock`, `Clean`. */
  datatype Phase =
    | Free                                   // lk.lock is empty
    | Want                                   // about to ask for the channel of the next key
    | Getting                                // inside getChan, registry mutex taken
    | Got(ch: Chan)                          // about to leave getChan
    | Wait(ch: Chan)                         // receiving from the channel
    | Held                                   // Lock has returned
    | Releasing(sent: nat)                   // Unlock gives the tokens back in order
    | WantClean                              // about to enter Clean
    | Visiting                               // Clean's first loop, registry mutex taken
    | Closing                                // a token received, its channel not yet closed
    | Deleting                               // Clean's second loop
    | Leaving                                // about to empty lk.lock

  datatype Proc = Proc(keys: seq<string>, chans: seq<Chan>, phase: Phase)

  /** `todo`, `taken` and `gone` are the local variables of the one `Clean` that can be
      inside the registry mutex: keys not yet visited, the key whose token was just
      received, and the keys to delete. */
  datatype State = State(
    procs: map<Pid, Proc>,
    registry: map<string, Chan>,
    chans: map<Chan, ChanState>,
    mutex: Option<Pid>,
    todo: set<string>,
    taken: Option<string>,
    gone: set<string>)

  datatype Action =
    | Create(p: Pid, keys: seq<string>)
    | Enter(p: Pid)
    | AskRegistry(p: Pid)
    | GetChan(p: Pid, fresh_: Chan)
    | ReturnChan(p: Pid)
    | Receive(p: Pid)
    | StartUnlock(p: Pid)
    | Send(p: Pid)
    | EndSends(p: Pid)
    | StartClean(p: Pid)
    | AskClean(p: Pid)
    | Visit(p: Pid, key: string)
    | Close(p: Pid)
    | EndVisits(p: Pid)
    | Delete(p: Pid, key: string)
    | EndClean(p: Pid)
    | Leave(p: Pid)

  predicate InRegistry(ph: Phase) {
    ph.Getting? || ph.Got? || ph.Visiting? || ph.Closing? || ph.Deleting?
  }

  predicate InLock(ph: Phase) {
    ph.Want? || ph.Getting? || ph.Got? || ph.Wait?
  }

  /** What the phases say about the other fields of a lock object. */
  predicate Shaped(pr: Proc) {
    && pr.keys != [] && Ascending(pr.keys)
    && match pr.phase
       case Want => |pr.chans| < |pr.keys|
       case Getting => |pr.chans| < |pr.keys|
       case Got(_) => |pr.chans| < |pr.keys|
       case Wait(_) => |pr.chans| < |pr.keys|
       case Held => |pr.chans| == |pr.keys|
       case Releasing(j) => j <= |pr.chans| == |pr.keys|
       case _ => pr.chans == []
  }

  /** The key whose channel is asked for or waited on. */
  function NextKey(pr: Proc): string
    requires |pr.chans| < |pr.keys|
  {
    pr.keys[|pr.chans|]
  }

  // ---------- steps ----------

  predicate At(s: State, p: Pid) {
    p in s.procs && Shaped(s.procs[p]) &&
    match s.procs[p].phase
    case Got(c) => c in s.chans
    case Wait(c) => c in s.chans
    case Releasing(j) => j < |s.procs[p].chans| ==> s.procs[p].chans[j] in s.chans
    case Closing => s.taken.Some? && s.taken.value in s.registry && s.registry[s.taken.value] in s.chans
    case _ => true
  }

  predicate Enabled(s: State, a: Action) {
    match a
    case Create(p, keys) => p !in s.procs && keys != [] && Ascending(keys)
    case Enter(p) => At(s, p) && s.procs[p].phase.Free?
    case AskRegistry(p) => At(s, p) && s.procs[p].phase.Want? && s.mutex.None?
    case GetChan(p, c) => At(s, p) && s.procs[p].phase.Getting? && c !in s.chans
    case ReturnChan(p) => At(s, p) && s.procs[p].phase.Got?
    case Receive(p) =>
      At(s, p) && s.procs[p].phase.Wait? && var c := s.chans[s.procs[p].phase.ch]; c.token || c.closed
    case StartUnlock(p) => At(s, p) && s.procs[p].phase.Held?
    case Send(p) =>
      At(s, p) && s.procs[p].phase.Releasing? && s.procs[p].phase.sent < |s.procs[p].chans| &&
      var c := s.chans[s.procs[p].chans[s.procs[p].phase.sent]]; !c.token && !c.closed
    case EndSends(p) => At(s, p) && s.procs[p].phase.Releasing? && s.procs[p].phase.sent == |s.procs[p].chans|
    case StartClean(p) => At(s, p) && s.procs[p].phase.Free?
    case AskClean(p) => At(s, p) && s.procs[p].phase.WantClean? && s.mutex.None?
    case Visit(p, k) =>
      At(s, p) && s.procs[p].phase.Visiting? && k in s.todo && k in s.registry && s.registry[k] in s.chans
    case Close(p) => At(s, p) && s.procs[p].phase.Closing? && !s.chans[s.registry[s.taken.value]].closed
    case EndVisits(p) => At(s, p) && s.procs[p].phase.Visiting? && s.todo == {}
    case Delete(p, k) => At(s, p) && s.procs[p].phase.Deleting? && k in s.gone
    case EndClean(p) => At(s, p) && s.procs[p].phase.Deleting? && s.gone == {}
    case Leave(p) => At(s, p) && s.procs[p].phase.Leaving?
  }

  function Goto(s: State, p: Pid, ph: Phase): State
    requires p in s.procs
  {
    s.(procs := s.procs[p := s.procs[p].(phase := ph)])
  }

  function Apply(s: State, a: Action): State
    requires Enabled(s, a)
  {
    match a
    case Create(p, keys) => s.(procs := s.procs[p := Proc(keys, [], Free)])
    case Enter(p) => Goto(s, p, Want)
    case AskRegistry(p) => Goto(s, p, Getting).(mutex := Some(p))
    case GetChan(p, c) =>
      var k := NextKey(s.procs[p]);
      if k in s.registry then Goto(s, p, Got(s.registry[k]))
      else Goto(s, p, Got(c)).(registry := s.registry[k := c], chans := s.chans[c := ChanState(true, false)])
    case ReturnChan(p) => Goto(s, p, Wait(s.procs[p].phase.ch)).(mutex := None)
    case Receive(p) =>
      var pr := s.procs[p];
      var c := pr.phase.ch;
      if s.chans[c].token then
        var pr' := pr.(chans := pr.chans + [c], phase := if |pr.chans| + 1 == |pr.keys| then Held else Want);
        s.(procs := s.procs[p := pr'], chans := s.chans[c := s.chans[c].(token := false)])
      else
        Goto(s, p, Want)
    case StartUnlock(p) => Goto(s, p, Releasing(0))
    case Send(p) =>
      var c := s.procs[p].chans[s.procs[p].phase.sent];
      Goto(s, p, Releasing(s.procs[p].phase.sent + 1)).(chans := s.chans[c := ChanState(true, false)])
    case EndSends(p) => s.(procs := s.procs[p := s.procs[p].(chans := [], phase := WantClean)])
    case StartClean(p) => Goto(s, p, WantClean)
    case AskClean(p) => Goto(s, p, Visiting).(mutex := Some(p), todo := s.registry.Keys, gone := {})
    case Visit(p, k) =>
      var c := s.chans[s.registry[k]];
      if c.token || c.closed then
        Goto(s, p, Closing).(taken := Some(k), chans := s.chans[s.registry[k] := c.(token := false)])
      else
        s.(todo := s.todo - {k})
    case Close(p) =>
      var k := s.taken.value;
      var c := s.registry[k];
      Goto(s, p, Visiting).(taken := None, todo := s.todo - {k}, gone := s.gone + {k},
                            chans := s.chans[c := s.chans[c].(closed := true)])
    case EndVisits(p) => Goto(s, p, Deleting)
    case Delete(p, k) => s.(gone := s.gone - {k}, registry := s.registry - {k})
    case EndClean(p) => Goto(s, p, Leaving).(mutex := None)
    case Leave(p) => Goto(s, p, Free)
  }

  /** At the start nobody is inside and no channel exists. */
  predicate Init(s: State) {
    && s.registry == map[] && s.chans == map[] && s.mutex.None?
    && s.todo == {} && s.taken.None? && s.gone == {}
    && forall p | p in s.procs :: Shaped(s.procs[p]) && s.procs[p].phase.Free?
  }

  // ---------- the invariant ----------

  /** How many of its tokens a lock object has given back. */
  function Returned(pr: Proc): nat {
    if pr.phase.Releasing? then pr.phase.sent else 0
  }

  /** `p` has taken the token of its key number `m` and not given it back. */
  ghost predicate Holds(s: State, p: Pid, m: int) {
    p in s.procs && m < |s.procs[p].keys| && Returned(s.procs[p]) <= m < |s.procs[p].chans|
  }

  ghost predicate IsOpen(s: State, k: string) {
    k in s.registry && s.registry[k] in s.chans && !s.chans[s.registry[k]].closed
  }

  ghost predicate MutexOk(s: State) {
    && (s.mutex.Some? ==> s.mutex.value in s.procs)
    && forall p | p in s.procs :: Shaped(s.procs[p]) && (InRegistry(s.procs[p].phase) <==> s.mutex == Some(p))
  }

  /** The locals of `Clean`, by the phase of whoever is inside the registry mutex. */
  ghost predicate CleanerOk(s: State) {
    && s.gone <= s.registry.Keys && s.todo <= s.registry.Keys && s.todo !! s.gone
    && (s.taken.Some? ==> s.taken.value in s.todo)
    && match if s.mutex.Some? && s.mutex.value in s.procs then s.procs[s.mutex.value].phase else Free
       case Visiting => s.taken.None?
       case Closing => s.taken.Some?
       case Deleting => s.todo == {} && s.taken.None?
       case _ => s.todo == {} && s.taken.None? && s.gone == {}
  }

  /** Registered channels exist, one per key; they are closed exactly while `Clean`
      is about to drop them, and all other channels are closed. */
  ghost predicate RegistryOk(s: State) {
    && (forall k | k in s.registry :: s.registry[k] in s.chans)
    && (forall k, k' | k in s.registry && k' in s.registry && s.registry[k] == s.registry[k'] :: k == k')
    && (forall k | k in s.registry :: s.chans[s.registry[k]].closed <==> k in s.gone)
    && (forall c | c in s.chans :: c in s.registry.Values || s.chans[c].closed)
    && (forall c | c in s.chans :: s.chans[c].closed ==> !s.chans[c].token)
    && (forall k | k in s.registry && s.taken == Some(k) :: !s.chans[s.registry[k]].token)
  }

  /** A taken token is neither buffered nor about to be closed, and its channel is
      still the registered one. */
  ghost predicate HoldersOk(s: State) {
    forall p, m | Holds(s, p, m) ::
      var k := s.procs[p].keys[m];
      && IsOpen(s, k) && s.registry[k] == s.procs[p].chans[m]
      && !s.chans[s.registry[k]].token && s.taken != Some(k)
  }

  ghost predicate Exclusive(s: State) {
    forall p, m, q, n | Holds(s, p, m) && Holds(s, q, n) && s.procs[p].keys[m] == s.procs[q].keys[n] :: p == q && m == n
  }

  ghost predicate WaiterOk(s: State, pr: Proc) {
    |pr.chans| < |pr.keys| ==>
      match pr.phase
      case Got(c) => NextKey(pr) in s.registry && s.registry[NextKey(pr)] == c
      case Wait(c) => c in s.chans && (s.chans[c].closed || (NextKey(pr) in s.registry && s.registry[NextKey(pr)] == c))
      case _ => true
  }

  /** A channel that is waited on is closed or still the registered one of its key. */
  ghost predicate WaitersOk(s: State) {
    forall p | p in s.procs :: WaiterOk(s, s.procs[p])
  }

  ghost predicate HeldKey(s: State, k: string) {
    exists p, m :: Holds(s, p, m) && s.procs[p].keys[m] == k
  }

  /** No token is lost: it is buffered, held, or in the hands of `Clean`. */
  ghost predicate NoLoss(s: State) {
    forall k | IsOpen(s, k) :: s.chans[s.registry[k]].token || HeldKey(s, k) || s.taken == Some(k)
  }

  ghost predicate Inv(s: State) {
    MutexOk(s) && RegistryOk(s) && CleanerOk(s) && HoldersOk(s) && Exclusive(s) && WaitersOk(s) && NoLoss(s)
  }

  lemma InitInv(s: State)
    requires Init(s)
    ensures Inv(s)
  {
  }

  // ---------- steps that move no token ----------

  /** Only `p` moves, in or out of the registry mutex or not at all. */
  ghost predicate OnlyMoves(s: State, s': State, p: Pid) {
    && p in s'.procs && s'.procs == s.procs[p := s'.procs[p]]
    && Shaped(s'.procs[p]) && (InRegistry(s'.procs[p].phase) <==> s'.mutex == Some(p))
    && (s'.mutex == s.mutex || (s.mutex.None? && s'.mutex == Some(p)) || (s.mutex == Some(p) && s'.mutex.None?))
  }

  lemma MutexKept(s: State, s': State, p: Pid)
    requires MutexOk(s) && OnlyMoves(s, s', p)
    ensures MutexOk(s')
  {
    hide Shaped, InRegistry;
  }

  /** `p` holds the same tokens before and after. */
  ghost predicate SameTokens(s: State, s': State, p: Pid) {
    p in s'.procs &&
    var pr' := s'.procs[p];
    if p !in s.procs then pr'.chans == []
    else
      var pr := s.procs[p];
      && pr'.keys == pr.keys
      && (if pr'.chans == pr.chans then Returned(pr') == Returned(pr) else pr'.chans == [] && Returned(pr) == |pr.chans|)
  }

  lemma HoldsKept(s: State, s': State, p: Pid)
    requires OnlyMoves(s, s', p) && SameTokens(s, s', p)
    ensures forall q, m :: Holds(s', q, m) <==> Holds(s, q, m)
    ensures forall q, m | Holds(s, q, m) :: s'.procs[q].keys == s.procs[q].keys && s'.procs[q].chans == s.procs[q].chans
  {
    hide Shaped, InRegistry;
  }

  lemma TokensKept(s: State, s': State, p: Pid)
    requires RegistryOk(s) && HoldersOk(s) && Exclusive(s) && NoLoss(s)
    requires OnlyMoves(s, s', p) && SameTokens(s, s', p)
    requires s'.registry == s.registry && s'.chans == s.chans && s'.taken == s.taken && s'.gone == s.gone
    ensures RegistryOk(s') && HoldersOk(s') && Exclusive(s') && NoLoss(s')
  {
    HoldsKept(s, s', p);
    hide Holds, OnlyMoves, SameTokens;
    forall k | IsOpen(s', k)
      ensures s'.chans[s'.registry[k]].token || HeldKey(s', k) || s'.taken == Some(k)
    {
      assert IsOpen(s, k);
      if HeldKey(s, k) {
        var q, m :| Holds(s, q, m) && s.procs[q].keys[m] == k;
        assert Holds(s', q, m);
      }
    }
  }

  lemma QuietStep(s: State, s': State, p: Pid)
    requires Inv(s) && OnlyMoves(s, s', p) && SameTokens(s, s', p)
    requires s'.registry == s.registry && s'.chans == s.chans && s'.taken == s.taken && s'.gone == s.gone
    requires CleanerOk(s') && WaiterOk(s', s'.procs[p])
    ensures Inv(s')
  {
    MutexKept(s, s', p);
    TokensKept(s, s', p);
    hide RegistryOk, HoldersOk, Exclusive, NoLoss, MutexOk, CleanerOk;
  }

  lemma CreateInv(s: State, p: Pid, keys: seq<string>)
    requires Inv(s) && Enabled(s, Create(p, keys))
    ensures Inv(Apply(s, Create(p, keys)))
  {
    hide RegistryOk, HoldersOk, Exclusive, NoLoss, WaitersOk;
    QuietStep(s, Apply(s, Create(p, keys)), p);
  }

  predicate OutsideMove(a: Action) {
    a.Enter? || a.StartClean? || a.Leave?
  }

  predicate UnlockMove(a: Action) {
    a.StartUnlock? || a.EndSends?
  }

  predicate RegistryMove(a: Action) {
    a.AskRegistry? || a.ReturnChan?
  }

  predicate CleanMove(a: Action) {
    a.AskClean? || a.EndVisits? || a.EndClean?
  }

  lemma OutsideMoveInv(s: State, a: Action)
    requires Inv(s) && Enabled(s, a) && OutsideMove(a)
    ensures Inv(Apply(s, a))
  {
    hide RegistryOk, HoldersOk, Exclusive, NoLoss, WaitersOk, Ascending;
    QuietStep(s, Apply(s, a), a.p);
  }

  lemma UnlockMoveInv(s: State, a: Action)
    requires Inv(s) && Enabled(s, a) && UnlockMove(a)
    ensures Inv(Apply(s, a))
  {
    hide RegistryOk, HoldersOk, Exclusive, NoLoss, WaitersOk, Ascending;
    QuietStep(s, Apply(s, a), a.p);
  }

  lemma RegistryMoveInv(s: State, a: Action)
    requires Inv(s) && Enabled(s, a) && RegistryMove(a)
    ensures Inv(Apply(s, a))
  {
    hide RegistryOk, HoldersOk, Exclusive, NoLoss, Ascending;
    QuietStep(s, Apply(s, a), a.p);
  }

  lemma CleanMoveInv(s: State, a: Action)
    requires Inv(s) && Enabled(s, a) && CleanMove(a)
    ensures Inv(Apply(s, a))
  {
    hide RegistryOk, HoldersOk, Exclusive, NoLoss, WaitersOk, Ascending;
    QuietStep(s, Apply(s, a), a.p);
  }

  // ---------- steps that move a token ----------

  lemma WaitersKept(s: State, s': State, p: Pid)
    requires MutexOk(s) && WaitersOk(s) && OnlyMoves(s, s', p) && WaiterOk(s', s'.procs[p])
    requires forall c | c in s.chans :: c in s'.chans && (s.chans[c].closed ==> s'.chans[c].closed)
    requires forall k | k in s.registry ::
               || (k in s'.registry && s'.registry[k] == s.registry[k])
               || (s.registry[k] in s'.chans && s'.chans[s.registry[k]].closed && s.mutex == Some(p))
    ensures WaitersOk(s')
  {
    hide Shaped;
  }

  /** Tokens other than that of `k0` stay where they are, and that of `k0` is accounted for. */
  lemma NoLossKept(s: State, s': State, k0: string)
    requires NoLoss(s)
    requires forall q, m | Holds(s, q, m) && s.procs[q].keys[m] != k0 :: Holds(s', q, m) && s'.procs[q].keys == s.procs[q].keys
    requires forall k | IsOpen(s', k) && k != k0 ::
               && IsOpen(s, k) && (s.chans[s.registry[k]].token ==> s'.chans[s'.registry[k]].token)
               && (s.taken == Some(k) ==> s'.taken == Some(k))
    requires IsOpen(s', k0) ==> s'.chans[s'.registry[k0]].token || HeldKey(s', k0) || s'.taken == Some(k0)
    ensures NoLoss(s')
  {
    forall k | IsOpen(s', k) && k != k0 && HeldKey(s, k)
      ensures HeldKey(s', k)
    {
      var q, m :| Holds(s, q, m) && s.procs[q].keys[m] == k;
      assert Holds(s', q, m);
    }
  }

  /** Only tokens moved: the registry is as good as before. */
  lemma RegistryKept(s: State, s': State)
    requires RegistryOk(s) && s'.registry == s.registry && s'.gone == s.gone && s'.chans.Keys == s.chans.Keys
    requires forall c | c in s.chans :: s'.chans[c].closed == s.chans[c].closed && (s.chans[c].closed ==> !s'.chans[c].token)
    requires forall k | k in s.registry && s'.taken == Some(k) :: !s'.chans[s.registry[k]].token
    ensures RegistryOk(s')
  {
  }

  /** Nobody holds `k0` any more, and all other holdings stand. */
  lemma HoldersKept(s: State, s': State, k0: string)
    requires HoldersOk(s) && Exclusive(s)
    requires forall q, m | Holds(s', q, m) ::
               && Holds(s, q, m) && s'.procs[q].keys == s.procs[q].keys && s'.procs[q].chans == s.procs[q].chans
               && s.procs[q].keys[m] != k0
    requires forall k | k != k0 && IsOpen(s, k) && !s.chans[s.registry[k]].token && s.taken != Some(k) ::
               IsOpen(s', k) && s'.registry[k] == s.registry[k] && !s'.chans[s'.registry[k]].token && s'.taken != Some(k)
    ensures HoldersOk(s') && Exclusive(s')
  {
  }

  ghost predicate TokensOk(s: State) {
    RegistryOk(s) && HoldersOk(s) && Exclusive(s) && NoLoss(s)
  }

  /** `p` takes the token of `c`, the channel registered for its next key `k`. */
  ghost predicate Takes(s: State, s': State, p: Pid, k: string, c: Chan, ph: Phase) {
    && p in s.procs && |s.procs[p].chans| < |s.procs[p].keys| && NextKey(s.procs[p]) == k
    && Returned(s.procs[p]) == 0 && !ph.Releasing?
    && k in s.registry && s.registry[k] == c && c in s.chans && s.chans[c].token
    && s' == s.(procs := s.procs[p := Proc(s.procs[p].keys, s.procs[p].chans + [c], ph)],
                chans := s.chans[c := s.chans[c].(token := false)])
  }

  lemma TakeHolds(s: State, s': State, p: Pid, k: string, c: Chan, ph: Phase)
    requires Takes(s, s', p, k, c, ph)
    ensures forall q, m :: Holds(s', q, m) <==> Holds(s, q, m) || (q == p && m == |s.procs[p].chans|)
    ensures forall q | q in s.procs :: q in s'.procs && s'.procs[q].keys == s.procs[q].keys
    ensures forall q, m | Holds(s, q, m) :: s'.procs[q].chans[m] == s.procs[q].chans[m]
    ensures s'.procs[p].keys[|s.procs[p].chans|] == k && s'.procs[p].chans[|s.procs[p].chans|] == c
  {
  }

  /** A buffered token is in nobody's hands. */
  lemma BufferedUnheld(s: State, k: string)
    requires HoldersOk(s) && k in s.registry && s.registry[k] in s.chans && s.chans[s.registry[k]].token
    ensures forall q, m | Holds(s, q, m) :: s.procs[q].keys[m] != k && s.procs[q].chans[m] != s.registry[k]
  {
  }

  lemma TakeHolders(s: State, s': State, p: Pid, k: string, c: Chan, ph: Phase)
    requires RegistryOk(s) && HoldersOk(s) && Exclusive(s) && Takes(s, s', p, k, c, ph)
    ensures HoldersOk(s') && Exclusive(s')
  {
    hide Holds;
    BufferedUnheld(s, k);
    TakeHolds(s, s', p, k, c, ph);
  }

  lemma TakeNoLoss(s: State, s': State, p: Pid, k: string, c: Chan, ph: Phase)
    requires RegistryOk(s) && NoLoss(s) && Takes(s, s', p, k, c, ph)
    ensures NoLoss(s')
  {
    hide Holds;
    TakeHolds(s, s', p, k, c, ph);
    assert Holds(s', p, |s.procs[p].chans|);
    NoLossKept(s, s', k);
  }

  /** A received token is now held by its receiver, who waited on the registered channel. */
  lemma ReceiveTokens(s: State, s': State, p: Pid, k: string, c: Chan, ph: Phase)
    requires TokensOk(s) && Takes(s, s', p, k, c, ph)
    ensures TokensOk(s')
  {
    hide HoldersOk, Exclusive, NoLoss;
    RegistryKept(s, s');
    TakeHolders(s, s', p, k, c, ph);
    TakeNoLoss(s, s', p, k, c, ph);
  }

  lemma ReceiveTokenInv(s: State, p: Pid)
    requires Inv(s) && Enabled(s, Receive(p)) && s.chans[s.procs[p].phase.ch].token
    ensures Inv(Apply(s, Receive(p)))
  {
    hide HoldersOk, Exclusive, NoLoss, Ascending;
    var s' := Apply(s, Receive(p));
    assert WaiterOk(s, s.procs[p]);
    ReceiveTokens(s, s', p, NextKey(s.procs[p]), s.procs[p].phase.ch, s'.procs[p].phase);
    hide RegistryOk;
    MutexKept(s, s', p);
    WaitersKept(s, s', p);
  }

  lemma ReceiveInv(s: State, p: Pid)
    requires Inv(s) && Enabled(s, Receive(p))
    ensures Inv(Apply(s, Receive(p)))
  {
    hide HoldersOk, Exclusive, NoLoss, Ascending, RegistryOk;
    if s.chans[s.procs[p].phase.ch].token {
      ReceiveTokenInv(s, p);
    } else {
      QuietStep(s, Apply(s, Receive(p)), p);
    }
  }

  /** Safety of `Unlock`: the channel to send on is open and empty. */
  lemma SendReady(s: State, p: Pid)
    requires Inv(s) && p in s.procs && s.procs[p].phase.Releasing? && s.procs[p].phase.sent < |s.procs[p].chans|
    ensures Enabled(s, Send(p))
  {
    hide Exclusive, NoLoss, WaitersOk, Ascending;
    assert Holds(s, p, s.procs[p].phase.sent);
  }

  /** `p` gives back its token number `j`. */
  ghost predicate Gives(s: State, s': State, p: Pid, j: nat) {
    && p in s.procs && s.procs[p].phase == Releasing(j)
    && j < |s.procs[p].chans| == |s.procs[p].keys| && s.procs[p].chans[j] in s.chans
    && s' == Goto(s, p, Releasing(j + 1)).(chans := s.chans[s.procs[p].chans[j] := ChanState(true, false)])
  }

  lemma GiveHolds(s: State, s': State, p: Pid, j: nat)
    requires Gives(s, s', p, j)
    ensures Holds(s, p, j) && forall q, m :: Holds(s', q, m) <==> Holds(s, q, m) && !(q == p && m == j)
    ensures forall q, m | Holds(s, q, m) :: s'.procs[q].keys == s.procs[q].keys && s'.procs[q].chans == s.procs[q].chans
  {
  }

  /** A token given back is buffered again, and no longer held. */
  lemma SendTokens(s: State, s': State, p: Pid, j: nat)
    requires TokensOk(s) && Gives(s, s', p, j)
    ensures TokensOk(s')
  {
    hide Holds;
    GiveHolds(s, s', p, j);
    RegistryKept(s, s');
    HoldersKept(s, s', s.procs[p].keys[j]);
    NoLossKept(s, s', s.procs[p].keys[j]);
    hide HoldersOk, Exclusive, NoLoss, RegistryOk;
  }

  lemma SendInv(s: State, p: Pid)
    requires Inv(s) && Enabled(s, Send(p))
    ensures Inv(Apply(s, Send(p)))
  {
    hide HoldersOk, Exclusive, NoLoss, Ascending, RegistryOk;
    var s' := Apply(s, Send(p));
    SendTokens(s, s', p, s.procs[p].phase.sent);
    MutexKept(s, s', p);
    WaitersKept(s, s', p);
  }

  /** Phases that hold nothing may change freely. */
  lemma PhaseHolds(s: State, s': State, p: Pid, ph: Phase)
    requires p in s.procs && !ph.Releasing? && !s.procs[p].phase.Releasing? && s'.procs == Goto(s, p, ph).procs
    ensures forall q, m :: Holds(s', q, m) <==> Holds(s, q, m)
    ensures forall q, m | Holds(s, q, m) :: s'.procs[q].keys == s.procs[q].keys && s'.procs[q].chans == s.procs[q].chans
  {
  }

  lemma RegistryGrows(s: State, s': State, k: string, c: Chan)
    requires RegistryOk(s) && c !in s.chans && k !in s.registry && s.taken.None? && s.gone == {}
    requires s'.taken.None? && s'.gone == {}
    requires s'.registry == s.registry[k := c] && s'.chans == s.chans[c := ChanState(true, false)]
    ensures RegistryOk(s')
  {
    forall x | x in s'.chans && !s'.chans[x].closed
      ensures x in s'.registry.Values
    {
      if x == c {
        assert s'.registry[k] == c;
      } else {
        var y :| y in s.registry && s.registry[y] == x;
        assert s'.registry[y] == x;
      }
    }
  }

  /** A new channel comes with its token; nobody can know it before it is registered. */
  lemma GetChanTokens(s: State, s': State, p: Pid, k: string, c: Chan)
    requires TokensOk(s) && p in s.procs && s.procs[p].phase.Getting? && c !in s.chans && k !in s.registry
    requires s.taken.None? && s.gone == {}
    requires s' == Goto(s, p, Got(c)).(registry := s.registry[k := c], chans := s.chans[c := ChanState(true, false)])
    ensures TokensOk(s')
  {
    PhaseHolds(s, s', p, Got(c));
    RegistryGrows(s, s', k, c);
    HoldersKept(s, s', k);
    NoLossKept(s, s', k);
    hide Holds, HoldersOk, Exclusive, NoLoss, RegistryOk;
  }

  lemma NewChanInv(s: State, p: Pid, c: Chan)
    requires Inv(s) && Enabled(s, GetChan(p, c)) && NextKey(s.procs[p]) !in s.registry
    ensures Inv(Apply(s, GetChan(p, c)))
  {
    hide HoldersOk, Exclusive, NoLoss, Ascending, RegistryOk;
    var s' := Apply(s, GetChan(p, c));
    GetChanTokens(s, s', p, NextKey(s.procs[p]), c);
    MutexKept(s, s', p);
    WaitersKept(s, s', p);
  }

  lemma GetChanInv(s: State, p: Pid, c: Chan)
    requires Inv(s) && Enabled(s, GetChan(p, c))
    ensures Inv(Apply(s, GetChan(p, c)))
  {
    hide HoldersOk, Exclusive, NoLoss, Ascending, RegistryOk;
    if NextKey(s.procs[p]) in s.registry {
      QuietStep(s, Apply(s, GetChan(p, c)), p);
    } else {
      NewChanInv(s, p, c);
    }
  }

  /** `Clean` takes a buffered token, which nobody else then has. */
  lemma VisitTokens(s: State, s': State, p: Pid, k: string)
    requires TokensOk(s) && p in s.procs && s.procs[p].phase.Visiting? && k in s.registry && s.registry[k] in s.chans
    requires s.taken.None? && s.chans[s.registry[k]].token
    requires s' == Goto(s, p, Closing).(taken := Some(k), chans := s.chans[s.registry[k] := s.chans[s.registry[k]].(token := false)])
    ensures TokensOk(s')
  {
    PhaseHolds(s, s', p, Closing);
    RegistryKept(s, s');
    HoldersKept(s, s', k);
    NoLossKept(s, s', k);
    hide Holds, HoldersOk, Exclusive, NoLoss, RegistryOk;
  }

  lemma VisitInv(s: State, p: Pid, k: string)
    requires Inv(s) && Enabled(s, Visit(p, k))
    ensures Inv(Apply(s, Visit(p, k)))
  {
    hide HoldersOk, Exclusive, NoLoss, Ascending;
    var s' := Apply(s, Visit(p, k));
    if s.chans[s.registry[k]].token {
      VisitTokens(s, s', p, k);
      hide RegistryOk;
      MutexKept(s, s', p);
      WaitersKept(s, s', p);
    } else {
      assert !s.chans[s.registry[k]].closed;
      hide RegistryOk;
      QuietStep(s, s', p);
    }
  }

  /** Safety of `Clean`: the channel to close is open. */
  lemma CloseReady(s: State, p: Pid)
    requires Inv(s) && p in s.procs && s.procs[p].phase.Closing?
    ensures Enabled(s, Close(p))
  {
    hide HoldersOk, Exclusive, NoLoss, WaitersOk, Ascending;
  }

  /** Closing concerns only a channel whose token `Clean` has. */
  lemma CloseTokens(s: State, s': State, p: Pid, k: string)
    requires TokensOk(s) && p in s.procs && s.procs[p].phase.Closing? && k in s.registry && s.registry[k] in s.chans
    requires s.taken == Some(k)
    requires s'.procs == Goto(s, p, Visiting).procs && s'.registry == s.registry && s'.taken.None? && s'.gone == s.gone + {k}
    requires s'.chans == s.chans[s.registry[k] := s.chans[s.registry[k]].(closed := true)]
    ensures TokensOk(s')
  {
    PhaseHolds(s, s', p, Visiting);
    HoldersKept(s, s', k);
    NoLossKept(s, s', k);
    hide Holds, HoldersOk, Exclusive, NoLoss;
  }

  lemma CloseInv(s: State, p: Pid)
    requires Inv(s) && Enabled(s, Close(p))
    ensures Inv(Apply(s, Close(p)))
  {
    hide HoldersOk, Exclusive, NoLoss, Ascending;
    var s' := Apply(s, Close(p));
    CloseTokens(s, s', p, s.taken.value);
    hide RegistryOk;
    MutexKept(s, s', p);
    WaitersKept(s, s', p);
  }

  /** Dropping a closed channel concerns no holder. */
  lemma DeleteTokens(s: State, s': State, k: string)
    requires TokensOk(s) && k in s.gone && s.taken.None?
    requires s' == s.(gone := s.gone - {k}, registry := s.registry - {k})
    ensures TokensOk(s')
  {
    assert forall q, m :: Holds(s', q, m) <==> Holds(s, q, m);
    forall c | c in s'.chans && !s'.chans[c].closed
      ensures c in s'.registry.Values
    {
      var x :| x in s.registry && s.registry[x] == c;
      assert x in s'.registry;
    }
    HoldersKept(s, s', k);
    NoLossKept(s, s', k);
    hide Holds, HoldersOk, Exclusive, NoLoss;
  }

  lemma DeleteInv(s: State, p: Pid, k: string)
    requires Inv(s) && Enabled(s, Delete(p, k))
    ensures Inv(Apply(s, Delete(p, k)))
  {
    hide HoldersOk, Exclusive, NoLoss, Ascending;
    var s' := Apply(s, Delete(p, k));
    DeleteTokens(s, s', k);
    MutexKept(s, s', p);
    WaitersKept(s, s', p);
  }

  /** Every step keeps the invariant. */
  lemma StepInv(s: State, a: Action)
    requires Inv(s) && Enabled(s, a)
    ensures Inv(Apply(s, a))
  {
    hide Inv, Enabled, Apply;
    match a
    case Create(p, keys) => CreateInv(s, p, keys);
    case GetChan(p, c) => GetChanInv(s, p, c);
    case Receive(p) => ReceiveInv(s, p);
    case Send(p) => SendInv(s, p);
    case Visit(p, k) => VisitInv(s, p, k);
    case Close(p) => CloseInv(s, p);
    case Delete(p, k) => DeleteInv(s, p, k);
    case _ =>
      if OutsideMove(a) {
        OutsideMoveInv(s, a);
      } else if UnlockMove(a) {
        UnlockMoveInv(s, a);
      } else if RegistryMove(a) {
        RegistryMoveInv(s, a);
      } else {
        CleanMoveInv(s, a);
      }
  }

  // ---------- runs ----------

  /** A run from the start: any interleaving of steps of any number of lock objects. */
  ghost predicate Run(ss: seq<State>, acts: seq<Action>) {
    && |ss| == |acts| + 1 && Init(ss[0])
    && forall i | 0 <= i < |acts| :: Enabled(ss[i], acts[i]) && ss[i + 1] == Apply(ss[i], acts[i])
  }

  lemma {:induction false} RunInv(ss: seq<State>, acts: seq<Action>)
    requires Run(ss, acts)
    ensures Inv(ss[|acts|])
  {
    if acts == [] {
      InitInv(ss[0]);
    } else {
      var n := |acts| - 1;
      assert Run(ss[..n + 1], acts[..n]) by { hide Inv, Enabled, Apply; }
      RunInv(ss[..n + 1], acts[..n]);
      StepInv(ss[n], acts[n]);
    }
  }

  /** Two lock objects never hold the same key, and `Unlock` never sends on a channel
      that is closed or full: in every state of every run. */
  lemma MutualExclusion(ss: seq<State>, acts: seq<Action>, p: Pid, q: Pid, m: nat, n: nat)
    requires Run(ss, acts)
    ensures var s := ss[|acts|];
            && (Holds(s, p, m) && Holds(s, q, n) && s.procs[p].keys[m] == s.procs[q].keys[n] ==> p == q && m == n)
            && (p in s.procs && s.procs[p].phase.Releasing? && s.procs[p].phase.sent < |s.procs[p].chans| ==>
                  Enabled(s, Send(p)))
            && (p in s.procs && s.procs[p].phase.Closing? ==> Enabled(s, Close(p)))
  {
    var s := ss[|acts|];
    RunInv(ss, acts);
    if p in s.procs && s.procs[p].phase.Releasing? && s.procs[p].phase.sent < |s.procs[p].chans| { SendReady(s, p); }
    if p in s.procs && s.procs[p].phase.Closing? { CloseReady(s, p); }
    hide Enabled;
  }

  // ---------- deadlock freedom ----------

  /** Some step of a lock object that is in use. */
  ghost predicate CanStep(s: State, p: Pid) {
    p in s.procs && !s.procs[p].phase.Free? && exists a: Action :: !a.Create? && a.p == p && Enabled(s, a)
  }

  ghost predicate Stuck(s: State, p: Pid) {
    p in s.procs && s.procs[p].phase.Wait? && s.procs[p].phase.ch in s.chans &&
    !s.chans[s.procs[p].phase.ch].token && !s.chans[s.procs[p].phase.ch].closed
  }

  lemma Witness(s: State, a: Action)
    requires !a.Create? && a.p in s.procs && !s.procs[a.p].phase.Free? && Enabled(s, a)
    ensures CanStep(s, a.p)
  {
    hide Enabled;
  }

  lemma CleanerSteps(s: State, p: Pid)
    requires Inv(s) && s.mutex == Some(p)
    requires s.procs[p].phase.Visiting? || s.procs[p].phase.Closing? || s.procs[p].phase.Deleting?
    ensures CanStep(s, p)
  {
    hide CanStep, HoldersOk, Exclusive, NoLoss, WaitersOk, Ascending;
    match s.procs[p].phase
    case Visiting =>
      if s.todo == {} {
        Witness(s, EndVisits(p));
      } else {
        var k :| k in s.todo;
        Witness(s, Visit(p, k));
      }
    case Closing =>
      CloseReady(s, p);
      Witness(s, Close(p));
    case Deleting =>
      if s.gone == {} {
        Witness(s, EndClean(p));
      } else {
        var k :| k in s.gone;
        Witness(s, Delete(p, k));
      }
  }

  /** Inside the registry mutex there is always a next step. */
  lemma InsideSteps(s: State, p: Pid)
    requires Inv(s) && s.mutex == Some(p)
    ensures CanStep(s, p)
  {
    hide CanStep, HoldersOk, Exclusive, NoLoss, Ascending;
    match s.procs[p].phase
    case Getting =>
      var c := FreshChan(s.chans.Keys);
      Witness(s, GetChan(p, c));
    case Got(_) =>
      assert WaiterOk(s, s.procs[p]);
      Witness(s, ReturnChan(p));
    case _ =>
      CleanerSteps(s, p);
  }

  lemma FreshChan(used: set<Chan>) returns (c: Chan)
    ensures c !in used
  {
    c := MaxPlus(used);
  }

  /** A number above all members of a finite set. */
  lemma {:induction false} MaxPlus(used: set<Chan>) returns (c: Chan)
    ensures forall x | x in used :: x < c
    decreases used
  {
    if used == {} {
      c := 0;
    } else {
      var y :| y in used;
      var c' := MaxPlus(used - {y});
      c := if y >= c' then y + 1 else c';
      assert forall x | x in used :: x == y || x in used - {y};
    }
  }

  /** With the registry mutex free, only an empty open channel can hold anyone up. */
  lemma OutsideSteps(s: State, p: Pid)
    requires Inv(s) && s.mutex.None? && p in s.procs && !s.procs[p].phase.Free?
    ensures CanStep(s, p) || Stuck(s, p)
  {
    hide CanStep, HoldersOk, Exclusive, NoLoss;
    assert WaiterOk(s, s.procs[p]);
    match s.procs[p].phase
    case Want => Witness(s, AskRegistry(p));
    case Wait(c) => if s.chans[c].token || s.chans[c].closed { Witness(s, Receive(p)); }
    case Held => Witness(s, StartUnlock(p));
    case Releasing(j) =>
      if j < |s.procs[p].chans| {
        SendReady(s, p);
        Witness(s, Send(p));
      } else {
        Witness(s, EndSends(p));
      }
    case WantClean => Witness(s, AskClean(p));
    case Leaving => Witness(s, Leave(p));
    case _ =>
  }

  /** The awaited token is held by someone else, who is past that key in the common order. */
  lemma Blocker(s: State, p: Pid) returns (q: Pid, m: nat)
    requires Inv(s) && s.mutex.None? && Stuck(s, p)
    ensures Holds(s, q, m) && s.procs[q].keys[m] == NextKey(s.procs[p])
    ensures Stuck(s, q) ==> Less(NextKey(s.procs[p]), NextKey(s.procs[q]))
  {
    hide Ascending, Less;
    var k := NextKey(s.procs[p]);
    assert WaiterOk(s, s.procs[p]);
    assert IsOpen(s, k);
    var q', m' :| Holds(s, q', m') && s.procs[q'].keys[m'] == k;
    q, m := q', m';
    if Stuck(s, q) {
      OrderedKeys(s.procs[q].keys, m, |s.procs[q].chans|);
    }
  }

  lemma OrderedKeys(ks: seq<string>, i: nat, j: nat)
    requires Ascending(ks) && i < j < |ks|
    ensures Less(ks[i], ks[j])
  {
  }

  /** Among stuck lock objects, one waits for the greatest key. */
  lemma {:induction false} Greatest(s: State, ps: set<Pid>) returns (p: Pid)
    requires ps != {} && forall q | q in ps :: q in s.procs && |s.procs[q].chans| < |s.procs[q].keys|
    ensures p in ps && forall q | q in ps :: !Less(NextKey(s.procs[p]), NextKey(s.procs[q]))
    decreases ps
  {
    hide Less;
    p :| p in ps;
    LessTotal(NextKey(s.procs[p]), NextKey(s.procs[p]));
    if ps != {p} {
      var r := Greatest(s, ps - {p});
      if Less(NextKey(s.procs[p]), NextKey(s.procs[r])) {
        LessTotal(NextKey(s.procs[p]), NextKey(s.procs[r]));
        p := r;
      } else {
        forall q | q in ps && Less(NextKey(s.procs[p]), NextKey(s.procs[q]))
          ensures false
        {
          LessTotal(NextKey(s.procs[p]), NextKey(s.procs[r]));
          if NextKey(s.procs[p]) != NextKey(s.procs[r]) {
            LessTransitive(NextKey(s.procs[r]), NextKey(s.procs[p]), NextKey(s.procs[q]));
          }
        }
      }
    }
  }

  /** If a lock object is in use, some lock object in use can step. */
  lemma SomeoneSteps(s: State, p: Pid)
    requires Inv(s) && p in s.procs && !s.procs[p].phase.Free?
    ensures exists q :: CanStep(s, q)
  {
    hide CanStep, Less;
    if s.mutex.Some? {
      InsideSteps(s, s.mutex.value);
    } else {
      OutsideSteps(s, p);
      if !CanStep(s, p) {
        var stuck := set q | q in s.procs && Stuck(s, q);
        assert p in stuck;
        var g := Greatest(s, stuck);
        var q, m := Blocker(s, g);
        assert Stuck(s, q) ==> q in stuck;
        OutsideSteps(s, q);
      }
    }
  }

  /** Deadlock freedom: whenever anyone waits inside `Lock`, in any state of any run,
      some lock object that is in use can take a step. */
  lemma DeadlockFree(ss: seq<State>, acts: seq<Action>, p: Pid)
    requires Run(ss, acts) && p in ss[|acts|].procs && InLock(ss[|acts|].procs[p].phase)
    ensures exists q :: CanStep(ss[|acts|], q)
  {
    hide Inv, CanStep;
    RunInv(ss, acts);
    SomeoneSteps(ss[|acts|], p);
  }
}
