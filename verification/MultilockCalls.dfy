/** No run of the multilock goes on for ever without new calls: every step that is not the
    start of a call uses something up.

    What is used up, in this order: visits of `Clean` still to begin, keys it still has to
    visit, waiters on a closed channel, keys it still has to delete, and the steps that
    remain of each call.  A waiter sent back to the registry by a closed channel starts its
    key again, but only `Clean` closes channels, and each close uses up a key to visit.
 */
module MultilockCalls {
  import opened Strings
  import opened Multilock

  /** The start of a call, or of a new lock object. */
  predicate Starts(a: Action) {
    a.Create? || a.Enter? || a.StartUnlock? || a.StartClean?
  }

  // ---------- what is used up ----------

  /** Lock objects whose call will still enter `Clean`. */
  ghost function WillClean(s: State): set<Pid> {
    set p | p in s.procs && (s.procs[p].phase.Releasing? || s.procs[p].phase.WantClean?)
  }

  ghost predicate WaitsOnClosed(s: State, p: Pid) {
    && p in s.procs && s.procs[p].phase.Wait?
    && s.procs[p].phase.ch in s.chans && s.chans[s.procs[p].phase.ch].closed
  }

  ghost function SentBack(s: State): set<Pid> {
    set p | p in s.procs && WaitsOnClosed(s, p)
  }

  /** An upper bound on the steps left in the current call, as long as no channel closes and
      `Clean` has nothing to visit or delete. */
  ghost function StepsLeft(pr: Proc): int {
    match pr.phase
    case Free => 0
    case Want => 4 * (|pr.keys| - |pr.chans|)
    case Getting => 4 * (|pr.keys| - |pr.chans|) - 1
    case Got(_) => 4 * (|pr.keys| - |pr.chans|) - 2
    case Wait(_) => 4 * (|pr.keys| - |pr.chans|) - 3
    case Held => 0
    case Releasing(j) => |pr.chans| - j + 5
    case WantClean => 4
    case Visiting => 3
    case Closing => 3
    case Deleting => 2
    case Leaving => 1
  }

  /** One element for each step left. */
  ghost function Work(s: State): set<(Pid, int)> {
    set p, i | p in s.procs && 0 <= i < StepsLeft(s.procs[p]) :: (p, i)
  }

  /** The order in which the five measures count. */
  ghost predicate UsesUp(s': State, s: State) {
    || WillClean(s') < WillClean(s)
    || (WillClean(s') == WillClean(s) && s'.todo < s.todo)
    || (WillClean(s') == WillClean(s) && s'.todo == s.todo && s'.taken.Some? && s.taken.None?)
    || (WillClean(s') == WillClean(s) && s'.todo == s.todo && s'.taken.None? == s.taken.None? &&
        (|| SentBack(s') < SentBack(s)
         || (SentBack(s') == SentBack(s) && s'.gone < s.gone)
         || (SentBack(s') == SentBack(s) && s'.gone == s.gone && Work(s') < Work(s))))
  }

  // ---------- every other step uses something up ----------

  /** Only `p` moves on, and has less to do. */
  lemma WorkDone(s: State, s': State, p: Pid)
    requires p in s.procs && p in s'.procs && s'.procs == s.procs[p := s'.procs[p]]
    requires 0 <= StepsLeft(s'.procs[p]) < StepsLeft(s.procs[p])
    ensures Work(s') < Work(s)
  {
    hide StepsLeft;
    var n := StepsLeft(s'.procs[p]);
    assert (p, n) in Work(s) && (p, n) !in Work(s');
  }

  lemma SameWillClean(s: State, s': State, p: Pid)
    requires p in s.procs && p in s'.procs && s'.procs == s.procs[p := s'.procs[p]]
    requires p in WillClean(s) <==> p in WillClean(s')
    ensures WillClean(s') == WillClean(s)
  {
  }

  /** No channel closes. */
  lemma SameSentBack(s: State, s': State, p: Pid)
    requires p in s.procs && p in s'.procs && s'.procs == s.procs[p := s'.procs[p]]
    requires forall c | c in s.chans :: c in s'.chans && s'.chans[c].closed == s.chans[c].closed
    requires forall c | c in s'.chans && c !in s.chans :: !s'.chans[c].closed
    requires !WaitsOnClosed(s, p) && !WaitsOnClosed(s', p)
    requires forall q | q in s.procs :: WaiterOk(s, s.procs[q]) && Shaped(s.procs[q])
    ensures SentBack(s') == SentBack(s)
  {
    hide Ascending;
    forall q | q in s.procs && q != p ensures WaitsOnClosed(s', q) <==> WaitsOnClosed(s, q) {
      assert WaiterOk(s, s.procs[q]) && s'.procs[q] == s.procs[q];
    }
  }

  /** A step that only moves `p` on. */
  lemma MovesOn(s: State, s': State, p: Pid)
    requires MutexOk(s) && WaitersOk(s)
    requires p in s.procs && p in s'.procs && s'.procs == s.procs[p := s'.procs[p]]
    requires 0 <= StepsLeft(s'.procs[p]) < StepsLeft(s.procs[p])
    requires p in WillClean(s) <==> p in WillClean(s')
    requires forall c | c in s.chans :: c in s'.chans && s'.chans[c].closed == s.chans[c].closed
    requires forall c | c in s'.chans && c !in s.chans :: !s'.chans[c].closed
    requires !WaitsOnClosed(s, p) && !WaitsOnClosed(s', p)
    requires s'.todo == s.todo && s'.taken == s.taken && s'.gone == s.gone
    ensures UsesUp(s', s)
  {
    hide StepsLeft, WillClean, WaitsOnClosed, Work, SentBack, Shaped, WaiterOk;
    WorkDone(s, s', p);
    SameWillClean(s, s', p);
    SameSentBack(s, s', p);
  }

  lemma RegistryMoves(s: State, a: Action)
    requires Inv(s) && Enabled(s, a) && (a.AskRegistry? || a.GetChan?)
    ensures UsesUp(Apply(s, a), s)
  {
    hide RegistryOk, HoldersOk, Exclusive, NoLoss, Ascending, UsesUp, Work, SentBack;
    MovesOn(s, Apply(s, a), a.p);
  }

  lemma UnlockMoves(s: State, a: Action)
    requires Inv(s) && Enabled(s, a) && (a.Send? || a.EndSends?)
    ensures UsesUp(Apply(s, a), s)
  {
    hide RegistryOk, HoldersOk, Exclusive, NoLoss, Ascending, UsesUp, Work, SentBack;
    MovesOn(s, Apply(s, a), a.p);
  }

  lemma EndMoves(s: State, a: Action)
    requires Inv(s) && Enabled(s, a) && (a.Leave? || a.EndVisits? || a.EndClean?)
    ensures UsesUp(Apply(s, a), s)
  {
    hide RegistryOk, HoldersOk, Exclusive, NoLoss, Ascending, UsesUp, Work, SentBack;
    MovesOn(s, Apply(s, a), a.p);
  }

  /** The channel got from the registry is open. */
  lemma ReturnMoves(s: State, p: Pid)
    requires Inv(s) && Enabled(s, ReturnChan(p))
    ensures UsesUp(Apply(s, ReturnChan(p)), s)
  {
    hide HoldersOk, Exclusive, NoLoss, Ascending, UsesUp, Work, SentBack;
    assert WaiterOk(s, s.procs[p]);
    MovesOn(s, Apply(s, ReturnChan(p)), p);
  }

  lemma ReceiveMoves(s: State, p: Pid)
    requires Inv(s) && Enabled(s, Receive(p))
    ensures UsesUp(Apply(s, Receive(p)), s)
  {
    hide HoldersOk, Exclusive, NoLoss, Ascending, Work;
    var s' := Apply(s, Receive(p));
    if s.chans[s.procs[p].phase.ch].token {
      hide UsesUp;
      MovesOn(s, s', p);
    } else {
      SameWillClean(s, s', p);
      assert p in SentBack(s) && SentBack(s') == SentBack(s) - {p};
    }
  }

  lemma CleanMoves(s: State, a: Action)
    requires Inv(s) && Enabled(s, a) && (a.AskClean? || a.Visit? || a.Close? || a.Delete?)
    ensures UsesUp(Apply(s, a), s)
  {
    hide HoldersOk, Exclusive, NoLoss, Ascending, Work;
    var s' := Apply(s, a);
    if a.AskClean? {
      assert WillClean(s') == WillClean(s) - {a.p} && a.p in WillClean(s);
    } else {
      SameWillClean(s, s', a.p);
      if a.Delete? {
        assert SentBack(s') == SentBack(s);
      }
    }
  }

  lemma StepUsesUp(s: State, a: Action)
    requires Inv(s) && Enabled(s, a) && !Starts(a)
    ensures UsesUp(Apply(s, a), s)
  {
    hide Inv, Enabled, Apply, UsesUp;
    match a
    case AskRegistry(_) => RegistryMoves(s, a);
    case GetChan(_, _) => RegistryMoves(s, a);
    case ReturnChan(p) => ReturnMoves(s, p);
    case Receive(p) => ReceiveMoves(s, p);
    case Send(_) => UnlockMoves(s, a);
    case EndSends(_) => UnlockMoves(s, a);
    case AskClean(_) => CleanMoves(s, a);
    case Visit(_, _) => CleanMoves(s, a);
    case Close(_) => CleanMoves(s, a);
    case Delete(_, _) => CleanMoves(s, a);
    case _ => EndMoves(s, a);
  }

  // ---------- endless runs ----------

  ghost predicate Endless(ss: nat -> State, acts: nat -> Action) {
    && Init(ss(0))
    && forall i: nat :: Enabled(ss(i), acts(i)) && ss(i + 1) == Apply(ss(i), acts(i))
  }

  lemma {:induction false} EndlessInv(ss: nat -> State, acts: nat -> Action, n: nat)
    requires Endless(ss, acts)
    ensures Inv(ss(n))
  {
    hide Inv, Enabled, Apply;
    if n == 0 {
      InitInv(ss(0));
    } else {
      EndlessInv(ss, acts, n - 1);
      StepInv(ss(n - 1), acts(n - 1));
      assert ss(n - 1 + 1) == ss(n);
    }
  }

  /** An endless run never stops starting calls: with finitely many calls of `Lock`, `Unlock`
      and `Clean`, by any number of lock objects, every interleaving comes to an end. */
  lemma {:induction false} CallsGoOn(ss: nat -> State, acts: nat -> Action, n: nat)
    requires Endless(ss, acts)
    ensures exists i: nat :: i >= n && Starts(acts(i))
    decreases WillClean(ss(n)), ss(n).todo, ss(n).taken.None?, SentBack(ss(n)), ss(n).gone, Work(ss(n))
  {
    hide Inv, Enabled, Apply, Starts, WillClean, SentBack, Work;
    if !Starts(acts(n)) {
      EndlessInv(ss, acts, n);
      StepUsesUp(ss(n), acts(n));
      CallsGoOn(ss, acts, n + 1);
    }
  }

  /** Nothing is left to do but to start a call. */
  ghost predicate AtRest(s: State) {
    forall a: Action | Enabled(s, a) :: Starts(a)
  }

  /** When a run comes to an end, every call has returned, unless a lock object still holds
      its keys: nobody is left behind in `Lock`, `Unlock` or `Clean`. */
  lemma CallsReturn(ss: seq<State>, acts: seq<Action>, p: Pid)
    requires Run(ss, acts) && AtRest(ss[|acts|]) && p in ss[|acts|].procs
    ensures ss[|acts|].procs[p].phase.Free? || exists q :: q in ss[|acts|].procs && ss[|acts|].procs[q].phase.Held?
  {
    hide Inv;
    var s := ss[|acts|];
    RunInv(ss, acts);
    if !s.procs[p].phase.Free? {
      SomeoneSteps(s, p);
      var q :| CanStep(s, q);
      var a: Action :| !a.Create? && a.p == q && Enabled(s, a);
      assert Starts(a);
    }
  }
}
