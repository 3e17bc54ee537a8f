/** What one `Clean` does to the registry while others go on: a key stays exactly if its token was
    out when `Clean` came to it.
 */
module MultilockClean {
  import opened Common
  import opened Strings
  import opened Multilock

  /** Where in `Clean` the registry mutex is held. */
  predicate Cleaning(ph: Phase) {
    ph.Visiting? || ph.Closing? || ph.Deleting?
  }

  ghost predicate Held(s: State, k: string) {
    k in s.registry && s.registry[k] in s.chans && !s.chans[s.registry[k]].token
  }

  /** Between steps `i` and `n`, `Clean` came to the key while its token was out. */
  ghost predicate SeenHeld(ss: seq<State>, acts: seq<Action>, p: Pid, i: nat, n: nat, k: string) {
    exists m | i < m < n && m < |acts| && m < |ss| :: acts[m] == Visit(p, k) && Held(ss[m], k)
  }

  /** Nobody but the one inside touches the registry or the locals of `Clean`. */
  lemma OthersKeepOut(s: State, a: Action, p: Pid)
    requires Inv(s) && Enabled(s, a) && s.mutex == Some(p) && a.p != p
    ensures var s' := Apply(s, a);
      && s'.registry == s.registry && s'.todo == s.todo && s'.gone == s.gone && s'.taken == s.taken && s'.mutex == s.mutex
      && p in s.procs && p in s'.procs && s'.procs[p] == s.procs[p]
  {
    hide Inv, Shaped;
    OneInside(s, p);
  }

  lemma OneInside(s: State, p: Pid)
    requires Inv(s) && s.mutex == Some(p)
    ensures p in s.procs && forall q | q in s.procs && q != p :: !InRegistry(s.procs[q].phase)
  {
    hide RegistryOk, CleanerOk, HoldersOk, Exclusive, WaitersOk, NoLoss, Ascending;
  }

  /** What `Clean` has left of the keys `keys` that were registered when it began. */
  ghost predicate Progress(ss: seq<State>, acts: seq<Action>, p: Pid, i: nat, n: nat, keys: set<string>)
    requires n < |ss|
  {
    var s := ss[n];
    && s.mutex == Some(p) && p in s.procs && Cleaning(s.procs[p].phase) && s.registry.Keys <= keys
    && forall k | k in keys :: KeyProgress(ss, acts, p, i, n, k)
  }

  ghost predicate KeyProgress(ss: seq<State>, acts: seq<Action>, p: Pid, i: nat, n: nat, k: string)
    requires n < |ss|
  {
    var s := ss[n];
    if SeenHeld(ss, acts, p, i, n, k) then k in s.registry && k !in s.todo && k !in s.gone
    else k in s.todo || k in s.gone || k !in s.registry
  }

  lemma SeenLater(ss: seq<State>, acts: seq<Action>, p: Pid, i: nat, n: nat, k: string)
    requires |ss| == |acts| + 1 && i < n < |acts|
    ensures SeenHeld(ss, acts, p, i, n + 1, k) <==>
      SeenHeld(ss, acts, p, i, n, k) || (acts[n] == Visit(p, k) && Held(ss[n], k))
  {
    if SeenHeld(ss, acts, p, i, n, k) {
      var m :| i < m < n && acts[m] == Visit(p, k) && Held(ss[m], k);
      assert acts[m] == Visit(p, k) && Held(ss[m], k);
    }
    if acts[n] == Visit(p, k) && Held(ss[n], k) {
      assert acts[n] == Visit(p, k);
    }
  }

  /** What a step of the one inside keeps, unless it leaves. */
  ghost predicate StaysInside(s: State, a: Action, p: Pid)
    requires Enabled(s, a)
  {
    var s' := Apply(s, a);
    && s'.mutex == Some(p) && p in s'.procs && Cleaning(s'.procs[p].phase) && s'.registry.Keys <= s.registry.Keys
    && forall k :: KeyStep(s, a, s', p, k)
  }

  lemma VisitStep(s: State, p: Pid, key: string)
    requires Inv(s) && Enabled(s, Visit(p, key)) && s.mutex == Some(p)
    ensures StaysInside(s, Visit(p, key), p)
  {
    hide HoldersOk, Exclusive, WaitersOk, NoLoss, Ascending;
  }

  lemma CloseStep(s: State, p: Pid)
    requires Inv(s) && Enabled(s, Close(p)) && s.mutex == Some(p)
    ensures StaysInside(s, Close(p), p)
  {
    hide HoldersOk, Exclusive, WaitersOk, NoLoss, Ascending;
  }

  lemma DeleteStep(s: State, p: Pid, key: string)
    requires Inv(s) && Enabled(s, Delete(p, key)) && s.mutex == Some(p)
    ensures StaysInside(s, Delete(p, key), p)
  {
    hide HoldersOk, Exclusive, WaitersOk, NoLoss, Ascending;
  }

  lemma InsideStep(s: State, a: Action, p: Pid)
    requires Inv(s) && Enabled(s, a) && s.mutex == Some(p) && p in s.procs && Cleaning(s.procs[p].phase) && a.p == p
    requires a != EndClean(p)
    ensures StaysInside(s, a, p)
  {
    hide Inv, Apply, KeyStep, Ascending;
    match a
    case Visit(_, key) => VisitStep(s, p, key);
    case Close(_) => CloseStep(s, p);
    case Delete(_, key) => DeleteStep(s, p, key);
    case EndVisits(_) => EndStep(s, p);
    case _ =>
  }

  lemma EndStep(s: State, p: Pid)
    requires Inv(s) && Enabled(s, EndVisits(p)) && s.mutex == Some(p)
    ensures StaysInside(s, EndVisits(p), p)
  {
    hide HoldersOk, Exclusive, WaitersOk, NoLoss, Ascending, RegistryOk;
  }

  /** What such a step does to one key. */
  ghost predicate KeyStep(s: State, a: Action, s': State, p: Pid, k: string) {
    && (k !in s.registry ==> k !in s'.registry)
    && if a == Visit(p, k) && Held(s, k) then k in s'.registry && k !in s'.todo && k !in s'.gone
       else
         && (k in s.todo || k in s.gone ==> k in s'.todo || k in s'.gone || k !in s'.registry)
         && (k in s.registry && k !in s.todo && k !in s.gone ==> k in s'.registry && k !in s'.todo && k !in s'.gone)
  }

  lemma ProgressStep(ss: seq<State>, acts: seq<Action>, p: Pid, i: nat, n: nat, keys: set<string>)
    requires Run(ss, acts) && i < n < |acts| && Inv(ss[n]) && Progress(ss, acts, p, i, n, keys) && acts[n] != EndClean(p)
    ensures Progress(ss, acts, p, i, n + 1, keys)
  {
    hide Inv, Enabled, Apply, SeenHeld, Held;
    var s, a, s' := ss[n], acts[n], ss[n + 1];
    assert Enabled(s, a) && s' == Apply(s, a);
    if a.p != p {
      OthersKeepOut(s, a, p);
    } else {
      InsideStep(s, a, p);
    }
    forall k | k in keys ensures KeyProgress(ss, acts, p, i, n + 1, k) {
      SeenLater(ss, acts, p, i, n, k);
      assert KeyProgress(ss, acts, p, i, n, k);
      assert a.p == p ==> KeyStep(s, a, s', p, k);
      assert a == Visit(p, k) ==> a.p == p;
    }
  }

  lemma ProgressStart(ss: seq<State>, acts: seq<Action>, p: Pid, i: nat)
    requires Run(ss, acts) && i < |acts| && acts[i] == AskClean(p)
    ensures Progress(ss, acts, p, i, i + 1, ss[i].registry.Keys)
  {
    assert Enabled(ss[i], acts[i]) && ss[i + 1] == Apply(ss[i], acts[i]);
  }

  lemma PrefixRun(ss: seq<State>, acts: seq<Action>, n: nat)
    requires Run(ss, acts) && n <= |acts|
    ensures Run(ss[..n + 1], acts[..n]) && ss[..n + 1][n] == ss[n]
  {
    hide Enabled, Apply;
  }

  lemma {:induction false} ProgressUntil(ss: seq<State>, acts: seq<Action>, p: Pid, i: nat, n: nat)
    requires Run(ss, acts) && i < n <= |acts| && acts[i] == AskClean(p) && forall m | i < m < n :: acts[m] != EndClean(p)
    ensures Progress(ss, acts, p, i, n, ss[i].registry.Keys)
    decreases n
  {
    hide Run, Progress, Inv;
    assert |ss| == |acts| + 1 by { Lengths(ss, acts); }
    if n == i + 1 {
      ProgressStart(ss, acts, p, i);
    } else {
      ProgressUntil(ss, acts, p, i, n - 1);
      PrefixRun(ss, acts, n - 1);
      RunInv(ss[..n], acts[..n - 1]);
      ProgressStep(ss, acts, p, i, n - 1, ss[i].registry.Keys);
    }
  }

  lemma Lengths(ss: seq<State>, acts: seq<Action>)
    requires Run(ss, acts)
    ensures |ss| == |acts| + 1
  {
  }

  /** In every run, and whatever the others do meanwhile: of the keys registered when `Clean` began,
      those stay whose token was out when it came to them, and no other key is there at its end. */
  lemma CleanRemovesIdle(ss: seq<State>, acts: seq<Action>, p: Pid, i: nat, j: nat)
    requires Run(ss, acts) && i < j < |acts| && acts[i] == AskClean(p) && acts[j] == EndClean(p)
    requires forall m | i < m < j :: acts[m] != EndClean(p)
    ensures |ss| == |acts| + 1
    ensures forall k :: k in ss[j + 1].registry <==> k in ss[i].registry && SeenHeld(ss, acts, p, i, j, k)
  {
    ProgressUntil(ss, acts, p, i, j);
    PrefixRun(ss, acts, j);
    RunInv(ss[..j + 1], acts[..j]);
    hide SeenHeld, HoldersOk, Exclusive, WaitersOk, NoLoss, RegistryOk, Ascending;
    assert Enabled(ss[j], acts[j]) && ss[j + 1] == Apply(ss[j], acts[j]);
    forall k ensures k in ss[j + 1].registry <==> k in ss[i].registry && SeenHeld(ss, acts, p, i, j, k) {
      if k in ss[i].registry { assert KeyProgress(ss, acts, p, i, j, k); }
    }
  }
}
