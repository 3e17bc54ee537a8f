/** Changing the fork schedule of a chain that already has blocks: which conflict is found,
    and how far the chain has to be rewound.
 */
module ForkCompat {
  import opened Common

  /** The blocks at which forks are scheduled; absent means never. */
  datatype ChainConfig = ChainConfig(
    chainId: Option<nat>, homestead: Option<nat>, daoFork: Option<nat>, daoForkSupport: bool,
    tangerineWhistle: Option<nat>, spuriousDragon: Option<nat>, byzantium: Option<nat>, constantinople: Option<nat>,
    petersburg: Option<nat>, istanbul: Option<nat>, muirGlacier: Option<nat>, berlin: Option<nat>, london: Option<nat>,
    arrowGlacier: Option<nat>, grayGlacier: Option<nat>, mergeNetsplit: Option<nat>, shanghai: Option<nat>,
    cancun: Option<nat>)

  datatype CompatError = CompatError(what: string, stored: Option<nat>, new_: Option<nat>, rewindTo: nat)

  predicate IsForked(s: Option<nat>, head: nat) {
    s.Some? && s.value <= head
  }

  predicate IsForkIncompatible(s1: Option<nat>, s2: Option<nat>, head: nat) {
    (IsForked(s1, head) || IsForked(s2, head)) && s1 != s2
  }

  function NewCompatError(what: string, stored: Option<nat>, new_: Option<nat>): CompatError {
    var rew := if stored.None? then new_
               else if new_.None? || stored.value < new_.value then stored
               else new_;
    CompatError(what, stored, new_, if rew.Some? && rew.value > 0 then rew.value - 1 else 0)
  }

  // ---------- the checks ----------

  /** A fork that moved, a setting that matters from a fork on, or Petersburg, which may be set
      in the past when it is set to Constantinople. */
  datatype Check =
    | Fork(what: string, stored: Option<nat>, new_: Option<nat>)
    | Setting(what: string, stored: Option<nat>, new_: Option<nat>, differs: bool)
    | Petersburg(what: string, stored: Option<nat>, new_: Option<nat>, constantinople: Option<nat>)

  predicate Fails(k: Check, head: nat) {
    match k
    case Fork(_, s, n) => IsForkIncompatible(s, n, head)
    case Setting(_, s, n, differs) => IsForked(s, head) && differs
    case Petersburg(_, s, n, c) => IsForkIncompatible(s, n, head) && IsForkIncompatible(c, n, head)
  }

  function EarlyChecks(c: ChainConfig, n: ChainConfig): seq<Check> {
    [ Fork("Homestead fork block", c.homestead, n.homestead),
      Fork("DAO fork block", c.daoFork, n.daoFork),
      Setting("DAO fork support flag", c.daoFork, n.daoFork, c.daoForkSupport != n.daoForkSupport),
      Fork("Tangerine Whistle fork block", c.tangerineWhistle, n.tangerineWhistle),
      Fork("Spurious Dragon fork block", c.spuriousDragon, n.spuriousDragon),
      Setting("EIP155 chain ID", c.spuriousDragon, n.spuriousDragon, c.chainId != n.chainId),
      Fork("Byzantium fork block", c.byzantium, n.byzantium),
      Fork("Constantinople fork block", c.constantinople, n.constantinople) ]
  }

  function PetersburgCheck(c: ChainConfig, n: ChainConfig): Check {
    Petersburg("Petersburg fork block", c.petersburg, n.petersburg, c.constantinople)
  }

  function LateChecks(c: ChainConfig, n: ChainConfig): seq<Check> {
    [ Fork("Istanbul fork block", c.istanbul, n.istanbul),
      Fork("Muir Glacier fork block", c.muirGlacier, n.muirGlacier),
      Fork("Berlin fork block", c.berlin, n.berlin),
      Fork("London fork block", c.london, n.london),
      Fork("Arrow Glacier fork block", c.arrowGlacier, n.arrowGlacier),
      Fork("Gray Glacier fork block", c.grayGlacier, n.grayGlacier),
      Fork("Merge netsplit block", c.mergeNetsplit, n.mergeNetsplit),
      Fork("Shanghai fork block", c.shanghai, n.shanghai),
      Fork("Cancun fork block", c.cancun, n.cancun) ]
  }

  /** The first check that fails. */
  function Scan(checks: seq<Check>, head: nat): Option<CompatError> {
    if checks == [] then None
    else if Fails(checks[0], head) then Some(NewCompatError(checks[0].what, checks[0].stored, checks[0].new_))
    else Scan(checks[1..], head)
  }

  /** `checkCompatible`. */
  function CheckAt(c: ChainConfig, n: ChainConfig, head: nat): Option<CompatError> {
    Or(Or(Scan(EarlyChecks(c, n), head), Scan([PetersburgCheck(c, n)], head)), Scan(LateChecks(c, n), head))
  }

  // ---------- conflicts ----------

  ghost predicate Conflicts(checks: seq<Check>, head: nat) {
    exists i | 0 <= i < |checks| :: Fails(checks[i], head)
  }

  ghost predicate Conflict(c: ChainConfig, n: ChainConfig, head: nat) {
    CheckAt(c, n, head).Some?
  }

  /** `g` is the greatest height up to `head` without conflict, or 0 when there is none. */
  ghost predicate IsGreatestFree(c: ChainConfig, n: ChainConfig, head: nat, g: nat) {
    && g <= head && (g > 0 ==> !Conflict(c, n, g))
    && forall h | g < h <= head :: Conflict(c, n, h)
  }

  lemma {:induction false} ScanSome(checks: seq<Check>, head: nat)
    ensures Scan(checks, head).Some? <==> Conflicts(checks, head)
  {
    if checks != [] {
      ScanSome(checks[1..], head);
      assert forall i | 1 <= i < |checks| :: checks[i] == checks[1..][i - 1];
      if Conflicts(checks[1..], head) {
        var i :| 0 <= i < |checks[1..]| && Fails(checks[1..][i], head);
        assert Fails(checks[i + 1], head);
      }
    }
  }

  lemma FailsMonotone(k: Check, h: nat, h': nat)
    requires h <= h' && Fails(k, h)
    ensures Fails(k, h')
  {
  }

  lemma ConflictsMonotone(checks: seq<Check>, h: nat, h': nat)
    requires h <= h' && Conflicts(checks, h)
    ensures Conflicts(checks, h')
  {
    var i :| 0 <= i < |checks| && Fails(checks[i], h);
    FailsMonotone(checks[i], h, h');
  }

  lemma ConflictParts(c: ChainConfig, n: ChainConfig, h: nat)
    ensures Conflict(c, n, h) <==>
      Conflicts(EarlyChecks(c, n), h) || Fails(PetersburgCheck(c, n), h) || Conflicts(LateChecks(c, n), h)
  {
    hide EarlyChecks, LateChecks, PetersburgCheck, Scan, Conflicts;
    ScanSome(EarlyChecks(c, n), h);
    ScanOne(PetersburgCheck(c, n), h);
    ScanSome(LateChecks(c, n), h);
  }

  lemma ScanOne(k: Check, h: nat)
    ensures Scan([k], h) == if Fails(k, h) then Some(NewCompatError(k.what, k.stored, k.new_)) else None
  {
    assert [k][1..] == [];
  }

  /** A setting is checked right after the fork it belongs to. */
  ghost predicate SettingsFollow(checks: seq<Check>) {
    forall i | 0 <= i < |checks| :: InPlace(checks, i)
  }

  ghost predicate InPlace(checks: seq<Check>, i: nat)
    requires i < |checks|
  {
    && !checks[i].Petersburg?
    && (checks[i].Setting? ==>
        i > 0 && checks[i - 1].Fork? && checks[i - 1].stored == checks[i].stored && checks[i - 1].new_ == checks[i].new_)
  }

  /** Rewinding stops just below the conflict: all heights above are in conflict. */
  lemma {:induction false} ScanRewinds(checks: seq<Check>, from: nat, head: nat, h: nat)
    requires SettingsFollow(checks) && from <= |checks| && (forall i | 0 <= i < from :: !Fails(checks[i], head))
    requires Scan(checks[from..], head).Some? && Scan(checks[from..], head).value.rewindTo < h <= head
    ensures Conflicts(checks, h)
    decreases |checks| - from
  {
    var rest := checks[from..];
    assert rest[0] == checks[from] && rest[1..] == checks[from + 1..];
    if Fails(rest[0], head) {
      assert InPlace(checks, from);
      if checks[from].Setting? { assert !Fails(checks[from - 1], head); }
      assert Fails(checks[from], h);
    } else {
      ScanRewinds(checks, from + 1, head, h);
    }
  }

  lemma {:induction false} ScanBelow(checks: seq<Check>, head: nat)
    requires Scan(checks, head).Some?
    ensures var r := Scan(checks, head).value.rewindTo; r < head || r == 0
  {
    if !Fails(checks[0], head) { ScanBelow(checks[1..], head); }
  }

  lemma ListsInPlace(c: ChainConfig, n: ChainConfig)
    ensures SettingsFollow(EarlyChecks(c, n)) && SettingsFollow(LateChecks(c, n))
  {
    var e, l := EarlyChecks(c, n), LateChecks(c, n);
    forall i | 0 <= i < |e| ensures InPlace(e, i) {
      assert i == 0 || i == 1 || i == 2 || i == 3 || i == 4 || i == 5 || i == 6 || i == 7;
    }
    forall i | 0 <= i < |l| ensures InPlace(l, i) {
      assert l[i].Fork?;
    }
  }

  // ---------- the search ----------

  lemma CheckRewinds(c: ChainConfig, n: ChainConfig, head: nat)
    requires Conflict(c, n, head)
    ensures var r := CheckAt(c, n, head).value.rewindTo; r < head || r == 0
  {
    hide EarlyChecks, LateChecks;
    if Scan(EarlyChecks(c, n), head).Some? {
      ScanBelow(EarlyChecks(c, n), head);
    } else if Scan([PetersburgCheck(c, n)], head).Some? {
      ScanBelow([PetersburgCheck(c, n)], head);
    } else {
      ScanBelow(LateChecks(c, n), head);
    }
  }

  /** Where the search ends: rewind until there is no conflict, or to 0. */
  ghost function Settle(c: ChainConfig, n: ChainConfig, head: nat): nat {
    if !Conflict(c, n, head) then head
    else
      CheckRewinds(c, n, head);
      var r := CheckAt(c, n, head).value.rewindTo;
      if r < head then Settle(c, n, r) else 0
  }

  /** `CheckCompatible`: nothing exactly when there is no conflict at the height; otherwise the
      error says where the search ends. */
  method CheckCompatible(c: ChainConfig, n: ChainConfig, height: nat) returns (lasterr: Option<CompatError>)
    ensures lasterr.None? <==> !Conflict(c, n, height)
    ensures lasterr.Some? ==> lasterr.value.rewindTo == Settle(c, n, height)
    ensures lasterr.Some? && lasterr.value.rewindTo > 0 ==> !Conflict(c, n, lasterr.value.rewindTo)
    ensures lasterr.Some? ==> exists h: nat | h <= height :: CheckAt(c, n, h) == lasterr
  {
    hide CheckAt;
    var bhead := height;
    lasterr := None;
    while true
      invariant lasterr.None? ==> bhead == height
      invariant lasterr.Some? ==> Conflict(c, n, height) && bhead == lasterr.value.rewindTo <= height
      invariant lasterr.Some? ==> exists h: nat | h <= height :: CheckAt(c, n, h) == lasterr
      invariant Settle(c, n, bhead) == Settle(c, n, height)
      decreases bhead, lasterr.None?
    {
      var err := CheckAt(c, n, bhead);
      if err.None? || (lasterr.Some? && err.value.rewindTo == lasterr.value.rewindTo) {
        if err.Some? { CheckRewinds(c, n, bhead); }
        break;
      }
      CheckRewinds(c, n, bhead);
      lasterr := err;
      bhead := err.value.rewindTo;
    }
  }

  // ---------- when the search finds the greatest conflict-free height ----------

  function Lower(a: nat, b: Option<nat>): nat {
    if b.Some? && b.value < a then b.value else a
  }

  /** From where on a pair of blocks is in conflict, given that it ever is. */
  function Meeting(s: Option<nat>, n: Option<nat>): nat
    requires s != n
  {
    if s.Some? then Lower(s.value, n) else n.value
  }

  /** Petersburg is the first check to fail at some height, but the height it rewinds to is below
      one without conflict: it rewinds to where Petersburg moved, although it only counts from
      where Constantinople and the new Petersburg part. */
  ghost predicate Overshoots(c: ChainConfig, n: ChainConfig, height: nat) {
    && c.petersburg != n.petersburg && c.constantinople != n.petersburg
    && var m1 := Meeting(c.petersburg, n.petersburg);
       var m2 := Meeting(c.constantinople, n.petersburg);
       var m := if m1 == 0 then 1 else m1;
       m < m2 <= height && !Conflicts(EarlyChecks(c, n), m2) && !Conflicts(LateChecks(c, n), m)
  }

  lemma PetersburgFails(c: ChainConfig, n: ChainConfig, h: nat)
    ensures Fails(PetersburgCheck(c, n), h) <==>
      && c.petersburg != n.petersburg && c.constantinople != n.petersburg
      && Meeting(c.petersburg, n.petersburg) <= h && Meeting(c.constantinople, n.petersburg) <= h
    ensures c.petersburg != n.petersburg ==>
      var m1 := Meeting(c.petersburg, n.petersburg);
      NewCompatError("Petersburg fork block", c.petersburg, n.petersburg).rewindTo == if m1 == 0 then 0 else m1 - 1
  {
  }

  /** Which of the three groups fails first, and where it rewinds to. */
  lemma CheckCases(c: ChainConfig, n: ChainConfig, b: nat)
    requires Conflict(c, n, b)
    ensures var r := CheckAt(c, n, b).value.rewindTo;
      if Conflicts(EarlyChecks(c, n), b) then forall h | r < h <= b :: Conflicts(EarlyChecks(c, n), h)
      else if Fails(PetersburgCheck(c, n), b)
      then r == NewCompatError("Petersburg fork block", c.petersburg, n.petersburg).rewindTo
      else forall h | r < h <= b :: Conflicts(LateChecks(c, n), h)
  {
    hide EarlyChecks, LateChecks, Conflicts, Scan;
    var e, l := EarlyChecks(c, n), LateChecks(c, n);
    var r := CheckAt(c, n, b).value.rewindTo;
    ListsInPlace(c, n);
    ScanSome(e, b);
    ScanOne(PetersburgCheck(c, n), b);
    assert e[0..] == e && l[0..] == l;
    if Conflicts(e, b) {
      forall h | r < h <= b ensures Conflicts(e, h) { ScanRewinds(e, 0, b, h); }
    } else if !Fails(PetersburgCheck(c, n), b) {
      forall h | r < h <= b ensures Conflicts(l, h) { ScanRewinds(l, 0, b, h); }
    }
  }

  lemma OvershootBelow(c: ChainConfig, n: ChainConfig, b: nat, b': nat)
    requires b' <= b && Overshoots(c, n, b')
    ensures Overshoots(c, n, b)
  {
  }

  /** All heights that a rewind skips are in conflict, unless it overshoots. */
  lemma SkippedConflict(c: ChainConfig, n: ChainConfig, b: nat, h: nat)
    requires Conflict(c, n, b) && !Overshoots(c, n, b) && CheckAt(c, n, b).value.rewindTo < h <= b
    ensures Conflict(c, n, h)
  {
    hide EarlyChecks, LateChecks, Conflicts, CheckAt, Fails;
    var e, l := EarlyChecks(c, n), LateChecks(c, n);
    CheckCases(c, n, b);
    ConflictParts(c, n, b);
    ConflictParts(c, n, h);
    if !Conflicts(e, b) && Fails(PetersburgCheck(c, n), b) {
      PetersburgFails(c, n, b);
      PetersburgFails(c, n, h);
      var m1, m2 := Meeting(c.petersburg, n.petersburg), Meeting(c.constantinople, n.petersburg);
      var m := if m1 == 0 then 1 else m1;
      if h < m2 {
        if Conflicts(e, m2) { ConflictsMonotone(e, m2, b); }
        assert Conflicts(l, m);
        ConflictsMonotone(l, m, h);
      }
    }
  }

  lemma {:induction false} SettleGreatest(c: ChainConfig, n: ChainConfig, b: nat)
    requires !Overshoots(c, n, b)
    ensures IsGreatestFree(c, n, b, Settle(c, n, b))
  {
    hide Overshoots, Conflict;
    if Conflict(c, n, b) {
      var g := Settle(c, n, b);
      var r := RewindOf(c, n, b);
      SettleStep(c, n, b);
      if r < b {
        if Overshoots(c, n, r) { OvershootBelow(c, n, b, r); }
        SettleGreatest(c, n, r);
      }
      forall h | g < h <= b ensures Conflict(c, n, h) {
        if h > r { SkippedConflict(c, n, b, h); }
      }
    } else {
      SettleHere(c, n, b);
    }
  }

  ghost function RewindOf(c: ChainConfig, n: ChainConfig, b: nat): nat
    requires Conflict(c, n, b)
  {
    CheckAt(c, n, b).value.rewindTo
  }

  lemma SettleHere(c: ChainConfig, n: ChainConfig, b: nat)
    requires !Conflict(c, n, b)
    ensures Settle(c, n, b) == b
  {
  }

  lemma SettleStep(c: ChainConfig, n: ChainConfig, b: nat)
    requires Conflict(c, n, b)
    ensures var r := RewindOf(c, n, b);
      (r < b || r == 0) && Settle(c, n, b) == if r < b then Settle(c, n, r) else 0
  {
    hide CheckAt;
    CheckRewinds(c, n, b);
  }

  lemma {:induction false} SettleBelow(c: ChainConfig, n: ChainConfig, b: nat)
    ensures Settle(c, n, b) <= b
  {
    hide Conflict;
    if Conflict(c, n, b) {
      SettleStep(c, n, b);
      if RewindOf(c, n, b) < b { SettleBelow(c, n, RewindOf(c, n, b)); }
    } else {
      SettleHere(c, n, b);
    }
  }

  /** When it overshoots, the search ends below a height without conflict. */
  lemma {:induction false} SettleOvershoots(c: ChainConfig, n: ChainConfig, b: nat)
    requires Overshoots(c, n, b)
    ensures exists m :: Settle(c, n, b) < m <= b && !Conflict(c, n, m)
  {
    hide EarlyChecks, LateChecks, Conflicts, CheckAt, Fails, Scan;
    var e := EarlyChecks(c, n);
    var m1, m2 := Meeting(c.petersburg, n.petersburg), Meeting(c.constantinople, n.petersburg);
    var m := if m1 == 0 then 1 else m1;
    PetersburgFails(c, n, m);
    PetersburgFails(c, n, b);
    ConflictParts(c, n, m);
    ConflictParts(c, n, b);
    if Conflicts(e, m) { ConflictsMonotone(e, m, m2); }
    assert !Conflict(c, n, m);
    CheckCases(c, n, b);
    SettleStep(c, n, b);
    var r := RewindOf(c, n, b);
    if Conflicts(e, b) {
      assert r >= m2;
      assert r < b;
      SettleOvershoots(c, n, r);
    } else if r < b {
      SettleBelow(c, n, r);
    }
  }

  /** The search finds the greatest conflict-free height exactly when it does not overshoot. */
  lemma SearchExact(c: ChainConfig, n: ChainConfig, height: nat)
    ensures IsGreatestFree(c, n, height, Settle(c, n, height)) <==> !Overshoots(c, n, height)
  {
    hide Overshoots, Conflict, Settle;
    if Overshoots(c, n, height) {
      SettleOvershoots(c, n, height);
    } else {
      SettleGreatest(c, n, height);
    }
  }

  // ---------- the order of forks ----------

  datatype Scheduled = Scheduled(name: string, block: Option<nat>, optional: bool)

  function Forks(c: ChainConfig): seq<Scheduled> {
    [ Scheduled("homesteadBlock", c.homestead, false),
      Scheduled("daoForkBlock", c.daoFork, true),
      Scheduled("eip150Block", c.tangerineWhistle, false),
      Scheduled("eip155Block", c.spuriousDragon, false),
      Scheduled("byzantiumBlock", c.byzantium, false),
      Scheduled("constantinopleBlock", c.constantinople, false),
      Scheduled("petersburgBlock", c.petersburg, false),
      Scheduled("istanbulBlock", c.istanbul, false),
      Scheduled("muirGlacierBlock", c.muirGlacier, true),
      Scheduled("berlinBlock", c.berlin, false),
      Scheduled("londonBlock", c.london, false),
      Scheduled("arrowGlacierBlock", c.arrowGlacier, true),
      Scheduled("grayGlacierBlock", c.grayGlacier, true),
      Scheduled("mergeNetsplitBlock", c.mergeNetsplit, true),
      Scheduled("shanghaiBlock", c.shanghai, false),
      Scheduled("cancunBlock", c.cancun, false) ]
  }

  /** No later fork comes earlier, and nothing follows a required fork that is missing. */
  ghost predicate InOrder(forks: seq<Scheduled>) {
    forall i, j | 0 <= i < j < |forks| :: Follows(forks[i], forks[j])
  }

  ghost predicate Follows(a: Scheduled, b: Scheduled) {
    && (a.block.Some? && b.block.Some? ==> a.block.value <= b.block.value)
    && (a.block.None? && !a.optional ==> b.block.None?)
  }

  /** What the last fork that counts says about all before it. */
  ghost predicate Represents(last: Option<Scheduled>, forks: seq<Scheduled>) {
    && (last.None? ==> forall i | 0 <= i < |forks| :: forks[i].optional && forks[i].block.None?)
    && (last.Some? ==>
        && last.value in forks && (last.value.block.None? ==> !last.value.optional)
        && forall i | 0 <= i < |forks| :: Covered(forks[i], last.value))
  }

  /** Whatever may follow `last` may follow `f`. */
  ghost predicate Covered(f: Scheduled, last: Scheduled) {
    && (f.block.Some? && last.block.Some? ==> f.block.value <= last.block.value)
    && (f.block.None? && !f.optional ==> last.block.None?)
  }

  lemma NextInOrder(last: Option<Scheduled>, forks: seq<Scheduled>, cur: Scheduled)
    requires InOrder(forks) && Represents(last, forks)
    ensures InOrder(forks + [cur]) <==> last.None? || Follows(last.value, cur)
    ensures InOrder(forks + [cur]) ==> Represents(if cur.optional && cur.block.None? then last else Some(cur), forks + [cur])
  {
    var fs := forks + [cur];
    if last.Some? {
      var i :| 0 <= i < |forks| && forks[i] == last.value;
      assert fs[i] == last.value && fs[|forks|] == cur;
      if InOrder(fs) { assert Follows(fs[i], fs[|forks|]); }
      if Follows(last.value, cur) {
        forall a, b | 0 <= a < b < |fs| ensures Follows(fs[a], fs[b]) {
          if b == |forks| { assert Covered(forks[a], last.value); } else { assert Follows(forks[a], forks[b]); }
        }
      }
    } else {
      forall a, b | 0 <= a < b < |fs| ensures Follows(fs[a], fs[b]) {
        if b < |forks| { assert Follows(forks[a], forks[b]); }
      }
    }
    if InOrder(fs) {
      forall a | 0 <= a < |forks| ensures Follows(fs[a], cur) { assert Follows(fs[a], fs[|forks|]); }
    }
  }

  /** `CheckConfigForkOrder`; the chain with ID 77 is exempt. */
  method CheckConfigForkOrder(c: ChainConfig) returns (ok: bool)
    ensures ok <==> c.chainId == Some(77) || InOrder(Forks(c))
  {
    if c.chainId.Some? && c.chainId.value == 77 { return true; }
    ok := OrderOf(Forks(c));
  }

  method OrderOf(forks: seq<Scheduled>) returns (ok: bool)
    ensures ok <==> InOrder(forks)
  {
    var last: Option<Scheduled> := None;
    for i := 0 to |forks|
      invariant InOrder(forks[..i]) && Represents(last, forks[..i])
    {
      hide Represents, Covered, InOrder;
      var cur := forks[i];
      assert forks[..i + 1] == forks[..i] + [cur];
      NextInOrder(last, forks[..i], cur);
      if last.Some? {
        if last.value.block.None? && cur.block.Some? {
          NotInOrder(forks, i + 1);
          return false;
        }
        if last.value.block.Some? && cur.block.Some? && last.value.block.value > cur.block.value {
          NotInOrder(forks, i + 1);
          return false;
        }
      }
      if !cur.optional || cur.block.Some? { last := Some(cur); }
    }
    assert forks[..|forks|] == forks;
    return true;
  }

  lemma NotInOrder(forks: seq<Scheduled>, i: nat)
    requires i <= |forks| && !InOrder(forks[..i])
    ensures !InOrder(forks)
  {
    var a, b :| 0 <= a < b < i && !Follows(forks[..i][a], forks[..i][b]);
    assert !Follows(forks[a], forks[b]);
  }

  /** A stored schedule in order never makes the search overshoot. */
  lemma OrderedNeverOvershoots(c: ChainConfig, n: ChainConfig, height: nat)
    requires InOrder(Forks(c))
    ensures !Overshoots(c, n, height)
  {
    var fs := Forks(c);
    assert Follows(fs[5], fs[6]);
  }

  /** Petersburg at 2, before Constantinople at 5, moved to 9. */
  const MISORDERED := ChainConfig(None, None, None, false, None, None, None, Some(5), Some(2), None, None, None, None,
                                  None, None, None, None, None)
  const MOVED := MISORDERED.(petersburg := Some(9))

  lemma OnlyPetersburgMoved(c: ChainConfig, p: Option<nat>, h: nat)
    ensures var n := c.(petersburg := p); !Conflicts(EarlyChecks(c, n), h) && !Conflicts(LateChecks(c, n), h)
  {
    var n := c.(petersburg := p);
    forall i | 0 <= i < |EarlyChecks(c, n)| ensures !Fails(EarlyChecks(c, n)[i], h) {}
    forall i | 0 <= i < |LateChecks(c, n)| ensures !Fails(LateChecks(c, n)[i], h) {}
  }

  /** Out of order it can: a chain of height 5 is rewound to 1, although height 4 has no conflict. */
  lemma OvershootExample()
    ensures Overshoots(MISORDERED, MOVED, 5) && Settle(MISORDERED, MOVED, 5) == 1 && !Conflict(MISORDERED, MOVED, 4)
  {
    hide EarlyChecks, LateChecks, Conflicts, CheckAt;
    forall h: nat ensures Conflict(MISORDERED, MOVED, h) <==> h >= 5 {
      OnlyPetersburgMoved(MISORDERED, Some(9), h);
      ConflictParts(MISORDERED, MOVED, h);
      PetersburgFails(MISORDERED, MOVED, h);
    }
    OnlyPetersburgMoved(MISORDERED, Some(9), 5);
    OnlyPetersburgMoved(MISORDERED, Some(9), 2);
    PetersburgFails(MISORDERED, MOVED, 5);
    CheckCases(MISORDERED, MOVED, 5);
    SettleStep(MISORDERED, MOVED, 5);
    SettleHere(MISORDERED, MOVED, 1);
  }
}
