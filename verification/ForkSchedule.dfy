/** What it means for two fork schedules to agree on the past, and for one to be in order, by the
    fields of the configuration and not by the lists that the code goes through.
 */
module ForkSchedule {
  import opened Common
  import opened ForkCompat

  /** A fork scheduled at `s` is active at height `h`. */
  ghost predicate Active(s: Option<nat>, h: nat) {
    s.Some? && s.value <= h
  }

  /** The fork is active at the same heights up to `head`. */
  ghost predicate SamePast(a: Option<nat>, b: Option<nat>, head: nat) {
    forall h: nat | h <= head :: Active(a, h) <==> Active(b, h)
  }

  lemma SamePastMeans(a: Option<nat>, b: Option<nat>, head: nat)
    ensures SamePast(a, b, head) <==> !IsForkIncompatible(a, b, head)
  {
    if IsForkIncompatible(a, b, head) {
      var h := if a.Some? && (b.None? || a.value < b.value) then a.value else b.value;
      assert Active(a, h) != Active(b, h);
    }
  }

  /** Up to `head` a chain is the same under both configurations: every fork is active at the same
      heights, the DAO flag and the chain ID are the same once their forks are active, and Petersburg
      is, if it moved, where Constantinople was. */
  ghost predicate Agree(c: ChainConfig, n: ChainConfig, head: nat) {
    && SamePast(c.homestead, n.homestead, head)
    && SamePast(c.daoFork, n.daoFork, head)
    && (Active(c.daoFork, head) ==> c.daoForkSupport == n.daoForkSupport)
    && SamePast(c.tangerineWhistle, n.tangerineWhistle, head)
    && SamePast(c.spuriousDragon, n.spuriousDragon, head)
    && (Active(c.spuriousDragon, head) ==> c.chainId == n.chainId)
    && SamePast(c.byzantium, n.byzantium, head)
    && SamePast(c.constantinople, n.constantinople, head)
    && (SamePast(c.petersburg, n.petersburg, head) || SamePast(c.constantinople, n.petersburg, head))
    && SamePast(c.istanbul, n.istanbul, head)
    && SamePast(c.muirGlacier, n.muirGlacier, head)
    && SamePast(c.berlin, n.berlin, head)
    && SamePast(c.london, n.london, head)
    && SamePast(c.arrowGlacier, n.arrowGlacier, head)
    && SamePast(c.grayGlacier, n.grayGlacier, head)
    && SamePast(c.mergeNetsplit, n.mergeNetsplit, head)
    && SamePast(c.shanghai, n.shanghai, head)
    && SamePast(c.cancun, n.cancun, head)
  }

  // ---------- what the code compares ----------

  datatype Cause = Cause(what: string, stored: Option<nat>, new_: Option<nat>, differs: bool)

  ghost function Moved(what: string, stored: Option<nat>, new_: Option<nat>, head: nat): Cause {
    Cause(what, stored, new_, !SamePast(stored, new_, head))
  }

  /** The eighteen things that may differ, in the order of the forks. */
  ghost function CauseAt(c: ChainConfig, n: ChainConfig, head: nat, i: nat): Cause {
    match i
    case 0 => Moved("Homestead fork block", c.homestead, n.homestead, head)
    case 1 => Moved("DAO fork block", c.daoFork, n.daoFork, head)
    case 2 => Cause("DAO fork support flag", c.daoFork, n.daoFork,
                    Active(c.daoFork, head) && c.daoForkSupport != n.daoForkSupport)
    case 3 => Moved("Tangerine Whistle fork block", c.tangerineWhistle, n.tangerineWhistle, head)
    case 4 => Moved("Spurious Dragon fork block", c.spuriousDragon, n.spuriousDragon, head)
    case 5 => Cause("EIP155 chain ID", c.spuriousDragon, n.spuriousDragon,
                    Active(c.spuriousDragon, head) && c.chainId != n.chainId)
    case 6 => Moved("Byzantium fork block", c.byzantium, n.byzantium, head)
    case 7 => Moved("Constantinople fork block", c.constantinople, n.constantinople, head)
    case 8 => Cause("Petersburg fork block", c.petersburg, n.petersburg,
                    !SamePast(c.petersburg, n.petersburg, head) && !SamePast(c.constantinople, n.petersburg, head))
    case 9 => Moved("Istanbul fork block", c.istanbul, n.istanbul, head)
    case 10 => Moved("Muir Glacier fork block", c.muirGlacier, n.muirGlacier, head)
    case 11 => Moved("Berlin fork block", c.berlin, n.berlin, head)
    case 12 => Moved("London fork block", c.london, n.london, head)
    case 13 => Moved("Arrow Glacier fork block", c.arrowGlacier, n.arrowGlacier, head)
    case 14 => Moved("Gray Glacier fork block", c.grayGlacier, n.grayGlacier, head)
    case 15 => Moved("Merge netsplit block", c.mergeNetsplit, n.mergeNetsplit, head)
    case 16 => Moved("Shanghai fork block", c.shanghai, n.shanghai, head)
    case 17 => Moved("Cancun fork block", c.cancun, n.cancun, head)
    case _ => Cause("", None, None, false)
  }

  /** A check of the code fails exactly if what it is about differs. */
  ghost predicate Matches(k: Check, x: Cause, head: nat) {
    k.what == x.what && k.stored == x.stored && k.new_ == x.new_ && (Fails(k, head) <==> x.differs)
  }

  lemma EarlyMatches(c: ChainConfig, n: ChainConfig, head: nat, i: nat)
    requires i < 8
    ensures |EarlyChecks(c, n)| == 8 && Matches(EarlyChecks(c, n)[i], CauseAt(c, n, head, i), head)
  {
    hide SamePast, IsForkIncompatible;
    var k := EarlyChecks(c, n)[i];
    SamePastMeans(k.stored, k.new_, head);
  }

  lemma PetersburgMatches(c: ChainConfig, n: ChainConfig, head: nat)
    ensures Matches(PetersburgCheck(c, n), CauseAt(c, n, head, 8), head)
  {
    hide SamePast, IsForkIncompatible;
    SamePastMeans(c.petersburg, n.petersburg, head);
    SamePastMeans(c.constantinople, n.petersburg, head);
  }

  lemma LateMatches(c: ChainConfig, n: ChainConfig, head: nat, i: nat)
    requires i < 9
    ensures |LateChecks(c, n)| == 9 && Matches(LateChecks(c, n)[i], CauseAt(c, n, head, 9 + i), head)
  {
    hide SamePast, IsForkIncompatible;
    var k := LateChecks(c, n)[i];
    SamePastMeans(k.stored, k.new_, head);
  }

  // ---------- the first one is reported ----------

  /** The first check of a list that fails. */
  ghost predicate FirstOf(checks: seq<Check>, head: nat, i: nat) {
    i < |checks| && Fails(checks[i], head) && forall j | 0 <= j < i :: !Fails(checks[j], head)
  }

  ghost function ErrorOf(k: Check): CompatError {
    NewCompatError(k.what, k.stored, k.new_)
  }

  lemma {:induction false} ScanFirst(checks: seq<Check>, head: nat) returns (i: nat)
    ensures Scan(checks, head).Some? ==> FirstOf(checks, head, i) && Scan(checks, head) == Some(ErrorOf(checks[i]))
    ensures Scan(checks, head).None? ==> forall j | 0 <= j < |checks| :: !Fails(checks[j], head)
  {
    hide Fails;
    i := 0;
    if checks != [] && !Fails(checks[0], head) {
      var k := ScanFirst(checks[1..], head);
      i := k + 1;
      forall j | 0 < j < |checks| ensures checks[j] == checks[1..][j - 1] {}
    }
  }

  ghost predicate FirstCause(c: ChainConfig, n: ChainConfig, head: nat, i: nat) {
    i < 18 && CauseAt(c, n, head, i).differs && forall j: nat | j < i :: !CauseAt(c, n, head, j).differs
  }

  ghost predicate Reports(e: CompatError, x: Cause) {
    e == NewCompatError(x.what, x.stored, x.new_)
  }

  /** No error if nothing differs; otherwise the first thing that does is reported. */
  lemma FirstReported(c: ChainConfig, n: ChainConfig, head: nat) returns (i: nat)
    ensures CheckAt(c, n, head).None? <==> forall j: nat | j < 18 :: !CauseAt(c, n, head, j).differs
    ensures CheckAt(c, n, head).Some? ==> FirstCause(c, n, head, i) && Reports(CheckAt(c, n, head).value, CauseAt(c, n, head, i))
  {
    hide EarlyChecks, LateChecks, PetersburgCheck, CauseAt, Fails, Scan;
    var e, p, l := EarlyChecks(c, n), PetersburgCheck(c, n), LateChecks(c, n);
    EarlyMatches(c, n, head, 0);
    LateMatches(c, n, head, 0);
    forall j: nat | j < 8 ensures Matches(e[j], CauseAt(c, n, head, j), head) { EarlyMatches(c, n, head, j); }
    PetersburgMatches(c, n, head);
    forall j: nat | j < 9 ensures Matches(l[j], CauseAt(c, n, head, 9 + j), head) { LateMatches(c, n, head, j); }
    var a := ScanFirst(e, head);
    ScanOne(p, head);
    var b := ScanFirst(l, head);
    i := if Scan(e, head).Some? then a else if Fails(p, head) then 8 else 9 + b;
    forall j: nat | j < 18 ensures CauseAt(c, n, head, j).differs ==
      if j < 8 then Fails(e[j], head) else if j == 8 then Fails(p, head) else Fails(l[j - 9], head)
    {
      assert j < 8 ==> Matches(e[j], CauseAt(c, n, head, j), head);
      assert j > 8 ==> Matches(l[j - 9], CauseAt(c, n, head, 9 + (j - 9)), head);
    }
  }

  lemma NoCause(c: ChainConfig, n: ChainConfig, head: nat, j: nat)
    requires Agree(c, n, head)
    ensures !CauseAt(c, n, head, j).differs
  {
    hide SamePast, Active;
  }

  ghost predicate Differs(c: ChainConfig, n: ChainConfig, head: nat, j: nat) {
    CauseAt(c, n, head, j).differs
  }

  lemma AllSame(c: ChainConfig, n: ChainConfig, head: nat)
    requires forall j: nat | j < 18 :: !Differs(c, n, head, j)
    ensures Agree(c, n, head)
  {
    hide SamePast, Active;
    assert !Differs(c, n, head, 0) && !Differs(c, n, head, 1) && !Differs(c, n, head, 2) && !Differs(c, n, head, 3);
    assert !Differs(c, n, head, 4) && !Differs(c, n, head, 5) && !Differs(c, n, head, 6) && !Differs(c, n, head, 7);
    assert !Differs(c, n, head, 8) && !Differs(c, n, head, 9) && !Differs(c, n, head, 10) && !Differs(c, n, head, 11);
    assert !Differs(c, n, head, 12) && !Differs(c, n, head, 13) && !Differs(c, n, head, 14) && !Differs(c, n, head, 15);
    assert !Differs(c, n, head, 16) && !Differs(c, n, head, 17);
  }

  lemma AgreeMeans(c: ChainConfig, n: ChainConfig, head: nat)
    ensures Agree(c, n, head) <==> forall j: nat | j < 18 :: !CauseAt(c, n, head, j).differs
  {
    hide Agree, CauseAt;
    if Agree(c, n, head) {
      forall j: nat | j < 18 ensures !CauseAt(c, n, head, j).differs { NoCause(c, n, head, j); }
    } else if forall j: nat | j < 18 :: !CauseAt(c, n, head, j).differs {
      AllSame(c, n, head);
    }
  }

  /** There is no conflict exactly if the two configurations agree on the past. */
  lemma ConflictMeans(c: ChainConfig, n: ChainConfig, head: nat)
    ensures Conflict(c, n, head) <==> !Agree(c, n, head)
  {
    hide Agree, CauseAt, CheckAt;
    var i := FirstReported(c, n, head);
    AgreeMeans(c, n, head);
  }

  /** An error rewinds to the last height before either schedule has the fork, or to genesis. */
  lemma RewindMeans(what: string, stored: Option<nat>, new_: Option<nat>)
    ensures var r := NewCompatError(what, stored, new_).rewindTo;
      && (r > 0 ==> !Active(stored, r) && !Active(new_, r))
      && (stored.Some? || new_.Some? ==> Active(stored, r + 1) || Active(new_, r + 1))
  {
  }

  // ---------- the order of forks ----------

  /** A required fork: whatever comes next needs it, and not earlier. */
  ghost predicate Then(a: Option<nat>, b: Option<nat>) {
    b.Some? ==> a.Some? && a.value <= b.value
  }

  /** An optional fork may be left out. */
  ghost predicate NotAfter(a: Option<nat>, b: Option<nat>) {
    a.Some? && b.Some? ==> a.value <= b.value
  }

  ghost predicate InForkOrder(c: ChainConfig) {
    && Then(c.homestead, c.daoFork) && Then(c.homestead, c.tangerineWhistle) && NotAfter(c.daoFork, c.tangerineWhistle)
    && Then(c.tangerineWhistle, c.spuriousDragon) && Then(c.spuriousDragon, c.byzantium)
    && Then(c.byzantium, c.constantinople) && Then(c.constantinople, c.petersburg) && Then(c.petersburg, c.istanbul)
    && Then(c.istanbul, c.muirGlacier) && Then(c.istanbul, c.berlin) && NotAfter(c.muirGlacier, c.berlin)
    && Then(c.berlin, c.london)
    && Then(c.london, c.arrowGlacier) && Then(c.london, c.grayGlacier) && Then(c.london, c.mergeNetsplit)
    && NotAfter(c.arrowGlacier, c.grayGlacier) && NotAfter(c.arrowGlacier, c.mergeNetsplit)
    && NotAfter(c.grayGlacier, c.mergeNetsplit)
    && Then(c.london, c.shanghai) && NotAfter(c.arrowGlacier, c.shanghai) && NotAfter(c.grayGlacier, c.shanghai)
    && NotAfter(c.mergeNetsplit, c.shanghai) && Then(c.shanghai, c.cancun)
  }

  lemma OrderGiven(c: ChainConfig)
    requires InForkOrder(c)
    ensures InOrder(Forks(c))
  {
    var fs := Forks(c);
    forall i, j | 0 <= i < j < |fs| ensures Follows(fs[i], fs[j]) {
    }
  }

  lemma OrderNeeded(c: ChainConfig)
    requires InOrder(Forks(c))
    ensures InForkOrder(c)
  {
    var fs := Forks(c);
    assert Follows(fs[0], fs[1]) && Follows(fs[0], fs[2]) && Follows(fs[1], fs[2]) && Follows(fs[2], fs[3]);
    assert Follows(fs[3], fs[4]) && Follows(fs[4], fs[5]) && Follows(fs[5], fs[6]) && Follows(fs[6], fs[7]);
    assert Follows(fs[7], fs[8]) && Follows(fs[7], fs[9]) && Follows(fs[8], fs[9]) && Follows(fs[9], fs[10]);
    assert Follows(fs[10], fs[11]) && Follows(fs[10], fs[12]) && Follows(fs[10], fs[13]) && Follows(fs[10], fs[14]);
    assert Follows(fs[11], fs[12]) && Follows(fs[11], fs[13]) && Follows(fs[11], fs[14]) && Follows(fs[12], fs[13]);
    assert Follows(fs[12], fs[14]) && Follows(fs[13], fs[14]) && Follows(fs[14], fs[15]);
  }

  /** The check of the order accepts exactly the schedules in which every fork comes after those before
      it, and every required one before anything that follows it. */
  lemma OrderMeans(c: ChainConfig)
    ensures InOrder(Forks(c)) <==> InForkOrder(c)
  {
    hide InOrder, InForkOrder, Forks;
    if InOrder(Forks(c)) {
      OrderNeeded(c);
    } else if InForkOrder(c) {
      OrderGiven(c);
    }
  }
}
