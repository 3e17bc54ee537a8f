/** The keystore's wallet list and the account manager's copy of it.

    The keystore compares its wallets with the accounts on disk and emits events; the
    manager replays the events on a sorted list that also holds other wallets.
 */
module Wallets {
  import opened Urls

  /** A wallet object; `id` is its identity. */
  datatype Wallet = Wallet(id: nat, account: Account)

  datatype Event = Arrived(wallet: Wallet) | Dropped(wallet: Wallet)

  function UrlOf(w: Wallet): URL {
    w.account.url
  }

  ghost predicate Sorted(ws: seq<Wallet>) {
    forall i, j | 0 <= i < j < |ws| :: Before(UrlOf(ws[i]), UrlOf(ws[j]))
  }

  ghost predicate SortedAccounts(accs: seq<Account>) {
    forall i, j | 0 <= i < j < |accs| :: Before(accs[i].url, accs[j].url)
  }

  // ---------- the diff ----------

  datatype Change = Change(wallets: seq<Wallet>, events: seq<Event>)

  ghost function Drops(ws: seq<Wallet>): seq<Event> {
    seq(|ws|, i requires 0 <= i < |ws| => Dropped(ws[i]))
  }

  /** The wallets for `accs`, given the old ones, and the events on the way. */
  ghost function Diff(ws: seq<Wallet>, accs: seq<Account>, next: nat): Change
    decreases |ws| + |accs|
  {
    if accs == [] then Change([], Drops(ws))
    else if ws != [] && Before(UrlOf(ws[0]), accs[0].url) then
      var d := Diff(ws[1..], accs, next);
      d.(events := [Dropped(ws[0])] + d.events)
    else if ws == [] || Before(accs[0].url, UrlOf(ws[0])) then
      var w := Wallet(next, accs[0]);
      var d := Diff(ws, accs[1..], next + 1);
      Change([w] + d.wallets, [Arrived(w)] + d.events)
    else if ws[0].account == accs[0] then
      var d := Diff(ws[1..], accs[1..], next);
      d.(wallets := [ws[0]] + d.wallets)
    else Diff(ws, accs[1..], next)
  }

  // ---------- the manager's list ----------

  ghost predicate First(ws: seq<Wallet>, u: URL, n: nat) {
    && n <= |ws| && (forall k | 0 <= k < n :: Before(UrlOf(ws[k]), u))
    && forall k | n <= k < |ws| :: !Before(UrlOf(ws[k]), u)
  }

  /** The position `sort.Search` finds. */
  ghost function Position(ws: seq<Wallet>, u: URL): (n: nat)
    ensures n <= |ws|
  {
    if ws == [] || !Before(UrlOf(ws[0]), u) then 0 else 1 + Position(ws[1..], u)
  }

  lemma {:induction false} PositionFirst(ws: seq<Wallet>, u: URL)
    requires Sorted(ws)
    ensures First(ws, u, Position(ws, u))
  {
    if ws != [] {
      if Before(UrlOf(ws[0]), u) {
        PositionFirst(ws[1..], u);
        assert forall k | 0 < k < |ws| :: ws[k] == ws[1..][k - 1];
      } else {
        forall k | 0 <= k < |ws| ensures !Before(UrlOf(ws[k]), u) {
          if k > 0 && Before(UrlOf(ws[k]), u) { BeforeTransitive(UrlOf(ws[0]), UrlOf(ws[k]), u); }
        }
      }
    }
  }

  lemma FirstUnique(ws: seq<Wallet>, u: URL, n: nat, m: nat)
    requires First(ws, u, n) && First(ws, u, m)
    ensures n == m
  {
    var k := if n < m then n else m;
    assert k < |ws| ==> (Before(UrlOf(ws[k]), u) <==> k < n) && (Before(UrlOf(ws[k]), u) <==> k < m);
  }

  /** A wallet of the list is at the position that is searched for. */
  lemma OwnPosition(ws: seq<Wallet>, k: nat)
    requires Sorted(ws) && k < |ws|
    ensures Position(ws, UrlOf(ws[k])) == k
  {
    var u := UrlOf(ws[k]);
    forall i | k <= i < |ws| ensures !Before(UrlOf(ws[i]), u) {
      CmpOrder(UrlOf(ws[i]), u);
      CmpOrder(u, UrlOf(ws[i]));
    }
    PositionFirst(ws, u);
    FirstUnique(ws, u, k, Position(ws, u));
  }

  ghost function Merged(ws: seq<Wallet>, w: Wallet): seq<Wallet> {
    var n := Position(ws, UrlOf(w));
    ws[..n] + [w] + ws[n..]
  }

  ghost function Without(ws: seq<Wallet>, w: Wallet): seq<Wallet> {
    var n := Position(ws, UrlOf(w));
    if n == |ws| then ws else ws[..n] + ws[n + 1..]
  }

  ghost function Replayed(ws: seq<Wallet>, e: Event): seq<Wallet> {
    match e case Arrived(w) => Merged(ws, w) case Dropped(w) => Without(ws, w)
  }

  ghost function Replay(ws: seq<Wallet>, events: seq<Event>): seq<Wallet>
    decreases |events|
  {
    if events == [] then ws else Replay(Replayed(ws, events[0]), events[1..])
  }

  /** The list stays sorted from event to event. */
  ghost predicate StaysSorted(ws: seq<Wallet>, events: seq<Event>)
    decreases |events|
  {
    Sorted(ws) && (events == [] || StaysSorted(Replayed(ws, events[0]), events[1..]))
  }

  /** A wallet with a new URL goes to its place. */
  lemma MergedSorted(ws: seq<Wallet>, w: Wallet)
    requires Sorted(ws) && forall x | x in ws :: UrlOf(x) != UrlOf(w)
    ensures Sorted(Merged(ws, w)) && forall x :: x in Merged(ws, w) <==> x in ws || x == w
  {
    hide Position, Cmp;
    var n, r := Position(ws, UrlOf(w)), Merged(ws, w);
    PositionFirst(ws, UrlOf(w));
    forall x | x in ws && !Before(UrlOf(x), UrlOf(w)) ensures Before(UrlOf(w), UrlOf(x)) {
      CmpOrder(UrlOf(x), UrlOf(w));
    }
    forall i, j | 0 <= i < j < |r| ensures Before(UrlOf(r[i]), UrlOf(r[j])) {
      if i < n {
        assert r[i] == ws[i];
        if j < n { assert r[j] == ws[j]; } else if j > n { assert r[j] == ws[j - 1]; }
      } else {
        assert r[j] == ws[j - 1] && ws[j - 1] in ws;
        if i > n { assert r[i] == ws[i - 1]; }
      }
    }
    forall x ensures x in r <==> x in ws || x == w { InMiddle(ws, n, w, x); }
  }

  lemma InMiddle(ws: seq<Wallet>, n: nat, w: Wallet, x: Wallet)
    requires n <= |ws|
    ensures x in ws[..n] + [w] + ws[n..] <==> x in ws || x == w
  {
    assert ws == ws[..n] + ws[n..];
  }

  /** A wallet that is in the list is the one that goes. */
  lemma WithoutSorted(ws: seq<Wallet>, w: Wallet)
    requires Sorted(ws) && w in ws
    ensures Sorted(Without(ws, w)) && forall x :: x in Without(ws, w) <==> x in ws && x != w
  {
    hide Position, Cmp;
    var k :| 0 <= k < |ws| && ws[k] == w;
    OwnPosition(ws, k);
    assert Without(ws, w) == ws[..k] + ws[k + 1..];
    CutSorted(ws, k);
    forall x ensures x in Without(ws, w) <==> x in ws && x != w { CutMembers(ws, k, x); }
  }

  lemma CutSorted(ws: seq<Wallet>, k: nat)
    requires Sorted(ws) && k < |ws|
    ensures Sorted(ws[..k] + ws[k + 1..])
  {
    var r := ws[..k] + ws[k + 1..];
    forall i, j | 0 <= i < j < |r| ensures Before(UrlOf(r[i]), UrlOf(r[j])) {
      assert r[i] == ws[if i < k then i else i + 1] && r[j] == ws[if j < k then j else j + 1];
    }
  }

  lemma CutMembers(ws: seq<Wallet>, k: nat, x: Wallet)
    requires Sorted(ws) && k < |ws|
    ensures x in ws[..k] + ws[k + 1..] <==> x in ws && x != ws[k]
  {
    hide Cmp;
    var r := ws[..k] + ws[k + 1..];
    if x in r {
      var i :| 0 <= i < |r| && r[i] == x;
      var j := if i < k then i else i + 1;
      assert x == ws[j];
      CmpOrder(UrlOf(x), UrlOf(ws[k]));
      CmpOrder(UrlOf(ws[k]), UrlOf(x));
    }
    if x in ws && x != ws[k] {
      var i :| 0 <= i < |ws| && ws[i] == x;
      assert x == r[if i < k then i else i - 1];
    }
  }

  /** Exactly one wallet goes, the right one, unless the wallet is absent and some wallet comes
      after its place: then that one goes instead. */
  lemma DropExact(ws: seq<Wallet>, w: Wallet)
    requires Sorted(ws)
    ensures (forall x :: x in Without(ws, w) <==> x in ws && x != w)
            <==> w in ws || forall x | x in ws :: Before(UrlOf(x), UrlOf(w))
  {
    PositionFirst(ws, UrlOf(w));
    var n := Position(ws, UrlOf(w));
    if w in ws {
      WithoutSorted(ws, w);
    } else if n < |ws| {
      var x := ws[n];
      assert x in ws && !Before(UrlOf(x), UrlOf(w));
      assert forall k | n < k < |ws| :: Before(UrlOf(x), UrlOf(ws[k]));
      assert forall k | 0 <= k < n :: Before(UrlOf(ws[k]), UrlOf(x));
      CmpOrder(UrlOf(x), UrlOf(x));
      assert x !in ws[..n] + ws[n + 1..];
    }
  }

  lemma DropOfAbsentWallet()
    ensures
      var w := Wallet(0, Account(1, URL("keystore", "a")));
      var other := Wallet(1, Account(2, URL("ledger", "b")));
      w !in [other] && Without([other], w) == []
  {
    var w := Wallet(0, Account(1, URL("keystore", "a")));
    var other := Wallet(1, Account(2, URL("ledger", "b")));
    assert !Before(UrlOf(other), UrlOf(w)) by {
      assert "ledger"[0] == 'l' && "keystore"[0] == 'k';
    }
  }

  // ---------- the replay gives the manager the keystore's new list ----------

  lemma TailSorted(ws: seq<Wallet>)
    requires Sorted(ws) && ws != []
    ensures Sorted(ws[1..]) && (forall x :: x in ws <==> x == ws[0] || x in ws[1..])
    ensures forall x | x in ws[1..] :: x != ws[0] && Before(UrlOf(ws[0]), UrlOf(x)) && UrlOf(x) != UrlOf(ws[0])
  {
    assert ws == [ws[0]] + ws[1..];
    forall x | x in ws[1..] ensures Before(UrlOf(ws[0]), UrlOf(x)) && UrlOf(x) != UrlOf(ws[0]) {
      var k :| 0 <= k < |ws[1..]| && ws[1..][k] == x;
      assert x == ws[k + 1];
      CmpOrder(UrlOf(ws[0]), UrlOf(x));
    }
  }

  lemma TailAccounts(accs: seq<Account>)
    requires SortedAccounts(accs) && accs != []
    ensures SortedAccounts(accs[1..]) && (forall a :: a in accs <==> a == accs[0] || a in accs[1..])
    ensures forall a | a in accs[1..] :: Before(accs[0].url, a.url) && a.url != accs[0].url
  {
    assert accs == [accs[0]] + accs[1..];
    forall a | a in accs[1..] ensures Before(accs[0].url, a.url) && a.url != accs[0].url {
      var k :| 0 <= k < |accs[1..]| && accs[1..][k] == a;
      assert a == accs[k + 1];
      CmpOrder(accs[0].url, a.url);
    }
  }

  lemma {:induction false} ReplayDrops(l: seq<Wallet>, ws: seq<Wallet>)
    requires Sorted(l) && Sorted(ws) && forall x | x in ws :: x in l
    ensures Sorted(Replay(l, Drops(ws))) && forall x :: x in Replay(l, Drops(ws)) <==> x in l && x !in ws
    ensures StaysSorted(l, Drops(ws))
    decreases |ws|
  {
    if ws != [] {
      TailSorted(ws);
      WithoutSorted(l, ws[0]);
      ReplayDrops(Without(l, ws[0]), ws[1..]);
      assert Drops(ws)[1..] == Drops(ws[1..]);
    }
  }

  /** The manager's list `l` holds the keystore's wallets, and no other wallet has the URL of an account. */
  ghost predicate Holds(l: seq<Wallet>, ws: seq<Wallet>, accs: seq<Account>) {
    && Sorted(l) && Sorted(ws) && SortedAccounts(accs) && (forall x | x in ws :: x in l)
    && forall x, a | x in l && a in accs && UrlOf(x) == a.url :: x in ws
  }

  /** After the events of a refresh the manager's list is sorted and holds the keystore's new
      wallets and the others as before. */
  lemma {:induction false} ReplayFollows(l: seq<Wallet>, ws: seq<Wallet>, accs: seq<Account>, next: nat)
    requires Holds(l, ws, accs)
    ensures var d := Diff(ws, accs, next); var r := Replay(l, d.events);
      && StaysSorted(l, d.events) && Sorted(r)
      && forall x :: x in r <==> x in d.wallets || (x in l && x !in ws)
    decreases |ws| + |accs|
  {
    if accs == [] {
      ReplayDrops(l, ws);
    } else if ws != [] && Before(UrlOf(ws[0]), accs[0].url) {
      ReplayDropFirst(l, ws, accs, next);
    } else if ws == [] || Before(accs[0].url, UrlOf(ws[0])) {
      ReplayArrival(l, ws, accs, next);
    } else {
      TailAccounts(accs);
      CmpOrder(UrlOf(ws[0]), accs[0].url);
      CmpOrder(accs[0].url, UrlOf(ws[0]));
      TailSorted(ws);
      ReplayFollows(l, if ws[0].account == accs[0] then ws[1..] else ws, accs[1..], next);
    }
  }

  lemma {:induction false} ReplayDropFirst(l: seq<Wallet>, ws: seq<Wallet>, accs: seq<Account>, next: nat)
    requires Holds(l, ws, accs) && accs != [] && ws != [] && Before(UrlOf(ws[0]), accs[0].url)
    ensures var d := Diff(ws, accs, next); var r := Replay(l, d.events);
      && StaysSorted(l, d.events) && Sorted(r)
      && forall x :: x in r <==> x in d.wallets || (x in l && x !in ws)
    decreases |ws| + |accs|, 0
  {
    var l' := Without(l, ws[0]);
    WithoutSorted(l, ws[0]);
    TailSorted(ws);
    TailAccounts(accs);
    CmpOrder(UrlOf(ws[0]), accs[0].url);
    ReplayFollows(l', ws[1..], accs, next);
    var d := Diff(ws[1..], accs, next);
    assert ([Dropped(ws[0])] + d.events)[1..] == d.events;
  }

  lemma {:induction false} ReplayArrival(l: seq<Wallet>, ws: seq<Wallet>, accs: seq<Account>, next: nat)
    requires Holds(l, ws, accs) && accs != [] && (ws == [] || Before(accs[0].url, UrlOf(ws[0])))
    ensures var d := Diff(ws, accs, next); var r := Replay(l, d.events);
      && StaysSorted(l, d.events) && Sorted(r)
      && forall x :: x in r <==> x in d.wallets || (x in l && x !in ws)
    decreases |ws| + |accs|, 0
  {
    hide Merged, Sorted, SortedAccounts, Holds;
    var w := Wallet(next, accs[0]);
    assert Sorted(l) by { HoldsSorted(l, ws, accs); }
    ArrivalHolds(l, ws, accs, w);
    if ws != [] { CmpOrder(UrlOf(ws[0]), accs[0].url); }
    ReplayFollows(Merged(l, w), ws, accs[1..], next + 1);
    var d := Diff(ws, accs[1..], next + 1);
    var events := [Arrived(w)] + d.events;
    assert events[1..] == d.events;
    assert Replay(l, events) == Replay(Merged(l, w), d.events);
  }

  lemma HoldsSorted(l: seq<Wallet>, ws: seq<Wallet>, accs: seq<Account>)
    requires Holds(l, ws, accs)
    ensures Sorted(l)
  {
  }

  lemma ArrivalHolds(l: seq<Wallet>, ws: seq<Wallet>, accs: seq<Account>, w: Wallet)
    requires Holds(l, ws, accs) && accs != [] && (ws == [] || Before(accs[0].url, UrlOf(ws[0]))) && w.account == accs[0]
    ensures Holds(Merged(l, w), ws, accs[1..]) && w !in ws
    ensures forall x :: x in Merged(l, w) <==> x in l || x == w
  {
    NoneAt(ws, accs[0].url);
    MergedSorted(l, w);
    TailAccounts(accs);
    hide Merged;
  }

  lemma NoneAt(ws: seq<Wallet>, u: URL)
    requires Sorted(ws) && (ws == [] || Before(u, UrlOf(ws[0])))
    ensures forall x | x in ws :: UrlOf(x) != u
  {
    forall x | x in ws ensures UrlOf(x) != u {
      var k :| 0 <= k < |ws| && ws[k] == x;
      if k > 0 { BeforeTransitive(u, UrlOf(ws[0]), UrlOf(ws[k])); }
      CmpOrder(u, UrlOf(x));
    }
  }

  // ---------- the new list matches the accounts ----------

  /** Two different accounts claim one URL. */
  ghost predicate Clash(ws: seq<Wallet>, accs: seq<Account>) {
    exists x, a | x in ws && a in accs :: UrlOf(x) == a.url && x.account != a
  }

  ghost function AccountsOf(ws: seq<Wallet>): seq<Account> {
    seq(|ws|, i requires 0 <= i < |ws| => ws[i].account)
  }

  /** The wallets are those of the accounts, in order, exactly when no account clashes with an
      old wallet; wallets whose account is still there are kept as they are. */
  lemma {:induction false} DiffMatches(ws: seq<Wallet>, accs: seq<Account>, next: nat)
    requires Sorted(ws) && SortedAccounts(accs)
    ensures var d := Diff(ws, accs, next);
      && |d.wallets| <= |accs|
      && (AccountsOf(d.wallets) == accs <==> !Clash(ws, accs))
      && forall x | x in ws && x.account in accs :: x in d.wallets
    decreases |ws| + |accs|
  {
    var d := Diff(ws, accs, next);
    if accs == [] {
    } else if ws != [] && Before(UrlOf(ws[0]), accs[0].url) {
      TailSorted(ws);
      Ahead(UrlOf(ws[0]), accs);
      DiffMatches(ws[1..], accs, next);
    } else if ws == [] || Before(accs[0].url, UrlOf(ws[0])) {
      TailAccounts(accs);
      NoneAt(ws, accs[0].url);
      DiffMatches(ws, accs[1..], next + 1);
      HeadAccounts(Wallet(next, accs[0]), Diff(ws, accs[1..], next + 1).wallets, accs);
    } else {
      TailAccounts(accs);
      TailSorted(ws);
      CmpOrder(UrlOf(ws[0]), accs[0].url);
      CmpOrder(accs[0].url, UrlOf(ws[0]));
      if ws[0].account == accs[0] {
        DiffMatches(ws[1..], accs[1..], next);
        HeadAccounts(ws[0], Diff(ws[1..], accs[1..], next).wallets, accs);
      } else {
        DiffMatches(ws, accs[1..], next);
        assert ws[0] in ws && accs[0] in accs;
      }
    }
  }

  /** An account that takes over the URL of another is passed over. */
  lemma ClashExample()
    ensures
      var u := URL("keystore", "a");
      Diff([Wallet(0, Account(1, u))], [Account(2, u)], 1) == Change([], [Dropped(Wallet(0, Account(1, u)))])
  {
    var u := URL("keystore", "a");
    var ws, accs := [Wallet(0, Account(1, u))], [Account(2, u)];
    CmpOrder(u, u);
    assert Diff(ws, accs, 1) == Diff(ws, accs[1..], 1) && accs[1..] == [];
    assert Drops(ws) == [Dropped(ws[0])];
  }

  lemma HeadAccounts(w: Wallet, ws: seq<Wallet>, accs: seq<Account>)
    requires accs != [] && w.account == accs[0]
    ensures AccountsOf([w] + ws) == accs <==> AccountsOf(ws) == accs[1..]
  {
    assert AccountsOf([w] + ws) == [accs[0]] + AccountsOf(ws);
    assert accs == [accs[0]] + accs[1..];
    if AccountsOf([w] + ws) == accs { assert AccountsOf(ws) == AccountsOf([w] + ws)[1..]; }
  }

  lemma Ahead(u: URL, accs: seq<Account>)
    requires SortedAccounts(accs) && accs != [] && Before(u, accs[0].url)
    ensures forall a | a in accs :: a.url != u
  {
    forall a | a in accs ensures a.url != u {
      var k :| 0 <= k < |accs| && accs[k] == a;
      if k > 0 { BeforeTransitive(u, accs[0].url, accs[k].url); }
      CmpOrder(u, a.url);
    }
  }

  // ---------- the code ----------

  /** What is still to come follows what was collected. */
  ghost predicate Behind(all: Change, out: seq<Wallet>, events: seq<Event>, rest: Change) {
    all.wallets == out + rest.wallets && all.events == events + rest.events
  }

  lemma Start(ws: seq<Wallet>, accs: seq<Account>, next: nat)
    ensures Behind(Diff(ws, accs, next), [], [], Diff(ws, accs, next))
  {
  }

  lemma Finish(all: Change, out: seq<Wallet>, events: seq<Event>, ws: seq<Wallet>, accs: seq<Account>, next: nat)
    requires Behind(all, out, events, Diff(ws, accs, next)) && accs == []
    ensures all == Change(out, events + Drops(ws))
  {
  }

  lemma DropStep(all: Change, out: seq<Wallet>, events: seq<Event>, ws: seq<Wallet>, accs: seq<Account>, next: nat)
    requires Behind(all, out, events, Diff(ws, accs, next)) && ws != [] && accs != [] && Before(UrlOf(ws[0]), accs[0].url)
    ensures Behind(all, out, events + [Dropped(ws[0])], Diff(ws[1..], accs, next))
  {
  }

  lemma ArriveStep(all: Change, out: seq<Wallet>, events: seq<Event>, ws: seq<Wallet>, accs: seq<Account>, next: nat)
    requires Behind(all, out, events, Diff(ws, accs, next)) && accs != [] && (ws == [] || Before(accs[0].url, UrlOf(ws[0])))
    ensures var w := Wallet(next, accs[0]);
      Behind(all, out + [w], events + [Arrived(w)], Diff(ws, accs[1..], next + 1))
  {
    if ws != [] { CmpOrder(UrlOf(ws[0]), accs[0].url); }
  }

  lemma SameUrlStep(all: Change, out: seq<Wallet>, events: seq<Event>, ws: seq<Wallet>, accs: seq<Account>, next: nat)
    requires Behind(all, out, events, Diff(ws, accs, next)) && ws != [] && accs != []
    requires !Before(UrlOf(ws[0]), accs[0].url) && !Before(accs[0].url, UrlOf(ws[0]))
    ensures if ws[0].account == accs[0] then Behind(all, out + [ws[0]], events, Diff(ws[1..], accs[1..], next))
            else Behind(all, out, events, Diff(ws, accs[1..], next))
  {
  }

  class KeyStore {
    var wallets: seq<Wallet>
    var next: nat  // the identity of the next wallet object

    constructor ()
      ensures wallets == []
    {
      wallets, next := [], 0;
    }

    method RefreshWallets(accs: seq<Account>) returns (events: seq<Event>)
      modifies this
      ensures Change(wallets, events) == Diff(old(wallets), accs, old(next))
    {
      hide Diff, Behind;
      var out := [];
      events := [];
      ghost var all := Diff(wallets, accs, next);
      assert accs[0..] == accs;
      Start(wallets, accs, next);
      for i := 0 to |accs|
        invariant Behind(all, out, events, Diff(wallets, accs[i..], next))
      {
        var account := accs[i];
        assert accs[i..][0] == account && accs[i..][1..] == accs[i + 1..];
        while |wallets| > 0 && Cmp(UrlOf(wallets[0]), account.url) < 0
          invariant Behind(all, out, events, Diff(wallets, accs[i..], next))
          decreases |wallets|
        {
          DropStep(all, out, events, wallets, accs[i..], next);
          events := events + [Dropped(wallets[0])];
          wallets := wallets[1..];
        }
        if |wallets| > 0 { CmpOrder(UrlOf(wallets[0]), account.url); }
        if |wallets| == 0 || Cmp(UrlOf(wallets[0]), account.url) > 0 {
          ArriveStep(all, out, events, wallets, accs[i..], next);
          var wallet := Wallet(next, account);
          next := next + 1;
          events := events + [Arrived(wallet)];
          out := out + [wallet];
          continue;
        }
        CmpOrder(account.url, UrlOf(wallets[0]));
        SameUrlStep(all, out, events, wallets, accs[i..], next);
        if wallets[0].account == account {
          out := out + [wallets[0]];
          wallets := wallets[1..];
          continue;
        }
      }
      Finish(all, out, events, wallets, accs[|accs|..], next);
      events := events + DropAll(wallets);
      wallets := out;
    }
  }

  /** The events for the wallets that are left over. */
  function DropAll(ws: seq<Wallet>): (r: seq<Event>)
    ensures r == Drops(ws)
  {
    seq(|ws|, i requires 0 <= i < |ws| => Dropped(ws[i]))
  }

  method FindPosition(slice: seq<Wallet>, u: URL) returns (n: nat)
    requires Sorted(slice)
    ensures n == Position(slice, u)
  {
    PositionFirst(slice, u);
    var atOrAfter := (i: nat) => i < |slice| && Cmp(UrlOf(slice[i]), u) >= 0;
    assert forall k | 0 <= k < |slice| :: atOrAfter(k) <==> !Before(UrlOf(slice[k]), u);
    n := Search(|slice|, atOrAfter);
    FirstUnique(slice, u, n, Position(slice, u));
  }

  class Manager {
    var wallets: seq<Wallet>

    constructor ()
      ensures wallets == []
    {
      wallets := [];
    }

    method Merge(w: Wallet)
      requires Sorted(wallets)
      modifies this
      ensures wallets == Merged(old(wallets), w)
    {
      var n := FindPosition(wallets, UrlOf(w));
      if n == |wallets| {
        wallets := wallets + [w];
      } else {
        wallets := wallets[..n] + ([w] + wallets[n..]);
      }
    }

    method Drop(w: Wallet)
      requires Sorted(wallets)
      modifies this
      ensures wallets == Without(old(wallets), w)
    {
      var n := FindPosition(wallets, UrlOf(w));
      if n == |wallets| { return; }
      wallets := wallets[..n] + wallets[n + 1..];
    }

    /** The wallet events of the update loop. */
    method Update(events: seq<Event>)
      requires StaysSorted(wallets, events)
      modifies this
      ensures wallets == Replay(old(wallets), events)
    {
      assert events[0..] == events;
      for i := 0 to |events|
        invariant StaysSorted(wallets, events[i..]) && Replay(wallets, events[i..]) == Replay(old(wallets), events)
      {
        assert events[i..][0] == events[i] && events[i..][1..] == events[i + 1..];
        match events[i]
        case Arrived(w) => Merge(w);
        case Dropped(w) => Drop(w);
      }
    }
  }

  /** A refresh of the keystore, replayed by the manager. */
  method Synchronise(ks: KeyStore, am: Manager, accs: seq<Account>)
    requires Holds(am.wallets, ks.wallets, accs)
    modifies ks, am
    ensures Sorted(am.wallets)
    ensures forall x :: x in am.wallets <==> x in ks.wallets || (x in old(am.wallets) && x !in old(ks.wallets))
    ensures AccountsOf(ks.wallets) == accs <==> !Clash(old(ks.wallets), accs)
    ensures forall x | x in old(ks.wallets) && x.account in accs :: x in ks.wallets
  {
    hide Diff, Replay;
    ReplayFollows(am.wallets, ks.wallets, accs, ks.next);
    DiffMatches(ks.wallets, accs, ks.next);
    var events := ks.RefreshWallets(accs);
    am.Update(events);
  }
}
