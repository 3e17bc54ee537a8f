/** The keystore's index of accounts: a list sorted by URL and a list per address.

    One address may be in several files and one URL may be listed under several
    addresses, so the lists are compared as multisets.
 */
module AccountCacheModel {
  import opened Strings
  import opened Urls

  datatype FindResult = Found(account: Account) | NoMatch | Ambiguous(addr: nat, matches: multiset<Account>)

  const NO_ADDRESS: nat := 0

  /** Sorted by URL; equal URLs may stand next to each other. */
  ghost predicate Sorted(s: seq<Account>) {
    forall i, j | 0 <= i < j < |s| :: !Before(s[j].url, s[i].url)
  }

  /** All accounts are of one scheme, as those of the keystore are. */
  ghost predicate OneScheme(s: seq<Account>) {
    forall i, j | 0 <= i < j < |s| :: s[i].url.scheme == s[j].url.scheme
  }

  /** No account before `x` has its URL. */
  ghost predicate FirstListed(s: seq<Account>, x: Account) {
    exists i | 0 <= i < |s| :: s[i] == x && forall k | 0 <= k < i :: s[k].url != x.url
  }

  /** The accounts with an address, by a linear scan. */
  ghost function Filter(s: seq<Account>, addr: nat): seq<Account> {
    if s == [] then [] else (if s[0].address == addr then [s[0]] else []) + Filter(s[1..], addr)
  }

  function Get(byAddr: map<nat, seq<Account>>, addr: nat): seq<Account> {
    if addr in byAddr then byAddr[addr] else []
  }

  /** The lists per address are the partition of the whole list, without empty ones. */
  ghost predicate Agrees(s: seq<Account>, byAddr: map<nat, seq<Account>>) {
    && (forall addr: nat :: multiset(Get(byAddr, addr)) == multiset(Filter(s, addr)))
    && forall addr | addr in byAddr :: byAddr[addr] != []
  }

  // ---------- lists ----------

  lemma FilterHead(s: seq<Account>, addr: nat)
    ensures Filter(s, addr) == if s == [] then [] else (if s[0].address == addr then [s[0]] else []) + Filter(s[1..], addr)
  {
  }

  lemma {:induction false} FilterConcat(s: seq<Account>, t: seq<Account>, addr: nat)
    ensures Filter(s + t, addr) == Filter(s, addr) + Filter(t, addr)
  {
    hide Filter;
    FilterHead(s, addr);
    if s == [] {
      assert s + t == t;
    } else {
      FilterConcat(s[1..], t, addr);
      FilterHead(s + t, addr);
      assert (s + t)[0] == s[0] && (s + t)[1..] == s[1..] + t;
    }
  }

  lemma FilterOne(x: Account, addr: nat)
    ensures Filter([x], addr) == if x.address == addr then [x] else []
  {
    assert [x][1..] == [];
  }

  /** Putting `x` somewhere in the list adds it to its own address only. */
  lemma FilterInserted(s: seq<Account>, i: nat, x: Account, addr: nat)
    requires i <= |s|
    ensures multiset(Filter(s[..i] + [x] + s[i..], addr))
            == multiset(Filter(s, addr)) + if x.address == addr then multiset{x} else multiset{}
  {
    hide Filter;
    FilterConcat(s[..i] + [x], s[i..], addr);
    FilterConcat(s[..i], [x], addr);
    FilterConcat(s[..i], s[i..], addr);
    FilterOne(x, addr);
    assert s == s[..i] + s[i..];
    Middle(Filter(s[..i], addr), Filter([x], addr), Filter(s[i..], addr));
  }

  lemma Middle(a: seq<Account>, x: seq<Account>, b: seq<Account>)
    ensures multiset(a + x + b) == multiset(a + b) + multiset(x)
  {
  }

  lemma FilterRemoved(s: seq<Account>, i: nat, addr: nat)
    requires i < |s|
    ensures multiset(Filter(s, addr))
            == multiset(Filter(s[..i] + s[i + 1..], addr)) + if s[i].address == addr then multiset{s[i]} else multiset{}
  {
    hide Filter;
    var t := s[..i] + s[i + 1..];
    FilterInserted(t, i, s[i], addr);
    assert t[..i] == s[..i] && t[i..] == s[i + 1..];
    assert s == s[..i] + [s[i]] + s[i + 1..];
  }

  lemma {:induction false} FilterMembers(s: seq<Account>, addr: nat, x: Account)
    ensures x in Filter(s, addr) <==> x in s && x.address == addr
  {
    if s != [] {
      FilterMembers(s[1..], addr, x);
      assert s == [s[0]] + s[1..];
    }
  }

  lemma InsertSorted(s: seq<Account>, i: nat, x: Account)
    requires Sorted(s) && i <= |s|
    requires (forall k | 0 <= k < i :: Before(s[k].url, x.url)) && (forall k | i <= k < |s| :: !Before(s[k].url, x.url))
    ensures Sorted(s[..i] + [x] + s[i..])
  {
    var r := s[..i] + [x] + s[i..];
    forall a, b | 0 <= a < b < |r| ensures !Before(r[b].url, r[a].url) {
      if b == i { CmpOrder(r[a].url, x.url); }
    }
  }

  lemma RemoveSorted(s: seq<Account>, i: nat)
    requires Sorted(s) && i < |s|
    ensures Sorted(s[..i] + s[i + 1..]) && forall x | x in s[..i] + s[i + 1..] :: x in s
  {
    var r := s[..i] + s[i + 1..];
    forall x | x in r ensures x in s {
      var k :| 0 <= k < |r| && r[k] == x;
      assert x == s[if k < i then k else k + 1];
    }
  }

  /** What searching by URL needs: once at or after, always at or after. */
  lemma UrlMonotone(s: seq<Account>, u: URL, a: nat, b: nat)
    requires Sorted(s) && a <= b < |s| && !Before(s[a].url, u)
    ensures !Before(s[b].url, u)
  {
    if a < b && Before(s[b].url, u) {
      CmpOrder(s[a].url, u);
      CmpOrder(s[b].url, s[a].url);
      if s[a].url != u {
        BeforeTransitive(s[b].url, u, s[a].url);
      }
    }
  }

  // ---------- removing from a list ----------

  ghost predicate TakenOut(s: seq<Account>, x: Account, r: seq<Account>) {
    if x in s then (exists i | 0 <= i < |s| :: s[i] == x && x !in s[..i] && r == s[..i] + s[i + 1..]) else r == s
  }

  method RemoveAccount(slice: seq<Account>, elem: Account) returns (r: seq<Account>)
    ensures TakenOut(slice, elem, r)
  {
    for i := 0 to |slice|
      invariant elem !in slice[..i]
    {
      if slice[i] == elem { return slice[..i] + slice[i + 1..]; }
    }
    return slice;
  }

  lemma WithoutAt(s: seq<Account>, i: nat)
    requires i < |s|
    ensures multiset(s[..i] + s[i + 1..]) == multiset(s) - multiset{s[i]}
  {
    assert s == s[..i] + [s[i]] + s[i + 1..];
    Middle(s[..i], [s[i]], s[i + 1..]);
  }

  lemma AbsentStays(m: multiset<Account>, x: Account)
    requires x !in m
    ensures m - multiset{x} == m
  {
  }

  lemma TakenOutMultiset(s: seq<Account>, x: Account, r: seq<Account>)
    requires TakenOut(s, x, r)
    ensures multiset(r) == multiset(s) - multiset{x}
  {
    if x in s {
      var i :| 0 <= i < |s| && s[i] == x && x !in s[..i] && r == s[..i] + s[i + 1..];
      WithoutAt(s, i);
    } else {
      AbsentStays(multiset(s), x);
    }
  }

  // ---------- looking up ----------

  /** The rules of `find` on a list of candidates; `u` is the completed URL. */
  ghost predicate Answers(cands: seq<Account>, a: Account, u: URL, r: FindResult) {
    if a.url.path != "" && (exists x :: x in cands && x.url == u) then r.Found? && r.account in cands && r.account.url == u
    else if a.url.path != "" && a.address == NO_ADDRESS then r == NoMatch
    else if |cands| == 1 then r == Found(cands[0])
    else if |cands| == 0 then r == NoMatch
    else r == Ambiguous(a.address, multiset(cands))
  }

  lemma SameLength(c: seq<Account>, d: seq<Account>)
    requires multiset(c) == multiset(d)
    ensures |c| == |d| && (forall x :: x in c <==> x in d)
  {
    assert |multiset(c)| == |c| && |multiset(d)| == |d|;
    forall x ensures x in c <==> x in d { assert x in multiset(c) <==> x in multiset(d); }
  }

  /** Only the multiset of the candidates matters. */
  lemma AnswersSame(c: seq<Account>, d: seq<Account>, a: Account, u: URL, r: FindResult)
    requires multiset(c) == multiset(d) && Answers(c, a, u, r)
    ensures Answers(d, a, u, r)
  {
    SameLength(c, d);
    if |c| == 1 { assert c[0] in d; }
  }

  /** The candidates, by a linear scan. */
  ghost function Candidates(s: seq<Account>, a: Account): seq<Account> {
    if a.address != NO_ADDRESS then Filter(s, a.address) else s
  }

  /** Whatever is found is listed and has the address asked for; asked for by path alone it has that URL.
      An ambiguity is one between at least two accounts, and nothing is found only if no account has the
      address, or none has the URL. */
  lemma AnswerBelongs(s: seq<Account>, a: Account, u: URL, r: FindResult)
    requires Answers(Candidates(s, a), a, u, r)
    ensures r.Found? ==> r.account in s && (a.address != NO_ADDRESS ==> r.account.address == a.address)
    ensures r.Found? && a.address == NO_ADDRESS && a.url.path != "" ==> r.account.url == u
    ensures r.Ambiguous? ==> r.addr == a.address && |r.matches| >= 2 && forall x | x in r.matches :: x in s
    ensures r.NoMatch? && a.address != NO_ADDRESS ==> forall x | x in s :: x.address != a.address
    ensures r.NoMatch? && a.address == NO_ADDRESS && a.url.path != "" ==> forall x | x in s :: x.url != u
    ensures r.NoMatch? && a.address == NO_ADDRESS && a.url.path == "" ==> s == []
  {
    forall x ensures x in Filter(s, a.address) <==> x in s && x.address == a.address { FilterMembers(s, a.address, x); }
    hide Filter;
    var cands := Candidates(s, a);
    if r.Found? && |cands| == 1 { assert cands[0] in cands; }
    if r.Ambiguous? {
      assert |multiset(cands)| == |cands|;
      forall x | x in r.matches ensures x in s { assert x in cands; }
    }
  }

  // ---------- how the index changes ----------

  lemma Appended(s: seq<Account>, byAddr: map<nat, seq<Account>>, i: nat, x: Account)
    requires Agrees(s, byAddr) && i <= |s|
    ensures Agrees(s[..i] + [x] + s[i..], byAddr[x.address := Get(byAddr, x.address) + [x]])
  {
    hide Filter;
    var t, m := s[..i] + [x] + s[i..], byAddr[x.address := Get(byAddr, x.address) + [x]];
    forall addr: nat ensures multiset(Get(m, addr)) == multiset(Filter(t, addr)) {
      FilterInserted(s, i, x, addr);
    }
  }

  function WithList(byAddr: map<nat, seq<Account>>, addr: nat, list: seq<Account>): map<nat, seq<Account>> {
    if |list| == 0 then byAddr - {addr} else byAddr[addr := list]
  }

  lemma GetWithList(byAddr: map<nat, seq<Account>>, addr: nat, list: seq<Account>, a: nat)
    ensures Get(WithList(byAddr, addr, list), a) == if a == addr then list else Get(byAddr, a)
  {
  }

  /** At each address, what the account at `i` leaves behind. */
  lemma DroppedAt(s: seq<Account>, byAddr: map<nat, seq<Account>>, i: nat, list: seq<Account>, addr: nat)
    requires Agrees(s, byAddr) && i < |s| && TakenOut(Get(byAddr, s[i].address), s[i], list)
    ensures multiset(Get(WithList(byAddr, s[i].address, list), addr)) == multiset(Filter(s[..i] + s[i + 1..], addr))
  {
    hide Filter, TakenOut, Get, WithList;
    var rest := multiset(Filter(s[..i] + s[i + 1..], addr));
    FilterRemoved(s, i, addr);
    GetWithList(byAddr, s[i].address, list, addr);
    if addr == s[i].address {
      TakenOutMultiset(Get(byAddr, addr), s[i], list);
      assert multiset(list) == rest + multiset{s[i]} - multiset{s[i]} == rest;
    } else {
      assert rest + multiset{} == rest;
    }
  }

  /** The account at `i` leaves both lists. */
  lemma Dropped(s: seq<Account>, byAddr: map<nat, seq<Account>>, i: nat, list: seq<Account>)
    requires Agrees(s, byAddr) && i < |s| && TakenOut(Get(byAddr, s[i].address), s[i], list)
    ensures Agrees(s[..i] + s[i + 1..], WithList(byAddr, s[i].address, list))
  {
    hide Filter, TakenOut, Get;
    forall addr: nat
      ensures multiset(Get(WithList(byAddr, s[i].address, list), addr)) == multiset(Filter(s[..i] + s[i + 1..], addr))
    {
      DroppedAt(s, byAddr, i, list, addr);
    }
  }

  /** An account that is not listed changes neither. */
  lemma Missing(s: seq<Account>, byAddr: map<nat, seq<Account>>, x: Account, list: seq<Account>)
    requires Agrees(s, byAddr) && x !in s && TakenOut(Get(byAddr, x.address), x, list)
    ensures WithList(byAddr, x.address, list) == byAddr
  {
    FilterMembers(s, x.address, x);
    SameLength(Get(byAddr, x.address), Filter(s, x.address));
  }

  // ---------- the code ----------

  class AccountCache {
    const complete: string -> string  // a bare file name becomes a path in the key directory
    var all: seq<Account>
    var byAddr: map<nat, seq<Account>>

    ghost predicate Valid()
      reads this
    {
      Sorted(all) && Agrees(all, byAddr)
    }

    constructor (complete: string -> string)
      ensures Valid() && all == [] && this.complete == complete
    {
      this.complete, all, byAddr := complete, [], map[];
    }

    /** Inserts the account, unless it is the first one listed with its URL. */
    method Add(x: Account)
      requires Valid()
      modifies this
      ensures Valid() && x in all
      ensures if FirstListed(old(all), x) then all == old(all) else multiset(all) == multiset(old(all)) + multiset{x}
    {
      hide Agrees, Filter, Sorted;
      var i := SearchUrl(all, x.url);
      FindsOwn(all, i, x);
      if i < |all| && all[i] == x { return; }
      InsertSorted(all, i, x);
      Appended(all, byAddr, i, x);
      Inserted(all, i, x);
      all := all[..i] + [x] + all[i..];
      byAddr := byAddr[x.address := Get(byAddr, x.address) + [x]];
    }

    method Delete(x: Account)
      requires Valid()
      modifies this
      ensures Valid() && multiset(all) == multiset(old(all)) - multiset{x}
    {
      hide Agrees, Filter, Sorted;
      var rest := RemoveAccount(all, x);
      var list := RemoveAccount(Get(byAddr, x.address), x);
      TakenOutMultiset(all, x, rest);
      if x in all {
        var i :| 0 <= i < |all| && all[i] == x && x !in all[..i] && rest == all[..i] + all[i + 1..];
        RemoveSorted(all, i);
        Dropped(all, byAddr, i, list);
      } else {
        Missing(all, byAddr, x, list);
      }
      all := rest;
      byAddr := WithList(byAddr, x.address, list);
    }

    /** Removes an account with that path; with accounts of one scheme, exactly when there is one. */
    method DeleteByFile(path: string)
      requires Valid()
      modifies this
      ensures Valid()
      ensures all == old(all) || exists x | x in old(all) :: x.url.path == path && multiset(all) == multiset(old(all)) - multiset{x}
      ensures OneScheme(old(all)) ==> (all != old(all) <==> exists x :: x in old(all) && x.url.path == path)
    {
      hide Agrees, Filter, Sorted;
      var i := SearchPath(all, path);
      if OneScheme(all) { FindsPath(all, i, path); }
      if i < |all| && all[i].url.path == path {
        var removed := all[i];
        var list := RemoveAccount(Get(byAddr, removed.address), removed);
        RemoveSorted(all, i);
        Dropped(all, byAddr, i, list);
        WithoutAt(all, i);
        assert removed in all;
        all := all[..i] + all[i + 1..];
        byAddr := WithList(byAddr, removed.address, list);
      }
    }

    /** The answer is the one that a scan of the whole list gives. */
    method Find(a: Account) returns (r: FindResult)
      requires Valid()
      ensures Answers(Candidates(all, a), a, Completed(a.url), r)
    {
      hide Filter, Sorted, Answers;
      var matches := all;
      if a.address != NO_ADDRESS { matches := Get(byAddr, a.address); }
      r := Match(matches, a, Completed(a.url));
      AnswersSame(matches, Candidates(all, a), a, Completed(a.url), r);
    }

    /** If only the base name is given, the path is completed. */
    function Completed(u: URL): URL {
      if u.path != "" && '/' !in u.path then u.(path := complete(u.path)) else u
    }

    /** An account is found by its full path, and by the bare name of its file in the key directory. */
    lemma FoundByPath(x: Account, a: Account, r: FindResult)
      requires Answers(Candidates(all, a), a, Completed(a.url), r) && x in Candidates(all, a)
      requires a.url.path != "" && a.url.scheme == x.url.scheme
      requires if '/' in a.url.path then a.url.path == x.url.path else complete(a.url.path) == x.url.path
      ensures r.Found? && r.account.url == x.url
    {
      assert x.url == Completed(a.url);
    }
  }

  method Match(matches: seq<Account>, a: Account, u: URL) returns (r: FindResult)
    ensures Answers(matches, a, u, r)
  {
    if a.url.path != "" {
      for i := 0 to |matches|
        invariant forall k | 0 <= k < i :: matches[k].url != u
      {
        if matches[i].url == u { return Found(matches[i]); }
      }
      if a.address == NO_ADDRESS { return NoMatch; }
    }
    if |matches| == 1 { return Found(matches[0]); }
    if |matches| == 0 { return NoMatch; }
    return Ambiguous(a.address, multiset(matches));
  }

  method SearchUrl(s: seq<Account>, u: URL) returns (i: nat)
    requires Sorted(s)
    ensures i <= |s| && (forall k | 0 <= k < i :: Before(s[k].url, u)) && (forall k | i <= k < |s| :: !Before(s[k].url, u))
  {
    var atOrAfter := (i: nat) => i < |s| && Cmp(s[i].url, u) >= 0;
    assert forall k | 0 <= k < |s| :: atOrAfter(k) <==> !Before(s[k].url, u);
    forall a, b | 0 <= a <= b < |s| && atOrAfter(a) ensures atOrAfter(b) { UrlMonotone(s, u, a, b); }
    i := Search(|s|, atOrAfter);
  }

  method SearchPath(s: seq<Account>, path: string) returns (i: nat)
    requires Sorted(s)
    ensures i <= |s| && (i < |s| ==> !Less(s[i].url.path, path))
    ensures OneScheme(s) ==>
      (forall k | 0 <= k < i :: Less(s[k].url.path, path)) && (forall k | i <= k < |s| :: !Less(s[k].url.path, path))
  {
    var atOrAfter := (i: nat) => i < |s| && !Less(s[i].url.path, path);
    assert forall k | 0 <= k < |s| :: atOrAfter(k) <==> !Less(s[k].url.path, path);
    if OneScheme(s) { PathsRise(s, path, atOrAfter); }
    i := Search(|s|, atOrAfter);
  }

  lemma PathsRise(s: seq<Account>, path: string, atOrAfter: nat -> bool)
    requires Sorted(s) && OneScheme(s) && forall k: nat | k < |s| :: atOrAfter(k) <==> !Less(s[k].url.path, path)
    ensures Rising(|s|, atOrAfter)
  {
    var u := URL(if s == [] then "" else s[0].url.scheme, path);
    assert forall k | 0 <= k < |s| :: Before(s[k].url, u) <==> Less(s[k].url.path, path);
    forall a, b | 0 <= a <= b < |s| && atOrAfter(a) ensures atOrAfter(b) { UrlMonotone(s, u, a, b); }
  }

  lemma FindsOwn(s: seq<Account>, i: nat, x: Account)
    requires Sorted(s) && i <= |s| && (forall k | 0 <= k < i :: Before(s[k].url, x.url))
    requires forall k | i <= k < |s| :: !Before(s[k].url, x.url)
    ensures FirstListed(s, x) <==> i < |s| && s[i] == x
  {
    CmpOrder(x.url, x.url);
    if FirstListed(s, x) {
      var k :| 0 <= k < |s| && s[k] == x && forall j | 0 <= j < k :: s[j].url != x.url;
      assert i <= k;
      CmpOrder(s[i].url, x.url);
      CmpOrder(x.url, s[i].url);
    }
  }

  lemma FindsPath(s: seq<Account>, i: nat, path: string)
    requires i <= |s| && (forall k | 0 <= k < i :: Less(s[k].url.path, path))
    requires (forall k | i <= k < |s| :: !Less(s[k].url.path, path)) && Sorted(s) && OneScheme(s)
    ensures (exists x :: x in s && x.url.path == path) ==> i < |s| && s[i].url.path == path
  {
    if x :| x in s && x.url.path == path {
      var k :| 0 <= k < |s| && s[k] == x;
      LessTotal(path, path);
      assert i <= k;
      assert !Before(s[k].url, s[i].url) || i == k;
      LessTotal(s[i].url.path, path);
    }
  }

  lemma Inserted(s: seq<Account>, i: nat, x: Account)
    requires i <= |s|
    ensures multiset(s[..i] + [x] + s[i..]) == multiset(s) + multiset{x}
    ensures forall y :: y in s[..i] + [x] + s[i..] <==> y in s || y == x
  {
    Middle(s[..i], [x], s[i..]);
    assert s == s[..i] + s[i..];
  }
}
