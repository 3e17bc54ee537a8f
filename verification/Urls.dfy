/** The URLs that wallets and accounts are sorted by, and Go's `sort.Search`. */
module Urls {
  import opened Strings

  datatype URL = URL(scheme: string, path: string)

  datatype Account = Account(address: nat, url: URL)

  /** `Cmp`: by path within a scheme, by scheme otherwise. */
  function Cmp(u: URL, v: URL): int {
    if u.scheme == v.scheme then Compare(u.path, v.path) else Compare(u.scheme, v.scheme)
  }

  predicate Before(u: URL, v: URL) {
    Cmp(u, v) < 0
  }

  /** `Cmp` is a strict total order whose zero is equality. */
  lemma CmpOrder(u: URL, v: URL)
    ensures Cmp(u, v) == 0 <==> u == v
    ensures Cmp(u, v) == -Cmp(v, u)
  {
    CompareEqual(u.path, v.path);
    CompareEqual(u.scheme, v.scheme);
    CompareAntisymmetric(u.path, v.path);
    CompareAntisymmetric(u.scheme, v.scheme);
  }

  /** URLs are sorted by scheme, and within a scheme by path. */
  lemma BeforeMeans(u: URL, v: URL)
    ensures Before(u, v) <==> Less(u.scheme, v.scheme) || (u.scheme == v.scheme && Less(u.path, v.path))
  {
    CompareEqual(u.scheme, v.scheme);
  }

  lemma BeforeTransitive(u: URL, v: URL, w: URL)
    requires Before(u, v) && Before(v, w)
    ensures Before(u, w)
  {
    if u.scheme == v.scheme && v.scheme == w.scheme {
      LessTransitive(u.path, v.path, w.path);
    } else if u.scheme != v.scheme && v.scheme != w.scheme {
      LessTransitive(u.scheme, v.scheme, w.scheme);
      LessTotal(u.scheme, w.scheme);
    }
  }

  /** Once `f` holds it goes on holding. */
  ghost predicate Rising(n: nat, f: nat -> bool) {
    forall a, b | 0 <= a <= b < n :: f(a) ==> f(b)
  }

  /** `sort.Search`: an index where `f` begins to hold, and the only one when `f` is rising. */
  method Search(n: nat, f: nat -> bool) returns (i: nat)
    ensures i <= n && (i > 0 ==> !f(i - 1)) && (i < n ==> f(i))
    ensures Rising(n, f) ==> (forall k | 0 <= k < i :: !f(k)) && (forall k | i <= k < n :: f(k))
  {
    i := 0;
    var j := n;
    while i < j
      invariant 0 <= i <= j <= n
      invariant (i > 0 ==> !f(i - 1)) && (j < n ==> f(j))
    {
      var h := (i + j) / 2;
      if !f(h) { i := h + 1; } else { j := h; }
    }
  }
}
