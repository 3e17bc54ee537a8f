/** Account balances as 256-bit words, and their total.

    Accounts are numbered; a balance changes by wrapping addition and subtraction.
 */
module Ledger {
  import opened Common
  import opened Bytes

  function Credit(b: seq<nat>, a: nat, v: nat): (r: seq<nat>)
    requires a < |b|
    ensures |r| == |b|
  {
    b[a := (b[a] + v) % TWO256]
  }

  function Debit(b: seq<nat>, a: nat, v: nat): (r: seq<nat>)
    requires a < |b|
    ensures |r| == |b|
  {
    b[a := (b[a] - v) % TWO256]
  }

  ghost function Total(b: seq<nat>): (r: nat)
  {
    if b == [] then 0 else Total(b[..|b| - 1]) + b[|b| - 1]
  }

  /** What a set of accounts holds. */
  ghost function HeldBy(b: seq<nat>, ids: set<nat>): (r: nat)
  {
    if b == [] then 0 else HeldBy(b[..|b| - 1], ids) + if |b| - 1 in ids then b[|b| - 1] else 0
  }

  /** Changing one balance changes the total by as much. */
  lemma {:induction false} TotalUpdate(b: seq<nat>, a: nat, v: nat)
    requires a < |b|
    ensures Total(b[a := v]) == Total(b) - b[a] + v && b[a] <= Total(b)
  {
    var n := |b| - 1;
    if a == n {
      assert b[a := v][..n] == b[..n];
    } else {
      TotalUpdate(b[..n], a, v);
      assert b[a := v][..n] == b[..n][a := v];
    }
  }

  /** A sum of two words wraps once at most. */
  lemma TurnOnce(x: int, m: nat)
    requires 0 <= x < 2 * m
    ensures x % m == if x < m then x else x - m
  {
    if x < m { DivModUnique(x, m, 0, x); } else { DivModUnique(x, m, 1, x - m); }
  }

  /** A credit adds to the total as long as the total fits in a word. */
  lemma CreditTotal(b: seq<nat>, a: nat, v: nat)
    requires a < |b| && Total(b) + v < TWO256
    ensures Total(Credit(b, a, v)) == Total(b) + v && Credit(b, a, v)[a] == b[a] + v
  {
    hide Total;
    TotalUpdate(b, a, b[a] + v);
    TurnOnce(b[a] + v, TWO256);
  }

  lemma DebitTotal(b: seq<nat>, a: nat, v: nat)
    requires a < |b| && v <= b[a] < TWO256
    ensures Total(Debit(b, a, v)) == Total(b) - v && Debit(b, a, v)[a] == b[a] - v
  {
    hide Total;
    TotalUpdate(b, a, b[a] - v);
    TurnOnce(b[a] - v, TWO256);
  }

  /** In general a credit is off by a whole turn of the word, or not at all. */
  lemma CreditTurns(b: seq<nat>, a: nat, v: nat)
    requires a < |b| && b[a] < TWO256 && v < TWO256
    ensures Total(Credit(b, a, v)) == Total(b) + v || Total(Credit(b, a, v)) == Total(b) + v - TWO256
  {
    WrappedTotal(b, a, v, TWO256);
  }

  lemma WrappedTotal(b: seq<nat>, a: nat, v: nat, m: nat)
    requires a < |b| && b[a] < m && v < m
    ensures var t := Total(b[a := (b[a] + v) % m]); t == Total(b) + v || t == Total(b) + v - m
  {
    hide Total;
    TurnOnce(b[a] + v, m);
    TotalUpdate(b, a, (b[a] + v) % m);
  }

  // ---------- accounts that are removed ----------

  function Cleared(b: seq<nat>, ids: set<nat>): (r: seq<nat>)
    ensures |r| == |b|
  {
    seq(|b|, i requires 0 <= i < |b| => if i in ids then 0 else b[i])
  }

  /** Removing accounts takes out of circulation what they held. */
  lemma {:induction false} ClearedTotal(b: seq<nat>, ids: set<nat>)
    ensures Total(Cleared(b, ids)) + HeldBy(b, ids) == Total(b)
  {
    if b != [] {
      var n := |b| - 1;
      ClearedTotal(b[..n], ids);
      assert Cleared(b, ids)[..n] == Cleared(b[..n], ids);
    }
  }

  lemma {:induction false} HeldByNothing(b: seq<nat>, ids: set<nat>)
    ensures HeldBy(b, ids) == 0 <==> forall a | a in ids && 0 <= a < |b| :: b[a] == 0
  {
    if b != [] {
      var n := |b| - 1;
      HeldByNothing(b[..n], ids);
      assert forall a | 0 <= a < n :: b[..n][a] == b[a];
    }
  }
}
