/** Go's order on strings, as `strings.Compare` and `sort.Strings` use it. */
module Strings {

  function Compare(a: string, b: string): int {
    if a == [] then if b == [] then 0 else -1
    else if b == [] then 1
    else if a[0] < b[0] then -1
    else if b[0] < a[0] then 1
    else Compare(a[1..], b[1..])
  }

  predicate Less(a: string, b: string) {
    Compare(a, b) < 0
  }

  lemma {:induction false} CompareEqual(a: string, b: string)
    ensures Compare(a, b) == 0 <==> a == b
  {
    if a != [] && b != [] && a[0] == b[0] {
      CompareEqual(a[1..], b[1..]);
      assert a == [a[0]] + a[1..] && b == [b[0]] + b[1..];
    }
  }

  lemma {:induction false} CompareAntisymmetric(a: string, b: string)
    ensures Compare(a, b) == -Compare(b, a)
  {
    if a != [] && b != [] && a[0] == b[0] { CompareAntisymmetric(a[1..], b[1..]); }
  }

  lemma {:induction false} LessTransitive(a: string, b: string, c: string)
    requires Less(a, b) && Less(b, c)
    ensures Less(a, c)
  {
    if a != [] && a[0] == b[0] == c[0] { LessTransitive(a[1..], b[1..], c[1..]); }
  }

  /** The order is strict and total. */
  lemma LessTotal(a: string, b: string)
    ensures Less(a, b) || a == b || Less(b, a)
    ensures !(Less(a, b) && Less(b, a)) && (Less(a, b) ==> a != b)
  {
    CompareEqual(a, b);
    CompareAntisymmetric(a, b);
  }

  /** Strictly ascending, hence without repetition. */
  predicate Ascending(ks: seq<string>) {
    forall i, j | 0 <= i < j < |ks| :: Less(ks[i], ks[j])
  }

  /** `a` and `b` agree up to `i`, and there `a` ends or has the lesser character. */
  ghost predicate DivergeAt(a: string, b: string, i: nat) {
    i <= |a| && i < |b| && a[..i] == b[..i] && (i == |a| || a[i] < b[i])
  }

  lemma AgreeFirst(a: string, b: string, i: nat)
    requires DivergeAt(a, b, i)
    ensures i > 0 ==> a != [] && b != [] && a[0] == b[0]
  {
    if i > 0 { assert a[..i][0] == a[0] && b[..i][0] == b[0]; }
  }

  ghost predicate ComesFirst(a: string, b: string) {
    exists i: nat :: DivergeAt(a, b, i)
  }

  /** The order is that of the first difference; a proper prefix comes first. */
  lemma {:induction false} LessMeans(a: string, b: string)
    ensures Less(a, b) <==> ComesFirst(a, b)
  {
    if a == [] || b == [] || a[0] != b[0] {
      assert DivergeAt(a, b, 0) <==> Less(a, b);
      forall i: nat | DivergeAt(a, b, i) ensures i == 0 { AgreeFirst(a, b, i); }
    } else {
      LessMeans(a[1..], b[1..]);
      if ComesFirst(a, b) {
        var i: nat :| DivergeAt(a, b, i);
        ShiftDiverge(a, b, i - 1);
      }
      if ComesFirst(a[1..], b[1..]) {
        var i: nat :| DivergeAt(a[1..], b[1..], i);
        ShiftDiverge(a, b, i);
      }
    }
  }

  lemma ShiftDiverge(a: string, b: string, i: nat)
    requires a != [] && b != [] && a[0] == b[0]
    ensures DivergeAt(a[1..], b[1..], i) <==> DivergeAt(a, b, i + 1)
  {
    if i + 1 <= |a| && i + 1 <= |b| {
      assert a[..i + 1] == [a[0]] + a[1..][..i] && b[..i + 1] == [b[0]] + b[1..][..i];
      assert a[..i + 1][1..] == a[1..][..i] && b[..i + 1][1..] == b[1..][..i];
    }
  }
}
