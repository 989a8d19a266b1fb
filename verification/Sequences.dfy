/** Sequences without repetition and how many elements they hold. */
module Sequences {

  ghost predicate NoDup(s: seq<nat>) {
    forall i, j :: 0 <= i < j < |s| ==> s[i] != s[j]
  }

  ghost function Elements(s: seq<nat>): set<nat> { set x | x in s }

  lemma {:induction false} DistinctSize(s: seq<nat>)
    requires NoDup(s)
    ensures |Elements(s)| == |s|
    decreases |s|
  {
    if s != [] {
      var r := s[..|s| - 1];
      DistinctSize(r);
      assert Elements(s) == Elements(r) + {s[|s| - 1]};
    }
  }

  lemma {:induction false} BelowSize(s: set<nat>, q: nat)
    requires forall x :: x in s ==> x < q
    ensures |s| <= q
    decreases q
  {
    if q > 0 { BelowSize(s - {q - 1}, q - 1); }
  }

  lemma DistinctBound(s: seq<nat>, q: nat)
    requires NoDup(s) && forall x :: x in s ==> x < q
    ensures |s| <= q
  {
    DistinctSize(s);
    BelowSize(Elements(s), q);
  }

  lemma {:induction false} CoverSize(s: set<nat>, q: nat)
    requires forall d: nat :: d < q ==> d in s
    ensures |s| >= q
    decreases q
  {
    if q > 0 { CoverSize(s - {q - 1}, q - 1); }
  }

  lemma NotBefore(c: seq<nat>, i: nat)
    requires NoDup(c) && i < |c|
    ensures c[i] !in c[..i] && c[..i + 1] == c[..i] + [c[i]]
  {
  }
}
