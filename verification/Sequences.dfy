/** Sequences with members put in and taken out. */
module Sequences {

  ghost predicate NoDup<E>(s: seq<E>) {
    forall i, j | 0 <= i < j < |s| :: s[i] != s[j]
  }

  ghost predicate Disjoint<E>(s: seq<E>, t: seq<E>) {
    forall i, j | 0 <= i < |s| && 0 <= j < |t| :: s[i] != t[j]
  }

  /** `s` with `x` put in at `k`. */
  function With<E>(s: seq<E>, k: nat, x: E): (r: seq<E>)
    requires k <= |s|
    ensures |r| == |s| + 1
    ensures forall i {:trigger r[i]} | 0 <= i <= |s| :: r[i] == if i < k then s[i] else if i == k then x else s[i - 1]
  {
    s[..k] + [x] + s[k..]
  }

  /** `s` without its member at `k`. */
  function Without<E>(s: seq<E>, k: nat): (r: seq<E>)
    ensures k < |s| ==>
              |r| == |s| - 1 && forall i {:trigger r[i]} | 0 <= i < |r| :: r[i] == if i < k then s[i] else s[i + 1]
    ensures k >= |s| ==> r == s
  {
    if k < |s| then seq(|s| - 1, i requires 0 <= i < |s| - 1 => if i < k then s[i] else s[i + 1]) else s
  }

  lemma {:induction false} WithoutMultiset<E>(s: seq<E>, k: nat)
    requires k < |s|
    ensures multiset(s) == multiset{s[k]} + multiset(Without(s, k))
  {
    assert Without(s, k) == s[..k] + s[k + 1..];
    assert s == s[..k] + ([s[k]] + s[k + 1..]);
  }
}
