/** Runs of a step function over a list, and where a run splits. */
module Folds {

  /** The state after the steps. */
  function Fold<S, U>(step: (S, U) -> S, s: S, us: seq<U>): S {
    if us == [] then s else step(Fold(step, s, us[..|us| - 1]), us[|us| - 1])
  }

  /** How many of the steps hit. */
  function Hits<S, U>(step: (S, U) -> S, hit: (S, U) -> bool, s: S, us: seq<U>): nat {
    if us == [] then 0
    else
      var front, u := us[..|us| - 1], us[|us| - 1];
      Hits(step, hit, s, front) + if hit(Fold(step, s, front), u) then 1 else 0
  }

  lemma {:induction false} FoldSplits<S, U>(step: (S, U) -> S, s: S, a: seq<U>, b: seq<U>)
    ensures Fold(step, s, a + b) == Fold(step, Fold(step, s, a), b)
  {
    if b == [] {
      assert a + b == a;
    } else {
      var k := |b| - 1;
      FoldSplits(step, s, a, b[..k]);
      assert (a + b)[..|a + b| - 1] == a + b[..k];
    }
  }

  lemma {:induction false} HitsSplit<S, U>(step: (S, U) -> S, hit: (S, U) -> bool, s: S, a: seq<U>, b: seq<U>)
    ensures Hits(step, hit, s, a + b) == Hits(step, hit, s, a) + Hits(step, hit, Fold(step, s, a), b)
  {
    if b == [] {
      assert a + b == a;
    } else {
      var k := |b| - 1;
      HitsSplit(step, hit, s, a, b[..k]);
      FoldSplits(step, s, a, b[..k]);
      assert (a + b)[..|a + b| - 1] == a + b[..k];
    }
  }

  /** The `i`th step hits. */
  predicate HitAt<S, U>(step: (S, U) -> S, hit: (S, U) -> bool, s: S, us: seq<U>, i: nat)
    requires i < |us|
  {
    hit(Fold(step, s, us[..i]), us[i])
  }

  ghost predicate NoHit<S, U>(step: (S, U) -> S, hit: (S, U) -> bool, s: S, us: seq<U>) {
    forall i :: 0 <= i < |us| ==> !HitAt(step, hit, s, us, i)
  }

  lemma NoHitFront<S, U>(step: (S, U) -> S, hit: (S, U) -> bool, s: S, us: seq<U>, k: nat)
    requires k <= |us| && NoHit(step, hit, s, us)
    ensures NoHit(step, hit, s, us[..k])
  {
    forall i | 0 <= i < k ensures !HitAt(step, hit, s, us[..k], i) {
      assert us[..k][..i] == us[..i] && !HitAt(step, hit, s, us, i);
    }
  }

  lemma {:induction false} LastHitIndex<S, U>(step: (S, U) -> S, hit: (S, U) -> bool, s: S, us: seq<U>, n: nat)
    returns (j: nat)
    requires n <= |us|
    ensures j <= n && (j > 0 ==> HitAt(step, hit, s, us, j - 1)) && forall i :: j <= i < n ==> !HitAt(step, hit, s, us, i)
  {
    if n == 0 || HitAt(step, hit, s, us, n - 1) {
      j := n;
    } else {
      j := LastHitIndex(step, hit, s, us, n - 1);
    }
  }

  /** Every run splits after its last hit, if there is one. */
  lemma LastHit<S, U>(step: (S, U) -> S, hit: (S, U) -> bool, s: S, us: seq<U>) returns (a: seq<U>, b: seq<U>)
    ensures us == a + b && NoHit(step, hit, Fold(step, s, a), b)
    ensures a != [] ==> HitAt(step, hit, s, a, |a| - 1)
  {
    var j := LastHitIndex(step, hit, s, us, |us|);
    a, b := us[..j], us[j..];
    if j > 0 {
      assert a[..j - 1] == us[..j - 1];
    }
    forall i | 0 <= i < |b| ensures !HitAt(step, hit, Fold(step, s, a), b, i) {
      assert a + b[..i] == us[..j + i] && !HitAt(step, hit, s, us, j + i);
      FoldSplits(step, s, a, b[..i]);
    }
  }
}
