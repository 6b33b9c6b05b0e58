/** Finite sums over lists of samples. */
module Sums {

  function Sum<T>(f: T -> real, s: seq<T>): real {
    if s == [] then 0.0 else f(s[0]) + Sum(f, s[1..])
  }

  lemma {:induction false} SumAppend<T>(f: T -> real, a: seq<T>, b: seq<T>)
    ensures Sum(f, a + b) == Sum(f, a) + Sum(f, b)
  {
    if a == [] {
      assert a + b == b;
    } else {
      assert (a + b)[1..] == a[1..] + b;
      SumAppend(f, a[1..], b);
    }
  }

  lemma SumSnoc<T>(f: T -> real, s: seq<T>, k: nat)
    requires k < |s|
    ensures Sum(f, s[..k + 1]) == Sum(f, s[..k]) + f(s[k])
  {
    assert s[..k + 1] == s[..k] + [s[k]];
    SumAppend(f, s[..k], [s[k]]);
    assert [s[k]][1..] == [];
  }

  /** When one summand is a fixed multiple of another, so are the sums. */
  lemma {:induction false} SumScaled<T>(f: T -> real, c: real, g: T -> real, s: seq<T>)
    requires forall i :: 0 <= i < |s| ==> f(s[i]) == c * g(s[i])
    ensures Sum(f, s) == c * Sum(g, s)
  {
    if s != [] {
      SumScaled(f, c, g, s[1..]);
    }
  }

  lemma SumSame<T>(f: T -> real, g: T -> real, s: seq<T>)
    requires forall i :: 0 <= i < |s| ==> f(s[i]) == g(s[i])
    ensures Sum(f, s) == Sum(g, s)
  {
  }

  /** Lists that match element by element have the same sum. */
  lemma {:induction false} SumMatch<T, U>(f: T -> real, s: seq<T>, g: U -> real, t: seq<U>)
    requires |s| == |t| && forall i :: 0 <= i < |s| ==> f(s[i]) == g(t[i])
    ensures Sum(f, s) == Sum(g, t)
  {
    if s != [] {
      SumMatch(f, s[1..], g, t[1..]);
    }
  }

  lemma {:induction false} SumNonNegative<T>(f: T -> real, s: seq<T>)
    requires forall i :: 0 <= i < |s| ==> f(s[i]) >= 0.0
    ensures Sum(f, s) >= 0.0
  {
    if s != [] {
      SumNonNegative(f, s[1..]);
    }
  }

  /** Later prefixes of nonnegative summands are no smaller. */
  lemma SumGrows<T>(f: T -> real, s: seq<T>, j: nat, k: nat)
    requires j <= k <= |s| && forall i :: 0 <= i < |s| ==> f(s[i]) >= 0.0
    ensures Sum(f, s[..j]) <= Sum(f, s[..k])
  {
    assert s[..k] == s[..j] + s[j..k];
    SumAppend(f, s[..j], s[j..k]);
    SumNonNegative(f, s[j..k]);
  }

  /** The list without its element at `i`. */
  function Without<T>(s: seq<T>, i: nat): seq<T>
    requires i < |s|
  {
    s[..i] + s[i + 1..]
  }

  lemma SumRemove<T>(f: T -> real, s: seq<T>, i: nat)
    requires i < |s|
    ensures Sum(f, s) == f(s[i]) + Sum(f, Without(s, i))
  {
    assert s == s[..i] + s[i..] && s[i..] == [s[i]] + s[i + 1..];
    SumAppend(f, s[..i], s[i..]);
    SumAppend(f, s[..i], s[i + 1..]);
  }

  lemma RemoveElement<T>(s: seq<T>, i: nat)
    requires i < |s|
    ensures multiset(Without(s, i)) == multiset(s) - multiset{s[i]}
  {
    assert s == s[..i] + ([s[i]] + s[i + 1..]);
  }

  lemma Occurrence<T>(x: T, s: seq<T>) returns (i: nat)
    requires x in multiset(s)
    ensures i < |s| && s[i] == x
  {
    i :| 0 <= i < |s| && s[i] == x;
  }

  /** A sum does not depend on the order of the list. */
  lemma {:induction false} SumPermutation<T>(f: T -> real, a: seq<T>, b: seq<T>)
    requires multiset(a) == multiset(b)
    ensures Sum(f, a) == Sum(f, b)
    decreases |a|
  {
    if a != [] {
      assert a[0] in multiset(a);
      var i := Occurrence(a[0], b);
      RemoveElement(a, 0);
      RemoveElement(b, i);
      SumPermutation(f, Without(a, 0), Without(b, i));
      SumRemove(f, a, 0);
      SumRemove(f, b, i);
    } else {
      assert |multiset(b)| == |b|;
    }
  }
}
