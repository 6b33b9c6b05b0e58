/** Shared vocabulary: failure types, bytes, and the few facts about finite
    collections that several components need. */
module Prelude {

  datatype Option<+T> = None | Some(value: T)

  datatype Result<+T, +E> = Ok(value: T) | Err(error: E)

  type byte = x: int | 0 <= x < 256
  type bytes = seq<byte>

  /** Subtraction on unsigned integers that stops at zero. */
  function SaturatingSub(a: nat, b: nat): nat {
    if a < b then 0 else a - b
  }

  /** A subset is no larger than the set it is drawn from. */
  lemma {:induction false} SubsetSize<T>(a: set<T>, b: set<T>)
    requires a <= b
    ensures |a| <= |b|
    decreases |a|
  {
    if a != {} {
      var x :| x in a;
      SubsetSize(a - {x}, b - {x});
    }
  }

  ghost function Images<T, U>(f: T -> U, s: seq<T>): set<U> {
    set i | 0 <= i < |s| :: f(s[i])
  }

  lemma {:induction false} ImagesCount<T, U>(f: T -> U, s: seq<T>)
    ensures |Images(f, s)| <= |s|
    ensures (forall i, j :: 0 <= i < j < |s| ==> f(s[i]) != f(s[j])) ==> |Images(f, s)| == |s|
  {
    if s != [] {
      var n := |s| - 1;
      var rest := Images(f, s[..n]);
      ImagesCount(f, s[..n]);
      assert Images(f, s) == rest + {f(s[n])} by {
        forall u | u in rest ensures u in Images(f, s) {
          var i :| 0 <= i < n && f(s[..n][i]) == u;
          assert f(s[i]) == u;
        }
        forall u | u in Images(f, s) ensures u in rest + {f(s[n])} {
          var i :| 0 <= i < |s| && f(s[i]) == u;
          assert i < n ==> f(s[..n][i]) == u;
        }
      }
    }
  }

  /** A list whose images are distinct members of a set is no longer than the set. */
  lemma DistinctImagesFit<T, U>(f: T -> U, s: seq<T>, within: set<U>)
    requires forall i, j :: 0 <= i < j < |s| ==> f(s[i]) != f(s[j])
    requires forall i :: 0 <= i < |s| ==> f(s[i]) in within
    ensures |s| <= |within|
  {
    ImagesCount(f, s);
    SubsetSize(Images(f, s), within);
  }

  /** The elements of `s` that satisfy `keep`, in order (`retain` on a vector). */
  function Filter<T(!new)>(keep: T -> bool, s: seq<T>): (r: seq<T>)
    ensures |r| <= |s|
    ensures forall x :: x in r <==> x in s && keep(x)
  {
    if s == [] then []
    else if keep(s[0]) then [s[0]] + Filter(keep, s[1..])
    else Filter(keep, s[1..])
  }

  lemma FilterHead<T(!new)>(keep: T -> bool, x: T, s: seq<T>)
    ensures Filter(keep, [x] + s) == if keep(x) then [x] + Filter(keep, s) else Filter(keep, s)
  {
    assert ([x] + s)[1..] == s;
  }

  lemma HeadOfConcat<T>(s: seq<T>, t: seq<T>)
    requires s != []
    ensures s + t == [s[0]] + (s[1..] + t)
  {
  }

  lemma {:induction false} FilterKept<T(!new)>(keep: T -> bool, s: seq<T>, t: seq<T>)
    requires forall i :: 0 <= i < |s| ==> keep(s[i])
    ensures Filter(keep, s + t) == s + Filter(keep, t)
  {
    if s == [] {
      assert s + t == t;
    } else {
      FilterKept(keep, s[1..], t);
      HeadOfConcat(s, t);
      HeadOfConcat(s, Filter(keep, t));
      FilterHead(keep, s[0], s[1..] + t);
    }
  }

  /** Filtering keeps every copy of the elements that satisfy `keep`, and nothing else. */
  lemma {:induction false} FilterCounts<T(!new)>(keep: T -> bool, s: seq<T>, x: T)
    ensures multiset(Filter(keep, s))[x] == if keep(x) then multiset(s)[x] else 0
  {
    if s != [] {
      FilterCounts(keep, s[1..], x);
      assert s == [s[0]] + s[1..];
    }
  }

  lemma {:induction false} FilterLast<T(!new)>(keep: T -> bool, s: seq<T>, x: T)
    ensures Filter(keep, s + [x]) == Filter(keep, s) + if keep(x) then [x] else []
  {
    if s == [] {
      assert s + [x] == [x] + [];
      FilterHead(keep, x, []);
    } else {
      FilterLast(keep, s[1..], x);
      HeadOfConcat(s, [x]);
      FilterHead(keep, s[0], s[1..] + [x]);
    }
  }

  ghost function Positions<T>(keep: T -> bool, s: seq<T>): set<nat> {
    set i: nat | i < |s| && keep(s[i])
  }

  lemma PositionsLast<T>(keep: T -> bool, s: seq<T>, x: T)
    ensures |Positions(keep, s + [x])| == |Positions(keep, s)| + if keep(x) then 1 else 0
  {
    assert Positions(keep, s + [x]) == Positions(keep, s) + if keep(x) then {|s|} else {};
  }

  /** A filtered list is as long as the set of positions that satisfy `keep`. */
  lemma {:induction false} FilterLength<T(!new)>(keep: T -> bool, s: seq<T>)
    ensures |Filter(keep, s)| == |Positions(keep, s)|
  {
    if s != [] {
      var n := |s| - 1;
      FilterLength(keep, s[..n]);
      assert s == s[..n] + [s[n]];
      PositionsLast(keep, s[..n], s[n]);
      FilterLast(keep, s[..n], s[n]);
    }
  }

  /** Filtering keeps a list's elements pairwise related. */
  lemma {:induction false} FilterPairwise<T(!new)>(keep: T -> bool, rel: (T, T) -> bool, s: seq<T>)
    requires forall i, j :: 0 <= i < j < |s| ==> rel(s[i], s[j])
    ensures forall i, j :: 0 <= i < j < |Filter(keep, s)| ==> rel(Filter(keep, s)[i], Filter(keep, s)[j])
  {
    if s != [] {
      var rest := Filter(keep, s[1..]);
      FilterPairwise(keep, rel, s[1..]);
      if keep(s[0]) {
        forall j | 0 < j < |Filter(keep, s)| ensures rel(s[0], Filter(keep, s)[j]) {
          assert rest[j - 1] in s[1..];
        }
      }
    }
  }

  /** Concatenations whose first parts have equal length agree part by part. */
  lemma SplitEqual<T>(a: seq<T>, x: seq<T>, b: seq<T>, y: seq<T>)
    requires |a| == |b|
    requires a + x == b + y
    ensures a == b && x == y
  {
    assert a == (a + x)[..|a|] && b == (b + y)[..|b|];
    assert x == (a + x)[|a|..] && y == (b + y)[|b|..];
  }
}
