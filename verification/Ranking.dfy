/** The ranking statistic of the protocol-detection evaluator
    (eval/evaluate_protocol_detection.py): a grouped linear pass against the pairwise
    definition. Scores and rates are real numbers. */
module Ranking {
  import opened Sorting
  import opened Sums
  import opened Groups

  datatype Label = AnonGuard | Reference

  datatype Scored = Scored(kind: Label, score: real)

  predicate ByScore(a: Scored, b: Scored) {
    a.score <= b.score
  }

  function Positive(x: Scored): real {
    if x.kind.AnonGuard? then 1.0 else 0.0
  }

  function Negative(x: Scored): real {
    if x.kind.Reference? then 1.0 else 0.0
  }

  /** What one pair earns: 1 when the positive is scored higher, 1/2 for a tie. */
  function Credit(x: Scored, y: Scored): real {
    if x.kind.Reference? || y.kind.AnonGuard? || x.score < y.score then 0.0
    else if x.score == y.score then 0.5
    else 1.0
  }

  function Against(t: seq<Scored>, x: Scored): real {
    Sum((y: Scored) => Credit(x, y), t)
  }

  /** The sum over all pairs of a positive of `s` and a negative of `t`. */
  function Wins(s: seq<Scored>, t: seq<Scored>): real {
    Sum((x: Scored) => Against(t, x), s)
  }

  ghost predicate BothClasses(s: seq<Scored>) {
    (exists i :: 0 <= i < |s| && s[i].kind.AnonGuard?) && (exists i :: 0 <= i < |s| && s[i].kind.Reference?)
  }

  function Pairs(s: seq<Scored>): real {
    Sum(Positive, s) * Sum(Negative, s)
  }

  /** The pairwise definition. */
  function Auroc(scored: seq<Scored>): real
    requires Pairs(scored) != 0.0
  {
    Wins(scored, scored) / Pairs(scored)
  }

  lemma CountedOnce(f: Scored -> real, s: seq<Scored>, i: nat)
    requires i < |s| && f(s[i]) == 1.0 && forall j :: 0 <= j < |s| ==> f(s[j]) >= 0.0
    ensures Sum(f, s) >= 1.0
  {
    SumRemove(f, s, i);
    SumNonNegative(f, Without(s, i));
  }

  lemma ProductAtLeastOne(a: real, b: real)
    requires a >= 1.0 && b >= 1.0
    ensures a * b >= 1.0
  {
  }

  lemma BothClassesCount(s: seq<Scored>)
    requires BothClasses(s)
    ensures Pairs(s) >= 1.0
  {
    var i :| 0 <= i < |s| && s[i].kind.AnonGuard?;
    var j :| 0 <= j < |s| && s[j].kind.Reference?;
    CountedOnce(Positive, s, i);
    CountedOnce(Negative, s, j);
    ProductAtLeastOne(Sum(Positive, s), Sum(Negative, s));
  }

  /** Pair sums do not depend on the order of either list. */
  lemma WinsPermutation(s: seq<Scored>, t: seq<Scored>)
    requires multiset(s) == multiset(t)
    ensures Wins(s, s) == Wins(t, t)
  {
    forall x: Scored ensures Against(s, x) == Against(t, x) {
      SumPermutation((y: Scored) => Credit(x, y), s, t);
    }
    SumSame((x: Scored) => Against(s, x), (x: Scored) => Against(t, x), s);
    SumPermutation((x: Scored) => Against(t, x), s, t);
  }

  ghost predicate Below(s: seq<Scored>, v: real) {
    forall i :: 0 <= i < |s| ==> s[i].score < v
  }

  ghost predicate Level(s: seq<Scored>, v: real) {
    forall i :: 0 <= i < |s| ==> s[i].score == v
  }

  ghost predicate Above(s: seq<Scored>, v: real) {
    forall i :: 0 <= i < |s| ==> v < s[i].score
  }

  lemma AgainstAppend(s: seq<Scored>, t: seq<Scored>, x: Scored)
    ensures Against(s + t, x) == Against(s, x) + Against(t, x)
  {
    SumAppend((y: Scored) => Credit(x, y), s, t);
  }

  lemma AgainstScaled(t: seq<Scored>, x: Scored, c: real)
    requires forall i :: 0 <= i < |t| ==> Credit(x, t[i]) == c * Negative(t[i])
    ensures Against(t, x) == c * Sum(Negative, t)
  {
  }

  lemma BeatsBelow(low: seq<Scored>, x: Scored)
    requires Below(low, x.score) && x.kind.AnonGuard?
    ensures Against(low, x) == Sum(Negative, low)
  {
  }

  lemma HalvesTies(group: seq<Scored>, x: Scored)
    requires Level(group, x.score) && x.kind.AnonGuard?
    ensures Against(group, x) == 0.5 * Sum(Negative, group)
  {
  }

  lemma LosesAbove(high: seq<Scored>, x: Scored)
    requires Above(high, x.score)
    ensures Against(high, x) == 0.0
  {
    AgainstScaled(high, x, 0.0);
  }

  /** A positive in a tied group beats every negative below and half of those it ties with. */
  lemma PositiveMember(low: seq<Scored>, group: seq<Scored>, high: seq<Scored>, x: Scored)
    requires Below(low, x.score) && Level(group, x.score) && Above(high, x.score) && x.kind.AnonGuard?
    ensures Against(low + (group + high), x) == Sum(Negative, low) + 0.5 * Sum(Negative, group)
  {
    AgainstAppend(low, group + high, x);
    AgainstAppend(group, high, x);
    BeatsBelow(low, x);
    HalvesTies(group, x);
    LosesAbove(high, x);
  }

  lemma NegativeMember(t: seq<Scored>, x: Scored)
    requires x.kind.Reference?
    ensures Against(t, x) == 0.0
  {
    AgainstScaled(t, x, 0.0);
  }

  lemma GroupMember(low: seq<Scored>, group: seq<Scored>, high: seq<Scored>, x: Scored, c: real)
    requires Below(low, x.score) && Level(group, x.score) && Above(high, x.score)
    requires c == Sum(Negative, low) + 0.5 * Sum(Negative, group)
    ensures Against(low + (group + high), x) == c * Positive(x)
  {
    if x.kind.AnonGuard? {
      PositiveMember(low, group, high, x);
    } else {
      NegativeMember(low + (group + high), x);
    }
  }

  /** Every member of the group earns `c` if positive. */
  ghost predicate EachEarns(t: seq<Scored>, group: seq<Scored>, c: real) {
    forall i :: 0 <= i < |group| ==> Against(t, group[i]) == c * Positive(group[i])
  }

  lemma WinsScaled(t: seq<Scored>, group: seq<Scored>, c: real)
    requires EachEarns(t, group, c)
    ensures Wins(group, t) == c * Sum(Positive, group)
  {
    SumScaled((x: Scored) => Against(t, x), c, Positive, group);
  }

  /** So a whole group earns what the pass adds for it. */
  lemma GroupWins(low: seq<Scored>, group: seq<Scored>, high: seq<Scored>, v: real, c: real)
    requires Below(low, v) && Level(group, v) && Above(high, v)
    requires c == Sum(Negative, low) + 0.5 * Sum(Negative, group)
    ensures Wins(group, low + (group + high)) == c * Sum(Positive, group)
  {
    var t := low + (group + high);
    assert EachEarns(t, group, c) by {
      forall i | 0 <= i < |group| ensures Against(t, group[i]) == c * Positive(group[i]) {
        assert group[i].score == v;
        GroupMember(low, group, high, group[i], c);
      }
    }
    WinsScaled(t, group, c);
  }

  lemma SortsByScore(s: seq<Scored>)
    ensures Sorted(ByScore, SortBy(ByScore, s)) && multiset(SortBy(ByScore, s)) == multiset(s)
  {
    SortSorts(ByScore, s);
  }

  /** Extending a slice by its next sample. */
  lemma SliceSnoc(f: Scored -> real, s: seq<Scored>, start: nat, index: nat)
    requires start <= index < |s|
    ensures Sum(f, s[start..index + 1]) == Sum(f, s[start..index]) + f(s[index])
  {
    var t := s[start..];
    assert t[..index - start] == s[start..index] && t[..index - start + 1] == s[start..index + 1];
    SumSnoc(f, t, index - start);
  }

  function Scores(s: seq<Scored>): (scores: seq<real>)
    ensures |scores| == |s| && forall i :: 0 <= i < |s| ==> scores[i] == s[i].score
  {
    seq(|s|, i requires 0 <= i < |s| => s[i].score)
  }

  lemma ScoresInOrder(s: seq<Scored>)
    requires Sorted(ByScore, s)
    ensures InOrder(false, Scores(s))
  {
    forall i, j | 0 <= i < j < |s| ensures s[i].score <= s[j].score {
      assert ByScore(s[i], s[j]);
    }
  }

  /** One tied group starting at a boundary: its positives, its negatives and its end. */
  method CountGroup(ordered: seq<Scored>, start: nat) returns (p: real, n: real, index: nat)
    requires Sorted(ByScore, ordered) && start < |ordered| && Boundary(Scores(ordered), start)
    ensures Tied(Scores(ordered), start, index) && Boundary(Scores(ordered), index)
    ensures p == Sum(Positive, ordered[start..index]) && n == Sum(Negative, ordered[start..index])
  {
    var score := ordered[start].score;
    p, n, index := 0.0, 0.0, start;
    while index < |ordered| && ordered[index].score == score
      invariant start <= index <= |ordered| && forall i :: start <= i < index ==> ordered[i].score == score
      invariant p == Sum(Positive, ordered[start..index]) && n == Sum(Negative, ordered[start..index])
    {
      SliceSnoc(Positive, ordered, start, index);
      SliceSnoc(Negative, ordered, start, index);
      p := p + Positive(ordered[index]);
      n := n + Negative(ordered[index]);
      index := index + 1;
    }
    ScoresInOrder(ordered);
    GroupEnds(false, Scores(ordered), start, index);
  }

  lemma WinsAppend(s: seq<Scored>, s': seq<Scored>, t: seq<Scored>)
    ensures Wins(s + s', t) == Wins(s, t) + Wins(s', t)
  {
    SumAppend((x: Scored) => Against(t, x), s, s');
  }

  /** What the pass adds for one group. */
  lemma GroupShare(ordered: seq<Scored>, start: nat, index: nat, c: real)
    requires Sorted(ByScore, ordered) && Tied(Scores(ordered), start, index)
    requires Boundary(Scores(ordered), start) && Boundary(Scores(ordered), index)
    requires c == Sum(Negative, ordered[..start]) + 0.5 * Sum(Negative, ordered[start..index])
    ensures Wins(ordered[start..index], ordered) == c * Sum(Positive, ordered[start..index])
  {
    var low, group, high := ordered[..start], ordered[start..index], ordered[index..];
    var v := ordered[start].score;
    assert ordered == low + (group + high);
    GroupLevels(ordered, start, index);
    GroupWins(low, group, high, v, c);
  }

  /** A group splits a sorted list into lower, equal and higher scores. */
  lemma GroupLevels(ordered: seq<Scored>, start: nat, index: nat)
    requires Sorted(ByScore, ordered) && Tied(Scores(ordered), start, index)
    requires Boundary(Scores(ordered), start) && Boundary(Scores(ordered), index)
    ensures
      var v := ordered[start].score;
      Below(ordered[..start], v) && Level(ordered[start..index], v) && Above(ordered[index..], v)
  {
    var scores := Scores(ordered);
    ScoresInOrder(ordered);
    forall i | 0 <= i < start ensures ordered[i].score < ordered[start].score {
      assert scores[i] <= scores[start] && scores[i] != scores[start];
    }
    forall j | index <= j < |ordered| ensures ordered[start].score < ordered[j].score {
      assert scores[start] <= scores[j] && scores[start] != scores[j];
    }
  }

  /** Both running sums grow by the group's part. */
  lemma GroupStep(ordered: seq<Scored>, start: nat, index: nat)
    requires start < index <= |ordered|
    ensures Wins(ordered[..index], ordered) == Wins(ordered[..start], ordered) + Wins(ordered[start..index], ordered)
    ensures Sum(Negative, ordered[..index]) == Sum(Negative, ordered[..start]) + Sum(Negative, ordered[start..index])
  {
    assert ordered[..index] == ordered[..start] + ordered[start..index];
    WinsAppend(ordered[..start], ordered[start..index], ordered);
    SumAppend(Negative, ordered[..start], ordered[start..index]);
  }

  /** What the pass adds keeps both running sums right. */
  lemma PassStep(ordered: seq<Scored>, start: nat, index: nat, p: real, below: real, n: real, each: real)
    requires Sorted(ByScore, ordered) && Tied(Scores(ordered), start, index)
    requires Boundary(Scores(ordered), start) && Boundary(Scores(ordered), index)
    requires p == Sum(Positive, ordered[start..index]) && n == Sum(Negative, ordered[start..index])
    requires below == Sum(Negative, ordered[..start]) && each == below + 0.5 * n
    ensures Wins(ordered[..index], ordered) == Wins(ordered[..start], ordered) + p * each
    ensures Sum(Negative, ordered[..index]) == below + n
  {
    GroupShare(ordered, start, index, each);
    GroupStep(ordered, start, index);
    assert each * p == p * each;
  }

  /** The pass over the sorted list. */
  method SumFavorable(ordered: seq<Scored>) returns (favorable: real)
    requires Sorted(ByScore, ordered)
    ensures favorable == Wins(ordered, ordered)
  {
    var below := 0.0;
    var index := 0;
    favorable := 0.0;
    while index < |ordered|
      invariant Boundary(Scores(ordered), index)
      invariant below == Sum(Negative, ordered[..index]) && favorable == Wins(ordered[..index], ordered)
    {
      var p, n, next := CountGroup(ordered, index);
      var each := below + 0.5 * n;
      PassStep(ordered, index, next, p, below, n, each);
      favorable := favorable + p * each;
      below := below + n;
      index := next;
    }
    assert ordered[..index] == ordered;
  }

  /** The statistic does not depend on the order of the samples. */
  lemma PermutedSame(s: seq<Scored>, t: seq<Scored>)
    requires multiset(s) == multiset(t)
    ensures Pairs(s) == Pairs(t) && Wins(s, s) == Wins(t, t)
  {
    SumPermutation(Positive, s, t);
    SumPermutation(Negative, s, t);
    WinsPermutation(s, t);
  }

  method AreaOfSorted(ordered: seq<Scored>) returns (area: real)
    requires Sorted(ByScore, ordered) && Pairs(ordered) >= 1.0
    ensures area == Auroc(ordered)
  {
    var favorable := SumFavorable(ordered);
    var pairs := Sum(Positive, ordered) * Sum(Negative, ordered);
    area := favorable / pairs;
  }

  /** `ranking` computes the pairwise area under the curve. */
  method RankingStatistic(scored: seq<Scored>) returns (area: real)
    requires BothClasses(scored)
    ensures Pairs(scored) >= 1.0 && area == Auroc(scored)
  {
    var ordered := SortBy(ByScore, scored);
    SortsByScore(scored);
    PermutedSame(ordered, scored);
    BothClassesCount(scored);
    area := AreaOfSorted(ordered);
  }
}
