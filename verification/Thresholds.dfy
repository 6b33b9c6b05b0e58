/** Threshold calibration in both evaluators (eval/evaluate_protocol_detection.py,
    eval/evaluate_open_world.py): one sweep over the sorted validation samples against the
    optimum over every real threshold. */
module Thresholds {
  import opened Prelude
  import opened Sorting
  import opened Sums
  import opened Groups
  import opened Ranking

  /** `hit`: accepting the sample is a true positive; `alarm`: it is a false one. */
  datatype Sample = Sample(hit: bool, alarm: bool, at: real)

  function Hit(x: Sample): real {
    if x.hit then 1.0 else 0.0
  }

  function Alarm(x: Sample): real {
    if x.alarm then 1.0 else 0.0
  }

  /** A detector accepts scores from the threshold up, a distance attack distances from the
      threshold down. */
  predicate Accepted(high: bool, threshold: real, x: Sample) {
    if high then x.at >= threshold else x.at <= threshold
  }

  predicate Descending(a: Sample, b: Sample) {
    a.at >= b.at
  }

  predicate Ascending(a: Sample, b: Sample) {
    a.at <= b.at
  }

  function Order(high: bool): (Sample, Sample) -> bool {
    if high then Descending else Ascending
  }

  function IfAccepted(f: Sample -> real, high: bool, threshold: real): Sample -> real {
    (x: Sample) => if Accepted(high, threshold, x) then f(x) else 0.0
  }

  function Values(s: seq<Sample>): (values: seq<real>)
    ensures |values| == |s| && forall i :: 0 <= i < |s| ==> values[i] == s[i].at
  {
    seq(|s|, i requires 0 <= i < |s| => s[i].at)
  }

  lemma ValuesInOrder(high: bool, s: seq<Sample>)
    requires Sorted(Order(high), s)
    ensures InOrder(high, Values(s))
  {
    forall i, j | 0 <= i < j < |s| ensures if high then s[i].at >= s[j].at else s[i].at <= s[j].at {
      assert Order(high)(s[i], s[j]);
    }
  }

  function CountAt(f: Sample -> real, high: bool, s: seq<Sample>, threshold: real): real {
    Sum(IfAccepted(f, high, threshold), s)
  }

  lemma Judged(f: Sample -> real, high: bool, threshold: real, x: Sample)
    ensures IfAccepted(f, high, threshold)(x) == if Accepted(high, threshold, x) then f(x) else 0.0
  {
  }

  predicate Within(alarms: real, negatives: real, limit: real)
    requires negatives > 0.0
  {
    alarms / negatives <= limit
  }

  /** The threshold meets the limit, no threshold that meets it accepts more hits, and any that
      accepts as many raises at least as many false alarms. */
  ghost predicate Optimal(high: bool, s: seq<Sample>, negatives: real, limit: real, threshold: real)
    requires negatives > 0.0
  {
    && Within(CountAt(Alarm, high, s, threshold), negatives, limit)
    && (forall t: real :: Within(CountAt(Alarm, high, s, t), negatives, limit) ==>
          CountAt(Hit, high, s, t) <= CountAt(Hit, high, s, threshold))
    && (forall t: real :: CountAt(Hit, high, s, threshold) <= CountAt(Hit, high, s, t) ==>
          CountAt(Alarm, high, s, threshold) <= CountAt(Alarm, high, s, t))
  }

  // ---- cuts of a sorted list ----

  /** The threshold accepts exactly the first `k` samples. */
  ghost predicate CutAt(high: bool, s: seq<Sample>, threshold: real, k: nat) {
    k <= |s| && forall i :: 0 <= i < |s| ==> (Accepted(high, threshold, s[i]) <==> i < k)
  }

  lemma CutCounts(f: Sample -> real, high: bool, s: seq<Sample>, threshold: real, k: nat)
    requires CutAt(high, s, threshold, k)
    ensures CountAt(f, high, s, threshold) == Sum(f, s[..k])
  {
    var g := IfAccepted(f, high, threshold);
    assert s == s[..k] + s[k..];
    SumAppend(g, s[..k], s[k..]);
    SumSame(g, f, s[..k]);
    SumScaled(g, 0.0, f, s[k..]);
  }

  /** Every real threshold cuts a sorted list at a boundary. */
  lemma CutExists(high: bool, s: seq<Sample>, threshold: real) returns (k: nat)
    requires Sorted(Order(high), s)
    ensures CutAt(high, s, threshold, k) && Boundary(Values(s), k)
  {
    k := 0;
    while k < |s| && Accepted(high, threshold, s[k])
      invariant k <= |s| && forall i :: 0 <= i < k ==> Accepted(high, threshold, s[i])
    {
      k := k + 1;
    }
    forall j | k <= j < |s| ensures !Accepted(high, threshold, s[j]) {
      assert k < j ==> Order(high)(s[k], s[j]);
    }
  }

  /** A group's own value cuts the list right after the group. */
  lemma GroupCut(high: bool, s: seq<Sample>, start: nat, end: nat)
    requires Sorted(Order(high), s) && Tied(Values(s), start, end) && Boundary(Values(s), end)
    ensures CutAt(high, s, s[start].at, end)
  {
  }

  // ---- the sweep ----

  function Hits(s: seq<Sample>, k: nat): real
    requires k <= |s|
  {
    Sum(Hit, s[..k])
  }

  function Alarms(s: seq<Sample>, k: nat): real
    requires k <= |s|
  {
    Sum(Alarm, s[..k])
  }

  lemma CountsGrow(s: seq<Sample>, j: nat, k: nat)
    requires j <= k <= |s|
    ensures Hits(s, j) <= Hits(s, k) && Alarms(s, j) <= Alarms(s, k)
  {
    SumGrows(Hit, s, j, k);
    SumGrows(Alarm, s, j, k);
  }

  lemma FewerWithin(a: real, b: real, negatives: real, limit: real)
    requires negatives > 0.0 && a <= b && Within(b, negatives, limit)
    ensures Within(a, negatives, limit)
  {
  }

  /** Among the boundaries up to `index`, `best` is the earliest with the most hits within the
      limit. */
  ghost predicate BestSoFar(s: seq<Sample>, negatives: real, limit: real, index: nat, best: nat)
    requires negatives > 0.0
  {
    && best <= index <= |s| && Within(Alarms(s, best), negatives, limit)
    && (forall k :: 0 <= k <= index && Boundary(Values(s), k) && Within(Alarms(s, k), negatives, limit) ==> Hits(s, k) <= Hits(s, best))
    && (forall k :: 0 <= k <= index && Boundary(Values(s), k) && Hits(s, best) <= Hits(s, k) ==> best <= k)
  }

  /** What the test after each group decides. */
  lemma BestNext(s: seq<Sample>, negatives: real, limit: real, start: nat, end: nat, best: nat)
    requires negatives > 0.0 && BestSoFar(s, negatives, limit, start, best) && Tied(Values(s), start, end) && Boundary(Values(s), end)
    ensures
      var better := Within(Alarms(s, end), negatives, limit) && Hits(s, end) > Hits(s, best);
      BestSoFar(s, negatives, limit, end, if better then end else best)
  {
    var better := Within(Alarms(s, end), negatives, limit) && Hits(s, end) > Hits(s, best);
    var next := if better then end else best;
    forall k | 0 <= k <= end && Boundary(Values(s), k)
      ensures Within(Alarms(s, k), negatives, limit) ==> Hits(s, k) <= Hits(s, next)
      ensures Hits(s, next) <= Hits(s, k) ==> next <= k
    {
      BoundaryAround(Values(s), start, end, k);
      CountsGrow(s, k, end);
      if better && k <= start && Hits(s, end) <= Hits(s, k) {
        FewerWithin(Alarms(s, k), Alarms(s, end), negatives, limit);
      }
    }
  }

  lemma BestIsOptimal(high: bool, s: seq<Sample>, negatives: real, limit: real, best: nat, threshold: real)
    requires negatives > 0.0 && Sorted(Order(high), s)
    requires BestSoFar(s, negatives, limit, |s|, best) && CutAt(high, s, threshold, best)
    ensures Optimal(high, s, negatives, limit, threshold)
  {
    CutCounts(Hit, high, s, threshold, best);
    CutCounts(Alarm, high, s, threshold, best);
    forall t: real
      ensures Within(CountAt(Alarm, high, s, t), negatives, limit) ==> CountAt(Hit, high, s, t) <= Hits(s, best)
      ensures Hits(s, best) <= CountAt(Hit, high, s, t) ==> Alarms(s, best) <= CountAt(Alarm, high, s, t)
    {
      var k := CutExists(high, s, t);
      CutCounts(Hit, high, s, t, k);
      CutCounts(Alarm, high, s, t, k);
      if best <= k {
        CountsGrow(s, best, k);
      }
    }
  }

  /** The inner loop: equal values move together. */
  method TakeGroup(high: bool, s: seq<Sample>, start: nat) returns (index: nat, hits: real, alarms: real)
    requires Sorted(Order(high), s) && start < |s| && Boundary(Values(s), start)
    ensures Tied(Values(s), start, index) && Boundary(Values(s), index)
    ensures Hits(s, start) + hits == Hits(s, index) && Alarms(s, start) + alarms == Alarms(s, index)
  {
    index, hits, alarms := start, 0.0, 0.0;
    while index < |s| && s[index].at == s[start].at
      invariant start <= index <= |s| && forall i :: start <= i < index ==> s[i].at == s[start].at
      invariant Hits(s, start) + hits == Hits(s, index) && Alarms(s, start) + alarms == Alarms(s, index)
    {
      SumSnoc(Hit, s, index);
      SumSnoc(Alarm, s, index);
      hits := hits + Hit(s[index]);
      alarms := alarms + Alarm(s[index]);
      index := index + 1;
    }
    ValuesInOrder(high, s);
    GroupEnds(high, Values(s), start, index);
  }

  /** The sweep over a sorted list, from a sentinel that rejects every sample. */
  method Sweep(high: bool, s: seq<Sample>, negatives: real, limit: real, sentinel: real) returns (threshold: real)
    requires negatives > 0.0 && limit >= 0.0 && Sorted(Order(high), s) && CutAt(high, s, sentinel, 0)
    ensures Optimal(high, s, negatives, limit, threshold)
    ensures threshold == sentinel || exists i :: 0 <= i < |s| && s[i].at == threshold
  {
    var hits, alarms, bestHits := 0.0, 0.0, 0.0;
    var index := 0;
    ghost var best := 0;
    threshold := sentinel;
    while index < |s|
      invariant Boundary(Values(s), index) && hits == Hits(s, index) && alarms == Alarms(s, index)
      invariant BestSoFar(s, negatives, limit, index, best) && bestHits == Hits(s, best)
      invariant CutAt(high, s, threshold, best)
      invariant threshold == sentinel || exists i :: 0 <= i < |s| && s[i].at == threshold
    {
      var value := s[index].at;
      var next, moreHits, moreAlarms := TakeGroup(high, s, index);
      BestNext(s, negatives, limit, index, next, best);
      GroupCut(high, s, index, next);
      hits, alarms, index := hits + moreHits, alarms + moreAlarms, next;
      if alarms / negatives <= limit && hits > bestHits {
        bestHits, threshold, best := hits, value, index;
      }
    }
    BestIsOptimal(high, s, negatives, limit, best, threshold);
  }

  // ---- both evaluators ----

  ghost predicate RejectsAll(high: bool, s: seq<Sample>, threshold: real) {
    forall i :: 0 <= i < |s| ==> !Accepted(high, threshold, s[i])
  }

  lemma SortsSamples(high: bool, s: seq<Sample>)
    ensures Sorted(Order(high), SortBy(Order(high), s)) && multiset(SortBy(Order(high), s)) == multiset(s)
  {
    SortSorts(Order(high), s);
  }

  lemma RejectsPermuted(high: bool, s: seq<Sample>, t: seq<Sample>, threshold: real)
    requires RejectsAll(high, s, threshold) && multiset(s) == multiset(t)
    ensures CutAt(high, t, threshold, 0)
  {
    forall i | 0 <= i < |t| ensures !Accepted(high, threshold, t[i]) {
      assert t[i] in multiset(s);
      var j := Occurrence(t[i], s);
    }
  }

  /** Optimality does not depend on the order of the samples. */
  lemma OptimalPermuted(high: bool, s: seq<Sample>, t: seq<Sample>, negatives: real, limit: real, threshold: real)
    requires negatives > 0.0 && multiset(s) == multiset(t) && Optimal(high, s, negatives, limit, threshold)
    ensures Optimal(high, t, negatives, limit, threshold)
  {
    forall v: real
      ensures CountAt(Hit, high, t, v) == CountAt(Hit, high, s, v)
      ensures CountAt(Alarm, high, t, v) == CountAt(Alarm, high, s, v)
    {
      SumPermutation(IfAccepted(Hit, high, v), s, t);
      SumPermutation(IfAccepted(Alarm, high, v), s, t);
    }
  }

  method SortAndSweep(high: bool, s: seq<Sample>, negatives: real, limit: real, sentinel: real) returns (threshold: real)
    requires negatives > 0.0 && limit >= 0.0 && RejectsAll(high, s, sentinel)
    ensures Optimal(high, s, negatives, limit, threshold)
  {
    var ordered := SortBy(Order(high), s);
    SortsSamples(high, s);
    RejectsPermuted(high, s, ordered, sentinel);
    threshold := Sweep(high, ordered, negatives, limit, sentinel);
    OptimalPermuted(high, ordered, s, negatives, limit, threshold);
  }

  // ---- the protocol detector ----

  /** The next double after 1. */
  const ABOVE_ONE: real := 1.0 + 1.0 / 4503599627370496.0

  /** A score is the reference's share of two distances, or one half when both are zero. */
  function DetectorScore(reference: real, other: real): real
    requires reference >= 0.0 && other >= 0.0
  {
    if reference + other == 0.0 then 0.5 else reference / (reference + other)
  }

  lemma ScoreInRange(reference: real, other: real)
    requires reference >= 0.0 && other >= 0.0
    ensures 0.0 <= DetectorScore(reference, other) <= 1.0
  {
    var total := reference + other;
    if total > 0.0 {
      var q := reference / total;
      assert q * total == reference;
      assert (1.0 - q) * total == other;
      FactorNonNegative(q, total);
      FactorNonNegative(1.0 - q, total);
    }
  }

  /** The score is above one half exactly when the reference is the farther of the two. */
  lemma ScoreMeaning(reference: real, other: real)
    requires reference >= 0.0 && other >= 0.0
    ensures DetectorScore(reference, other) > 0.5 <==> reference > other
    ensures DetectorScore(reference, other) == 0.5 <==> reference == other
    ensures reference + other > 0.0 ==> DetectorScore(reference, other) * (reference + other) == reference
  {
    var total := reference + other;
    if total > 0.0 {
      var q := reference / total;
      assert q * total == reference;
      assert (q - 0.5) * total == reference - 0.5 * total;
      SignOfFactor(q - 0.5, total);
    }
  }

  lemma SignOfFactor(x: real, total: real)
    requires total > 0.0
    ensures (x > 0.0 <==> x * total > 0.0) && (x == 0.0 <==> x * total == 0.0)
  {
  }

  lemma FactorNonNegative(x: real, total: real)
    requires total > 0.0 && x * total >= 0.0
    ensures x >= 0.0
  {
  }

  /** `counts`: the true and false positives of a threshold. */
  function TruePositives(scored: seq<Scored>, threshold: real): real {
    Sum(Flagged(AnonGuard, threshold), scored)
  }

  function FalsePositives(scored: seq<Scored>, threshold: real): real {
    Sum(Flagged(Reference, threshold), scored)
  }

  function Flagged(kind: Label, threshold: real): Scored -> real {
    (x: Scored) => if x.kind == kind && x.score >= threshold then 1.0 else 0.0
  }

  function DetectorSamples(scored: seq<Scored>): (s: seq<Sample>)
    ensures |s| == |scored|
    ensures forall i :: 0 <= i < |s| ==> s[i] == Sample(scored[i].kind.AnonGuard?, scored[i].kind.Reference?, scored[i].score)
  {
    seq(|scored|, i requires 0 <= i < |scored| => Sample(scored[i].kind.AnonGuard?, scored[i].kind.Reference?, scored[i].score))
  }

  lemma DetectorCounts(scored: seq<Scored>, t: real)
    ensures CountAt(Hit, true, DetectorSamples(scored), t) == TruePositives(scored, t)
    ensures CountAt(Alarm, true, DetectorSamples(scored), t) == FalsePositives(scored, t)
  {
    var s := DetectorSamples(scored);
    forall i | 0 <= i < |s|
      ensures IfAccepted(Hit, true, t)(s[i]) == Flagged(AnonGuard, t)(scored[i])
      ensures IfAccepted(Alarm, true, t)(s[i]) == Flagged(Reference, t)(scored[i])
    {
      Judged(Hit, true, t, s[i]);
      Judged(Alarm, true, t, s[i]);
    }
    SumMatch(IfAccepted(Hit, true, t), s, Flagged(AnonGuard, t), scored);
    SumMatch(IfAccepted(Alarm, true, t), s, Flagged(Reference, t), scored);
  }

  /** `calibrate` of the protocol detector: the threshold keeps the false-positive rate within
      the limit, no real threshold that does has more true positives, and none with as many
      has fewer false positives. */
  method CalibrateDetector(scored: seq<Scored>, maxFpr: real) returns (threshold: real)
    requires 0.0 <= maxFpr && Sum(Negative, scored) > 0.0
    requires forall i :: 0 <= i < |scored| ==> 0.0 <= scored[i].score <= 1.0
    ensures FalsePositives(scored, threshold) / Sum(Negative, scored) <= maxFpr
    ensures forall t: real :: FalsePositives(scored, t) / Sum(Negative, scored) <= maxFpr ==>
      TruePositives(scored, t) <= TruePositives(scored, threshold)
    ensures forall t: real :: TruePositives(scored, threshold) <= TruePositives(scored, t) ==>
      FalsePositives(scored, threshold) <= FalsePositives(scored, t)
  {
    var negatives := Sum(Negative, scored);
    threshold := SortAndSweep(true, DetectorSamples(scored), negatives, maxFpr, ABOVE_ONE);
    forall t: real
      ensures CountAt(Hit, true, DetectorSamples(scored), t) == TruePositives(scored, t)
      ensures CountAt(Alarm, true, DetectorSamples(scored), t) == FalsePositives(scored, t)
    {
      DetectorCounts(scored, t);
    }
  }

  // ---- the open-world attack ----

  /** A validation visit: its true page, the predicted page unless ambiguous, and the distance
      of the nearest training trace. */
  datatype Visit<L> = Visit(truth: L, pred: Option<L>, distance: real)

  function Background<L>(monitored: set<L>): Visit<L> -> real {
    (v: Visit<L>) => if v.truth in monitored then 0.0 else 1.0
  }

  /** `metrics`: monitored pages correctly identified, and background pages that raise an alarm. */
  function Correct<L(==)>(visits: seq<Visit<L>>, monitored: set<L>, threshold: real): real {
    Sum(Identified(monitored, threshold), visits)
  }

  function FalseAlarms<L>(visits: seq<Visit<L>>, monitored: set<L>, threshold: real): real {
    Sum(Alarmed(monitored, threshold), visits)
  }

  function Identified<L(==)>(monitored: set<L>, threshold: real): Visit<L> -> real {
    (v: Visit<L>) => if v.truth in monitored && v.pred == Some(v.truth) && v.distance <= threshold then 1.0 else 0.0
  }

  function Alarmed<L>(monitored: set<L>, threshold: real): Visit<L> -> real {
    (v: Visit<L>) => if v.truth !in monitored && v.pred.Some? && v.distance <= threshold then 1.0 else 0.0
  }

  function VisitSample<L(==)>(monitored: set<L>, v: Visit<L>): Sample {
    Sample(v.pred == Some(v.truth) && v.truth in monitored, v.pred.Some? && v.truth !in monitored, v.distance)
  }

  function VisitSamples<L(==)>(visits: seq<Visit<L>>, monitored: set<L>): (s: seq<Sample>)
    ensures |s| == |visits| && forall i :: 0 <= i < |s| ==> s[i] == VisitSample(monitored, visits[i])
  {
    seq(|visits|, i requires 0 <= i < |visits| => VisitSample(monitored, visits[i]))
  }

  lemma VisitCounts<L>(visits: seq<Visit<L>>, monitored: set<L>, t: real)
    ensures CountAt(Hit, false, VisitSamples(visits, monitored), t) == Correct(visits, monitored, t)
    ensures CountAt(Alarm, false, VisitSamples(visits, monitored), t) == FalseAlarms(visits, monitored, t)
  {
    var s := VisitSamples(visits, monitored);
    forall i | 0 <= i < |s|
      ensures IfAccepted(Hit, false, t)(s[i]) == Identified(monitored, t)(visits[i])
      ensures IfAccepted(Alarm, false, t)(s[i]) == Alarmed(monitored, t)(visits[i])
    {
      Judged(Hit, false, t, s[i]);
      Judged(Alarm, false, t, s[i]);
    }
    SumMatch(IfAccepted(Hit, false, t), s, Identified(monitored, t), visits);
    SumMatch(IfAccepted(Alarm, false, t), s, Alarmed(monitored, t), visits);
  }

  /** The background visits are those outside the monitored pages: an identification is never one
      of them, and an alarm always is. */
  lemma {:induction false} BackgroundVisits<L>(visits: seq<Visit<L>>, monitored: set<L>, t: real)
    ensures FalseAlarms(visits, monitored, t) <= Sum(Background(monitored), visits)
    ensures Correct(visits, monitored, t) + Sum(Background(monitored), visits) <= |visits| as real
    ensures Sum(Background(monitored), visits) == |Positions((v: Visit<L>) => v.truth !in monitored, visits)| as real
  {
    if visits != [] {
      var n := |visits| - 1;
      BackgroundVisits(visits[..n], monitored, t);
      assert visits == visits[..n] + [visits[n]] && visits == visits[..n + 1];
      PositionsLast((v: Visit<L>) => v.truth !in monitored, visits[..n], visits[n]);
      SumSnoc(Background(monitored), visits, n);
      SumSnoc(Alarmed(monitored, t), visits, n);
      SumSnoc(Identified(monitored, t), visits, n);
    }
  }

  /** `calibrate` of the open-world attack, with the same meaning. */
  method CalibrateAttack<L(==)>(visits: seq<Visit<L>>, monitored: set<L>, maxFpr: real) returns (threshold: real)
    requires 0.0 <= maxFpr && Sum(Background(monitored), visits) > 0.0
    requires forall i :: 0 <= i < |visits| ==> 0.0 <= visits[i].distance
    ensures FalseAlarms(visits, monitored, threshold) / Sum(Background(monitored), visits) <= maxFpr
    ensures forall t: real :: FalseAlarms(visits, monitored, t) / Sum(Background(monitored), visits) <= maxFpr ==>
      Correct(visits, monitored, t) <= Correct(visits, monitored, threshold)
    ensures forall t: real :: Correct(visits, monitored, threshold) <= Correct(visits, monitored, t) ==>
      FalseAlarms(visits, monitored, threshold) <= FalseAlarms(visits, monitored, t)
  {
    var negatives := Sum(Background(monitored), visits);
    threshold := SortAndSweep(false, VisitSamples(visits, monitored), negatives, maxFpr, -1.0);
    forall t: real
      ensures CountAt(Hit, false, VisitSamples(visits, monitored), t) == Correct(visits, monitored, t)
      ensures CountAt(Alarm, false, VisitSamples(visits, monitored), t) == FalseAlarms(visits, monitored, t)
    {
      VisitCounts(visits, monitored, t);
    }
  }
}
