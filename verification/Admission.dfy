/** Token buckets and bounded source admission (src/mesh/admission.rs). Time is in
    nanoseconds of a monotonic clock. */
module Admission {
  import opened Prelude
  import opened Folds

  datatype Bucket = Bucket(tokens: nat, burst: nat, refill: nat, last: nat)

  predicate BucketOk(b: Bucket) {
    0 < b.burst && 0 < b.refill && b.tokens <= b.burst
  }

  function NewBucket(burst: nat, refill: nat, now: nat): Bucket {
    Bucket(burst, burst, refill, now)
  }

  /** The refill that both operations begin with. */
  function Refilled(b: Bucket, now: nat): Bucket
    requires BucketOk(b)
  {
    var r := SaturatingSub(now, b.last) / b.refill;
    if r >= b.burst then b.(tokens := b.burst, last := now)
    else if r > 0 then b.(tokens := if b.tokens + r <= b.burst then b.tokens + r else b.burst, last := b.last + b.refill * r)
    else b
  }

  function Take(b: Bucket, now: nat): (Bucket, bool)
    requires BucketOk(b)
  {
    var f := Refilled(b, now);
    if f.tokens > 0 then (f.(tokens := f.tokens - 1), true) else (f, false)
  }

  /** Full refill periods since the bucket's clock. */
  function Periods(b: Bucket, now: nat): nat
    requires b.refill > 0
  {
    SaturatingSub(now, b.last) / b.refill
  }

  class TokenBucket {
    var tokens: nat
    const burst: nat
    const refill: nat
    var last: nat

    ghost function Value(): Bucket
      reads this
    {
      Bucket(tokens, burst, refill, last)
    }

    constructor (burst: nat, refill: nat, now: nat)
      requires burst > 0 && refill > 0
      ensures Value() == NewBucket(burst, refill, now) && BucketOk(Value())
    {
      this.burst, this.refill := burst, refill;
      tokens, last := burst, now;
    }

    method Available(now: nat) returns (some: bool)
      requires BucketOk(Value())
      modifies this
      ensures BucketOk(Value()) && Value() == Refilled(old(Value()), now) && some == (tokens > 0)
      ensures var earned := old(tokens) + old(Periods(Value(), now)); tokens == if earned <= burst then earned else burst
    {
      var elapsed := SaturatingSub(now, last);
      var credit := elapsed / refill;
      if credit >= burst {
        tokens, last := burst, now;
      } else if credit > 0 {
        tokens := if tokens + credit <= burst then tokens + credit else burst;
        last := last + refill * credit;
      }
      return tokens > 0;
    }

    method TakeToken(now: nat) returns (taken: bool)
      requires BucketOk(Value())
      modifies this
      ensures BucketOk(Value()) && (Value(), taken) == Take(old(Value()), now)
      ensures
        var earned := old(tokens) + old(Periods(Value(), now));
        && taken == (earned > 0) && tokens == (if earned <= burst then earned else burst) - if taken then 1 else 0
    {
      var some := Available(now);
      if !some {
        return false;
      }
      tokens := tokens - 1;
      return true;
    }
  }

  // ---- the rate bound ----

  lemma AtLeastOne(k: int, d: nat)
    requires k >= 1
    ensures k * d >= d
  {
  }

  /** Two decompositions of one number by the same divisor agree. */
  lemma SameQuotient(d: nat, q: int, m: int, q': int, m': int)
    requires q * d + m == q' * d + m' && 0 <= m < d && 0 <= m' < d
    ensures q == q'
  {
    assert (q - q') * d == m' - m && (q' - q) * d == m - m';
    if q' < q {
      AtLeastOne(q - q', d);
    } else if q < q' {
      AtLeastOne(q' - q, d);
    }
  }

  lemma DivUnique(x: nat, q: nat, m: nat, d: nat)
    requires d > 0 && m < d && x == q * d + m
    ensures x / d == q
  {
    assert x == (x / d) * d + x % d;
    SameQuotient(d, x / d, x % d, q, m);
  }

  lemma DivAdds(x: nat, k: nat, d: nat)
    requires d > 0
    ensures (x + d * k) / d == x / d + k
  {
    DivUnique(x + d * k, x / d + k, x % d, d);
  }

  lemma DivMonotone(x: nat, y: nat, d: nat)
    requires d > 0 && x <= y
    ensures x / d <= y / d
  {
    var q, q' := x / d, y / d;
    assert x == q * d + x % d && y == q' * d + y % d;
    assert (q - q') * d == q * d - q' * d;
    if q' < q {
      AtLeastOne(q - q', d);
    }
  }

  /** A refill earns no more credit than the time it accounts for. */
  lemma RefillEarns(b: Bucket, now: nat, anchor: nat, taken: nat)
    requires BucketOk(b) && anchor <= b.last <= now
    requires taken + b.tokens <= b.burst + (b.last - anchor) / b.refill
    ensures
      var f := Refilled(b, now);
      && BucketOk(f) && b.last <= f.last <= now && f.burst == b.burst && f.refill == b.refill
      && taken + f.tokens <= b.burst + (f.last - anchor) / b.refill
  {
    var r := (now - b.last) / b.refill;
    DivAdds(b.last - anchor, r, b.refill);
    assert b.last + b.refill * r <= now;
    DivMonotone(b.last - anchor + b.refill * r, now - anchor, b.refill);
  }

  /** After a refill, less than one refill period is unaccounted for. */
  lemma RefillLeavesRemainder(b: Bucket, now: nat)
    requires BucketOk(b) && b.last <= now
    ensures now - Refilled(b, now).last < b.refill && Refilled(Refilled(b, now), now) == Refilled(b, now)
  {
  }

  /** One use of a bucket: a take, or only a test. */
  datatype Use = Use(now: nat, take: bool)

  ghost predicate Ordered(start: nat, uses: seq<Use>) {
    forall i :: 0 <= i < |uses| ==> start <= uses[i].now && forall j :: i <= j < |uses| ==> uses[i].now <= uses[j].now
  }

  /** The bucket after the uses, and how many takes succeeded. */
  function Spend(b: Bucket, uses: seq<Use>): (r: (Bucket, nat))
    requires BucketOk(b)
    ensures BucketOk(r.0)
  {
    if uses == [] then (b, 0)
    else
      var (before, n) := Spend(b, uses[..|uses| - 1]);
      var (after, done) := Used(before, uses[|uses| - 1]);
      (after, if done then n + 1 else n)
  }

  /** One use of a bucket. */
  function Used(b: Bucket, u: Use): (Bucket, bool)
    requires BucketOk(b)
  {
    if u.take then Take(b, u.now) else (Refilled(b, u.now), false)
  }

  ghost predicate Earned(b: Bucket, anchor: nat, taken: nat) {
    BucketOk(b) && anchor <= b.last && taken + b.tokens <= b.burst + (b.last - anchor) / b.refill
  }

  lemma UseEarns(b: Bucket, u: Use, anchor: nat, taken: nat)
    requires Earned(b, anchor, taken) && b.last <= u.now
    ensures
      var (after, done) := Used(b, u);
      && Earned(after, anchor, if done then taken + 1 else taken)
      && after.last <= u.now && after.burst == b.burst && after.refill == b.refill
  {
    RefillEarns(b, u.now, anchor, taken);
  }

  lemma {:induction false} SpendBound(b: Bucket, uses: seq<Use>, now: nat)
    requires BucketOk(b) && Ordered(b.last, uses) && b.last <= now
    requires uses != [] ==> uses[|uses| - 1].now <= now
    ensures
      var (after, n) := Spend(b, uses);
      && Earned(after, b.last, n) && after.last <= now && after.burst == b.burst && after.refill == b.refill
  {
    if uses != [] {
      var k := |uses| - 1;
      var front := uses[..k];
      assert forall i :: 0 <= i < k ==> front[i] == uses[i];
      assert Ordered(b.last, front);
      SpendBound(b, front, uses[k].now);
      var (before, n) := Spend(b, front);
      UseEarns(before, uses[k], b.last, n);
    } else {
      assert (b.last - b.last) / b.refill == 0;
    }
  }

  /** Rate bound since creation: at most the burst plus one per full refill period. */
  lemma RateSinceCreation(burst: nat, refill: nat, t0: nat, uses: seq<Use>, now: nat)
    requires burst > 0 && refill > 0 && Ordered(t0, uses) && t0 <= now
    requires uses != [] ==> uses[|uses| - 1].now <= now
    ensures Spend(NewBucket(burst, refill, t0), uses).1 <= burst + (now - t0) / refill
  {
    var b := NewBucket(burst, refill, t0);
    SpendBound(b, uses, now);
    DivMonotone(Spend(b, uses).0.last - t0, now - t0, refill);
  }

  lemma {:induction false} SpendFromRefilled(b: Bucket, uses: seq<Use>)
    requires BucketOk(b) && uses != [] && b.last <= uses[0].now
    requires BucketOk(Refilled(b, uses[0].now))
    ensures Spend(Refilled(b, uses[0].now), uses) == Spend(b, uses)
    decreases |uses|
  {
    RefillLeavesRemainder(b, uses[0].now);
    if |uses| == 1 {
      assert uses[..0] == [];
    } else {
      SpendFromRefilled(b, uses[..|uses| - 1]);
    }
  }

  lemma RateAfterRefill(f: Bucket, s: nat, t: nat, uses: seq<Use>)
    requires BucketOk(f) && s <= t && f.last <= t && s < f.last + f.refill
    requires Ordered(f.last, uses) && uses != [] && uses[|uses| - 1].now <= t
    ensures Spend(f, uses).1 <= f.burst + (t - s) / f.refill + 1
  {
    SpendBound(f, uses, t);
    WindowLength(f.refill, s, t, f.last, Spend(f, uses).0.last);
  }

  /** Rate bound in any window [s, t], whatever happened before it: one more than the burst
      plus one per full refill period. */
  lemma RateInWindow(b: Bucket, s: nat, t: nat, uses: seq<Use>)
    requires BucketOk(b) && b.last <= s <= t && Ordered(s, uses)
    requires uses != [] ==> uses[|uses| - 1].now <= t
    ensures Spend(b, uses).1 <= b.burst + (t - s) / b.refill + 1
  {
    if uses != [] {
      var f := CatchUp(b, uses);
      OrderedFromFirst(f.last, s, uses);
      RateAfterRefill(f, s, t, uses);
    }
  }

  /** A bucket brought up to the first use, with less than one period unaccounted for. */
  lemma CatchUp(b: Bucket, uses: seq<Use>) returns (f: Bucket)
    requires BucketOk(b) && uses != [] && b.last <= uses[0].now
    ensures BucketOk(f) && f.burst == b.burst && f.refill == b.refill
    ensures f.last <= uses[0].now < f.last + f.refill && Spend(f, uses) == Spend(b, uses)
  {
    f := Refilled(b, uses[0].now);
    RefillEarnsNothingLost(b, uses[0].now);
    RefillLeavesRemainder(b, uses[0].now);
    SpendFromRefilled(b, uses);
  }

  lemma OrderedFromFirst(start: nat, s: nat, uses: seq<Use>)
    requires Ordered(s, uses) && uses != [] && start <= uses[0].now
    ensures Ordered(start, uses)
  {
  }

  lemma WindowLength(refill: nat, s: nat, t: nat, start: nat, end: nat)
    requires 0 < refill && s <= t && start <= end <= t && s < start + refill
    ensures (end - start) / refill <= (t - s) / refill + 1
  {
    DivMonotone(end - start, t - s + refill, refill);
    DivAdds(t - s, 1, refill);
    assert refill * 1 == refill;
  }

  lemma RefillEarnsNothingLost(b: Bucket, now: nat)
    requires BucketOk(b) && b.last <= now
    ensures BucketOk(Refilled(b, now)) && b.last <= Refilled(b, now).last <= now
    ensures Refilled(b, now).burst == b.burst && Refilled(b, now).refill == b.refill
  {
  }

  /** A take at the same instant as a successful test never refuses. */
  lemma AvailableThenTake(b: Bucket, now: nat)
    requires BucketOk(b) && b.last <= now && Refilled(b, now).tokens > 0
    ensures BucketOk(Refilled(b, now)) && Take(Refilled(b, now), now).1
  {
  }

  // ---- nothing earned is lost ----

  /** A refill credits one token for every full period, up to the burst, and leaves the rest of
      the time unaccounted for unless it fills the bucket by itself. A clock that went back
      changes nothing. */
  lemma RefillExactly(b: Bucket, now: nat)
    requires BucketOk(b)
    ensures
      var f, k := Refilled(b, now), Periods(b, now);
      && f.tokens == (if b.tokens + k <= b.burst then b.tokens + k else b.burst)
      && f.last == (if k >= b.burst then now else b.last + b.refill * k)
      && f.burst == b.burst && f.refill == b.refill && (now < b.last ==> f == b)
  {
  }

  /** After `k` full periods without a take the bucket holds at least the smaller of the burst
      and its tokens plus `k`. */
  lemma IdlePeriodsCredited(b: Bucket, k: nat, now: nat)
    requires BucketOk(b) && b.last + b.refill * k <= now
    ensures Refilled(b, now).tokens >= if b.tokens + k <= b.burst then b.tokens + k else b.burst
  {
    RefillExactly(b, now);
    DivAdds(0, k, b.refill);
    DivMonotone(b.refill * k, now - b.last, b.refill);
  }

  /** The bucket after a use, whether the use took a token, and whether the refill before it reached
      the burst, so that credit may have been lost. */
  function AfterUse(b: Bucket, u: Use): Bucket {
    if BucketOk(b) then Used(b, u).0 else b
  }

  predicate TookToken(b: Bucket, u: Use) {
    BucketOk(b) && Used(b, u).1
  }

  predicate Overflows(b: Bucket, u: Use) {
    BucketOk(b) && (b.tokens + Periods(b, u.now) > b.burst || Periods(b, u.now) >= b.burst)
  }

  ghost predicate NoOverflow(b: Bucket, uses: seq<Use>) {
    NoHit(AfterUse, Overflows, b, uses)
  }

  lemma {:induction false} SpendIsFold(b: Bucket, uses: seq<Use>)
    requires BucketOk(b)
    ensures Spend(b, uses) == (Fold(AfterUse, b, uses), Hits(AfterUse, TookToken, b, uses))
  {
    if uses != [] {
      SpendIsFold(b, uses[..|uses| - 1]);
    }
  }

  /** Every token is accounted for: those spent and those left are those at the start and one
      for each period that the bucket's clock has advanced. */
  ghost predicate Conserved(b: Bucket, after: Bucket, spent: nat) {
    && after.burst == b.burst && after.refill == b.refill
    && b.tokens <= spent + after.tokens && after.last == b.last + b.refill * (spent + after.tokens - b.tokens)
  }

  lemma Distributes(d: int, x: int, y: int)
    ensures d * (x + y) == d * x + d * y
  {
  }

  lemma UseConserves(b: Bucket, before: Bucket, spent: nat, u: Use)
    requires BucketOk(before) && Conserved(b, before, spent) && !Overflows(before, u)
    ensures var (after, done) := Used(before, u); Conserved(b, after, if done then spent + 1 else spent)
  {
    var k := Periods(before, u.now);
    Distributes(b.refill, spent + before.tokens - b.tokens, k);
  }

  /** Conservation: while no refill reaches the burst, spent plus remaining tokens equal the
      starting tokens plus the periods accounted for. */
  lemma {:induction false} SpendConserves(b: Bucket, uses: seq<Use>)
    requires BucketOk(b) && NoOverflow(b, uses)
    ensures var (after, n) := Spend(b, uses); Conserved(b, after, n)
  {
    if uses != [] {
      var k := |uses| - 1;
      NoHitFront(AfterUse, Overflows, b, uses, k);
      assert !HitAt(AfterUse, Overflows, b, uses, k);
      SpendIsFold(b, uses[..k]);
      SpendConserves(b, uses[..k]);
      var (before, n) := Spend(b, uses[..k]);
      UseConserves(b, before, n, uses[k]);
    }
  }

  lemma Accounted(refill: nat, start: nat, last: nat, now: nat, k: nat)
    requires refill > 0 && last == start + refill * k && last <= now < last + refill
    ensures (now - start) / refill == k
  {
    DivUnique(now - start, k, now - last, refill);
  }

  lemma ZeroPeriods(x: nat, d: nat)
    requires d > 0 && x / d == 0
    ensures x < d
  {
  }

  /** A bucket with all tokens accounted for that refuses a take has spent every one. */
  lemma EmptyIsSpent(b: Bucket, after: Bucket, spent: nat, now: nat)
    requires BucketOk(after) && Conserved(b, after, spent) && after.last <= now && !Take(after, now).1
    ensures b.last <= now && spent == b.tokens + (now - b.last) / b.refill
  {
    RefillExactly(after, now);
    ZeroPeriods(now - after.last, b.refill);
    Accounted(b.refill, b.last, after.last, now, spent - b.tokens);
  }

  /** A bucket refuses a take only when every earned token is spent. */
  lemma RefusedIsSpent(b: Bucket, uses: seq<Use>, now: nat)
    requires BucketOk(b) && b.last <= now && NoOverflow(b, uses) && Spend(b, uses).0.last <= now
    requires !Take(Spend(b, uses).0, now).1
    ensures Spend(b, uses).1 == b.tokens + (now - b.last) / b.refill
  {
    var (after, n) := Spend(b, uses);
    SpendConserves(b, uses);
    EmptyIsSpent(b, after, n, now);
  }

  lemma SpendSplits(b: Bucket, first: seq<Use>, rest: seq<Use>)
    requires BucketOk(b)
    ensures Spend(b, first + rest).0 == Spend(Spend(b, first).0, rest).0
    ensures Spend(b, first + rest).1 == Spend(b, first).1 + Spend(Spend(b, first).0, rest).1
  {
    SpendIsFold(b, first + rest);
    SpendIsFold(b, first);
    SpendIsFold(Spend(b, first).0, rest);
    FoldSplits(AfterUse, b, first, rest);
    HitsSplit(AfterUse, TookToken, b, first, rest);
  }

  /** The refill before the last of these uses, if there is one, filled the bucket. */
  ghost predicate FilledLast(b: Bucket, uses: seq<Use>)
    requires BucketOk(b)
  {
    uses != [] ==>
      var before := Spend(b, uses[..|uses| - 1]).0;
      Refilled(before, uses[|uses| - 1].now).tokens == before.burst
  }

  lemma OverflowFills(b: Bucket, u: Use)
    requires BucketOk(b) && Overflows(b, u)
    ensures Refilled(b, u.now).tokens == b.burst
  {
    RefillExactly(b, u.now);
  }

  /** Every run of uses splits after the last one, if any, whose refill reached the burst. */
  lemma LastFull(b: Bucket, uses: seq<Use>) returns (first: seq<Use>, rest: seq<Use>)
    requires BucketOk(b)
    ensures uses == first + rest && NoOverflow(Spend(b, first).0, rest) && FilledLast(b, first)
  {
    first, rest := LastHit(AfterUse, Overflows, b, uses);
    SpendIsFold(b, first);
    if first != [] {
      SpendIsFold(b, first[..|first| - 1]);
      OverflowFills(Spend(b, first[..|first| - 1]).0, first[|first| - 1]);
    }
  }

  /** Whatever came before, when a take is refused there is a point, the start or a refill to the
      full burst, since when every token then held and every token earned has been spent. */
  lemma RefusedSinceFull(b: Bucket, uses: seq<Use>, now: nat) returns (first: seq<Use>)
    requires BucketOk(b) && Ordered(b.last, uses) && b.last <= now && (uses != [] ==> uses[|uses| - 1].now <= now)
    requires !Take(Spend(b, uses).0, now).1
    ensures first <= uses && FilledLast(b, first)
    ensures
      var (held, before) := Spend(b, first);
      held.last <= now && Spend(b, uses).1 - before == held.tokens + (now - held.last) / b.refill
  {
    var rest: seq<Use>;
    first, rest := LastFull(b, uses);
    var held := Spend(b, first).0;
    SpendSplits(b, first, rest);
    SpendBound(b, uses, now);
    OrderedFirst(b.last, first, rest, now);
    SpendBound(b, first, now);
    RefusedIsSpent(held, rest, now);
  }

  lemma OrderedFirst(start: nat, first: seq<Use>, rest: seq<Use>, now: nat)
    requires Ordered(start, first + rest) && (first + rest != [] ==> (first + rest)[|first + rest| - 1].now <= now)
    ensures Ordered(start, first) && (first != [] ==> first[|first| - 1].now <= now)
  {
    var uses := first + rest;
    assert forall i :: 0 <= i < |first| ==> first[i] == uses[i];
    if first != [] {
      assert uses[|first| - 1].now <= uses[|uses| - 1].now;
    }
  }

  /** A test spends nothing: it changes neither how many takes have succeeded nor whether a take at
      that instant does. */
  lemma TestsAreFree(b: Bucket, uses: seq<Use>, now: nat)
    requires BucketOk(b) && Spend(b, uses).0.last <= now
    ensures Spend(b, uses + [Use(now, false)]).1 == Spend(b, uses).1
    ensures Take(Spend(b, uses + [Use(now, false)]).0, now) == Take(Spend(b, uses).0, now)
  {
    assert (uses + [Use(now, false)])[..|uses|] == uses;
    RefillLeavesRemainder(Spend(b, uses).0, now);
  }

  /** `k` takes at one instant. */
  function AtOnce(t0: nat, k: nat): (uses: seq<Use>)
    ensures |uses| == k
  {
    if k == 0 then [] else AtOnce(t0, k - 1) + [Use(t0, true)]
  }

  lemma TakeAtLast(b: Bucket)
    requires BucketOk(b)
    ensures Take(b, b.last) == if b.tokens > 0 then (b.(tokens := b.tokens - 1), true) else (b, false)
  {
  }

  lemma OneMore(b: Bucket, before: Bucket, n: nat, t0: nat, k: nat)
    requires BucketOk(b) && BucketOk(before) && before.last == t0 && k > 0
    requires Spend(b, AtOnce(t0, k - 1)) == (before, n)
    ensures Spend(b, AtOnce(t0, k)) == if before.tokens > 0 then (before.(tokens := before.tokens - 1), n + 1) else (before, n)
  {
    assert AtOnce(t0, k)[..k - 1] == AtOnce(t0, k - 1) && AtOnce(t0, k)[k - 1] == Use(t0, true);
    TakeAtLast(before);
  }

  /** A new bucket serves its whole burst at once, and no more: of `k` takes at the instant of its
      creation the first `burst` succeed. */
  lemma {:induction false} BurstServed(burst: nat, refill: nat, t0: nat, k: nat)
    requires burst > 0 && refill > 0
    ensures
      var n := if k <= burst then k else burst;
      Spend(NewBucket(burst, refill, t0), AtOnce(t0, k)) == (Bucket(burst - n, burst, refill, t0), n)
  {
    if k > 0 {
      var m := if k - 1 <= burst then k - 1 else burst;
      BurstServed(burst, refill, t0, k - 1);
      OneMore(NewBucket(burst, refill, t0), Bucket(burst - m, burst, refill, t0), m, t0, k);
    }
  }
}
