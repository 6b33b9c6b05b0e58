/** Proof-of-work freshness and the nonce registry (src/mesh/sybil.rs): a proof is never
    admitted twice, under any clock. */
module Nonces {
  import opened Prelude

  const MAX_DRIFT := 300
  const PURGE_INTERVAL := 10
  const MAX_RECORDS := 100_000
  const RETENTION := 2 * MAX_DRIFT

  type Key = (bytes, nat)

  datatype Registry = Registry(seen: map<Key, nat>, lastPurge: nat)

  const EMPTY := Registry(map[], 0)

  predicate Within(a: nat, b: nat, limit: nat) {
    a <= b + limit && b <= a + limit
  }

  /** `verify_pow`; `work` says whether the hash has enough leading zero bits. */
  predicate VerifyPow(timestamp: nat, work: bool, now: nat) {
    Within(now, timestamp, MAX_DRIFT) && work
  }

  /** The periodic purge, for a given retention time. */
  function Purged(retention: nat, reg: Registry, now: nat): Registry {
    if SaturatingSub(now, reg.lastPurge) >= PURGE_INTERVAL then
      Registry(map k | k in reg.seen && SaturatingSub(now, reg.seen[k]) <= retention :: reg.seen[k], now)
    else reg
  }

  /** `check_and_record` for a given retention time: the new registry, and whether
      admission is refused. */
  function Observe(retention: nat, reg: Registry, node: bytes, nonce: nat, now: nat): (Registry, bool) {
    if node == [] || |node| > 128 || now < reg.lastPurge then (reg, true)
    else
      var purged := Purged(retention, reg, now);
      if (node, nonce) in purged.seen || |purged.seen| >= MAX_RECORDS then (purged, true)
      else (purged.(seen := purged.seen[(node, nonce) := now]), false)
  }

  class NonceRegistry {
    var seen: map<Key, nat>
    var lastPurge: nat

    constructor ()
      ensures Registry(seen, lastPurge) == EMPTY
    {
      seen, lastPurge := map[], 0;
    }

    /** Returns true when admission must be refused. */
    method CheckAndRecord(node: bytes, nonce: nat, now: nat) returns (refused: bool)
      modifies this
      ensures (Registry(seen, lastPurge), refused) ==
        Observe(RETENTION, Registry(old(seen), old(lastPurge)), node, nonce, now)
      ensures |seen| <= MAX_RECORDS || |seen| <= old(|seen|)
    {
      ghost var before := Registry(seen, lastPurge);
      if node == [] || |node| > 128 {
        return true;
      }
      if now < lastPurge {
        return true;
      }
      if SaturatingSub(now, lastPurge) >= PURGE_INTERVAL {
        seen := map k | k in seen && SaturatingSub(now, seen[k]) <= MAX_DRIFT * 2 :: seen[k];
        lastPurge := now;
        SubsetSize(seen.Keys, before.seen.Keys);
      }
      assert Registry(seen, lastPurge) == Purged(RETENTION, before, now);
      if (node, nonce) in seen || |seen| >= MAX_RECORDS {
        return true;
      }
      seen := seen[(node, nonce) := now];
      return false;
    }
  }

  /** One registration attempt. `reaches` is false when a check between the two calls
      turned the attempt away; the clock is arbitrary. */
  datatype Attempt = Attempt(node: bytes, timestamp: nat, nonce: nat, work: bool, now: nat, reaches: bool)

  datatype ProofId = ProofId(node: bytes, timestamp: nat, nonce: nat)

  function IdOf(a: Attempt): ProofId {
    ProofId(a.node, a.timestamp, a.nonce)
  }

  predicate Checked(a: Attempt) {
    VerifyPow(a.timestamp, a.work, a.now) && a.reaches
  }

  predicate Admits(retention: nat, reg: Registry, a: Attempt) {
    Checked(a) && !Observe(retention, reg, a.node, a.nonce, a.now).1
  }

  function Next(retention: nat, reg: Registry, a: Attempt): Registry {
    if Checked(a) then Observe(retention, reg, a.node, a.nonce, a.now).0 else reg
  }

  function Run(retention: nat, attempts: seq<Attempt>): Registry {
    if attempts == [] then EMPTY
    else Next(retention, Run(retention, attempts[..|attempts| - 1]), attempts[|attempts| - 1])
  }

  predicate AdmittedAt(retention: nat, attempts: seq<Attempt>, i: nat)
    requires i < |attempts|
  {
    Admits(retention, Run(retention, attempts[..i]), attempts[i])
  }

  /** The proof is still on record, or is too old for any clock the registry will accept. */
  ghost predicate Spent(reg: Registry, p: ProofId) {
    || ((p.node, p.nonce) in reg.seen && reg.seen[(p.node, p.nonce)] + MAX_DRIFT >= p.timestamp)
    || reg.lastPurge > p.timestamp + MAX_DRIFT
  }

  lemma SpentStays(retention: nat, reg: Registry, a: Attempt, p: ProofId)
    requires retention >= RETENTION && Spent(reg, p)
    ensures Spent(Next(retention, reg, a), p)
    ensures IdOf(a) == p ==> !Admits(retention, reg, a)
  {
  }

  lemma AdmissionSpends(retention: nat, reg: Registry, a: Attempt)
    requires Admits(retention, reg, a)
    ensures Spent(Next(retention, reg, a), IdOf(a))
  {
  }

  lemma {:induction false} SpentUntil(retention: nat, attempts: seq<Attempt>, i: nat, j: nat)
    requires retention >= RETENTION && i < j <= |attempts| && AdmittedAt(retention, attempts, i)
    ensures Spent(Run(retention, attempts[..j]), IdOf(attempts[i]))
    decreases j
  {
    assert attempts[..j][..j - 1] == attempts[..j - 1];
    if j == i + 1 {
      AdmissionSpends(retention, Run(retention, attempts[..i]), attempts[i]);
    } else {
      SpentUntil(retention, attempts, i, j - 1);
      SpentStays(retention, Run(retention, attempts[..j - 1]), attempts[j - 1], IdOf(attempts[i]));
    }
  }

  /** No replay under any clock: over every sequence of attempts, with times that may even
      go backwards, one proof is never admitted twice. */
  lemma NoReplay(retention: nat, attempts: seq<Attempt>, i: nat, j: nat)
    requires retention >= RETENTION
    requires i < j < |attempts| && IdOf(attempts[i]) == IdOf(attempts[j])
    requires AdmittedAt(retention, attempts, i)
    ensures !AdmittedAt(retention, attempts, j)
  {
    SpentUntil(retention, attempts, i, j);
    SpentStays(retention, Run(retention, attempts[..j]), attempts[j], IdOf(attempts[i]));
  }

  /** No run admits two attempts with the same proof. */
  ghost predicate ReplaySafe(retention: nat) {
    forall attempts, i, j |
      0 <= i < j < |attempts| && IdOf(attempts[i]) == IdOf(attempts[j]) && AdmittedAt(retention, attempts, i)
      :: !AdmittedAt(retention, attempts, j)
  }

  /** Two attempts with one future-dated proof, at the first and last second of its life. */
  function ReplayRun(): seq<Attempt> {
    [Attempt([97], 1300, 7, true, 1000, true), Attempt([97], 1300, 7, true, 1600, true)]
  }

  /** The registry is replay-safe exactly when records live for two full drift windows. */
  lemma RetentionIsExact(retention: nat)
    ensures ReplaySafe(retention) <==> retention >= RETENTION
  {
    if retention >= RETENTION {
      forall attempts: seq<Attempt>, i: nat, j: nat
        | i < j < |attempts| && IdOf(attempts[i]) == IdOf(attempts[j]) && AdmittedAt(retention, attempts, i)
        ensures !AdmittedAt(retention, attempts, j)
      {
        NoReplay(retention, attempts, i, j);
      }
    } else {
      var run := ReplayRun();
      var first := Registry(map[([97 as byte], 7) := 1000], 1000);
      assert run[..0] == [] && run[..1][..0] == [];
      assert Purged(retention, EMPTY, 1000) == Registry(map[], 1000);
      assert Run(retention, run[..1]) == Next(retention, EMPTY, run[0]) == first;
      assert Purged(retention, first, 1600) == Registry(map[], 1600);
      assert AdmittedAt(retention, run, 0) && AdmittedAt(retention, run, 1);
    }
  }

  // ---- what is admitted ----

  /** The records that still count: all of them within ten seconds of the last purge, and
      otherwise those at most `retention` seconds old. */
  ghost function Remembered(retention: nat, reg: Registry, now: nat): set<Key> {
    set k | k in reg.seen && (now < reg.lastPurge + 10 || now <= reg.seen[k] + retention)
  }

  /** A nonce is refused exactly when the node name is empty or too long, the clock is behind the
      last purge, the nonce is still remembered for this node, or the records are full. An
      admission adds one record to those remembered. */
  lemma ObserveExactly(retention: nat, reg: Registry, node: bytes, nonce: nat, now: nat)
    ensures
      var (next, refused) := Observe(retention, reg, node, nonce, now);
      var remembered := Remembered(retention, reg, now);
      && (refused <==>
            || !(1 <= |node| <= 128) || now < reg.lastPurge
            || (node, nonce) in remembered || |remembered| >= 100_000)
      && (!refused ==>
            && next.seen.Keys == remembered + {(node, nonce)} && next.seen[(node, nonce)] == now
            && forall k :: k in remembered ==> next.seen[k] == reg.seen[k])
      && reg.lastPurge <= next.lastPurge <= (if now < reg.lastPurge then reg.lastPurge else now)
  {
    if now >= reg.lastPurge {
      var purged := Purged(retention, reg, now);
      assert purged.seen.Keys == Remembered(retention, reg, now);
      assert |purged.seen| == |purged.seen.Keys|;
    }
  }

  /** No earlier attempt used this nonce for this node. */
  ghost predicate FirstUse(attempts: seq<Attempt>, i: nat)
    requires i < |attempts|
  {
    forall j :: 0 <= j < i ==> attempts[j].node != attempts[i].node || attempts[j].nonce != attempts[i].nonce
  }

  ghost predicate LatestClock(attempts: seq<Attempt>, i: nat)
    requires i < |attempts|
  {
    forall j :: 0 <= j < i ==> attempts[j].now <= attempts[i].now
  }

  ghost predicate Comes(attempts: seq<Attempt>, k: Key) {
    exists j :: 0 <= j < |attempts| && k == (attempts[j].node, attempts[j].nonce)
  }

  ghost predicate PurgedBy(attempts: seq<Attempt>, at: nat) {
    at == 0 || exists j :: 0 <= j < |attempts| && at <= attempts[j].now
  }

  /** Every record comes from an attempt, there are no more records than attempts, and the last
      purge was no later than some attempt. */
  lemma {:induction false} RecordsCome(retention: nat, attempts: seq<Attempt>)
    ensures
      var reg := Run(retention, attempts);
      && (forall k :: k in reg.seen ==> Comes(attempts, k))
      && |reg.seen| <= |attempts| && PurgedBy(attempts, reg.lastPurge)
  {
    if attempts != [] {
      var n := |attempts| - 1;
      var front, a := attempts[..n], attempts[n];
      var reg, next := Run(retention, front), Run(retention, attempts);
      RecordsCome(retention, front);
      ObserveExactly(retention, reg, a.node, a.nonce, a.now);
      assert next.seen.Keys <= reg.seen.Keys + {(a.node, a.nonce)};
      SubsetSize(next.seen.Keys, reg.seen.Keys + {(a.node, a.nonce)});
      assert |next.seen| == |next.seen.Keys| && |reg.seen| == |reg.seen.Keys|;
      forall k | k in next.seen ensures Comes(attempts, k) {
        if k in reg.seen {
          var j :| 0 <= j < |front| && k == (front[j].node, front[j].nonce);
          assert attempts[j] == front[j];
        } else {
          assert k == (attempts[n].node, attempts[n].nonce);
        }
      }
      if reg.lastPurge != 0 {
        var j :| 0 <= j < |front| && reg.lastPurge <= front[j].now;
        assert attempts[j] == front[j];
      }
      assert next.lastPurge <= reg.lastPurge || next.lastPurge <= attempts[n].now;
    }
  }

  /** A first proof is admitted: among the first 100 000 attempts, one that passes the other
      checks, uses a new nonce and has the latest clock so far is never refused. */
  lemma FirstProofAdmitted(retention: nat, attempts: seq<Attempt>, i: nat)
    requires i < |attempts| && i < 100_000 && Checked(attempts[i]) && 1 <= |attempts[i].node| <= 128
    requires FirstUse(attempts, i) && LatestClock(attempts, i)
    ensures AdmittedAt(retention, attempts, i)
  {
    var front, a := attempts[..i], attempts[i];
    var reg := Run(retention, front);
    RecordsCome(retention, front);
    ObserveExactly(retention, reg, a.node, a.nonce, a.now);
    var remembered := Remembered(retention, reg, a.now);
    SubsetSize(remembered, reg.seen.Keys);
    assert |reg.seen| == |reg.seen.Keys|;
    if reg.lastPurge != 0 {
      var j :| 0 <= j < |front| && reg.lastPurge <= front[j].now;
      assert attempts[j] == front[j];
    }
  }
}
