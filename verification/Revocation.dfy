/** Quorum-authorised identity retirement (src/core/revocation.rs): policy verification, and
    the journal that concurrent starts check and replace under a lock file. */
module Revocation {
  import opened Prelude
  import opened Identity
  import opened Consensus

  const MAX_REVOKED_IDENTITIES: nat := 512
  const MAX_POLICY_SIGNATURES: nat := 16
  const POLICY_VERSION: nat := 2

  /** The digest of an authority set is injective, so it is modelled by the set itself. */
  datatype RevocationPolicy = RevocationPolicy(
    version: nat, generation: nat, authoritySet: Authorities, revoked: seq<Pin>, signatures: seq<AuthoritySignature>)

  function PolicyDigest(p: RevocationPolicy): PolicyContent {
    PolicyContent(p.version, p.generation, p.authoritySet, multiset(p.revoked))
  }

  // ---- shape ----

  ghost predicate DistinctPins(s: seq<Pin>, k: nat)
    requires k <= |s|
  {
    forall i, j :: 0 <= i < j < k ==> s[i] != s[j]
  }

  ghost predicate RealPins(s: seq<Pin>, k: nat)
    requires k <= |s|
  {
    forall i :: 0 <= i < k ==> s[i] != ZeroPin
  }

  ghost predicate SignaturesShaped(votes: seq<AuthoritySignature>, k: nat)
    requires k <= |votes|
  {
    forall i :: 0 <= i < k ==> 1 <= |votes[i].authorityId| <= 128 && votes[i].proof.sized
  }

  ghost predicate WellShaped(p: RevocationPolicy) {
    && p.version == POLICY_VERSION && p.generation != 0
    && |p.revoked| <= MAX_REVOKED_IDENTITIES && |p.signatures| <= MAX_POLICY_SIGNATURES
    && RealPins(p.revoked, |p.revoked|) && DistinctPins(p.revoked, |p.revoked|)
    && SignaturesShaped(p.signatures, |p.signatures|)
  }

  method CheckIdentities(revoked: seq<Pin>) returns (ok: bool)
    ensures ok <==> RealPins(revoked, |revoked|) && DistinctPins(revoked, |revoked|)
  {
    var identities: set<Pin> := {};
    for k := 0 to |revoked|
      invariant RealPins(revoked, k) && DistinctPins(revoked, k)
      invariant identities == set i | 0 <= i < k :: revoked[i]
    {
      if revoked[k] == ZeroPin || revoked[k] in identities {
        return false;
      }
      identities := identities + {revoked[k]};
    }
    return true;
  }

  method ValidateShape(p: RevocationPolicy) returns (ok: bool)
    ensures ok <==> WellShaped(p)
  {
    if p.version != POLICY_VERSION || p.generation == 0 || |p.revoked| > MAX_REVOKED_IDENTITIES
       || |p.signatures| > MAX_POLICY_SIGNATURES {
      return false;
    }
    var identities := CheckIdentities(p.revoked);
    if !identities {
      return false;
    }
    for k := 0 to |p.signatures|
      invariant SignaturesShaped(p.signatures, k)
    {
      if |p.signatures[k].authorityId| == 0 || |p.signatures[k].authorityId| > 128 || !p.signatures[k].proof.sized {
        return false;
      }
    }
    return true;
  }

  // ---- verification ----

  predicate Approves(digest: PolicyContent, keys: Authorities, v: AuthoritySignature) {
    v.authorityId in keys && Verifies(keys[v.authorityId], SignedPolicy(digest), v.proof)
  }

  ghost function Signers(digest: PolicyContent, keys: Authorities, votes: seq<AuthoritySignature>, k: nat): set<Pin>
    requires k <= |votes|
  {
    set i | 0 <= i < k && Approves(digest, keys, votes[i]) :: keys[votes[i].authorityId]
  }

  /** No two approving signatures, not even two copies of one, share a key component. */
  ghost predicate NoAlias(digest: PolicyContent, keys: Authorities, votes: seq<AuthoritySignature>, k: nat)
    requires k <= |votes|
  {
    forall i, j :: 0 <= i < j < k && Approves(digest, keys, votes[i]) && Approves(digest, keys, votes[j]) ==>
      votes[i].proof.classical != votes[j].proof.classical && votes[i].proof.pq != votes[j].proof.pq
  }

  ghost predicate ProperAuthorities(keys: Authorities, quorum: nat) {
    && 0 < |keys| <= 16 && DistinctKeys(keys) && ZeroPin !in keys.Values
    && 2 * |keys| / 3 < quorum <= |keys|
  }

  /** What a verified policy means. */
  ghost predicate Approved(p: RevocationPolicy, keys: Authorities, quorum: nat) {
    && WellShaped(p) && ProperAuthorities(keys, quorum) && p.authoritySet == keys
    && NoAlias(PolicyDigest(p), keys, p.signatures, |p.signatures|)
    && quorum <= |Signers(PolicyDigest(p), keys, p.signatures, |p.signatures|)|
  }

  ghost function ClassicalsOf(digest: PolicyContent, keys: Authorities, votes: seq<AuthoritySignature>, k: nat): set<nat>
    requires k <= |votes|
  {
    set i | 0 <= i < k && Approves(digest, keys, votes[i]) :: votes[i].proof.classical
  }

  ghost function PqsOf(digest: PolicyContent, keys: Authorities, votes: seq<AuthoritySignature>, k: nat): set<nat>
    requires k <= |votes|
  {
    set i | 0 <= i < k && Approves(digest, keys, votes[i]) :: votes[i].proof.pq
  }

  lemma NoAliasNext(digest: PolicyContent, keys: Authorities, votes: seq<AuthoritySignature>, k: nat)
    requires k < |votes| && NoAlias(digest, keys, votes, k)
    ensures NoAlias(digest, keys, votes, k + 1) <==>
      (Approves(digest, keys, votes[k]) ==>
         && votes[k].proof.classical !in ClassicalsOf(digest, keys, votes, k)
         && votes[k].proof.pq !in PqsOf(digest, keys, votes, k))
  {
  }

  lemma SetsNext(digest: PolicyContent, keys: Authorities, votes: seq<AuthoritySignature>, k: nat)
    requires k < |votes|
    ensures
      var yes := Approves(digest, keys, votes[k]);
      && Signers(digest, keys, votes, k + 1) ==
         Signers(digest, keys, votes, k) + (if yes then {keys[votes[k].authorityId]} else {})
      && ClassicalsOf(digest, keys, votes, k + 1) ==
         ClassicalsOf(digest, keys, votes, k) + (if yes then {votes[k].proof.classical} else {})
      && PqsOf(digest, keys, votes, k + 1) ==
         PqsOf(digest, keys, votes, k) + (if yes then {votes[k].proof.pq} else {})
  {
  }

  /** The signature loop; `None` is its early refusal of an aliased or repeated signer. */
  method CountSigners(digest: PolicyContent, keys: Authorities, votes: seq<AuthoritySignature>) returns (count: Option<nat>)
    ensures count.Some? <==> NoAlias(digest, keys, votes, |votes|)
    ensures count.Some? ==> count.value == |Signers(digest, keys, votes, |votes|)|
  {
    var signers: set<Pin> := {};
    var classicalKeys: set<nat> := {};
    var pqKeys: set<nat> := {};
    for k := 0 to |votes|
      invariant NoAlias(digest, keys, votes, k) && signers == Signers(digest, keys, votes, k)
      invariant classicalKeys == ClassicalsOf(digest, keys, votes, k) && pqKeys == PqsOf(digest, keys, votes, k)
    {
      var v := votes[k];
      NoAliasNext(digest, keys, votes, k);
      SetsNext(digest, keys, votes, k);
      if Approves(digest, keys, v) {
        if v.proof.classical in classicalKeys || v.proof.pq in pqKeys {
          return None;
        }
        classicalKeys, pqKeys := classicalKeys + {v.proof.classical}, pqKeys + {v.proof.pq};
        signers := signers + {keys[v.authorityId]};
      }
    }
    return Some(|signers|);
  }

  method VerifyPolicy(p: RevocationPolicy, keys: Authorities, quorum: nat) returns (ok: bool)
    ensures ok <==> Approved(p, keys, quorum)
  {
    var shaped := ValidateShape(p);
    if !shaped {
      return false;
    }
    DistinctValues(keys);
    if |keys| == 0 || |keys| > 16 || |keys.Values| != |keys| || ZeroPin in keys.Values
       || quorum <= 2 * |keys| / 3 || quorum > |keys| || p.authoritySet != keys {
      return false;
    }
    var count := CountSigners(PolicyDigest(p), keys, p.signatures);
    return count.Some? && count.value >= quorum;
  }

  // ---- what an approval covers ----

  /** The policies say the same, but for the order of the retired identities. */
  ghost predicate SameTerms(p: RevocationPolicy, q: RevocationPolicy) {
    && p.version == q.version && p.generation == q.generation && p.authoritySet == q.authoritySet
    && multiset(p.revoked) == multiset(q.revoked)
  }

  /** Two policies have one digest exactly when their terms are the same. */
  lemma PolicyDigestMeaning(p: RevocationPolicy, q: RevocationPolicy)
    ensures PolicyDigest(p) == PolicyDigest(q) <==> SameTerms(p, q)
  {
  }

  /** What each honest authority has signed, by key: none of their signatures is for anything else. */
  ghost predicate SignedOnly(honest: map<Pin, set<RevocationPolicy>>, p: RevocationPolicy) {
    forall i, d, k :: 0 <= i < |p.signatures| && k in honest && Verifies(k, SignedPolicy(d), p.signatures[i].proof) ==>
      exists q :: q in honest[k] && PolicyDigest(q) == d
  }

  /** An approval cannot be moved to another list: if fewer keys than the quorum are dishonest,
      an approved policy retires exactly what some honest authority signed for, at the same
      generation and for the same authorities. */
  lemma ApprovalIsForTheseTerms(p: RevocationPolicy, keys: Authorities, quorum: nat, honest: map<Pin, set<RevocationPolicy>>)
    requires Approved(p, keys, quorum) && SignedOnly(honest, p) && |keys.Values - honest.Keys| < quorum
    ensures exists k, q :: k in keys.Values && k in honest && q in honest[k] && SameTerms(p, q)
  {
    var digest, n := PolicyDigest(p), |p.signatures|;
    var signers := Signers(digest, keys, p.signatures, n);
    if signers <= keys.Values - honest.Keys {
      SubsetSize(signers, keys.Values - honest.Keys);
      assert false;
    }
    var k :| k in signers && k !in keys.Values - honest.Keys;
    var i :| 0 <= i < n && Approves(digest, keys, p.signatures[i]) && keys[p.signatures[i].authorityId] == k;
    assert k in keys.Values && Verifies(k, SignedPolicy(digest), p.signatures[i].proof);
    var q :| q in honest[k] && PolicyDigest(q) == digest;
    PolicyDigestMeaning(p, q);
    assert SameTerms(p, q);
  }

  /** Signatures that were made for `q` approve no policy with other terms. */
  lemma SignaturesDoNotMove(p: RevocationPolicy, q: RevocationPolicy, keys: Authorities, quorum: nat)
    requires Approved(p, keys, quorum)
    requires forall i :: 0 <= i < |p.signatures| ==> p.signatures[i].proof.signed == Some(SignedPolicy(PolicyDigest(q)))
    ensures SameTerms(p, q)
  {
    var signers := Signers(PolicyDigest(p), keys, p.signatures, |p.signatures|);
    assert signers != {};
    var k :| k in signers;
    var i :| 0 <= i < |p.signatures| && Approves(PolicyDigest(p), keys, p.signatures[i]);
    PolicyDigestMeaning(p, q);
  }
}
