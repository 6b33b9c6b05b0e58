/** Quorum verification and signature merging (src/mesh/consensus.rs). */
module Consensus {
  import opened Prelude
  import opened Directory
  import opened Identity

  type Authorities = map<string, Pin>

  /** A signature that counts: a trusted id whose key verifies it for this digest. */
  predicate CountsFor(digest: Digest, trusted: Authorities, v: AuthoritySignature) {
    v.authorityId in trusted && Verifies(trusted[v.authorityId], SignedDigest(digest), v.proof)
  }

  /** The distinct trusted keys with a verifying signature. */
  ghost function VotersOf(digest: Digest, trusted: Authorities, votes: seq<AuthoritySignature>): set<Pin> {
    set v | v in votes && CountsFor(digest, trusted, v) :: trusted[v.authorityId]
  }

  ghost function Voters(d: ConsensusDocument, trusted: Authorities): set<Pin> {
    VotersOf(Canonical(d), trusted, d.signatures)
  }

  ghost predicate Independent(keys: set<Pin>) {
    forall p, q :: p in keys && q in keys && p.Pin? && q.Pin? && p != q ==>
      p.classical != q.classical && p.pq != q.pq
  }

  /** What a verified quorum means, with no reference to signature order, repeats or ids. */
  ghost predicate HasQuorum(d: ConsensusDocument, trusted: Authorities, threshold: nat, now: nat) {
    && 0 < threshold && d.validAfter <= now < d.validUntil
    && threshold <= |Voters(d, trusted)|
    && Independent(Voters(d, trusted))
  }

  lemma VotersAppend(digest: Digest, trusted: Authorities, votes: seq<AuthoritySignature>, v: AuthoritySignature)
    ensures VotersOf(digest, trusted, votes + [v]) ==
      VotersOf(digest, trusted, votes) + if CountsFor(digest, trusted, v) then {trusted[v.authorityId]} else {}
  {
  }

  /** Voters are trusted keys, and none is the zero pin. */
  lemma VotersTrusted(digest: Digest, trusted: Authorities, votes: seq<AuthoritySignature>)
    ensures VotersOf(digest, trusted, votes) <= trusted.Values
    ensures forall p :: p in VotersOf(digest, trusted, votes) ==> p.Pin?
  {
  }

  ghost function Classicals(keys: set<Pin>): set<nat> {
    set p | p in keys && p.Pin? :: p.classical
  }

  ghost function PostQuantums(keys: set<Pin>): set<nat> {
    set p | p in keys && p.Pin? :: p.pq
  }

  /** Adding a key keeps a set independent exactly when neither component is taken. */
  lemma IndependentNext(keys: set<Pin>, key: Pin)
    requires Independent(keys) && key.Pin? && key !in keys
    ensures Independent(keys + {key}) <==> key.classical !in Classicals(keys) && key.pq !in PostQuantums(keys)
    ensures Classicals(keys + {key}) == Classicals(keys) + {key.classical}
    ensures PostQuantums(keys + {key}) == PostQuantums(keys) + {key.pq}
  {
  }

  lemma DependentGrows(small: set<Pin>, large: set<Pin>)
    requires small <= large && !Independent(small)
    ensures !Independent(large)
  {
  }

  lemma {:induction false} PrefixVoters(digest: Digest, trusted: Authorities, votes: seq<AuthoritySignature>, k: nat)
    requires k <= |votes|
    ensures VotersOf(digest, trusted, votes[..k]) <= VotersOf(digest, trusted, votes)
  {
  }

  /** The counting loop of `verify_quorum`; `None` is its early refusal when two voters
      share a key component. */
  method CountVoters(digest: Digest, trusted: Authorities, votes: seq<AuthoritySignature>)
    returns (count: Option<nat>)
    ensures count.Some? <==> Independent(VotersOf(digest, trusted, votes))
    ensures count.Some? ==> count.value == |VotersOf(digest, trusted, votes)|
  {
    var validCount := 0;
    var verifiedAuthorities: seq<string> := [];
    var verifiedKeys: set<Pin> := {};
    var classicalKeys: set<nat> := {};
    var pqKeys: set<nat> := {};
    for k := 0 to |votes|
      invariant verifiedKeys == VotersOf(digest, trusted, votes[..k])
      invariant validCount == |verifiedKeys|
      invariant Independent(verifiedKeys)
      invariant classicalKeys == Classicals(verifiedKeys) && pqKeys == PostQuantums(verifiedKeys)
      invariant forall id :: id in verifiedAuthorities ==> id in trusted && trusted[id] in verifiedKeys
    {
      var v := votes[k];
      assert votes[..k + 1] == votes[..k] + [v];
      VotersAppend(digest, trusted, votes[..k], v);
      if v.authorityId in verifiedAuthorities {
        continue;
      }
      if CountsFor(digest, trusted, v) {
        var key := trusted[v.authorityId];
        if key !in verifiedKeys {
          IndependentNext(verifiedKeys, key);
          verifiedKeys := verifiedKeys + {key};
          if v.proof.classical in classicalKeys || v.proof.pq in pqKeys {
            PrefixVoters(digest, trusted, votes, k + 1);
            DependentGrows(verifiedKeys, VotersOf(digest, trusted, votes));
            return None;
          }
          classicalKeys := classicalKeys + {v.proof.classical};
          pqKeys := pqKeys + {v.proof.pq};
          validCount := validCount + 1;
          verifiedAuthorities := verifiedAuthorities + [v.authorityId];
        }
      }
    }
    assert votes[..|votes|] == votes;
    return Some(validCount);
  }

  /** `verify_quorum` decides exactly `HasQuorum`: signature order, repeats and id
      aliases do not matter. */
  method VerifyQuorum(d: ConsensusDocument, trusted: Authorities, threshold: nat, now: nat) returns (ok: bool)
    ensures ok <==> HasQuorum(d, trusted, threshold, now)
  {
    if threshold == 0 || d.validAfter >= d.validUntil {
      return false;
    }
    if now < d.validAfter || now >= d.validUntil {
      return false;
    }
    var count := CountVoters(Canonical(d), trusted, d.signatures);
    return count.Some? && count.value >= threshold;
  }

  function Ids(votes: seq<AuthoritySignature>): set<string> {
    set v | v in votes :: v.authorityId
  }

  /** The signatures of `other` under ids that `held` does not have. */
  function NewVotes(held: set<string>, other: seq<AuthoritySignature>): seq<AuthoritySignature> {
    Filter((v: AuthoritySignature) => v.authorityId !in held, other)
  }

  /** `merge_signatures_from` as a function of the two documents. */
  function Merged(d: ConsensusDocument, other: ConsensusDocument): ConsensusDocument {
    if Canonical(d) != Canonical(other) then d
    else d.(signatures := d.signatures + NewVotes(Ids(d.signatures), other.signatures))
  }

  lemma {:induction false} NewVotesAppend(held: set<string>, votes: seq<AuthoritySignature>, v: AuthoritySignature)
    ensures NewVotes(held, votes + [v]) == NewVotes(held, votes) + if v.authorityId in held then [] else [v]
  {
    if votes == [] {
      assert [v][1..] == [];
    } else {
      assert (votes + [v])[1..] == votes[1..] + [v];
      NewVotesAppend(held, votes[1..], v);
    }
  }

  method MergeSignaturesFrom(d: ConsensusDocument, other: ConsensusDocument)
    returns (merged: ConsensusDocument, added: nat)
    ensures merged == Merged(d, other)
    ensures |merged.signatures| == |d.signatures| + added
    ensures Canonical(d) != Canonical(other) ==> merged == d
    ensures Canonical(d) == Canonical(other) ==> d.signatures <= merged.signatures && forall v :: v in merged.signatures <==>
      v in d.signatures || (v in other.signatures && forall w :: w in d.signatures ==> w.authorityId != v.authorityId)
  {
    merged, added := d, 0;
    if Canonical(d) != Canonical(other) {
      return;
    }
    var existing := Ids(d.signatures);
    for k := 0 to |other.signatures|
      invariant merged == d.(signatures := d.signatures + NewVotes(existing, other.signatures[..k]))
      invariant |merged.signatures| == |d.signatures| + added
    {
      var v := other.signatures[k];
      assert other.signatures[..k + 1] == other.signatures[..k] + [v];
      NewVotesAppend(existing, other.signatures[..k], v);
      if v.authorityId !in existing {
        merged := merged.(signatures := merged.signatures + [v]);
        added := added + 1;
      }
    }
    assert other.signatures[..|other.signatures|] == other.signatures;
  }

  /** Merging never changes what a document says, and takes nothing from another digest. */
  lemma MergeKeepsContent(d: ConsensusDocument, other: ConsensusDocument)
    ensures Canonical(Merged(d, other)) == Canonical(d)
    ensures Canonical(d) != Canonical(other) ==> Merged(d, other) == d
    ensures Merged(d, other).validAfter == d.validAfter && Merged(d, other).validUntil == d.validUntil
  {
  }

  /** Exactly which voters a merge yields: those already counted, and those of `other`
      with a verifying signature under an id not already present. */
  lemma MergeVoters(d: ConsensusDocument, other: ConsensusDocument, trusted: Authorities)
    requires Canonical(d) == Canonical(other)
    ensures Voters(Merged(d, other), trusted) == Voters(d, trusted) +
      set v | v in other.signatures && CountsFor(Canonical(other), trusted, v) && v.authorityId !in Ids(d.signatures)
        :: trusted[v.authorityId]
  {
  }

  ghost predicate DistinctKeys(trusted: Authorities) {
    forall a, b :: a in trusted && b in trusted && trusted[a] == trusted[b] ==> a == b
  }

  /** The number of distinct values tells whether the keys are distinct. */
  lemma {:induction false} DistinctValues(keys: Authorities)
    ensures |keys.Values| == |keys| <==> DistinctKeys(keys)
    ensures |keys.Values| <= |keys|
    decreases |keys|
  {
    if keys != map[] {
      var id :| id in keys;
      var rest := keys - {id};
      DistinctValues(rest);
      assert |keys| == |rest| + 1 by { assert keys.Keys == rest.Keys + {id}; }
      assert keys.Values == rest.Values + {keys[id]} by {
        forall p | p in keys.Values ensures p in rest.Values + {keys[id]} {
          var i :| i in keys && keys[i] == p;
          if i != id { assert i in rest && rest[i] == p; }
        }
      }
      if keys[id] in rest.Values {
        var i :| i in rest && rest[i] == keys[id];
        assert i != id && !DistinctKeys(keys);
      } else {
        assert DistinctKeys(keys) <==> DistinctKeys(rest);
      }
    }
  }

  /** Merging yields the union of voters exactly when no useful signature of `other`
      is masked by a held signature, under the same id, that does not verify. */
  lemma MergeUnion(d: ConsensusDocument, other: ConsensusDocument, trusted: Authorities)
    requires Canonical(d) == Canonical(other) && DistinctKeys(trusted)
    ensures Voters(Merged(d, other), trusted) == Voters(d, trusted) + Voters(other, trusted) <==>
      forall v :: v in other.signatures && CountsFor(Canonical(other), trusted, v) && v.authorityId in Ids(d.signatures)
        ==> exists held :: held in d.signatures && held.authorityId == v.authorityId && CountsFor(Canonical(d), trusted, held)
  {
    MergeVoters(d, other, trusted);
    var u := Voters(Merged(d, other), trusted);
    forall v | v in other.signatures && CountsFor(Canonical(other), trusted, v) && v.authorityId in Ids(d.signatures)
      ensures trusted[v.authorityId] in u <==>
        exists held :: held in d.signatures && held.authorityId == v.authorityId && CountsFor(Canonical(d), trusted, held)
    {
      if trusted[v.authorityId] in u {
        assert trusted[v.authorityId] in Voters(d, trusted);
      }
    }
    assert forall v :: v in other.signatures && CountsFor(Canonical(other), trusted, v) ==>
      trusted[v.authorityId] in Voters(other, trusted);
  }

  /** A document that carries a worthless signature under an authority's id keeps that
      authority's genuine vote out of the merge. */
  lemma MaskedVoteIsLost(trusted: Authorities, id: string, content: ConsensusDocument)
    requires id in trusted && trusted[id].Pin?
    ensures
      var digest := Canonical(content);
      var genuine := Vote(id, Sign(trusted[id], SignedDigest(digest)));
      var worthless := Vote(id, Proof(true, 0, 0, false, None));
      var d, other := content.(signatures := [worthless]), content.(signatures := [genuine]);
      Voters(other, trusted) == {trusted[id]} && Voters(Merged(d, other), trusted) == {}
  {
  }
}
