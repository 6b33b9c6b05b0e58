/** Why the directory makes progress (src/mesh/authority.rs, src/mesh/pool.rs): authorities that
    see the same relays sign the same digest, and a quorum of such votes is a quorum for clients. */
module Convergence {
  import opened Prelude
  import opened Sorting
  import opened Directory
  import opened Address
  import opened Identity
  import opened Consensus
  import opened Votes
  import opened ClientPool

  lemma SameRelaysSameDigest(d: ConsensusDocument, e: ConsensusDocument)
    requires d.validAfter == e.validAfter && d.validUntil == e.validUntil
    requires DistinctIds(d.relays) && multiset(d.relays) == multiset(e.relays)
    ensures Canonical(d) == Canonical(e)
  {
    ByIdPreorder<Host, Pin, Proof>();
    forall i, j | 0 <= i < |d.relays| && 0 <= j < |d.relays| && ById(d.relays[i], d.relays[j]) && ById(d.relays[j], d.relays[i])
      ensures d.relays[i] == d.relays[j]
    {
      LexTotal(d.relays[i].nodeId, d.relays[j].nodeId);
    }
    SortDetermined(ById<Host, Pin, Proof>, d.relays, e.relays);
  }

  /** The relays electable at two calls are the same, each as often. */
  ghost predicate SameView(policy: Policy, now: nat, relays: seq<Relay>, policy': Policy, now': nat, relays': seq<Relay>) {
    forall r :: (if Electable(policy, now, r) then multiset(relays)[r] else 0) ==
                (if Electable(policy', now', r) then multiset(relays')[r] else 0)
  }

  /** Two authorities that make their votes for an epoch from the same electable relays, in any
      order and whatever else they list, sign the same digest. */
  lemma SameViewSameDigest(a: Signer, policy: Policy, store: Store, relays: seq<Relay>, now: nat, outcome: WriteOutcome,
                           b: Signer, policy': Policy, store': Store, relays': seq<Relay>, now': nat, outcome': WriteOutcome)
    requires a.key.Pin? && b.key.Pin? && now - now % 300 == now' - now' % 300
    requires now - now % 300 !in store.memory && now' - now' % 300 !in store'.memory
    requires Freeze(a, policy, store, relays, now, outcome).1.Ok? && Freeze(b, policy', store', relays', now', outcome').1.Ok?
    requires SameView(policy, now, relays, policy', now', relays')
    requires DistinctIds(Freeze(a, policy, store, relays, now, outcome).1.value.relays)
    ensures Canonical(Freeze(a, policy, store, relays, now, outcome).1.value) ==
            Canonical(Freeze(b, policy', store', relays', now', outcome').1.value)
  {
    FreezeMeaning(a, policy, store, relays, now, outcome);
    FreezeMeaning(b, policy', store', relays', now', outcome');
    FreezeRecords(a, policy, store, relays, now, outcome);
    FreezeRecords(b, policy', store', relays', now', outcome');
    var d, e := Freeze(a, policy, store, relays, now, outcome).1.value, Freeze(b, policy', store', relays', now', outcome').1.value;
    forall r ensures multiset(d.relays)[r] == multiset(e.relays)[r] {
    }
    SameRelaysSameDigest(d, e);
  }

  /** Votes of different trusted authorities for one digest. */
  ghost predicate OneDigest(trusted: Authorities, signers: seq<Signer>, docs: seq<ConsensusDocument>, epoch: nat, g: Digest) {
    && |signers| == |docs|
    && (forall i :: 0 <= i < |docs| ==>
          && OwnVote(signers[i], epoch, docs[i]) && Canonical(docs[i]) == g
          && signers[i].id in trusted && trusted[signers[i].id] == signers[i].key)
    && (forall i, j :: 0 <= i < j < |docs| ==>
          && signers[i].id != signers[j].id
          && signers[i].key.classical != signers[j].key.classical && signers[i].key.pq != signers[j].key.pq)
  }

  lemma VoteBrings(trusted: Authorities, signers: seq<Signer>, docs: seq<ConsensusDocument>, epoch: nat, g: Digest, now: nat, k: nat)
    requires OneDigest(trusted, signers, docs, epoch, g) && epoch <= now < epoch + 600 && k < |docs|
    ensures
      var v := docs[k].signatures[0];
      && Contributes(docs[k], now, g) && Brings(docs, now, g, v, k) && CountsFor(g, trusted, v)
      && v in docs[k].signatures && v.authorityId == signers[k].id
  {
    ContributesExactly(docs[k], now, g);
    assert forall j :: 0 <= j < |docs| ==> OwnVote(signers[j], epoch, docs[j]);
    assert docs[k].signatures[0] in docs[k].signatures;
  }

  function KeyOf(s: Signer): Pin {
    s.key
  }

  lemma SignerVotes(trusted: Authorities, signers: seq<Signer>, docs: seq<ConsensusDocument>, epoch: nat, g: Digest, now: nat, k: nat)
    requires OneDigest(trusted, signers, docs, epoch, g) && epoch <= now < epoch + 600 && k < |docs|
    ensures signers[k].key in FirstVoters(docs, now, trusted, g)
  {
    VoteBrings(trusted, signers, docs, epoch, g, now, k);
  }

  lemma VoterSigned(trusted: Authorities, signers: seq<Signer>, docs: seq<ConsensusDocument>, epoch: nat, g: Digest, now: nat, p: Pin)
    requires OneDigest(trusted, signers, docs, epoch, g) && p in FirstVoters(docs, now, trusted, g)
    ensures p in Images(KeyOf, signers)
  {
    var k, v :| 0 <= k < |docs| && v in docs[k].signatures && CountsFor(g, trusted, v) && trusted[v.authorityId] == p;
    assert OwnVote(signers[k], epoch, docs[k]) && KeyOf(signers[k]) == p;
  }

  lemma AllVote(trusted: Authorities, signers: seq<Signer>, docs: seq<ConsensusDocument>, epoch: nat, g: Digest, now: nat)
    requires OneDigest(trusted, signers, docs, epoch, g) && epoch <= now < epoch + 600
    ensures FirstVoters(docs, now, trusted, g) == Images(KeyOf, signers)
  {
    var voters, keys := FirstVoters(docs, now, trusted, g), Images(KeyOf, signers);
    forall p | p in keys ensures p in voters {
      var k :| 0 <= k < |signers| && KeyOf(signers[k]) == p;
      SignerVotes(trusted, signers, docs, epoch, g, now, k);
    }
    forall p | p in voters ensures p in keys {
      VoterSigned(trusted, signers, docs, epoch, g, now, p);
    }
  }

  /** Progress: when enough trusted authorities with unrelated keys have voted for one digest, a
      client that gets their votes, in any order, has a quorum for it while the epoch is valid. */
  lemma VotesMakeQuorum(trusted: Authorities, threshold: nat, signers: seq<Signer>, docs: seq<ConsensusDocument>,
                        epoch: nat, g: Digest, now: nat)
    requires OneDigest(trusted, signers, docs, epoch, g) && epoch <= now < epoch + 600
    requires 0 < threshold <= |docs|
    ensures Quorate(Combined(docs, now), trusted, threshold, now, g)
  {
    AllVote(trusted, signers, docs, epoch, g, now);
    VoteBrings(trusted, signers, docs, epoch, g, now, 0);
    forall i, j | 0 <= i < j < |signers| ensures KeyOf(signers[i]) != KeyOf(signers[j]) {
      assert OwnVote(signers[i], epoch, docs[i]) && OwnVote(signers[j], epoch, docs[j]);
    }
    ImagesCount(KeyOf, signers);
    KeysIndependent(trusted, signers, docs, epoch, g);
    QuorateExactly(docs, trusted, threshold, now, g);
  }

  lemma KeysIndependent(trusted: Authorities, signers: seq<Signer>, docs: seq<ConsensusDocument>, epoch: nat, g: Digest)
    requires OneDigest(trusted, signers, docs, epoch, g)
    ensures Independent(Images(KeyOf, signers))
  {
    var keys := Images(KeyOf, signers);
    forall p, q | p in keys && q in keys && p != q ensures p.Pin? && q.Pin? && p.classical != q.classical && p.pq != q.pq {
      var i :| 0 <= i < |signers| && KeyOf(signers[i]) == p;
      var j :| 0 <= j < |signers| && KeyOf(signers[j]) == q;
      assert OwnVote(signers[i], epoch, docs[i]) && OwnVote(signers[j], epoch, docs[j]);
    }
  }
}
