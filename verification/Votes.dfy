/** A directory authority's frozen votes: one document per five-minute epoch, journalled
    before it is released (src/mesh/authority.rs, `frozen_view` and `with_persistent_key`). */
module Votes {
  import opened Prelude
  import opened Directory
  import opened Identity
  import opened Consensus

  const EPOCH_SECS := 300
  const VALIDITY_SECS := 600
  const RETAINED_SECS := 3600
  const RELAY_TTL_SECS := 7200
  const MAX_RETAINED_EPOCHS := 13

  /** Who signs: fixed for the life of the key file. */
  datatype Signer = Signer(id: string, key: Pin)

  /** Fixed for one process, may change at a restart. */
  datatype Policy = Policy(revoked: set<Pin>, requireUsable: bool)

  datatype VoteError =
    ClockRollback | RetiredInVote | UnusableVote | CapacityExceeded | VotingDeferred | CannotPersist

  /** `atomic_write` either succeeds, or fails with the old or the new file on disk. */
  datatype WriteOutcome = Written | FailedOld | FailedNew

  type VoteTable = map<nat, ConsensusDocument>

  /** The in-memory `signed_epochs` and the journal file. */
  datatype Store = Store(memory: VoteTable, journal: VoteTable)

  function EpochOf(now: nat): nat {
    now / EPOCH_SECS * EPOCH_SECS
  }

  predicate Fresh(policy: Policy, now: nat, r: Relay) {
    && r.pin !in policy.revoked && VerifyIdentity(r)
    && r.registeredAt <= now && now - r.registeredAt <= RELAY_TTL_SECS
  }

  function FreshRelays(policy: Policy, now: nat, relays: seq<Relay>): seq<Relay> {
    Filter((r: Relay) => Fresh(policy, now, r), relays)
  }

  predicate Usable(relays: seq<Relay>) {
    3 <= |relays| && exists i :: 0 <= i < |relays| && relays[i].isExit
  }

  function NewVote(signer: Signer, epoch: nat, relays: seq<Relay>): ConsensusDocument
    requires signer.key.Pin?
  {
    var unsigned := Document(epoch, epoch + VALIDITY_SECS, relays, []);
    unsigned.(signatures := [Vote(signer.id, Sign(signer.key, SignedDigest(Canonical(unsigned))))])
  }

  /** The table after recording `doc`: epochs older than an hour are forgotten. */
  function Recorded(votes: VoteTable, epoch: nat, doc: ConsensusDocument): VoteTable {
    (map e | e in votes && e + RETAINED_SECS >= epoch :: votes[e])[epoch := doc]
  }

  /** `frozen_view` as a function of everything it depends on. */
  function Freeze(signer: Signer, policy: Policy, store: Store, relays: seq<Relay>, now: nat, outcome: WriteOutcome)
    : (Store, Result<ConsensusDocument, VoteError>)
    requires signer.key.Pin?
  {
    var epoch := EpochOf(now);
    if exists e :: e in store.memory && e > epoch then (store, Err(ClockRollback))
    else if epoch in store.memory then
      var doc := store.memory[epoch];
      if exists i :: 0 <= i < |doc.relays| && doc.relays[i].pin in policy.revoked then (store, Err(RetiredInVote))
      else if policy.requireUsable && !Usable(doc.relays) then (store, Err(UnusableVote))
      else (store, Ok(doc))
    else if |relays| > MAX_DIRECTORY_RELAYS then (store, Err(CapacityExceeded))
    else
      var fresh' := FreshRelays(policy, now, relays);
      if policy.requireUsable && !Usable(fresh') then (store, Err(VotingDeferred))
      else
        var doc := NewVote(signer, epoch, fresh');
        var next := Recorded(store.memory, epoch, doc);
        match outcome
        case Written => (Store(next, next), Ok(doc))
        case FailedOld => (store, Err(CannotPersist))
        case FailedNew => (store.(journal := next), Err(CannotPersist))
  }

  /** A document this signer froze for epoch `e`. */
  ghost predicate OwnVote(signer: Signer, e: nat, doc: ConsensusDocument) {
    && signer.key.Pin?
    && e % EPOCH_SECS == 0 && doc.validAfter == e && doc.validUntil == e + VALIDITY_SECS
    && |doc.relays| <= MAX_DIRECTORY_RELAYS
    && (forall r :: r in doc.relays ==> VerifyIdentity(r))
    && doc.signatures == [Vote(signer.id, Sign(signer.key, SignedDigest(Canonical(doc))))]
  }

  ghost predicate OwnVotes(signer: Signer, votes: VoteTable) {
    && (forall e :: e in votes ==> OwnVote(signer, e, votes[e]))
    && (forall e, f :: e in votes && f in votes ==> e + RETAINED_SECS >= f)
  }

  lemma NewVoteIsOwn(signer: Signer, policy: Policy, now: nat, relays: seq<Relay>)
    requires signer.key.Pin? && |relays| <= MAX_DIRECTORY_RELAYS
    ensures OwnVote(signer, EpochOf(now), NewVote(signer, EpochOf(now), FreshRelays(policy, now, relays)))
  {
  }

  lemma RecordedIsOwn(signer: Signer, votes: VoteTable, epoch: nat, doc: ConsensusDocument)
    requires OwnVotes(signer, votes) && OwnVote(signer, epoch, doc)
    requires forall e :: e in votes ==> e <= epoch
    ensures OwnVotes(signer, Recorded(votes, epoch, doc))
  {
  }

  /** Every step of `frozen_view` keeps both tables well formed. */
  lemma FreezeKeepsOwn(signer: Signer, policy: Policy, store: Store, relays: seq<Relay>, now: nat, outcome: WriteOutcome)
    requires signer.key.Pin? && OwnVotes(signer, store.memory) && OwnVotes(signer, store.journal)
    ensures
      var (next, reply) := Freeze(signer, policy, store, relays, now, outcome);
      && OwnVotes(signer, next.memory) && OwnVotes(signer, next.journal)
      && (reply.Ok? ==> OwnVote(signer, EpochOf(now), reply.value))
  {
    if |relays| <= MAX_DIRECTORY_RELAYS && !(exists e :: e in store.memory && e > EpochOf(now)) {
      var doc := NewVote(signer, EpochOf(now), FreshRelays(policy, now, relays));
      NewVoteIsOwn(signer, policy, now, relays);
      RecordedIsOwn(signer, store.memory, EpochOf(now), doc);
    }
  }

  // ---- what a vote lists, and when a call succeeds ----

  /** A relay that may be listed in a vote made now: verified, not retired, registered no later
      than now and at most two hours ago. */
  ghost predicate Electable(policy: Policy, now: nat, r: Relay) {
    VerifyIdentity(r) && r.pin !in policy.revoked && r.registeredAt <= now <= r.registeredAt + 7200
  }

  /** `listed` holds every copy of every electable relay of the list, and nothing else. */
  ghost predicate ListsElectable(policy: Policy, now: nat, relays: seq<Relay>, listed: seq<Relay>) {
    forall r :: multiset(listed)[r] == if Electable(policy, now, r) then multiset(relays)[r] else 0
  }

  /** No relay of the document is retired. */
  ghost predicate NoneRetired(revoked: set<Pin>, doc: ConsensusDocument) {
    forall r :: r in doc.relays ==> r.pin !in revoked
  }

  ghost function ElectableAt(policy: Policy, now: nat, relays: seq<Relay>): set<nat> {
    set i: nat | i < |relays| && Electable(policy, now, relays[i])
  }

  /** When a call succeeds: the clock is not behind any held vote, and either the vote held for
      this epoch is still usable and free of retired relays, or a new one fits, is usable if it
      must be, and reaches the disk. */
  ghost predicate Answerable(policy: Policy, votes: VoteTable, relays: seq<Relay>, now: nat, outcome: WriteOutcome) {
    var epoch := now - now % 300;
    && (forall e :: e in votes ==> e <= epoch)
    && if epoch in votes then
         && NoneRetired(policy.revoked, votes[epoch])
         && (policy.requireUsable ==> |votes[epoch].relays| >= 3 && exists r :: r in votes[epoch].relays && r.isExit)
       else
         && |relays| <= 512 && outcome.Written?
         && (policy.requireUsable ==>
               && |ElectableAt(policy, now, relays)| >= 3
               && exists r :: r in relays && Electable(policy, now, r) && r.isExit)
  }

  lemma FreshElects(policy: Policy, now: nat, relays: seq<Relay>)
    ensures ListsElectable(policy, now, relays, FreshRelays(policy, now, relays))
    ensures |FreshRelays(policy, now, relays)| == |ElectableAt(policy, now, relays)|
    ensures forall r :: r in FreshRelays(policy, now, relays) <==> r in relays && Electable(policy, now, r)
  {
    var keep := (r: Relay) => Fresh(policy, now, r);
    forall r ensures multiset(FreshRelays(policy, now, relays))[r] == if Electable(policy, now, r) then multiset(relays)[r] else 0 {
      FilterCounts(keep, relays, r);
    }
    FilterLength(keep, relays);
    FreshPositions(policy, now, relays);
  }

  lemma FreshPositions(policy: Policy, now: nat, relays: seq<Relay>)
    ensures Positions((r: Relay) => Fresh(policy, now, r), relays) == ElectableAt(policy, now, relays)
  {
  }

  /** A call succeeds exactly under the conditions written out in `Answerable`; its document lists
      no retired relay, and a new one lists exactly the electable relays it was given. */
  lemma FreezeMeaning(signer: Signer, policy: Policy, store: Store, relays: seq<Relay>, now: nat, outcome: WriteOutcome)
    requires signer.key.Pin?
    ensures
      var (_, reply) := Freeze(signer, policy, store, relays, now, outcome);
      && (reply.Ok? <==> Answerable(policy, store.memory, relays, now, outcome))
      && (reply.Ok? ==> NoneRetired(policy.revoked, reply.value))
      && (reply.Ok? && now - now % 300 !in store.memory ==> ListsElectable(policy, now, relays, reply.value.relays))
      && (reply.Ok? && now - now % 300 in store.memory ==> reply.value == store.memory[now - now % 300])
  {
    FreshElects(policy, now, relays);
    assert EpochOf(now) == now - now % 300;
  }

  /** What a call does to the tables: a success for a new epoch records its document in both,
      beside every vote of the last hour; anything else leaves the memory alone, and the journal
      too unless a write failed late. */
  lemma FreezeRecords(signer: Signer, policy: Policy, store: Store, relays: seq<Relay>, now: nat, outcome: WriteOutcome)
    requires signer.key.Pin?
    ensures
      var (next, reply) := Freeze(signer, policy, store, relays, now, outcome);
      var epoch := now - now % 300;
      && (next.memory != store.memory ==> reply.Ok? && epoch !in store.memory && next.journal == next.memory)
      && (next.journal != store.journal && reply.Err? ==> outcome.FailedNew?)
      && (reply.Ok? && epoch !in store.memory ==>
            && reply.value.validAfter == epoch && reply.value.validUntil == epoch + 600
            && RecordsHour(store.memory, epoch, reply.value, next.memory) && next.journal == next.memory)
  {
    assert EpochOf(now) == now - now % 300;
  }

  /** A write that fails late leaves the new vote in the journal, with nothing released. */
  lemma FailsLate(signer: Signer, policy: Policy, store: Store, relays: seq<Relay>, now: nat, outcome: WriteOutcome)
    requires signer.key.Pin? && outcome.FailedNew?
    requires Freeze(signer, policy, store, relays, now, outcome).1 == Err(CannotPersist)
    ensures
      var next, epoch := Freeze(signer, policy, store, relays, now, outcome).0, now - now % 300;
      && next.memory == store.memory && epoch in next.journal
      && ListsElectable(policy, now, relays, next.journal[epoch].relays)
      && RecordsHour(store.memory, epoch, next.journal[epoch], next.journal)
  {
    FreshElects(policy, now, relays);
    assert EpochOf(now) == now - now % 300;
  }

  ghost predicate RecordsHour(votes: VoteTable, epoch: nat, doc: ConsensusDocument, next: VoteTable) {
    && epoch in next && next[epoch] == doc
    && forall e :: e != epoch ==>
         && (e in next <==> e in votes && e + 3600 >= epoch)
         && (e in next ==> next[e] == votes[e])
  }

  /** Each refusal means what it says. */
  lemma FreezeRefusals(signer: Signer, policy: Policy, store: Store, relays: seq<Relay>, now: nat, outcome: WriteOutcome)
    requires signer.key.Pin? && Freeze(signer, policy, store, relays, now, outcome).1.Err?
    ensures
      var votes, epoch := store.memory, now - now % 300;
      match Freeze(signer, policy, store, relays, now, outcome).1.error
      case ClockRollback => exists e :: e in votes && e > epoch
      case RetiredInVote => epoch in votes && !NoneRetired(policy.revoked, votes[epoch])
      case UnusableVote => epoch in votes && policy.requireUsable
      case CapacityExceeded => epoch !in votes && |relays| > 512
      case VotingDeferred => epoch !in votes && policy.requireUsable
      case CannotPersist => epoch !in votes && !outcome.Written?
  {
    assert EpochOf(now) == now - now % 300;
  }

  /** A set of multiples of 300 that spans at most 300 * n has at most n + 1 elements. */
  lemma {:induction false} MultiplesBound(s: set<nat>, lo: nat, n: nat)
    requires lo % EPOCH_SECS == 0
    requires forall e :: e in s ==> e % EPOCH_SECS == 0 && lo <= e <= lo + EPOCH_SECS * n
    ensures |s| <= n + 1
  {
    var top := lo + EPOCH_SECS * n;
    if n == 0 {
      assert s <= {lo};
      SubsetSize(s, {lo});
    } else {
      forall e | e in s - {top} ensures e <= lo + EPOCH_SECS * (n - 1) {
        assert (top - e) % EPOCH_SECS == 0;
      }
      MultiplesBound(s - {top}, lo, n - 1);
      assert s <= (s - {top}) + {top};
      SubsetSize(s, (s - {top}) + {top});
    }
  }

  lemma AtMostThirteen(signer: Signer, votes: VoteTable)
    requires OwnVotes(signer, votes)
    ensures |votes| <= MAX_RETAINED_EPOCHS
  {
    if votes.Keys != {} {
      var lo := Least(votes.Keys);
      MultiplesBound(votes.Keys, lo, 12);
      assert |votes| == |votes.Keys|;
    }
  }

  lemma {:induction false} Least(s: set<nat>) returns (m: nat)
    requires s != {}
    ensures m in s && forall x :: x in s ==> m <= x
    decreases |s|
  {
    m :| m in s;
    if s - {m} != {} {
      var n := Least(s - {m});
      assert forall x :: x in s ==> x == m || x in s - {m};
      if n < m { m := n; }
    } else {
      assert s == {m};
    }
  }

  // ---- reading the journal back ----

  ghost predicate ReloadsOne(signer: Signer, doc: ConsensusDocument) {
    && |doc.relays| <= MAX_DIRECTORY_RELAYS && |doc.signatures| <= MAX_SIGNATURES
    && (forall r :: r in doc.relays ==> VerifyIdentity(r))
    && HasQuorum(doc, map[signer.id := signer.key], 1, doc.validAfter)
  }

  ghost predicate DistinctEpochs(docs: seq<ConsensusDocument>) {
    forall i, j :: 0 <= i < j < |docs| ==> docs[i].validAfter != docs[j].validAfter
  }

  /** `docs` lists the documents of `votes`, each once, in any order. */
  ghost predicate Lists(docs: seq<ConsensusDocument>, votes: VoteTable) {
    && DistinctEpochs(docs)
    && (forall i :: 0 <= i < |docs| ==> docs[i].validAfter in votes && votes[docs[i].validAfter] == docs[i])
    && (forall e :: e in votes ==> votes[e].validAfter == e && votes[e] in docs)
  }

  ghost predicate Reloads(signer: Signer, docs: seq<ConsensusDocument>) {
    && |docs| <= MAX_RETAINED_EPOCHS
    && (forall i :: 0 <= i < |docs| ==> ReloadsOne(signer, docs[i]))
    && DistinctEpochs(docs)
  }

  method ReloadCheck(signer: Signer, doc: ConsensusDocument) returns (ok: bool)
    ensures ok <==> ReloadsOne(signer, doc)
  {
    var own := map[signer.id := signer.key];
    var quorum := VerifyQuorum(doc, own, 1, doc.validAfter);
    ok := |doc.relays| <= MAX_DIRECTORY_RELAYS && |doc.signatures| <= MAX_SIGNATURES
      && (forall r :: r in doc.relays ==> VerifyIdentity(r)) && quorum;
  }

  /** The start-up check of a persisted journal: `None` stops the process. */
  method LoadJournal(signer: Signer, docs: seq<ConsensusDocument>) returns (votes: Option<VoteTable>)
    ensures votes.Some? <==> Reloads(signer, docs)
    ensures votes.Some? ==> Lists(docs, votes.value)
  {
    if |docs| > MAX_RETAINED_EPOCHS {
      return None;
    }
    var signedEpochs: VoteTable := map[];
    for k := 0 to |docs|
      invariant forall i :: 0 <= i < k ==> ReloadsOne(signer, docs[i])
      invariant Lists(docs[..k], signedEpochs)
    {
      var doc := docs[k];
      var ok := ReloadCheck(signer, doc);
      if !ok {
        return None;
      }
      if doc.validAfter in signedEpochs {
        RepeatedEpoch(docs, k, signedEpochs);
        return None;
      }
      ListsNext(docs, k, signedEpochs);
      signedEpochs := signedEpochs[doc.validAfter := doc];
    }
    assert docs[..|docs|] == docs;
    return Some(signedEpochs);
  }

  lemma RepeatedEpoch(docs: seq<ConsensusDocument>, k: nat, votes: VoteTable)
    requires k < |docs| && Lists(docs[..k], votes) && docs[k].validAfter in votes
    ensures !DistinctEpochs(docs)
  {
  }

  lemma ListsNext(docs: seq<ConsensusDocument>, k: nat, votes: VoteTable)
    requires k < |docs| && Lists(docs[..k], votes) && docs[k].validAfter !in votes
    ensures Lists(docs[..k + 1], votes[docs[k].validAfter := docs[k]])
  {
    var next := votes[docs[k].validAfter := docs[k]];
    var more := docs[..k + 1];
    assert more == docs[..k] + [docs[k]];
    assert forall i :: 0 <= i < k ==> more[i] == docs[..k][i];
    assert forall e :: e in next ==> next[e] == docs[k] || (e in votes && next[e] == votes[e] && votes[e] in docs[..k]);
    assert more[k] == docs[k];
  }

  lemma OwnVoteReloads(signer: Signer, e: nat, doc: ConsensusDocument)
    requires OwnVote(signer, e, doc)
    ensures ReloadsOne(signer, doc)
  {
    var trusted := map[signer.id := signer.key];
    var v := doc.signatures[0];
    assert v in doc.signatures && CountsFor(Canonical(doc), trusted, v);
    assert Voters(doc, trusted) == {signer.key};
  }

  /** A journal file determines the table it is read into. */
  lemma ListsDetermine(docs: seq<ConsensusDocument>, votes: VoteTable, other: VoteTable)
    requires Lists(docs, votes) && Lists(docs, other)
    ensures votes == other
  {
  }

  /** Every journal this authority writes passes its own start-up check, in whatever
      order the file lists the votes. */
  lemma JournalReloads(signer: Signer, votes: VoteTable, docs: seq<ConsensusDocument>)
    requires OwnVotes(signer, votes) && Lists(docs, votes)
    ensures Reloads(signer, docs)
  {
    AtMostThirteen(signer, votes);
    DistinctImagesFit((doc: ConsensusDocument) => doc.validAfter, docs, votes.Keys);
    forall i | 0 <= i < |docs| ensures ReloadsOne(signer, docs[i]) {
      OwnVoteReloads(signer, docs[i].validAfter, docs[i]);
    }
  }

  /** The live authority. */
  class DirectoryAuthority {
    const signer: Signer
    const policy: Policy
    var signedEpochs: VoteTable
    var journal: VoteTable

    /** Both tables hold only votes that this signer froze; every call keeps this. */
    ghost predicate Valid()
      reads this
    {
      OwnVotes(signer, signedEpochs) && OwnVotes(signer, journal)
    }

    /** Start-up on any journal file that passes the reload check. */
    constructor (signer: Signer, policy: Policy, docs: seq<ConsensusDocument>)
      requires signer.key.Pin? && Reloads(signer, docs)
      ensures this.signer == signer && this.policy == policy
      ensures Lists(docs, signedEpochs) && journal == signedEpochs
      ensures forall votes :: OwnVotes(signer, votes) && Lists(docs, votes) ==> signedEpochs == votes && Valid()
    {
      this.signer, this.policy := signer, policy;
      signedEpochs, journal := map[], map[];
      new;
      var votes := LoadJournal(signer, docs);
      signedEpochs, journal := votes.value, votes.value;
      forall own | OwnVotes(signer, own) && Lists(docs, own) ensures signedEpochs == own {
        ListsDetermine(docs, signedEpochs, own);
      }
    }

    method FrozenView(relays: seq<Relay>, now: nat, outcome: WriteOutcome)
      returns (reply: Result<ConsensusDocument, VoteError>)
      requires signer.key.Pin?
      modifies this
      ensures old(Valid()) ==> Valid()
      ensures (Store(signedEpochs, journal), reply) ==
        Freeze(signer, policy, Store(old(signedEpochs), old(journal)), relays, now, outcome)
      ensures reply.Ok? <==> Answerable(policy, old(signedEpochs), relays, now, outcome)
      ensures reply.Ok? ==> NoneRetired(policy.revoked, reply.value)
      ensures reply.Ok? && now - now % 300 !in old(signedEpochs) ==> ListsElectable(policy, now, relays, reply.value.relays)
    {
      FreezeMeaning(signer, policy, Store(signedEpochs, journal), relays, now, outcome);
      if Valid() {
        FreezeKeepsOwn(signer, policy, Store(signedEpochs, journal), relays, now, outcome);
      }
      var epoch := now / EPOCH_SECS * EPOCH_SECS;
      if exists e :: e in signedEpochs && e > epoch {
        return Err(ClockRollback);
      }
      if epoch in signedEpochs {
        var doc := signedEpochs[epoch];
        if exists i :: 0 <= i < |doc.relays| && doc.relays[i].pin in policy.revoked {
          return Err(RetiredInVote);
        }
        if policy.requireUsable && !Usable(doc.relays) {
          return Err(UnusableVote);
        }
        return Ok(doc);
      }
      if |relays| > MAX_DIRECTORY_RELAYS {
        return Err(CapacityExceeded);
      }
      var retained := FreshRelays(policy, now, relays);
      if policy.requireUsable && !Usable(retained) {
        return Err(VotingDeferred);
      }
      var doc := NewVote(signer, epoch, retained);
      var next := Recorded(signedEpochs, epoch, doc);
      match outcome {
        case FailedOld =>
          return Err(CannotPersist);
        case FailedNew =>
          journal := next;
          return Err(CannotPersist);
        case Written =>
          journal := next;
      }
      signedEpochs := next;
      return Ok(doc);
    }
  }
}
