/** The client's pool (src/mesh/pool.rs): combining signed documents, selecting a quorum
    snapshot, refusing rollback, and publishing relays all at once. */
module ClientPool {
  import opened Prelude
  import opened Sorting
  import opened Directory
  import opened Address
  import opened Identity
  import opened Consensus
  import opened Votes
  import opened RelayTable

  datatype Endpoint = Endpoint(host: Host, port: nat)

  datatype ProxyNode = ProxyNode(host: Host, port: nat, isExit: bool, isAlive: bool)

  datatype AcceptedSnapshot = AcceptedSnapshot(epoch: nat, digest: Digest)

  datatype LoadError =
    | InvalidThreshold | DependentKeys | NoQuorum | Conflicting | RollbackRejected
    | InvalidRelays | EndpointConflict | ComponentAlias | DuplicateRelay | AllRetired | CannotPersistRecord

  function EndpointOf(r: Relay): Endpoint {
    Endpoint(r.host, r.port)
  }

  function NodeOf(r: Relay): ProxyNode {
    ProxyNode(r.host, r.port, r.isExit, true)
  }

  // ---- combining signatures over equal digests ----

  predicate Eligible(doc: ConsensusDocument, now: nat) {
    && |doc.relays| <= MAX_DIRECTORY_RELAYS && |doc.signatures| <= MAX_SIGNATURES
    && doc.validAfter < doc.validUntil && doc.validAfter <= now < doc.validUntil
  }

  type Snapshots = map<Digest, ConsensusDocument>

  function AddDocument(snapshots: Snapshots, doc: ConsensusDocument, now: nat): Snapshots {
    var g := Canonical(doc);
    if !Eligible(doc, now) then snapshots
    else if g in snapshots then snapshots[g := Merged(snapshots[g], doc)]
    else snapshots[g := doc]
  }

  function Combined(docs: seq<ConsensusDocument>, now: nat): Snapshots {
    if docs == [] then map[] else AddDocument(Combined(docs[..|docs| - 1], now), docs[|docs| - 1], now)
  }

  method Combine(docs: seq<ConsensusDocument>, now: nat) returns (snapshots: Snapshots)
    ensures snapshots == Combined(docs, now)
  {
    snapshots := map[];
    for k := 0 to |docs|
      invariant snapshots == Combined(docs[..k], now)
    {
      var doc := docs[k];
      assert docs[..k + 1][..k] == docs[..k];
      if !Eligible(doc, now) {
        continue;
      }
      var digest := Canonical(doc);
      if digest in snapshots {
        var merged, _ := MergeSignaturesFrom(snapshots[digest], doc);
        snapshots := snapshots[digest := merged];
      } else {
        snapshots := snapshots[digest := doc];
      }
    }
    assert docs[..|docs|] == docs;
  }

  /** The document takes part in the snapshot of this digest. */
  predicate Contributes(doc: ConsensusDocument, now: nat, g: Digest) {
    Eligible(doc, now) && Canonical(doc) == g
  }

  /** A document counts exactly when it has at most 512 relays and 16 signatures and its window
      includes now. */
  lemma ContributesExactly(doc: ConsensusDocument, now: nat, g: Digest)
    ensures Contributes(doc, now, g) <==>
      Canonical(doc) == g && |doc.relays| <= 512 && |doc.signatures| <= 16 && doc.validAfter <= now < doc.validUntil
  {
  }

  /** The `k`th document is the first to bring a signature under `id` to this snapshot. */
  ghost predicate FirstWith(docs: seq<ConsensusDocument>, now: nat, g: Digest, id: string, k: nat) {
    && k < |docs| && Contributes(docs[k], now, g) && id in Ids(docs[k].signatures)
    && forall j :: 0 <= j < k && Contributes(docs[j], now, g) ==> id !in Ids(docs[j].signatures)
  }

  ghost predicate Brings(docs: seq<ConsensusDocument>, now: nat, g: Digest, v: AuthoritySignature, k: nat) {
    FirstWith(docs, now, g, v.authorityId, k) && v in docs[k].signatures
  }

  ghost predicate Brought(docs: seq<ConsensusDocument>, now: nat, g: Digest, v: AuthoritySignature) {
    exists k: nat :: Brings(docs, now, g, v, k)
  }

  ghost predicate NoneCarries(docs: seq<ConsensusDocument>, now: nat, g: Digest, id: string) {
    forall j :: 0 <= j < |docs| && Contributes(docs[j], now, g) ==> id !in Ids(docs[j].signatures)
  }

  ghost predicate SomeContributes(docs: seq<ConsensusDocument>, now: nat, g: Digest) {
    exists k :: 0 <= k < |docs| && Contributes(docs[k], now, g)
  }

  /** A snapshot exists exactly when some document contributes to it, and holds exactly the
      signatures that the first document with their id brings. */
  ghost predicate SnapshotOk(snapshots: Snapshots, docs: seq<ConsensusDocument>, now: nat, g: Digest) {
    && (g in snapshots <==> SomeContributes(docs, now, g))
    && (g in snapshots ==> Canonical(snapshots[g]) == g && HoldsBrought(snapshots[g].signatures, docs, now, g))
  }

  ghost predicate HoldsBrought(votes: seq<AuthoritySignature>, docs: seq<ConsensusDocument>, now: nat, g: Digest) {
    forall v :: v in votes <==> Brought(docs, now, g, v)
  }

  ghost predicate CombinedOk(snapshots: Snapshots, docs: seq<ConsensusDocument>, now: nat) {
    forall g :: SnapshotOk(snapshots, docs, now, g)
  }

  lemma BroughtNext(docs: seq<ConsensusDocument>, doc: ConsensusDocument, now: nat, g: Digest, v: AuthoritySignature)
    ensures Brought(docs + [doc], now, g, v) <==>
      || Brought(docs, now, g, v)
      || (Contributes(doc, now, g) && v in doc.signatures && NoneCarries(docs, now, g, v.authorityId))
  {
    var all, n := docs + [doc], |docs|;
    assert forall j :: 0 <= j < n ==> all[j] == docs[j];
    if k: nat :| Brings(docs, now, g, v, k) {
      assert Brings(all, now, g, v, k);
    }
    if k: nat :| Brings(all, now, g, v, k) && k < n {
      assert Brings(docs, now, g, v, k);
    }
    assert Brings(all, now, g, v, n) <==>
      Contributes(doc, now, g) && v in doc.signatures && NoneCarries(docs, now, g, v.authorityId);
  }

  /** An id is held exactly when some contributing document carries it. */
  lemma IdsHeld(votes: seq<AuthoritySignature>, docs: seq<ConsensusDocument>, now: nat, g: Digest, id: string)
    requires HoldsBrought(votes, docs, now, g)
    ensures id !in Ids(votes) <==> NoneCarries(docs, now, g, id)
  {
    if id in Ids(votes) {
      var v :| v in votes && v.authorityId == id;
      var k: nat :| Brings(docs, now, g, v, k);
    } else if j :| 0 <= j < |docs| && Contributes(docs[j], now, g) && id in Ids(docs[j].signatures) {
      var k := FirstCarrier(docs, now, g, id, j);
      var v :| v in docs[k].signatures && v.authorityId == id;
      assert Brings(docs, now, g, v, k);
    }
  }

  lemma FirstCarrier(docs: seq<ConsensusDocument>, now: nat, g: Digest, id: string, j: nat) returns (k: nat)
    requires j < |docs| && Contributes(docs[j], now, g) && id in Ids(docs[j].signatures)
    ensures FirstWith(docs, now, g, id, k)
  {
    k := 0;
    while !(Contributes(docs[k], now, g) && id in Ids(docs[k].signatures))
      invariant k <= j
      invariant forall i :: 0 <= i < k && Contributes(docs[i], now, g) ==> id !in Ids(docs[i].signatures)
      decreases j - k
    {
      k := k + 1;
    }
  }

  lemma MergedOk(snapshots: Snapshots, docs: seq<ConsensusDocument>, doc: ConsensusDocument, now: nat, g: Digest)
    requires SnapshotOk(snapshots, docs, now, g) && Contributes(doc, now, g) && g in snapshots
    ensures Canonical(Merged(snapshots[g], doc)) == g
    ensures HoldsBrought(Merged(snapshots[g], doc).signatures, docs + [doc], now, g)
  {
    var held, added := snapshots[g].signatures, NewVotes(Ids(snapshots[g].signatures), doc.signatures);
    MergeKeepsContent(snapshots[g], doc);
    assert Merged(snapshots[g], doc).signatures == held + added;
    forall v ensures v in held + added <==> Brought(docs + [doc], now, g, v) {
      BroughtNext(docs, doc, now, g, v);
      IdsHeld(held, docs, now, g, v.authorityId);
      assert v in added <==> v in doc.signatures && v.authorityId !in Ids(held);
    }
  }

  lemma FirstDocumentOk(docs: seq<ConsensusDocument>, doc: ConsensusDocument, now: nat, g: Digest)
    requires !SomeContributes(docs, now, g) && Contributes(doc, now, g)
    ensures HoldsBrought(doc.signatures, docs + [doc], now, g)
  {
    forall v ensures v in doc.signatures <==> Brought(docs + [doc], now, g, v) {
      BroughtNext(docs, doc, now, g, v);
    }
  }

  lemma OtherDigestOk(votes: seq<AuthoritySignature>, docs: seq<ConsensusDocument>, doc: ConsensusDocument, now: nat, g: Digest)
    requires HoldsBrought(votes, docs, now, g) && !Contributes(doc, now, g)
    ensures HoldsBrought(votes, docs + [doc], now, g)
  {
    forall v ensures v in votes <==> Brought(docs + [doc], now, g, v) {
      BroughtNext(docs, doc, now, g, v);
    }
  }

  lemma ContributesNext(docs: seq<ConsensusDocument>, doc: ConsensusDocument, now: nat, g: Digest)
    ensures SomeContributes(docs + [doc], now, g) <==> SomeContributes(docs, now, g) || Contributes(doc, now, g)
  {
    var all := docs + [doc];
    assert all[|docs|] == doc && forall j :: 0 <= j < |docs| ==> all[j] == docs[j];
    if k :| 0 <= k < |docs| && Contributes(docs[k], now, g) {
      assert Contributes(all[k], now, g);
    }
  }

  lemma AddDocumentOk(snapshots: Snapshots, docs: seq<ConsensusDocument>, doc: ConsensusDocument, now: nat, g: Digest)
    requires SnapshotOk(snapshots, docs, now, g)
    ensures SnapshotOk(AddDocument(snapshots, doc, now), docs + [doc], now, g)
  {
    ContributesNext(docs, doc, now, g);
    if !Contributes(doc, now, g) {
      if g in snapshots {
        OtherDigestOk(snapshots[g].signatures, docs, doc, now, g);
      }
    } else if g in snapshots {
      MergedOk(snapshots, docs, doc, now, g);
    } else {
      FirstDocumentOk(docs, doc, now, g);
    }
  }

  /** Over a whole list of replies: which snapshots exist, and exactly which signatures each holds. */
  lemma {:induction false} CombinedIsOk(docs: seq<ConsensusDocument>, now: nat)
    ensures CombinedOk(Combined(docs, now), docs, now)
  {
    forall g ensures SnapshotOk(Combined(docs, now), docs, now, g) {
      if docs != [] {
        var n := |docs| - 1;
        CombinedIsOk(docs[..n], now);
        AddDocumentOk(Combined(docs[..n], now), docs[..n], docs[n], now, g);
        assert docs[..n] + [docs[n]] == docs;
      }
    }
  }

  ghost predicate KeyedByDigest(snapshots: Snapshots) {
    forall g :: g in snapshots ==> Canonical(snapshots[g]) == g
  }

  lemma CombinedKeyed(docs: seq<ConsensusDocument>, now: nat)
    ensures KeyedByDigest(Combined(docs, now))
  {
    CombinedIsOk(docs, now);
    forall g | g in Combined(docs, now) ensures Canonical(Combined(docs, now)[g]) == g {
      assert SnapshotOk(Combined(docs, now), docs, now, g);
    }
  }

  /** The keys whose signature in the first contributing document with their id verifies. */
  ghost function FirstVoters(docs: seq<ConsensusDocument>, now: nat, trusted: Authorities, g: Digest): set<Pin> {
    set k, v | 0 <= k < |docs| && v in docs[k].signatures && Brings(docs, now, g, v, k) && CountsFor(g, trusted, v)
      :: trusted[v.authorityId]
  }

  /** The keys with a verifying signature in any contributing document. */
  ghost function AllVoters(docs: seq<ConsensusDocument>, now: nat, trusted: Authorities, g: Digest): set<Pin> {
    set k, v | 0 <= k < |docs| && v in docs[k].signatures && Contributes(docs[k], now, g) && CountsFor(g, trusted, v)
      :: trusted[v.authorityId]
  }

  /** The voters of a combined snapshot, exactly. */
  lemma CombinedVoters(docs: seq<ConsensusDocument>, now: nat, trusted: Authorities, g: Digest)
    requires g in Combined(docs, now)
    ensures Voters(Combined(docs, now)[g], trusted) == FirstVoters(docs, now, trusted, g)
  {
    CombinedIsOk(docs, now);
    var doc := Combined(docs, now)[g];
    assert SnapshotOk(Combined(docs, now), docs, now, g);
    forall p ensures p in Voters(doc, trusted) <==> p in FirstVoters(docs, now, trusted, g) {
      if p in Voters(doc, trusted) {
        var v :| v in doc.signatures && CountsFor(g, trusted, v) && trusted[v.authorityId] == p;
        var k: nat :| Brings(docs, now, g, v, k);
      }
      if p in FirstVoters(docs, now, trusted, g) {
        var k, v :| 0 <= k < |docs| && v in docs[k].signatures && Brings(docs, now, g, v, k) && CountsFor(g, trusted, v)
                    && trusted[v.authorityId] == p;
        assert Brought(docs, now, g, v);
      }
    }
  }

  /** Every vote that verifies has, in the first document with its id, one that verifies too. */
  ghost predicate NothingMasked(docs: seq<ConsensusDocument>, now: nat, trusted: Authorities, g: Digest) {
    forall k, v :: 0 <= k < |docs| && v in docs[k].signatures && Contributes(docs[k], now, g) && CountsFor(g, trusted, v)
      ==> Represented(docs, now, trusted, g, v.authorityId)
  }

  ghost predicate Represented(docs: seq<ConsensusDocument>, now: nat, trusted: Authorities, g: Digest, id: string) {
    exists k: nat, w :: Brings(docs, now, g, w, k) && w.authorityId == id && CountsFor(g, trusted, w)
  }

  /** Over a whole list of replies the voters are the union of all votes if and only if nothing is
      masked. */
  lemma CombinedUnion(docs: seq<ConsensusDocument>, now: nat, trusted: Authorities, g: Digest)
    requires g in Combined(docs, now) && DistinctKeys(trusted)
    ensures Voters(Combined(docs, now)[g], trusted) == AllVoters(docs, now, trusted, g) <==> NothingMasked(docs, now, trusted, g)
  {
    CombinedVoters(docs, now, trusted, g);
    FirstAmongAll(docs, now, trusted, g);
    var some, all := FirstVoters(docs, now, trusted, g), AllVoters(docs, now, trusted, g);
    if some == all {
      forall k, v | 0 <= k < |docs| && v in docs[k].signatures && Contributes(docs[k], now, g) && CountsFor(g, trusted, v)
        ensures Represented(docs, now, trusted, g, v.authorityId)
      {
        assert trusted[v.authorityId] in all;
        var j, w :| 0 <= j < |docs| && w in docs[j].signatures && Brings(docs, now, g, w, j) && CountsFor(g, trusted, w)
                    && trusted[w.authorityId] == trusted[v.authorityId];
      }
    } else if NothingMasked(docs, now, trusted, g) {
      RepresentedVotes(docs, now, trusted, g);
    }
  }

  lemma FirstAmongAll(docs: seq<ConsensusDocument>, now: nat, trusted: Authorities, g: Digest)
    ensures FirstVoters(docs, now, trusted, g) <= AllVoters(docs, now, trusted, g)
  {
  }

  lemma RepresentedVotes(docs: seq<ConsensusDocument>, now: nat, trusted: Authorities, g: Digest)
    requires NothingMasked(docs, now, trusted, g)
    ensures AllVoters(docs, now, trusted, g) <= FirstVoters(docs, now, trusted, g)
  {
    forall p | p in AllVoters(docs, now, trusted, g) ensures p in FirstVoters(docs, now, trusted, g) {
      var k, v :| 0 <= k < |docs| && v in docs[k].signatures && Contributes(docs[k], now, g) && CountsFor(g, trusted, v)
                  && trusted[v.authorityId] == p;
      assert Represented(docs, now, trusted, g, v.authorityId);
      var j: nat, w :| Brings(docs, now, g, w, j) && w.authorityId == v.authorityId && CountsFor(g, trusted, w);
    }
  }

  // ---- selecting the newest snapshot with a quorum ----

  /** The digests that reached quorum. */
  ghost predicate Quorate(snapshots: Snapshots, trusted: Authorities, threshold: nat, now: nat, g: Digest) {
    g in snapshots && HasQuorum(snapshots[g], trusted, threshold, now)
  }

  /** When a list of replies reaches quorum for a digest, with no reference to the order of merging. */
  lemma QuorateExactly(docs: seq<ConsensusDocument>, trusted: Authorities, threshold: nat, now: nat, g: Digest)
    ensures Quorate(Combined(docs, now), trusted, threshold, now, g) <==>
      && SomeContributes(docs, now, g)
      && 0 < threshold <= |FirstVoters(docs, now, trusted, g)| && Independent(FirstVoters(docs, now, trusted, g))
  {
    CombinedIsOk(docs, now);
    assert SnapshotOk(Combined(docs, now), docs, now, g);
    if SomeContributes(docs, now, g) {
      CombinedVoters(docs, now, trusted, g);
      var k :| 0 <= k < |docs| && Contributes(docs[k], now, g);
      assert Canonical(Combined(docs, now)[g]) == Canonical(docs[k]);
    }
  }

  predicate NewestFirst(a: ConsensusDocument, b: ConsensusDocument) {
    a.validAfter >= b.validAfter
  }

  method QuorateDocuments(snapshots: Snapshots, trusted: Authorities, threshold: nat, now: nat)
    returns (candidates: seq<ConsensusDocument>)
    ensures forall d :: d in candidates <==>
      exists g :: Quorate(snapshots, trusted, threshold, now, g) && snapshots[g] == d
  {
    candidates := [];
    var rest := snapshots.Keys;
    while rest != {}
      invariant rest <= snapshots.Keys
      invariant forall d :: d in candidates ==>
        exists g :: Quorate(snapshots, trusted, threshold, now, g) && snapshots[g] == d
      invariant forall g :: Quorate(snapshots, trusted, threshold, now, g) && g !in rest ==> snapshots[g] in candidates
    {
      var g :| g in rest;
      rest := rest - {g};
      var ok := VerifyQuorum(snapshots[g], trusted, threshold, now);
      if ok {
        assert Quorate(snapshots, trusted, threshold, now, g);
        candidates := candidates + [snapshots[g]];
      }
    }
  }

  /** The one newest snapshot with a quorum. */
  ghost predicate Newest(snapshots: Snapshots, trusted: Authorities, threshold: nat, now: nat, g: Digest) {
    && Quorate(snapshots, trusted, threshold, now, g)
    && forall h :: Quorate(snapshots, trusted, threshold, now, h) && h != g ==> h.validAfter < g.validAfter
  }

  ghost predicate NoneQuorate(snapshots: Snapshots, trusted: Authorities, threshold: nat, now: nat) {
    forall g :: !Quorate(snapshots, trusted, threshold, now, g)
  }

  /** Two different snapshots reached quorum for the newest epoch. */
  ghost predicate TwoNewest(snapshots: Snapshots, trusted: Authorities, threshold: nat, now: nat) {
    exists g: Digest, h: Digest ::
      && g != h && g.validAfter == h.validAfter
      && Quorate(snapshots, trusted, threshold, now, g) && Quorate(snapshots, trusted, threshold, now, h)
      && forall q :: Quorate(snapshots, trusted, threshold, now, q) ==> q.validAfter <= g.validAfter
  }

  method Select(snapshots: Snapshots, trusted: Authorities, threshold: nat, now: nat)
    returns (selected: Result<ConsensusDocument, LoadError>)
    requires KeyedByDigest(snapshots)
    ensures match selected
      case Ok(doc) =>
        Newest(snapshots, trusted, threshold, now, Canonical(doc)) && doc == snapshots[Canonical(doc)]
      case Err(e) =>
        if e == NoQuorum then NoneQuorate(snapshots, trusted, threshold, now)
        else e == Conflicting && TwoNewest(snapshots, trusted, threshold, now)
  {
    var candidates := QuorateDocuments(snapshots, trusted, threshold, now);
    var ordered := SortBy(NewestFirst, candidates);
    SortsNewestFirst(candidates);
    OrderedHolds(snapshots, trusted, threshold, now, candidates, ordered);
    if ordered == [] {
      return Err(NoQuorum);
    }
    var first := ordered[0];
    if exists i :: 0 <= i < |ordered| && ordered[i].validAfter == first.validAfter
                   && Canonical(ordered[i]) != Canonical(first) {
      ghost var i :| 0 <= i < |ordered| && ordered[i].validAfter == first.validAfter
                     && Canonical(ordered[i]) != Canonical(first);
      ConflictAtNewest(snapshots, trusted, threshold, now, ordered, i);
      return Err(Conflicting);
    }
    return Ok(first);
  }

  lemma SortsNewestFirst(docs: seq<ConsensusDocument>)
    ensures Sorted(NewestFirst, SortBy(NewestFirst, docs)) && multiset(SortBy(NewestFirst, docs)) == multiset(docs)
  {
    SortSorts(NewestFirst, docs);
  }

  /** Every listed document is a quorate snapshot. */
  ghost predicate AllQuorate(snapshots: Snapshots, trusted: Authorities, threshold: nat, now: nat, docs: seq<ConsensusDocument>) {
    forall d :: d in docs ==> Quorate(snapshots, trusted, threshold, now, Canonical(d)) && snapshots[Canonical(d)] == d
  }

  /** Every quorate snapshot is listed, and none is newer than the first. */
  ghost predicate FirstIsNewest(snapshots: Snapshots, trusted: Authorities, threshold: nat, now: nat, docs: seq<ConsensusDocument>) {
    forall g :: Quorate(snapshots, trusted, threshold, now, g) ==>
      docs != [] && snapshots[g] in docs && g.validAfter <= docs[0].validAfter
  }

  lemma ConflictAtNewest(snapshots: Snapshots, trusted: Authorities, threshold: nat, now: nat,
                         ordered: seq<ConsensusDocument>, i: nat)
    requires AllQuorate(snapshots, trusted, threshold, now, ordered) && FirstIsNewest(snapshots, trusted, threshold, now, ordered)
    requires i < |ordered| && ordered[i].validAfter == ordered[0].validAfter && Canonical(ordered[i]) != Canonical(ordered[0])
    ensures TwoNewest(snapshots, trusted, threshold, now)
  {
    var g, h := Canonical(ordered[0]), Canonical(ordered[i]);
    assert ordered[0] in ordered && ordered[i] in ordered;
    assert Quorate(snapshots, trusted, threshold, now, g) && Quorate(snapshots, trusted, threshold, now, h);
  }

  /** The sorted candidates are the quorate snapshots, newest first. */
  lemma OrderedHolds(snapshots: Snapshots, trusted: Authorities, threshold: nat, now: nat,
                     candidates: seq<ConsensusDocument>, ordered: seq<ConsensusDocument>)
    requires KeyedByDigest(snapshots)
    requires forall d :: d in candidates <==>
      exists g :: Quorate(snapshots, trusted, threshold, now, g) && snapshots[g] == d
    requires Sorted(NewestFirst, ordered) && multiset(ordered) == multiset(candidates)
    ensures AllQuorate(snapshots, trusted, threshold, now, ordered)
    ensures FirstIsNewest(snapshots, trusted, threshold, now, ordered)
  {
    forall d ensures d in ordered <==> d in candidates {
      assert d in ordered <==> d in multiset(ordered);
      assert d in candidates <==> d in multiset(candidates);
    }
    forall g | Quorate(snapshots, trusted, threshold, now, g)
      ensures ordered != [] && snapshots[g] in ordered && g.validAfter <= ordered[0].validAfter
    {
      assert snapshots[g] in candidates;
      var i :| 0 <= i < |ordered| && ordered[i] == snapshots[g];
      assert Canonical(ordered[i]).validAfter == g.validAfter;
      assert i != 0 ==> NewestFirst(ordered[0], ordered[i]);
    }
  }

  // ---- admitting the relays of the selected snapshot ----

  type Nodes = map<Endpoint, ProxyNode>
  type Keys = map<Endpoint, Pin>

  /** The first `k` relays that are not retired are published, and nothing else. */
  ghost predicate PublishesUpTo(relays: seq<Relay>, k: nat, revoked: set<Pin>, nodes: Nodes, keys: Keys)
    requires k <= |relays|
  {
    && nodes.Keys == keys.Keys
    && (forall i :: 0 <= i < k && relays[i].pin !in revoked ==>
          && EndpointOf(relays[i]) in nodes && nodes[EndpointOf(relays[i])] == NodeOf(relays[i])
          && keys[EndpointOf(relays[i])] == relays[i].pin)
    && (forall e :: e in nodes ==> exists i :: 0 <= i < k && relays[i].pin !in revoked && EndpointOf(relays[i]) == e)
  }

  ghost predicate Publishes(relays: seq<Relay>, revoked: set<Pin>, nodes: Nodes, keys: Keys) {
    PublishesUpTo(relays, |relays|, revoked, nodes, keys)
  }

  ghost predicate SameEndpointSamePin(relays: seq<Relay>) {
    forall i, j :: 0 <= i < j < |relays| && EndpointOf(relays[i]) == EndpointOf(relays[j]) ==> relays[i].pin == relays[j].pin
  }

  method CheckEndpoints(relays: seq<Relay>) returns (ok: bool)
    ensures ok <==> SameEndpointSamePin(relays)
  {
    var endpoints: map<Endpoint, Pin> := map[];
    for k := 0 to |relays|
      invariant SameEndpointSamePin(relays[..k])
      invariant forall i :: 0 <= i < k ==> EndpointOf(relays[i]) in endpoints && endpoints[EndpointOf(relays[i])] == relays[i].pin
      invariant forall e :: e in endpoints ==> exists i :: 0 <= i < k && EndpointOf(relays[i]) == e
    {
      var e := EndpointOf(relays[k]);
      if e in endpoints && endpoints[e] != relays[k].pin {
        return false;
      }
      endpoints := endpoints[e := relays[k].pin];
    }
    assert relays[..|relays|] == relays;
    return true;
  }

  ghost predicate AllVerified(relays: seq<Relay>) {
    forall i :: 0 <= i < |relays| ==> VerifyIdentity(relays[i])
  }

  ghost function ClassicalsOf(relays: seq<Relay>, k: nat): set<nat>
    requires k <= |relays|
  {
    set i | 0 <= i < k :: relays[i].proof.classical
  }

  ghost function PostQuantumsOf(relays: seq<Relay>, k: nat): set<nat>
    requires k <= |relays|
  {
    set i | 0 <= i < k :: relays[i].proof.pq
  }

  ghost function IdsOf(relays: seq<Relay>, k: nat): set<bytes>
    requires k <= |relays|
  {
    set i | 0 <= i < k :: relays[i].nodeId
  }

  ghost function PinsOf(relays: seq<Relay>, k: nat): set<Pin>
    requires k <= |relays|
  {
    set i | 0 <= i < k :: relays[i].pin
  }

  ghost predicate SeparateUpTo(relays: seq<Relay>, k: nat)
    requires k <= |relays|
  {
    forall i, j :: 0 <= i < j < k ==> Separate(relays[i], relays[j])
  }

  /** The next relay is separate from all before it exactly when nothing of it was seen. */
  lemma SeparateNext(relays: seq<Relay>, k: nat)
    requires k < |relays| && AllVerified(relays) && SameEndpointSamePin(relays) && SeparateUpTo(relays, k)
    ensures SeparateUpTo(relays, k + 1) <==>
      && relays[k].proof.classical !in ClassicalsOf(relays, k) && relays[k].proof.pq !in PostQuantumsOf(relays, k)
      && relays[k].nodeId !in IdsOf(relays, k) && relays[k].pin !in PinsOf(relays, k)
  {
  }

  lemma EndpointUnused(relays: seq<Relay>, k: nat, revoked: set<Pin>, nodes: Nodes, keys: Keys)
    requires k < |relays| && SeparateUpTo(relays, k + 1) && PublishesUpTo(relays, k, revoked, nodes, keys)
    ensures EndpointOf(relays[k]) !in nodes
  {
  }

  lemma PublishesNext(relays: seq<Relay>, k: nat, revoked: set<Pin>, nodes: Nodes, keys: Keys)
    requires k < |relays| && EndpointOf(relays[k]) !in nodes && PublishesUpTo(relays, k, revoked, nodes, keys)
    ensures
      var r := relays[k];
      if r.pin in revoked then PublishesUpTo(relays, k + 1, revoked, nodes, keys)
      else PublishesUpTo(relays, k + 1, revoked, nodes[EndpointOf(r) := NodeOf(r)], keys[EndpointOf(r) := r.pin])
  {
  }

  /** The relay loop of a load. A second relay at a published endpoint cannot occur here,
      because equal endpoints would mean equal pins. */
  method StageRelays(relays: seq<Relay>, revoked: set<Pin>)
    returns (staged: Result<(Nodes, Keys), LoadError>)
    requires AllVerified(relays) && SameEndpointSamePin(relays)
    ensures staged.Ok? <==> AllSeparate(relays)
    ensures staged.Ok? ==> Publishes(relays, revoked, staged.value.0, staged.value.1)
    ensures staged.Err? ==> staged.error in {ComponentAlias, DuplicateRelay}
  {
    var replacement: Nodes := map[];
    var replacementKeys: Keys := map[];
    var identities: set<bytes> := {};
    var signingKeys: set<Pin> := {};
    var classicalKeys: set<nat> := {};
    var pqKeys: set<nat> := {};
    for k := 0 to |relays|
      invariant SeparateUpTo(relays, k)
      invariant classicalKeys == ClassicalsOf(relays, k) && pqKeys == PostQuantumsOf(relays, k)
      invariant identities == IdsOf(relays, k) && signingKeys == PinsOf(relays, k)
      invariant PublishesUpTo(relays, k, revoked, replacement, replacementKeys)
    {
      var r := relays[k];
      SeparateNext(relays, k);
      if r.proof.classical in classicalKeys || r.proof.pq in pqKeys {
        return Err(ComponentAlias);
      }
      if r.nodeId in identities || r.pin in signingKeys {
        return Err(DuplicateRelay);
      }
      classicalKeys, pqKeys := classicalKeys + {r.proof.classical}, pqKeys + {r.proof.pq};
      identities, signingKeys := identities + {r.nodeId}, signingKeys + {r.pin};
      EndpointUnused(relays, k, revoked, replacement, replacementKeys);
      PublishesNext(relays, k, revoked, replacement, replacementKeys);
      if r.pin in revoked {
        continue;
      }
      replacementKeys := replacementKeys[EndpointOf(r) := r.pin];
      replacement := replacement[EndpointOf(r) := NodeOf(r)];
    }
    return Ok((replacement, replacementKeys));
  }

  /** What a client demands of a snapshot's relays before publishing any of them. */
  ghost predicate Acceptable(relays: seq<Relay>, revoked: set<Pin>) {
    && relays != [] && AllVerified(relays) && AllSeparate(relays)
    && exists i :: 0 <= i < |relays| && relays[i].pin !in revoked
  }

  lemma SeparateEndpoints(relays: seq<Relay>)
    requires AllSeparate(relays)
    ensures SameEndpointSamePin(relays)
  {
  }

  method AdmitRelays(relays: seq<Relay>, revoked: set<Pin>)
    returns (staged: Result<(Nodes, Keys), LoadError>)
    ensures staged.Ok? <==> Acceptable(relays, revoked)
    ensures staged.Ok? ==> Publishes(relays, revoked, staged.value.0, staged.value.1)
    ensures staged == Err(InvalidRelays) <==> (relays == [] || !AllVerified(relays))
    ensures staged == Err(AllRetired) ==> forall i :: 0 <= i < |relays| ==> relays[i].pin in revoked
    ensures staged.Err? ==> staged.error !in {RollbackRejected, CannotPersistRecord, Conflicting}
  {
    if relays == [] || exists i :: 0 <= i < |relays| && !VerifyIdentity(relays[i]) {
      return Err(InvalidRelays);
    }
    var consistent := CheckEndpoints(relays);
    if !consistent {
      if AllSeparate(relays) { SeparateEndpoints(relays); }
      return Err(EndpointConflict);
    }
    staged := StageRelays(relays, revoked);
    if staged.Ok? {
      EmptyMeansRetired(relays, revoked, staged.value.0, staged.value.1);
      if |staged.value.0| == 0 {
        return Err(AllRetired);
      }
    }
  }

  lemma EmptyMeansRetired(relays: seq<Relay>, revoked: set<Pin>, nodes: Nodes, keys: Keys)
    requires Publishes(relays, revoked, nodes, keys)
    ensures |nodes| == 0 <==> forall i :: 0 <= i < |relays| ==> relays[i].pin in revoked
  {
  }

  /** A pool filled from the directory: nodes and pins at the same endpoints, pins distinct,
      nonzero and not retired. */
  ghost predicate DirectoryPool(nodes: Nodes, keys: Keys, revoked: set<Pin>) {
    && nodes.Keys == keys.Keys
    && (forall e :: e in nodes ==> Endpoint(nodes[e].host, nodes[e].port) == e)
    && (forall e :: e in keys ==> keys[e] != ZeroPin && keys[e] !in revoked)
    && (forall e, f :: e in keys && f in keys && keys[e] == keys[f] ==> e == f)
  }

  /** A successful load publishes a directory pool. */
  lemma PublishedPool(relays: seq<Relay>, revoked: set<Pin>, nodes: Nodes, keys: Keys)
    requires Acceptable(relays, revoked) && Publishes(relays, revoked, nodes, keys)
    ensures DirectoryPool(nodes, keys, revoked)
  {
  }

  /** What is published: at each endpoint of a relay that is not retired, a live node with that
      relay's address and exit flag, and its pin; and nothing else. */
  lemma PublishedNodes(relays: seq<Relay>, revoked: set<Pin>, nodes: Nodes, keys: Keys, e: Endpoint)
    requires Acceptable(relays, revoked) && Publishes(relays, revoked, nodes, keys)
    ensures e in nodes <==> exists r :: r in relays && r.pin !in revoked && e == Endpoint(r.host, r.port)
    ensures forall r :: r in relays && r.pin !in revoked && e == Endpoint(r.host, r.port) ==>
      && e in nodes && e in keys && keys[e] == r.pin
      && nodes[e].host == r.host && nodes[e].port == r.port && nodes[e].isExit == r.isExit && nodes[e].isAlive
  {
    forall r | r in relays && r.pin !in revoked && e == Endpoint(r.host, r.port)
      ensures e in nodes && e in keys && keys[e] == r.pin && nodes[e] == ProxyNode(r.host, r.port, r.isExit, true)
    {
      var i :| 0 <= i < |relays| && relays[i] == r;
    }
  }

  /** Whatever an authority newly freezes from a reachable table, a client accepts, unless
      the client's own policy retires every relay in it. */
  lemma FrozenDocumentAcceptable(tableRevoked: set<Pin>, events: seq<Event>, list: seq<Relay>, signer: Signer,
                                 policy: Policy, now: nat, revoked: set<Pin>)
    requires signer.key.Pin? && Snapshot(Run(tableRevoked, events).active, list)
    ensures
      var relays := NewVote(signer, EpochOf(now), FreshRelays(policy, now, list)).relays;
      Acceptable(relays, revoked) <==> exists i :: 0 <= i < |relays| && relays[i].pin !in revoked
  {
    FrozenDocumentSeparate(tableRevoked, events, list, signer, policy, now);
  }
}
