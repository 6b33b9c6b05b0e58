/** Loading a directory into the pool, the durable rollback record, and what agreement
    means for clients (src/mesh/pool.rs, src/mesh/directory_client.rs). */
module ClientLoad {
  import opened Prelude
  import opened Sorting
  import opened Address
  import opened Directory
  import opened Identity
  import opened Consensus
  import opened Votes
  import opened ClientPool
  import A = Agreement

  /** The snapshot record in memory and on disk; `path` is set by `init_guard_state`. */
  datatype Record = Record(memory: Option<AcceptedSnapshot>, disk: Option<AcceptedSnapshot>, path: bool)

  /** Not a rollback, and not another digest for the same epoch. */
  predicate Allowed(previous: Option<AcceptedSnapshot>, next: AcceptedSnapshot) {
    previous.None? || previous.value.epoch < next.epoch || previous.value == next
  }

  /** Persist, then publish; returns whether the snapshot was published. */
  function TryPublish(rec: Record, next: AcceptedSnapshot, outcome: WriteOutcome): (Record, bool) {
    if !Allowed(rec.memory, next) then (rec, false)
    else if rec.path && outcome.FailedOld? then (rec, false)
    else if rec.path && outcome.FailedNew? then (rec.(disk := Some(next)), false)
    else (rec.(memory := Some(next), disk := if rec.path then Some(next) else rec.disk), true)
  }

  function InitRecord(rec: Record): Record {
    if rec.path then rec else Record(rec.disk, rec.disk, true)
  }

  function SnapshotOf(doc: ConsensusDocument): AcceptedSnapshot {
    AcceptedSnapshot(doc.validAfter, Canonical(doc))
  }

  /** A snapshot is published exactly when it is newer than the record or the same, and its record,
      if it has a path, was written; the record on disk changes unless the write failed early. */
  lemma PublishedExactly(rec: Record, next: AcceptedSnapshot, outcome: WriteOutcome)
    ensures
      var (after, published) := TryPublish(rec, next, outcome);
      var allowed := rec.memory.Some? ==> next.epoch > rec.memory.value.epoch || next == rec.memory.value;
      && (published <==> allowed && (rec.path ==> outcome.Written?))
      && after.memory == (if published then Some(next) else rec.memory)
      && after.disk == (if rec.path && allowed && !outcome.FailedOld? then Some(next) else rec.disk)
      && after.path == rec.path
  {
  }

  /** The record is read from disk the first time, and never again in one life. */
  lemma ReadOnce(rec: Record)
    ensures InitRecord(rec) == if rec.path then rec else Record(rec.disk, rec.disk, true)
    ensures InitRecord(InitRecord(rec)) == InitRecord(rec) && InitRecord(rec).disk == rec.disk
  {
  }

  class ProxyPool {
    const revoked: set<Pin>
    var nodes: Nodes
    var identityKeys: Keys
    var consensusDeadline: nat
    var record: Record
    var statePath: string

    constructor (revoked: set<Pin>, disk: Option<AcceptedSnapshot>)
      ensures this.revoked == revoked && nodes == map[] && identityKeys == map[] && consensusDeadline == 0
      ensures record == Record(None, disk, false)
    {
      this.revoked := revoked;
      nodes, identityKeys, consensusDeadline := map[], map[], 0;
      record, statePath := Record(None, disk, false), "";
    }

    /** Reads the record back, once; `readable` is false when the record or the guard file beside
        it is invalid, and then nothing is published. A later call succeeds only for the path in
        use, and changes nothing. */
    method InitGuardState(path: string, readable: bool) returns (ok: bool)
      modifies this`record, this`statePath
      ensures ok == if old(record.path) then path == old(statePath) else readable
      ensures record == if ok then InitRecord(old(record)) else old(record)
      ensures statePath == if ok then path else old(statePath)
    {
      if record.path {
        return path == statePath;
      }
      if !readable {
        return false;
      }
      record := Record(record.disk, record.disk, true);
      statePath := path;
      return true;
    }

    /** `load_from_multi_consensus`. `selected` is the snapshot it settled on, if any. A
        failed load changes nothing that is published. */
    method LoadFromMultiConsensus(docs: seq<ConsensusDocument>, trusted: Authorities, threshold: nat, now: nat,
                                  outcome: WriteOutcome)
      returns (reply: Result<nat, LoadError>, ghost selected: Option<ConsensusDocument>)
      modifies this`nodes, this`identityKeys, this`consensusDeadline, this`record
      ensures reply.Err? ==>
        nodes == old(nodes) && identityKeys == old(identityKeys) && consensusDeadline == old(consensusDeadline)
      ensures reply.Err? && reply.error != CannotPersistRecord ==> record == old(record)
      ensures reply.Ok? || reply == Err(CannotPersistRecord) ==>
        && selected.Some? && Chosen(docs, trusted, threshold, now, selected.value)
        && Acceptable(selected.value.relays, revoked)
        && (record, reply.Ok?) == TryPublish(old(record), SnapshotOf(selected.value), outcome)
      ensures reply.Ok? ==>
        && Publishes(selected.value.relays, revoked, nodes, identityKeys) && reply.value == |nodes|
        && DirectoryPool(nodes, identityKeys, revoked) && consensusDeadline == selected.value.validUntil
      ensures reply == Err(Conflicting) ==> TwoNewest(Combined(docs, now), trusted, threshold, now)
      ensures reply.Ok? <==> exists doc :: Loadable(docs, trusted, threshold, now, revoked, old(record), outcome, doc)
    {
      selected := None;
      var choice := Choose(docs, trusted, threshold, now);
      OnlyTheChoiceLoads(docs, trusted, threshold, now, revoked, record, outcome, choice);
      if choice.Err? {
        return Err(choice.error), selected;
      }
      reply := LoadChosen(choice.value, outcome);
      selected := if reply.Ok? || reply == Err(CannotPersistRecord) then Some(choice.value) else None;
    }

    /** The rest of a load once its document is chosen. */
    method LoadChosen(doc: ConsensusDocument, outcome: WriteOutcome) returns (reply: Result<nat, LoadError>)
      modifies this`nodes, this`identityKeys, this`consensusDeadline, this`record
      ensures reply.Err? ==>
        nodes == old(nodes) && identityKeys == old(identityKeys) && consensusDeadline == old(consensusDeadline)
      ensures reply.Err? && reply.error != CannotPersistRecord ==> record == old(record) && reply.error != Conflicting
      ensures reply.Ok? || reply == Err(CannotPersistRecord) ==>
        Acceptable(doc.relays, revoked) && (record, reply.Ok?) == TryPublish(old(record), SnapshotOf(doc), outcome)
      ensures reply.Ok? ==>
        && Publishes(doc.relays, revoked, nodes, identityKeys) && reply.value == |nodes|
        && DirectoryPool(nodes, identityKeys, revoked) && consensusDeadline == doc.validUntil
      ensures reply.Ok? <==> Acceptable(doc.relays, revoked) && TryPublish(old(record), SnapshotOf(doc), outcome).1
    {
      if record.memory.Some? {
        var previous := record.memory.value;
        if doc.validAfter < previous.epoch || (doc.validAfter == previous.epoch && Canonical(doc) != previous.digest) {
          return Err(RollbackRejected);
        }
      }
      var staged := AdmitRelays(doc.relays, revoked);
      if staged.Err? {
        return Err(staged.error);
      }
      PublishedPool(doc.relays, revoked, staged.value.0, staged.value.1);
      reply := Publish(doc, staged.value.0, staged.value.1, outcome);
    }

    /** Persist the record, then replace everything that is published. */
    method Publish(doc: ConsensusDocument, replacement: Nodes, replacementKeys: Keys, outcome: WriteOutcome)
      returns (reply: Result<nat, LoadError>)
      requires Allowed(record.memory, SnapshotOf(doc))
      modifies this`nodes, this`identityKeys, this`consensusDeadline, this`record
      ensures (record, reply.Ok?) == TryPublish(old(record), SnapshotOf(doc), outcome)
      ensures reply == if reply.Ok? then Ok(|replacement|) else Err(CannotPersistRecord)
      ensures (nodes, identityKeys, consensusDeadline) ==
        if reply.Ok? then (replacement, replacementKeys, doc.validUntil)
        else (old(nodes), old(identityKeys), old(consensusDeadline))
    {
      var next := AcceptedSnapshot(doc.validAfter, Canonical(doc));
      if record.path {
        if outcome != Written {
          record := if outcome.FailedNew? then record.(disk := Some(next)) else record;
          return Err(CannotPersistRecord);
        }
        record := record.(disk := Some(next));
      }
      nodes, identityKeys := replacement, replacementKeys;
      record := record.(memory := Some(next));
      consensusDeadline := doc.validUntil;
      return Ok(|nodes|);
    }
  }

  /** The snapshot a load settles on: the one newest document with a quorum of the
      independent authorities. */
  ghost predicate Chosen(docs: seq<ConsensusDocument>, trusted: Authorities, threshold: nat, now: nat,
                         doc: ConsensusDocument) {
    && 0 < threshold <= |trusted| && DistinctKeys(trusted)
    && Newest(Combined(docs, now), trusted, threshold, now, Canonical(doc))
    && doc == Combined(docs, now)[Canonical(doc)]
  }

  /** The choice is the only document that can be chosen. */
  ghost predicate IsChoice(docs: seq<ConsensusDocument>, trusted: Authorities, threshold: nat, now: nat,
                           choice: Result<ConsensusDocument, LoadError>) {
    forall doc :: Chosen(docs, trusted, threshold, now, doc) <==> choice == Ok(doc)
  }

  lemma OnlyTheChoiceLoads(docs: seq<ConsensusDocument>, trusted: Authorities, threshold: nat, now: nat, revoked: set<Pin>,
                           rec: Record, outcome: WriteOutcome, choice: Result<ConsensusDocument, LoadError>)
    requires IsChoice(docs, trusted, threshold, now, choice)
    ensures (exists doc :: Loadable(docs, trusted, threshold, now, revoked, rec, outcome, doc)) <==>
      && choice.Ok? && Acceptable(choice.value.relays, revoked)
      && TryPublish(rec, SnapshotOf(choice.value), outcome).1
  {
    if choice.Ok? {
      assert Loadable(docs, trusted, threshold, now, revoked, rec, outcome, choice.value) <==>
        Acceptable(choice.value.relays, revoked) && TryPublish(rec, SnapshotOf(choice.value), outcome).1;
    }
  }

  method Choose(docs: seq<ConsensusDocument>, trusted: Authorities, threshold: nat, now: nat)
    returns (choice: Result<ConsensusDocument, LoadError>)
    ensures choice.Ok? ==> Chosen(docs, trusted, threshold, now, choice.value)
    ensures choice.Err? ==> choice.error in {InvalidThreshold, DependentKeys, NoQuorum, Conflicting}
    ensures choice == Err(InvalidThreshold) ==> threshold == 0 || threshold > |trusted|
    ensures choice == Err(DependentKeys) ==> !DistinctKeys(trusted)
    ensures choice == Err(NoQuorum) ==> NoneQuorate(Combined(docs, now), trusted, threshold, now)
    ensures choice == Err(Conflicting) ==> TwoNewest(Combined(docs, now), trusted, threshold, now)
    ensures IsChoice(docs, trusted, threshold, now, choice)
  {
    if threshold == 0 || threshold > |trusted| {
      return Err(InvalidThreshold);
    }
    DistinctValues(trusted);
    if |trusted.Values| != |trusted| {
      return Err(DependentKeys);
    }
    var snapshots := Combine(docs, now);
    CombinedKeyed(docs, now);
    choice := Select(snapshots, trusted, threshold, now);
  }

  /** What a load needs in order to publish: a chosen document with acceptable relays that is
      no rollback and can be recorded. */
  ghost predicate Loadable(docs: seq<ConsensusDocument>, trusted: Authorities, threshold: nat, now: nat, revoked: set<Pin>,
                           rec: Record, outcome: WriteOutcome, doc: ConsensusDocument) {
    && Chosen(docs, trusted, threshold, now, doc) && Acceptable(doc.relays, revoked)
    && TryPublish(rec, SnapshotOf(doc), outcome).1
  }

  // ---- rollback safety over runs of one client ----

  /** `Attempt`: a load whose quorum and relay checks all pass. Other loads change nothing. */
  datatype Event = Attempt(next: AcceptedSnapshot, outcome: WriteOutcome) | Init | Restart

  /** `published` lists every snapshot published so far, over all the client's lives. */
  datatype Client = Client(record: Record, published: seq<AcceptedSnapshot>)

  const INITIAL := Client(Record(None, None, false), [])

  function Next(c: Client, ev: Event): Client {
    match ev
    case Init => c.(record := InitRecord(c.record))
    case Restart => c.(record := Record(None, c.record.disk, false))
    case Attempt(next, outcome) =>
      var (record, done) := TryPublish(c.record, next, outcome);
      Client(record, if done then c.published + [next] else c.published)
  }

  /** The client that starts as `c` after the events. */
  function RunFrom(c: Client, events: seq<Event>): Client {
    if events == [] then c else Next(RunFrom(c, events[..|events| - 1]), events[|events| - 1])
  }

  function Run(events: seq<Event>): Client {
    RunFrom(INITIAL, events)
  }

  ghost predicate NeverRollsBack(published: seq<AcceptedSnapshot>) {
    forall i, j :: 0 <= i < j < |published| ==> Allowed(Some(published[i]), published[j])
  }

  predicate AtLeast(m: Option<AcceptedSnapshot>, p: AcceptedSnapshot) {
    m.Some? && Allowed(Some(p), m.value)
  }

  /** Every life of the process initialises its record before its first load. */
  ghost predicate InitFirst(c: Client, events: seq<Event>) {
    forall k :: 0 <= k < |events| && events[k].Attempt? ==> RunFrom(c, events[..k]).record.path
  }

  /** The record on disk, and in memory once it has been read, is at least what was published. */
  ghost predicate Inv(c: Client) {
    && NeverRollsBack(c.published)
    && (c.published != [] ==>
         && AtLeast(c.record.disk, c.published[|c.published| - 1])
         && (c.record.path ==> AtLeast(c.record.memory, c.published[|c.published| - 1])))
  }

  lemma NextKeepsInv(c: Client, ev: Event)
    requires Inv(c) && (ev.Attempt? ==> c.record.path)
    ensures Inv(Next(c, ev))
  {
  }

  lemma {:induction false} RunKeepsInv(c: Client, events: seq<Event>)
    requires Inv(c) && InitFirst(c, events)
    ensures Inv(RunFrom(c, events))
  {
    if events != [] {
      var n := |events| - 1;
      assert forall k :: 0 <= k < n ==> events[..n][..k] == events[..k];
      RunKeepsInv(c, events[..n]);
      NextKeepsInv(RunFrom(c, events[..n]), events[n]);
    }
  }

  /** Rollback safety: across loads, failed persists and restarts, published epochs never
      decrease and equal epochs carry equal digests. */
  lemma RollbackSafe(events: seq<Event>, i: nat, j: nat)
    requires InitFirst(INITIAL, events) && i < j < |Run(events).published|
    ensures
      var p, q := Run(events).published[i], Run(events).published[j];
      p.epoch <= q.epoch && (p.epoch == q.epoch ==> p.digest == q.digest)
  {
    RunKeepsInv(INITIAL, events);
  }

  /** One load is safe against every snapshot it may be offered exactly when the record in
      memory is at least the last published snapshot. */
  lemma LoadSafeExactly(c: Client, outcome: WriteOutcome)
    requires c.published != [] && (c.record.path ==> outcome.Written?)
    ensures
      var last := c.published[|c.published| - 1];
      (forall next :: TryPublish(c.record, next, outcome).1 ==> Allowed(Some(last), next))
        <==> AtLeast(c.record.memory, last)
  {
    var last := c.published[|c.published| - 1];
    if !AtLeast(c.record.memory, last) {
      var next := Regression(c.record.memory, last);
      assert TryPublish(c.record, next, outcome).1 && !Allowed(Some(last), next);
    }
  }

  /** An offer that a record which does not cover `last` lets through after `last`. */
  function Regression(memory: Option<AcceptedSnapshot>, last: AcceptedSnapshot): AcceptedSnapshot {
    if memory.Some? then memory.value
    else AcceptedSnapshot(last.epoch, last.digest.(validUntil := last.digest.validUntil + 1))
  }

  lemma RegressionPublished(c: Client)
    requires c.published != [] && c.record.path && !AtLeast(c.record.memory, c.published[|c.published| - 1])
    ensures
      var next := Regression(c.record.memory, c.published[|c.published| - 1]);
      !NeverRollsBack(Next(c, Attempt(next, Written)).published)
  {
    var n := |c.published|;
    var next := Regression(c.record.memory, c.published[n - 1]);
    var after := Next(c, Attempt(next, Written)).published;
    assert after == c.published + [next];
    assert !Allowed(Some(after[n - 1]), after[n]);
  }

  lemma OneStep(c: Client, e: Event)
    ensures RunFrom(c, [e]) == Next(c, e)
    ensures (e.Attempt? ==> c.record.path) ==> InitFirst(c, [e])
  {
    assert [e][..0] == [];
  }

  /** The continuation that exposes a record on disk that fell behind. */
  lemma RestartAndLoad(c: Client, next: AcceptedSnapshot)
    ensures
      var events := [Restart, Init, Attempt(next, Written)];
      && RunFrom(c, events) == Next(Next(Next(c, Restart), Init), Attempt(next, Written))
      && InitFirst(c, events)
  {
    var events := [Restart, Init, Attempt(next, Written)];
    assert events[..0] == [] && events[..1] == [Restart] && events[..2] == [Restart, Init];
    assert events[..2][..1] == [Restart];
    OneStep(c, Restart);
    assert RunFrom(c, events[..2]) == Next(Next(c, Restart), Init);
  }

  /** Exactly when a client is safe for good: every continuation whose lives initialise first is
      free of rollback if and only if the record on disk, and in memory once read, is at least
      the last published snapshot. */
  lemma SafeForGoodExactly(c: Client)
    requires NeverRollsBack(c.published)
    ensures (forall events :: InitFirst(c, events) ==> NeverRollsBack(RunFrom(c, events).published)) <==> Inv(c)
  {
    if Inv(c) {
      forall events | InitFirst(c, events) ensures NeverRollsBack(RunFrom(c, events).published) {
        RunKeepsInv(c, events);
      }
    } else {
      var last := c.published[|c.published| - 1];
      if !AtLeast(c.record.disk, last) {
        var restarted := Next(Next(c, Restart), Init);
        RestartAndLoad(c, Regression(c.record.disk, last));
        RegressionPublished(restarted);
      } else {
        var e := Attempt(Regression(c.record.memory, last), Written);
        OneStep(c, e);
        RegressionPublished(c);
      }
    }
  }

  /** A load before `init_guard_state` is forgotten by it, and an older snapshot is then
      accepted: why every life must initialise first. */
  lemma LoadBeforeInitRollsBack(newer: AcceptedSnapshot, older: AcceptedSnapshot)
    requires older.epoch < newer.epoch
    ensures Run([Attempt(newer, Written), Init, Attempt(older, Written)]).published == [newer, older]
  {
    var events := [Attempt(newer, Written), Init, Attempt(older, Written)];
    assert events[..2][..1] == [events[0]] && events[..2] == [events[0], events[1]];
    OneStep(INITIAL, events[0]);
    assert INITIAL.published + [newer] == [newer];
    assert Run([events[0]]) == Client(Record(Some(newer), None, false), [newer]);
    assert Run(events[..2]) == Client(Record(None, None, true), [newer]);
    assert [newer] + [older] == [newer, older];
  }

  // ---- agreement, as clients see it ----

  /** Every document a client was handed is genuine. */
  ghost predicate AllGenuine(sys: map<Pin, A.AuthorityState>, docs: seq<ConsensusDocument>) {
    forall d :: d in docs ==> A.Genuine(sys, d)
  }

  lemma CombinedGenuine(sys: map<Pin, A.AuthorityState>, docs: seq<ConsensusDocument>, now: nat, g: Digest)
    requires AllGenuine(sys, docs) && g in Combined(docs, now)
    ensures A.Genuine(sys, Combined(docs, now)[g])
    ensures Canonical(Combined(docs, now)[g]) == g
  {
    CombinedIsOk(docs, now);
    assert SnapshotOk(Combined(docs, now), docs, now, g);
    var doc := Combined(docs, now)[g];
    forall v, k, d | v in doc.signatures && k in sys && Verifies(k, SignedDigest(d), v.proof)
      ensures d in sys[k].released
    {
      assert Brought(docs, now, g, v);
      var i: nat :| Brings(docs, now, g, v, i);
      assert A.Genuine(sys, docs[i]);
    }
  }

  /** Any two snapshots that reach quorum for one epoch, at any two clients trusting the
      same keys, have the same digest, even when one client loads later in the run. */
  lemma ClientsAgree(honest: A.Honest, steps: seq<A.Step>, more: seq<A.Step>,
                     docs: seq<ConsensusDocument>, trusted: Authorities, threshold: nat, now: nat, g: Digest,
                     docs': seq<ConsensusDocument>, trusted': Authorities, threshold': nat, now': nat, h: Digest)
    requires A.RealKeys(honest)
    requires A.SafeClient(trusted, threshold) && A.SafeClient(trusted', threshold')
    requires trusted.Values == trusted'.Values && 3 * |trusted.Values - honest.Keys| < |trusted|
    requires AllGenuine(A.RunSystem(honest, steps), docs)
    requires AllGenuine(A.RunSystem(honest, steps + more), docs')
    requires Quorate(Combined(docs, now), trusted, threshold, now, g)
    requires Quorate(Combined(docs', now'), trusted', threshold', now', h)
    requires g.validAfter == h.validAfter
    ensures g == h
  {
    var d, e := Combined(docs, now)[g], Combined(docs', now')[h];
    CombinedGenuine(A.RunSystem(honest, steps), docs, now, g);
    CombinedGenuine(A.RunSystem(honest, steps + more), docs', now', h);
    A.GenuineLater(honest, steps, more, d);
    assert Canonical(d).validAfter == d.validAfter && Canonical(e).validAfter == e.validAfter;
    A.Agreement(honest, steps + more, d, e, trusted, threshold, now, trusted', threshold', now');
  }

  /** The "conflicting snapshots for one epoch" refusal cannot happen. */
  lemma NeverConflicting(honest: A.Honest, steps: seq<A.Step>, docs: seq<ConsensusDocument>,
                         trusted: Authorities, threshold: nat, now: nat)
    requires A.RealKeys(honest) && A.SafeClient(trusted, threshold)
    requires 3 * |trusted.Values - honest.Keys| < |trusted|
    requires AllGenuine(A.RunSystem(honest, steps), docs)
    ensures !TwoNewest(Combined(docs, now), trusted, threshold, now)
  {
    var snapshots := Combined(docs, now);
    assert steps + [] == steps;
    forall g: Digest, h: Digest
      | g.validAfter == h.validAfter && Quorate(snapshots, trusted, threshold, now, g)
        && Quorate(snapshots, trusted, threshold, now, h)
      ensures g == h
    {
      ClientsAgree(honest, steps, [], docs, trusted, threshold, now, g, docs, trusted, threshold, now, h);
    }
  }

  /** Equal digests list the same relays, up to order and proofs. */
  lemma SameRelay(d: ConsensusDocument, e: ConsensusDocument, i: nat) returns (j: nat)
    requires Canonical(d) == Canonical(e) && i < |d.relays|
    ensures j < |e.relays| && Unsigned(e.relays[j]) == Unsigned(d.relays[i])
  {
    var s, t := SortBy(ById<Host, Pin, Proof>, d.relays), SortBy(ById<Host, Pin, Proof>, e.relays);
    ByIdPreorder<Host, Pin, Proof>();
    SortSorts(ById<Host, Pin, Proof>, d.relays);
    SortSorts(ById<Host, Pin, Proof>, e.relays);
    assert d.relays[i] in multiset(s);
    var k :| 0 <= k < |s| && s[k] == d.relays[i];
    assert UnsignedAll(s)[k] == UnsignedAll(t)[k];
    assert t[k] in multiset(e.relays);
    j :| 0 <= j < |e.relays| && e.relays[j] == t[k];
  }

  lemma PoolIncluded(d: ConsensusDocument, e: ConsensusDocument, revoked: set<Pin>,
                     nodes: Nodes, keys: Keys, nodes': Nodes, keys': Keys, at: Endpoint)
    requires Canonical(d) == Canonical(e) && at in nodes
    requires Publishes(d.relays, revoked, nodes, keys) && Publishes(e.relays, revoked, nodes', keys')
    ensures at in nodes' && nodes'[at] == nodes[at] && keys'[at] == keys[at]
  {
    var i :| 0 <= i < |d.relays| && d.relays[i].pin !in revoked && EndpointOf(d.relays[i]) == at;
    var j := SameRelay(d, e, i);
    assert EndpointOf(e.relays[j]) == at && NodeOf(e.relays[j]) == NodeOf(d.relays[i]);
  }

  /** Equal digests publish equal pools, under the same retirement policy. */
  lemma SamePool(d: ConsensusDocument, e: ConsensusDocument, revoked: set<Pin>,
                 nodes: Nodes, keys: Keys, nodes': Nodes, keys': Keys)
    requires Canonical(d) == Canonical(e)
    requires Publishes(d.relays, revoked, nodes, keys) && Publishes(e.relays, revoked, nodes', keys')
    ensures nodes == nodes' && keys == keys'
  {
    forall at | at in nodes ensures at in nodes' && nodes'[at] == nodes[at] && keys'[at] == keys[at] {
      PoolIncluded(d, e, revoked, nodes, keys, nodes', keys', at);
    }
    forall at | at in nodes' ensures at in nodes {
      PoolIncluded(e, d, revoked, nodes', keys', nodes, keys, at);
    }
  }

  /** End to end: two clients that trust the same keys, with fewer than a third Byzantine, and
      accept documents for the same epoch, at any two times, publish the same relays and pins. */
  lemma ClientsPublishAlike(honest: A.Honest, steps: seq<A.Step>, more: seq<A.Step>, revoked: set<Pin>,
                            docs: seq<ConsensusDocument>, trusted: Authorities, threshold: nat, now: nat,
                            d: ConsensusDocument, nodes: Nodes, keys: Keys,
                            docs': seq<ConsensusDocument>, trusted': Authorities, threshold': nat, now': nat,
                            e: ConsensusDocument, nodes': Nodes, keys': Keys)
    requires A.RealKeys(honest)
    requires A.SafeClient(trusted, threshold) && A.SafeClient(trusted', threshold')
    requires trusted.Values == trusted'.Values && 3 * |trusted.Values - honest.Keys| < |trusted|
    requires AllGenuine(A.RunSystem(honest, steps), docs)
    requires AllGenuine(A.RunSystem(honest, steps + more), docs')
    requires Chosen(docs, trusted, threshold, now, d) && Chosen(docs', trusted', threshold', now', e)
    requires Publishes(d.relays, revoked, nodes, keys) && Publishes(e.relays, revoked, nodes', keys')
    requires d.validAfter == e.validAfter
    ensures nodes == nodes' && keys == keys'
  {
    ClientsAgree(honest, steps, more, docs, trusted, threshold, now, Canonical(d),
                 docs', trusted', threshold', now', Canonical(e));
    SamePool(d, e, revoked, nodes, keys, nodes', keys');
  }

  // ---- configuring a client ----

  datatype AuthorityEndpoint<+I, +A> = AuthorityEndpoint(identity: I, address: A, publicKey: Pin)

  type TextEndpoint = AuthorityEndpoint<string, string>

  predicate AddressChar(c: char) {
    c > ' ' && c as int != 127
  }

  predicate WellFormed(e: TextEndpoint) {
    && 0 < |e.identity| <= 128 && 0 < |e.address| <= 512
    && (forall i :: 0 <= i < |e.address| ==> AddressChar(e.address[i]))
    && e.publicKey != ZeroPin
  }

  /** An authority is well formed exactly when its identity has 1 to 128 characters, its address 1 to
      512, none of them blank or a control character, and its key is not zero. */
  lemma WellFormedExactly(e: TextEndpoint)
    ensures WellFormed(e) <==>
      && 1 <= |e.identity| <= 128 && 1 <= |e.address| <= 512 && e.publicKey.Pin?
      && forall c :: c in e.address ==> c >= '!' && c as int != 0x7f
  {
    if WellFormed(e) {
      forall c | c in e.address ensures c >= '!' && c as int != 0x7f {
        var i :| 0 <= i < |e.address| && e.address[i] == c;
      }
    } else {
      assert forall i :: 0 <= i < |e.address| ==> e.address[i] in e.address;
    }
  }

  predicate Apart<I(==), A(==)>(a: AuthorityEndpoint<I, A>, b: AuthorityEndpoint<I, A>) {
    a.identity != b.identity && a.address != b.address && a.publicKey != b.publicKey
  }

  /** The first `k` authorities are pairwise distinct in identity, address and key. */
  ghost predicate ApartUpTo<I, A>(endpoints: seq<AuthorityEndpoint<I, A>>, k: nat)
    requires k <= |endpoints|
  {
    forall i, j :: 0 <= i < j < k ==> Apart(endpoints[i], endpoints[j])
  }

  /** `trusted` binds the identities of the first `k` authorities to their keys. */
  ghost predicate Trusts<I, A>(endpoints: seq<AuthorityEndpoint<I, A>>, k: nat, trusted: map<I, Pin>)
    requires k <= |endpoints|
  {
    && trusted.Keys == IdentitiesOf(endpoints, k)
    && (forall i :: 0 <= i < k ==> trusted[endpoints[i].identity] == endpoints[i].publicKey)
  }

  ghost function IdentitiesOf<I, A>(endpoints: seq<AuthorityEndpoint<I, A>>, k: nat): set<I>
    requires k <= |endpoints|
  {
    set i | 0 <= i < k :: endpoints[i].identity
  }

  ghost function AddressesOf<I, A>(endpoints: seq<AuthorityEndpoint<I, A>>, k: nat): set<A>
    requires k <= |endpoints|
  {
    set i | 0 <= i < k :: endpoints[i].address
  }

  ghost function KeysOf<I, A>(endpoints: seq<AuthorityEndpoint<I, A>>, k: nat): set<Pin>
    requires k <= |endpoints|
  {
    set i | 0 <= i < k :: endpoints[i].publicKey
  }

  lemma TrustsNext<I, A>(endpoints: seq<AuthorityEndpoint<I, A>>, k: nat, trusted: map<I, Pin>)
    requires k < |endpoints| && Trusts(endpoints, k, trusted) && endpoints[k].identity !in trusted
    ensures Trusts(endpoints, k + 1, trusted[endpoints[k].identity := endpoints[k].publicKey])
  {
  }

  lemma IdentitiesNext<I, A>(endpoints: seq<AuthorityEndpoint<I, A>>, k: nat)
    requires k < |endpoints|
    ensures IdentitiesOf(endpoints, k + 1) == IdentitiesOf(endpoints, k) + {endpoints[k].identity}
  {
  }

  lemma {:induction false} IdentitiesCounted<I, A>(endpoints: seq<AuthorityEndpoint<I, A>>, k: nat)
    requires k <= |endpoints| && ApartUpTo(endpoints, k)
    ensures |IdentitiesOf(endpoints, k)| == k
  {
    if k != 0 {
      IdentitiesCounted(endpoints, k - 1);
      IdentitiesNext(endpoints, k - 1);
      forall i | 0 <= i < k - 1 ensures endpoints[i].identity != endpoints[k - 1].identity {
        assert Apart(endpoints[i], endpoints[k - 1]);
      }
    }
  }

  lemma ApartNext<I, A>(endpoints: seq<AuthorityEndpoint<I, A>>, k: nat)
    requires k < |endpoints| && ApartUpTo(endpoints, k)
    ensures ApartUpTo(endpoints, k + 1) <==>
      && endpoints[k].address !in AddressesOf(endpoints, k)
      && endpoints[k].publicKey !in KeysOf(endpoints, k) && endpoints[k].identity !in IdentitiesOf(endpoints, k)
  {
  }

  method BindAuthorities<I(==), A(==)>(endpoints: seq<AuthorityEndpoint<I, A>>, ok: AuthorityEndpoint<I, A> -> bool)
    returns (client: Option<map<I, Pin>>)
    ensures client.Some? <==>
      (forall i :: 0 <= i < |endpoints| ==> ok(endpoints[i])) && ApartUpTo(endpoints, |endpoints|)
    ensures client.Some? ==> Trusts(endpoints, |endpoints|, client.value)
  {
    var trusted: map<I, Pin> := map[];
    var keys: set<Pin> := {};
    var addresses: set<A> := {};
    for k := 0 to |endpoints|
      invariant forall i :: 0 <= i < k ==> ok(endpoints[i])
      invariant ApartUpTo(endpoints, k) && Trusts(endpoints, k, trusted)
      invariant keys == KeysOf(endpoints, k) && addresses == AddressesOf(endpoints, k)
    {
      var e := endpoints[k];
      ApartNext(endpoints, k);
      if !ok(e) || e.address in addresses || e.publicKey in keys {
        return None;
      }
      if e.identity in trusted {
        return None;
      }
      TrustsNext(endpoints, k, trusted);
      keys, addresses := keys + {e.publicKey}, addresses + {e.address};
      trusted := trusted[e.identity := e.publicKey];
    }
    return Some(trusted);
  }

  /** `PinnedDirectoryClient::new` accepts exactly 1 to 16 well-formed, pairwise distinct
      authorities with a quorum above two thirds; `None` is its refusal. */
  method NewDirectoryClient(endpoints: seq<TextEndpoint>, quorum: nat) returns (client: Option<Authorities>)
    ensures client.Some? <==>
      && 1 <= |endpoints| <= 16 && 2 * |endpoints| / 3 + 1 <= quorum <= |endpoints|
      && (forall i :: 0 <= i < |endpoints| ==> WellFormed(endpoints[i])) && ApartUpTo(endpoints, |endpoints|)
    ensures client.Some? ==> Trusts(endpoints, |endpoints|, client.value)
  {
    if |endpoints| == 0 || |endpoints| > 16 || quorum < 2 * |endpoints| / 3 + 1 || quorum > |endpoints| {
      return None;
    }
    client := BindAuthorities(endpoints, WellFormed);
  }

  lemma TrustedKeysDistinct<I, A>(endpoints: seq<AuthorityEndpoint<I, A>>, trusted: map<I, Pin>)
    requires ApartUpTo(endpoints, |endpoints|) && Trusts(endpoints, |endpoints|, trusted)
    ensures forall a, b :: a in trusted && b in trusted && trusted[a] == trusted[b] ==> a == b
  {
  }

  /** A configured client meets the conditions of the agreement theorem. */
  lemma ConfiguredClientIsSafe(endpoints: seq<TextEndpoint>, quorum: nat, trusted: Authorities)
    requires ApartUpTo(endpoints, |endpoints|) && Trusts(endpoints, |endpoints|, trusted)
    requires quorum >= 2 * |endpoints| / 3 + 1
    ensures A.SafeClient(trusted, quorum)
  {
    TrustedKeysDistinct(endpoints, trusted);
    IdentitiesCounted(endpoints, |endpoints|);
    assert |trusted| == |trusted.Keys|;
  }
}
