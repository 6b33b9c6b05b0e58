/** Reconciliation with peers (src/mesh/authority.rs, `reconcile_relays`): what a list of offers
    teaches a local copy, what writing the copy back changes, and the live table. */
module Reconciliation {
  import opened Prelude
  import opened Directory
  import opened Identity
  import opened RelayTable

  /** No other node of the table shares a pin, a key component or an endpoint with `r`. */
  ghost predicate ApartFrom(table: Table, r: Relay) {
    forall id :: id in table && id != r.nodeId ==> Separate(table[id], r)
  }

  /** On verified relays the conflict test decides exactly that. */
  lemma ConflictsExactly(revoked: set<Pin>, table: Table, r: Relay)
    requires Entries(revoked, table) && VerifyIdentity(r)
    ensures !Conflicts(table, r) <==> ApartFrom(table, r)
  {
    forall id | id in table ensures Clash(table[id], r) <==> id != r.nodeId && !Separate(table[id], r) {
    }
  }

  /** An offer worth learning: verified, not retired, with enough work, and dated within five
      minutes of the clock. */
  ghost predicate Sound(revoked: set<Pin>, o: Offer, now: nat) {
    && VerifyIdentity(o.relay) && o.relay.pin !in revoked
    && o.work && o.relay.registeredAt <= now + 300 && now <= o.relay.registeredAt + 300
  }

  /** The table has a place for `r`, and lists its node, if at all, under the same pin. */
  ghost predicate Takes(table: Table, r: Relay) {
    && ApartFrom(table, r)
    && if r.nodeId in table then table[r.nodeId].pin == r.pin else |table| < 512
  }

  /** The node of `r` is listed under its pin, by a registration no older. */
  ghost predicate Knows(table: Table, r: Relay) {
    r.nodeId in table && table[r.nodeId].pin == r.pin && table[r.nodeId].registeredAt >= r.registeredAt
  }

  // ---- learning from offers ----

  /** One offer changes at most its own node's entry, and does so exactly when it is sound, the
      table takes it, and no registration as recent is listed. */
  lemma GossipExactly(revoked: set<Pin>, local: Table, o: Offer, now: nat)
    requires TableOk(revoked, local)
    ensures
      var r, next := o.relay, Gossip(revoked, local, o, now);
      if Sound(revoked, o, now) && Takes(local, r) && !Knows(local, r) then next == local[r.nodeId := r] else next == local
  {
    if VerifyIdentity(o.relay) {
      ConflictsExactly(revoked, local, o.relay);
    }
  }

  /** Every entry is an old one or comes from a sound offer. */
  ghost predicate Learned(revoked: set<Pin>, local: Table, offers: seq<Offer>, now: nat, merged: Table) {
    forall id :: id in merged ==> (id in local && merged[id] == local[id]) || Offered(revoked, offers, now, merged[id])
  }

  ghost predicate Offered(revoked: set<Pin>, offers: seq<Offer>, now: nat, r: Relay) {
    exists k :: 0 <= k < |offers| && offers[k].relay == r && Sound(revoked, offers[k], now)
  }

  lemma OfferedLater(revoked: set<Pin>, offers: seq<Offer>, now: nat, r: Relay)
    requires offers != [] && Offered(revoked, offers[..|offers| - 1], now, r)
    ensures Offered(revoked, offers, now, r)
  {
    var k :| 0 <= k < |offers| - 1 && offers[k].relay == r && Sound(revoked, offers[k], now);
  }

  lemma KnowsLater(before: Table, after: Table, r: Relay)
    requires Knows(before, r) && before.Keys <= after.Keys && Advances(before, after)
    ensures Knows(after, r)
  {
  }

  /** One offer forgets no node and rolls none back, and is known afterwards if it is sound and
      the table takes it. */
  lemma GossipStep(revoked: set<Pin>, local: Table, o: Offer, now: nat)
    requires TableOk(revoked, local)
    ensures
      var next := Gossip(revoked, local, o, now);
      && local.Keys <= next.Keys && Advances(local, next)
      && (Sound(revoked, o, now) && Takes(local, o.relay) ==> Knows(next, o.relay))
      && forall id :: id in next ==> (id in local && next[id] == local[id]) || (next[id] == o.relay && Sound(revoked, o, now))
  {
    GossipExactly(revoked, local, o, now);
  }

  /** Merging a list forgets no node and rolls none back. */
  lemma {:induction false} MergeAdvances(revoked: set<Pin>, local: Table, offers: seq<Offer>, now: nat)
    requires TableOk(revoked, local)
    ensures
      var merged := GossipAll(revoked, local, offers, now);
      local.Keys <= merged.Keys && Advances(local, merged)
  {
    if offers != [] {
      var n := |offers| - 1;
      var before := GossipAll(revoked, local, offers[..n], now);
      MergeAdvances(revoked, local, offers[..n], now);
      GossipAllOk(revoked, local, offers[..n], now);
      GossipStep(revoked, before, offers[n], now);
      AdvancesTwice(local, before, GossipAll(revoked, local, offers, now));
    }
  }

  lemma LearnedStep(revoked: set<Pin>, local: Table, offers: seq<Offer>, now: nat, before: Table, after: Table)
    requires offers != [] && Learned(revoked, local, offers[..|offers| - 1], now, before)
    requires
      var o := offers[|offers| - 1];
      forall id :: id in after ==> (id in before && after[id] == before[id]) || (after[id] == o.relay && Sound(revoked, o, now))
    ensures Learned(revoked, local, offers, now, after)
  {
    forall id | id in after
      ensures (id in local && after[id] == local[id]) || Offered(revoked, offers, now, after[id])
    {
      if id in before && after[id] == before[id] && Offered(revoked, offers[..|offers| - 1], now, before[id]) {
        OfferedLater(revoked, offers, now, before[id]);
      }
    }
  }

  /** Merging a list learns only sound offers. */
  lemma {:induction false} MergeLearns(revoked: set<Pin>, local: Table, offers: seq<Offer>, now: nat)
    requires TableOk(revoked, local)
    ensures Learned(revoked, local, offers, now, GossipAll(revoked, local, offers, now))
  {
    if offers != [] {
      var n := |offers| - 1;
      var before := GossipAll(revoked, local, offers[..n], now);
      MergeLearns(revoked, local, offers[..n], now);
      GossipAllOk(revoked, local, offers[..n], now);
      GossipStep(revoked, before, offers[n], now);
      LearnedStep(revoked, local, offers, now, before, GossipAll(revoked, local, offers, now));
    }
  }

  lemma {:induction false} MergeSplits(revoked: set<Pin>, local: Table, a: seq<Offer>, b: seq<Offer>, now: nat)
    ensures GossipAll(revoked, local, a + b, now) == GossipAll(revoked, GossipAll(revoked, local, a, now), b, now)
  {
    if b == [] {
      assert a + b == a;
    } else {
      var n := |b| - 1;
      MergeSplits(revoked, local, a, b[..n], now);
      assert (a + b)[..|a + b| - 1] == a + b[..n];
    }
  }

  /** A sound offer that the copy takes when its turn comes is known from then on. */
  lemma TakenIsKnown(revoked: set<Pin>, local: Table, offers: seq<Offer>, now: nat, k: nat)
    requires TableOk(revoked, local) && k < |offers| && Sound(revoked, offers[k], now)
    requires Takes(GossipAll(revoked, local, offers[..k], now), offers[k].relay)
    ensures Knows(GossipAll(revoked, local, offers, now), offers[k].relay)
  {
    var first, rest := offers[..k + 1], offers[k + 1..];
    var at, then_ := GossipAll(revoked, local, offers[..k], now), GossipAll(revoked, local, first, now);
    assert first[..k] == offers[..k] && offers == first + rest;
    GossipAllOk(revoked, local, offers[..k], now);
    GossipAllOk(revoked, local, first, now);
    GossipStep(revoked, at, offers[k], now);
    MergeSplits(revoked, local, first, rest, now);
    MergeAdvances(revoked, then_, rest, now);
    KnowsLater(then_, GossipAll(revoked, local, offers, now), offers[k].relay);
  }

  ghost function OfferedIds(offers: seq<Offer>): set<bytes> {
    set k | 0 <= k < |offers| :: offers[k].relay.nodeId
  }

  /** Nothing in the copy or among the offers stands in the way of offer `k`. */
  ghost predicate Unopposed(local: Table, offers: seq<Offer>, k: nat)
    requires k < |offers|
  {
    var r := offers[k].relay;
    && ApartFrom(local, r) && (r.nodeId in local ==> local[r.nodeId].pin == r.pin)
    && (forall j :: 0 <= j < |offers| ==>
          if offers[j].relay.nodeId == r.nodeId then offers[j].relay.pin == r.pin else Separate(offers[j].relay, r))
    && (r.nodeId in local || |local.Keys + OfferedIds(offers)| <= 512)
  }

  lemma LearnedFits(revoked: set<Pin>, local: Table, offers: seq<Offer>, now: nat, k: nat, at: Table, id: bytes)
    requires k < |offers| && Unopposed(local, offers, k) && Learned(revoked, local, offers[..k], now, at)
    requires Entries(revoked, at) && id in at
    ensures
      var r := offers[k].relay;
      && id in local.Keys + OfferedIds(offers)
      && if id == r.nodeId then at[id].pin == r.pin else Separate(at[id], r)
  {
    if !(id in local && at[id] == local[id]) {
      var j :| 0 <= j < k && offers[..k][j].relay == at[id];
      assert offers[j].relay == at[id];
    }
  }

  /** A table whose ids, with one it lacks, are among at most 512 has room. */
  lemma RoomFor(table: Table, id: bytes, ids: set<bytes>)
    requires table.Keys <= ids && id in ids && id !in table && |ids| <= 512
    ensures |table| < 512
  {
    SubsetSize(table.Keys + {id}, ids);
    assert |table| == |table.Keys| && |table.Keys + {id}| == |table.Keys| + 1;
  }

  lemma UnopposedIsTaken(revoked: set<Pin>, local: Table, offers: seq<Offer>, now: nat, k: nat)
    requires TableOk(revoked, local) && k < |offers| && Unopposed(local, offers, k)
    ensures Takes(GossipAll(revoked, local, offers[..k], now), offers[k].relay)
  {
    var at, r := GossipAll(revoked, local, offers[..k], now), offers[k].relay;
    GossipAllOk(revoked, local, offers[..k], now);
    MergeLearns(revoked, local, offers[..k], now);
    MergeAdvances(revoked, local, offers[..k], now);
    forall id | id in at
      ensures id in local.Keys + OfferedIds(offers) && if id == r.nodeId then at[id].pin == r.pin else Separate(at[id], r)
    {
      LearnedFits(revoked, local, offers, now, k, at, id);
    }
    if r.nodeId !in at {
      RoomFor(at, r.nodeId, local.Keys + OfferedIds(offers));
    }
  }

  /** Gossip is learned: a sound offer that nothing in the copy or the list stands in the way of
      leaves its node listed, by a registration no older. */
  lemma UnopposedIsKnown(revoked: set<Pin>, local: Table, offers: seq<Offer>, now: nat, k: nat)
    requires TableOk(revoked, local) && k < |offers|
    requires Sound(revoked, offers[k], now) && Unopposed(local, offers, k)
    ensures Knows(GossipAll(revoked, local, offers, now), offers[k].relay)
  {
    UnopposedIsTaken(revoked, local, offers, now, k);
    TakenIsKnown(revoked, local, offers, now, k);
  }

  // ---- writing a copy back ----

  /** Writing one descriptor back changes at most its own node's entry, exactly when the table
      takes it and lists no registration as recent. */
  lemma CommitExactly(revoked: set<Pin>, active: Table, r: Relay)
    requires TableOk(revoked, active) && VerifyIdentity(r)
    ensures Commit(active, r) == if Takes(active, r) && !Knows(active, r) then active[r.nodeId := r] else active
  {
    ConflictsExactly(revoked, active, r);
  }

  ghost predicate Drawn(active: Table, order: seq<Relay>, next: Table) {
    forall id :: id in next ==> (id in active && next[id] == active[id]) || (next[id] in order && next[id].nodeId == id)
  }

  lemma DrawnStep(active: Table, order: seq<Relay>, before: Table, r: Relay)
    requires order != [] && order[|order| - 1] == r && Drawn(active, order[..|order| - 1], before)
    ensures Drawn(active, order, Commit(before, r))
  {
    assert r in order && forall x :: x in order[..|order| - 1] ==> x in order;
  }

  lemma {:induction false} CommitAllDrawn(revoked: set<Pin>, active: Table, order: seq<Relay>)
    requires TableOk(revoked, active) && forall r :: r in order ==> RelayTable.Admissible(revoked, r)
    ensures Drawn(active, order, CommitAll(active, order))
  {
    if order != [] {
      var n := |order| - 1;
      assert forall r :: r in order[..n] ==> r in order;
      CommitAllDrawn(revoked, active, order[..n]);
      DrawnStep(active, order, CommitAll(active, order[..n]), order[n]);
    }
  }

  /** Nothing in the live table, nor in the rest of the copy, stands in the way of `r`. */
  ghost predicate Welcome(active: Table, local: Table, r: Relay) {
    && ApartFrom(active, r) && (r.nodeId in active ==> active[r.nodeId].pin == r.pin)
    && (r.nodeId in active || |active.Keys + local.Keys| <= 512)
  }

  /** `order` holds entries of `local`, under their own ids. */
  ghost predicate OfCopy(local: Table, order: seq<Relay>) {
    forall r :: r in order ==> r.nodeId in local && local[r.nodeId] == r
  }

  lemma FromCopyIsOfCopy(revoked: set<Pin>, local: Table, order: seq<Relay>)
    requires Entries(revoked, local) && FromCopy(local, order)
    ensures OfCopy(local, order) && forall r :: r in order ==> RelayTable.Admissible(revoked, r)
  {
    forall r | r in order ensures r.nodeId in local && local[r.nodeId] == r && RelayTable.Admissible(revoked, r) {
      var id :| id in local && local[id] == r;
    }
  }

  lemma CopyApart(revoked: set<Pin>, local: Table, r: Relay)
    requires TableOk(revoked, local) && r.nodeId in local && local[r.nodeId] == r
    ensures ApartFrom(local, r)
  {
    ConflictsExactly(revoked, local, r);
  }

  lemma DrawnApart(active: Table, local: Table, order: seq<Relay>, next: Table, r: Relay)
    requires Drawn(active, order, next) && OfCopy(local, order) && ApartFrom(local, r) && ApartFrom(active, r)
    ensures ApartFrom(next, r) && next.Keys <= active.Keys + local.Keys
  {
  }

  lemma WelcomeIsTaken(active: Table, local: Table, order: seq<Relay>, next: Table, r: Relay)
    requires Drawn(active, order, next) && OfCopy(local, order) && active.Keys <= next.Keys
    requires r.nodeId in local && local[r.nodeId] == r && ApartFrom(local, r) && Welcome(active, local, r)
    ensures Takes(next, r)
  {
    DrawnApart(active, local, order, next, r);
    if r.nodeId !in next {
      RoomFor(next, r.nodeId, active.Keys + local.Keys);
    }
  }

  lemma CommitStep(revoked: set<Pin>, active: Table, r: Relay)
    requires TableOk(revoked, active) && RelayTable.Admissible(revoked, r) && Takes(active, r)
    ensures Knows(Commit(active, r), r)
  {
    CommitExactly(revoked, active, r);
  }

  lemma {:induction false} CommitAllSplits(active: Table, a: seq<Relay>, b: seq<Relay>)
    ensures CommitAll(active, a + b) == CommitAll(CommitAll(active, a), b)
  {
    if b == [] {
      assert a + b == a;
    } else {
      var n := |b| - 1;
      CommitAllSplits(active, a, b[..n]);
      assert (a + b)[..|a + b| - 1] == a + b[..n];
    }
  }

  /** Write-back takes effect: a reconciled relay that the live table has a place for is known
      there afterwards, whatever order the copy is written in. */
  lemma WelcomeIsKnown(revoked: set<Pin>, active: Table, local: Table, order: seq<Relay>, r: Relay)
    requires TableOk(revoked, active) && TableOk(revoked, local) && FromCopy(local, order)
    requires r in order && Welcome(active, local, r)
    ensures Knows(CommitAll(active, order), r)
  {
    FromCopyIsOfCopy(revoked, local, order);
    var k :| 0 <= k < |order| && order[k] == r;
    WrittenIsKnown(revoked, active, local, order, k);
  }

  lemma WrittenIsKnown(revoked: set<Pin>, active: Table, local: Table, order: seq<Relay>, k: nat)
    requires TableOk(revoked, active) && TableOk(revoked, local) && OfCopy(local, order)
    requires k < |order| && Welcome(active, local, order[k])
    requires forall r :: r in order ==> RelayTable.Admissible(revoked, r)
    ensures Knows(CommitAll(active, order), order[k])
  {
    var first, rest := order[..k + 1], order[k + 1..];
    var after := CommitAll(active, first);
    assert order == first + rest && first[k] == order[k];
    assert forall r :: r in first ==> r in order;
    assert forall r :: r in rest ==> r in order;
    LastWrittenIsKnown(revoked, active, local, first);
    CommitAllOk(revoked, active, first);
    CommitAllSplits(active, first, rest);
    CommitAllOk(revoked, after, rest);
    KnowsLater(after, CommitAll(active, order), order[k]);
  }

  lemma LastWrittenIsKnown(revoked: set<Pin>, active: Table, local: Table, order: seq<Relay>)
    requires TableOk(revoked, active) && TableOk(revoked, local) && OfCopy(local, order)
    requires order != [] && Welcome(active, local, order[|order| - 1])
    requires forall r :: r in order ==> RelayTable.Admissible(revoked, r)
    ensures Knows(CommitAll(active, order), order[|order| - 1])
  {
    var n := |order| - 1;
    var before := CommitAll(active, order[..n]);
    assert order[n] in order && forall r :: r in order[..n] ==> r in order;
    CommitAllOk(revoked, active, order[..n]);
    CommitAllDrawn(revoked, active, order[..n]);
    CopyApart(revoked, local, order[n]);
    WelcomeIsTaken(active, local, order[..n], before, order[n]);
    CommitStep(revoked, before, order[n]);
  }

  /** No event touches this reconciliation's copy. */
  ghost predicate Waits(task: nat, events: seq<Event>) {
    forall i :: 0 <= i < |events| && !events[i].Registration? && !events[i].Eviction? ==> events[i].task != task
  }

  lemma CopyUntouched(revoked: set<Pin>, s: State, task: nat, ev: Event)
    requires task in s.inFlight && (ev.Registration? || ev.Eviction? || ev.task != task)
    ensures task in Next(revoked, s, ev).inFlight && Next(revoked, s, ev).inFlight[task] == s.inFlight[task]
  {
  }

  lemma {:induction false} CopyWaits(revoked: set<Pin>, s: State, task: nat, events: seq<Event>)
    requires task in s.inFlight && Waits(task, events)
    ensures
      var later := RunFrom(revoked, s, events);
      task in later.inFlight && later.inFlight[task] == s.inFlight[task]
  {
    if events != [] {
      var n := |events| - 1;
      assert forall i :: 0 <= i < n ==> events[..n][i] == events[i];
      CopyWaits(revoked, s, task, events[..n]);
      CopyUntouched(revoked, RunFrom(revoked, s, events[..n]), task, events[n]);
    }
  }

  lemma {:induction false} RunFromKeepsInv(revoked: set<Pin>, s: State, events: seq<Event>)
    requires Inv(revoked, s)
    ensures Inv(revoked, RunFrom(revoked, s, events))
  {
    if events != [] {
      var n := |events| - 1;
      RunFromKeepsInv(revoked, s, events[..n]);
      NextKeepsInv(revoked, RunFrom(revoked, s, events[..n]), events[n]);
    }
  }

  /** The write-back of a whole copy. */
  ghost predicate Whole(copy: Table, order: seq<Relay>) {
    FromCopy(copy, order) && forall x :: x in copy.Values ==> x in order
  }

  lemma NothingToRetire(revoked: set<Pin>, table: Table)
    requires TableOk(revoked, table)
    ensures NotRetired(revoked, table) == table
  {
  }

  lemma WrittenBack(revoked: set<Pin>, s: State, task: nat, order: seq<Relay>, r: Relay)
    requires Inv(revoked, s) && task in s.inFlight && Whole(s.inFlight[task], order)
    requires r in s.inFlight[task].Values && Welcome(s.active, s.inFlight[task], r)
    ensures Knows(Next(revoked, s, WriteBack(task, order)).active, r)
  {
    NothingToRetire(revoked, s.active);
    WelcomeIsKnown(revoked, s.active, s.inFlight[task], order, r);
  }

  /** The reconciliation's state after a peer's list was merged and other events followed. */
  function AfterList(revoked: set<Pin>, s: State, task: nat, offers: seq<Offer>, now: nat, between: seq<Event>): State {
    RunFrom(revoked, Next(revoked, s, PeerList(task, offers, now)), between)
  }

  lemma OfferReachesCopy(revoked: set<Pin>, s: State, task: nat, offers: seq<Offer>, now: nat, k: nat, between: seq<Event>)
    requires Inv(revoked, s) && task in s.inFlight && Waits(task, between) && k < |offers|
    requires Sound(revoked, offers[k], now) && Unopposed(s.inFlight[task], offers, k)
    ensures
      var later := AfterList(revoked, s, task, offers, now, between);
      Inv(revoked, later) && task in later.inFlight && Knows(later.inFlight[task], offers[k].relay)
  {
    var merged := Next(revoked, s, PeerList(task, offers, now));
    NextKeepsInv(revoked, s, PeerList(task, offers, now));
    ListReachesCopy(revoked, s, task, offers, now, k);
    RunFromKeepsInv(revoked, merged, between);
    CopyWaits(revoked, merged, task, between);
  }

  lemma ListReachesCopy(revoked: set<Pin>, s: State, task: nat, offers: seq<Offer>, now: nat, k: nat)
    requires CopiesOk(revoked, s.inFlight) && task in s.inFlight && k < |offers|
    requires Sound(revoked, offers[k], now) && Unopposed(s.inFlight[task], offers, k)
    ensures
      var merged := Next(revoked, s, PeerList(task, offers, now));
      task in merged.inFlight && Knows(merged.inFlight[task], offers[k].relay)
  {
    UnopposedIsKnown(revoked, s.inFlight[task], offers, now, k);
  }

  /** The live table has a place for what the copy lists under this id. */
  ghost predicate Awaited(s: State, task: nat, id: bytes) {
    task in s.inFlight && id in s.inFlight[task] ==> Welcome(s.active, s.inFlight[task], s.inFlight[task][id])
  }

  /** The whole way: when a peer's list is merged into a copy, other events follow, and the copy
      is written back, then a sound offer that nothing in the copy or the list stood in the way
      of is known to the live table, if the table as it is by then has a place for it. */
  lemma OfferReachesTable(revoked: set<Pin>, s: State, task: nat, offers: seq<Offer>, now: nat, k: nat,
                          between: seq<Event>, later: State, order: seq<Relay>)
    requires Inv(revoked, s) && task in s.inFlight && Waits(task, between) && k < |offers|
    requires Sound(revoked, offers[k], now) && Unopposed(s.inFlight[task], offers, k)
    requires later == AfterList(revoked, s, task, offers, now, between)
    requires Awaited(later, task, offers[k].relay.nodeId) && task in later.inFlight && Whole(later.inFlight[task], order)
    ensures Knows(Next(revoked, later, WriteBack(task, order)).active, offers[k].relay)
  {
    OfferReachesCopy(revoked, s, task, offers, now, k, between);
    var copy, id := later.inFlight[task], offers[k].relay.nodeId;
    assert copy[id] in copy.Values && copy[id].nodeId == id;
    WrittenBack(revoked, later, task, order, copy[id]);
  }

  // ---- eviction ----

  /** An eviction removes exactly the relays older than two hours, and the periodic one also
      those exactly two hours old. */
  lemma EvictedExactly(revoked: set<Pin>, s: State, now: nat, periodic: bool, id: bytes)
    ensures
      var table, next := s.active, Next(revoked, s, Eviction(now, periodic)).active;
      && (id in next <==>
            id in table && if periodic then now < table[id].registeredAt + 7200 else now <= table[id].registeredAt + 7200)
      && (id in next ==> next[id] == table[id])
  {
  }

  /** A reconciliation starts from the live table. */
  lemma BeginCopies(revoked: set<Pin>, s: State, task: nat)
    requires Inv(revoked, s)
    ensures Next(revoked, s, Begin(task)) == s.(inFlight := s.inFlight[task := s.active])
  {
    NothingToRetire(revoked, s.active);
  }

  // ---- registration ----

  lemma ReachesExactly(revoked: set<Pin>, table: Table, r: Relay)
    requires TableOk(revoked, table)
    ensures Reaches(revoked, table, r) <==>
      VerifyIdentity(r) && r.pin !in revoked && Takes(table, r) && !Knows(table, r)
  {
    if VerifyIdentity(r) {
      ConflictsExactly(revoked, table, r);
    }
  }

  /** A registration succeeds exactly when its offer is sound, the table takes it as strictly
      newer, and its nonce is not refused. */
  lemma RegisteredExactly(revoked: set<Pin>, table: Table, reg: Nonces.Registry, o: Offer, now: nat)
    requires TableOk(revoked, table)
    ensures
      var r, remembered := o.relay, Nonces.Remembered(600, reg, now);
      Register(revoked, table, reg, o, now).2.Ok? <==>
        && Sound(revoked, o, now) && Takes(table, r) && !Knows(table, r)
        && reg.lastPurge <= now && (r.nodeId, r.powNonce) !in remembered && |remembered| < 100_000
  {
    ReachesExactly(revoked, table, o.relay);
    RegistrationIsAttempt(revoked, table, reg, o, now);
    Nonces.ObserveExactly(600, reg, o.relay.nodeId, o.relay.powNonce, now);
  }

  /** Each refusal of a registration means what it says. */
  lemma RegisterRefusals(revoked: set<Pin>, table: Table, reg: Nonces.Registry, o: Offer, now: nat)
    requires TableOk(revoked, table) && Register(revoked, table, reg, o, now).2.Err?
    ensures
      var r := o.relay;
      match Register(revoked, table, reg, o, now).2.error
      case Retired => r.pin in revoked
      case InvalidIdentity => !VerifyIdentity(r)
      case InvalidPow => !(o.work && r.registeredAt <= now + 300 && now <= r.registeredAt + 300)
      case Duplicate => !ApartFrom(table, r)
      case Capacity => r.nodeId !in table && |table| == 512
      case Impersonation => r.nodeId in table && table[r.nodeId].pin != r.pin
      case NotNewer => Knows(table, r)
      case PowReplay => Sound(revoked, o, now) && Takes(table, r) && !Knows(table, r)
  {
    if VerifyIdentity(o.relay) {
      ConflictsExactly(revoked, table, o.relay);
    }
  }

  // ---- the live table ----

  /** `order` holds the relays of `local` under `ids`. */
  ghost predicate Order(local: Table, ids: set<bytes>, order: seq<Relay>) {
    && (forall i :: 0 <= i < |order| ==> order[i] in local.Values)
    && (forall id :: id in ids && id in local ==> local[id] in order)
  }

  /** The list holds exactly the entries whose ids are no longer in `rest`. */
  ghost predicate Collected(active: Table, rest: set<bytes>, relays: seq<Relay>) {
    && Snapshot(active, relays)
    && (forall i :: 0 <= i < |relays| ==> relays[i].nodeId !in rest)
    && (forall id :: id in active && id !in rest ==> active[id] in relays)
  }

  lemma CollectedNext(active: Table, rest: set<bytes>, relays: seq<Relay>, id: bytes)
    requires Collected(active, rest, relays) && id in rest && id in active && active[id].nodeId == id
    ensures Collected(active, rest - {id}, relays + [active[id]])
  {
  }

  /** The live table, shared by all connections. */
  class RelayDirectory {
    const revoked: set<Pin>
    const nonces: Nonces.NonceRegistry
    var activeRelays: Table

    ghost predicate Valid()
      reads this
    {
      TableOk(revoked, activeRelays)
    }

    constructor (revoked: set<Pin>, nonces: Nonces.NonceRegistry)
      ensures Valid() && this.revoked == revoked && this.nonces == nonces && activeRelays == map[]
    {
      this.revoked, this.nonces, activeRelays := revoked, nonces, map[];
    }

    method RegisterRelay(o: Offer, now: nat) returns (reply: Result<(), RegisterError>)
      requires Valid()
      modifies this, nonces
      ensures Valid() && Advances(old(activeRelays), activeRelays)
      ensures (activeRelays, Nonces.Registry(nonces.seen, nonces.lastPurge), reply) ==
        Register(revoked, old(activeRelays), Nonces.Registry(old(nonces.seen), old(nonces.lastPurge)), o, now)
    {
      RegisterOk(revoked, activeRelays, Nonces.Registry(nonces.seen, nonces.lastPurge), o, now);
      var r := o.relay;
      if r.pin in revoked {
        return Err(Retired);
      }
      if !VerifyIdentity(r) {
        return Err(InvalidIdentity);
      }
      if !Nonces.VerifyPow(r.registeredAt, o.work, now) {
        return Err(InvalidPow);
      }
      if Conflicts(activeRelays, r) {
        return Err(Duplicate);
      }
      if r.nodeId !in activeRelays && |activeRelays| >= MAX_DIRECTORY_RELAYS {
        return Err(Capacity);
      }
      if r.nodeId in activeRelays {
        if activeRelays[r.nodeId].pin != r.pin {
          return Err(Impersonation);
        }
        if r.registeredAt <= activeRelays[r.nodeId].registeredAt {
          return Err(NotNewer);
        }
      }
      var refused := nonces.CheckAndRecord(r.nodeId, r.powNonce, now);
      if refused {
        return Err(PowReplay);
      }
      activeRelays := activeRelays[r.nodeId := r];
      return Ok(());
    }

    /** The last part of `reconcile_relays`: the map's iteration order is arbitrary. */
    method WriteBackLocal(local: Table) returns (relays: seq<Relay>, ghost order: seq<Relay>)
      requires Valid() && TableOk(revoked, local)
      modifies this
      ensures Valid() && Advances(old(activeRelays), activeRelays)
      ensures activeRelays == CommitAll(NotRetired(revoked, old(activeRelays)), order)
      ensures Order(local, local.Keys, order)
      ensures Snapshot(activeRelays, relays) && forall id :: id in activeRelays ==> activeRelays[id] in relays
      ensures forall id :: id in local && Welcome(old(activeRelays), local, local[id]) ==> Knows(activeRelays, local[id])
    {
      order := CommitLocal(local);
      WriteBackOk(revoked, old(activeRelays), local, order);
      NothingToRetire(revoked, old(activeRelays));
      forall id | id in local && Welcome(old(activeRelays), local, local[id]) ensures Knows(activeRelays, local[id]) {
        WelcomeIsKnown(revoked, old(activeRelays), local, order, local[id]);
      }
      relays := ListValues();
    }

    method CommitLocal(local: Table) returns (ghost order: seq<Relay>)
      modifies this
      ensures activeRelays == CommitAll(NotRetired(revoked, old(activeRelays)), order)
      ensures Order(local, local.Keys, order)
    {
      activeRelays := NotRetired(revoked, activeRelays);
      var rest := local.Keys;
      order := [];
      while rest != {}
        invariant rest <= local.Keys
        invariant activeRelays == CommitAll(NotRetired(revoked, old(activeRelays)), order)
        invariant Order(local, local.Keys - rest, order)
      {
        var id :| id in rest;
        assert (order + [local[id]])[..|order|] == order;
        WriteBackOne(local[id]);
        rest := rest - {id};
        order := order + [local[id]];
      }
    }

    method WriteBackOne(r: Relay)
      modifies this
      ensures activeRelays == Commit(old(activeRelays), r)
    {
      if Conflicts(activeRelays, r) {
        return;
      }
      if r.nodeId in activeRelays && activeRelays[r.nodeId].pin != r.pin {
        return;
      }
      if r.nodeId !in activeRelays && |activeRelays| >= MAX_DIRECTORY_RELAYS {
        return;
      }
      if r.nodeId in activeRelays && activeRelays[r.nodeId].registeredAt >= r.registeredAt {
        return;
      }
      activeRelays := activeRelays[r.nodeId := r];
    }

    method ListValues() returns (relays: seq<Relay>)
      requires Valid()
      ensures Snapshot(activeRelays, relays) && forall id :: id in activeRelays ==> activeRelays[id] in relays
    {
      relays := [];
      var rest := activeRelays.Keys;
      while rest != {}
        invariant rest <= activeRelays.Keys && Collected(activeRelays, rest, relays)
      {
        var id :| id in rest;
        CollectedNext(activeRelays, rest, relays, id);
        rest := rest - {id};
        relays := relays + [activeRelays[id]];
      }
    }

    /** The gossip part of `reconcile_relays`, for one peer's list. */
    method MergePeerList(local: Table, offers: seq<Offer>, now: nat) returns (merged: Table)
      requires TableOk(revoked, local)
      ensures TableOk(revoked, merged) && merged == GossipAll(revoked, local, offers, now)
      ensures local.Keys <= merged.Keys && Advances(local, merged) && Learned(revoked, local, offers, now, merged)
      ensures forall k :: 0 <= k < |offers| && Sound(revoked, offers[k], now) && Unopposed(local, offers, k) ==>
        Knows(merged, offers[k].relay)
    {
      merged := local;
      for k := 0 to |offers|
        invariant merged == GossipAll(revoked, local, offers[..k], now)
      {
        var r := offers[k].relay;
        assert offers[..k + 1][..k] == offers[..k];
        if Conflicts(merged, r) {
          continue;
        }
        if r.nodeId !in merged && |merged| >= MAX_DIRECTORY_RELAYS {
          continue;
        }
        if r.pin !in revoked && VerifyIdentity(r) {
          if !Nonces.VerifyPow(r.registeredAt, offers[k].work, now) {
            continue;
          }
          if r.nodeId !in merged {
            merged := merged[r.nodeId := r];
          } else if r.pin == merged[r.nodeId].pin && r.registeredAt > merged[r.nodeId].registeredAt {
            merged := merged[r.nodeId := r];
          }
        }
      }
      assert offers[..|offers|] == offers;
      GossipAllOk(revoked, local, offers, now);
      MergeAdvances(revoked, local, offers, now);
      MergeLearns(revoked, local, offers, now);
      forall k | 0 <= k < |offers| && Sound(revoked, offers[k], now) && Unopposed(local, offers, k)
        ensures Knows(merged, offers[k].relay)
      {
        UnopposedIsKnown(revoked, local, offers, now, k);
      }
    }
  }
}
