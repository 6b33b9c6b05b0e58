/** The authority's relay table (src/mesh/authority.rs): direct registration, eviction and
    gossip reconciliation, with registrations landing while peers are being asked. */
module RelayTable {
  import opened Prelude
  import opened Directory
  import opened Identity
  import opened Votes
  import Nonces

  type Table = map<bytes, Relay>

  datatype RegisterError =
    Retired | InvalidIdentity | InvalidPow | Duplicate | Capacity | Impersonation | NotNewer | PowReplay

  predicate SameComponent(x: Relay, y: Relay) {
    x.proof.sized && y.proof.sized && (x.proof.classical == y.proof.classical || x.proof.pq == y.proof.pq)
  }

  /** Two relays under different node ids that may not coexist. */
  predicate Clash(x: Relay, y: Relay) {
    x.nodeId != y.nodeId
    && (x.pin == y.pin || SameComponent(x, y) || (x.host == y.host && x.port == y.port))
  }

  /** `relay_conflicts`. */
  predicate Conflicts(table: Table, candidate: Relay) {
    exists id :: id in table && Clash(table[id], candidate)
  }

  /** A gossiped or submitted descriptor, and whether its work is sufficient. */
  datatype Offer = Offer(relay: Relay, work: bool)

  function NotRetired(revoked: set<Pin>, table: Table): Table {
    map id | id in table && table[id].pin !in revoked :: table[id]
  }

  /** Eviction keeps ages up to the limit when a snapshot is generated, and strictly below
      it in the periodic task. */
  function Evicted(table: Table, now: nat, periodic: bool): Table {
    map id | id in table &&
      (var age := SaturatingSub(now, table[id].registeredAt);
       if periodic then age < RELAY_TTL_SECS else age <= RELAY_TTL_SECS) :: table[id]
  }

  function Register(revoked: set<Pin>, table: Table, reg: Nonces.Registry, o: Offer, now: nat)
    : (Table, Nonces.Registry, Result<(), RegisterError>)
  {
    var r := o.relay;
    if r.pin in revoked then (table, reg, Err(Retired))
    else if !VerifyIdentity(r) then (table, reg, Err(InvalidIdentity))
    else if !Nonces.VerifyPow(r.registeredAt, o.work, now) then (table, reg, Err(InvalidPow))
    else if Conflicts(table, r) then (table, reg, Err(Duplicate))
    else if r.nodeId !in table && |table| >= MAX_DIRECTORY_RELAYS then (table, reg, Err(Capacity))
    else if r.nodeId in table && table[r.nodeId].pin != r.pin then (table, reg, Err(Impersonation))
    else if r.nodeId in table && r.registeredAt <= table[r.nodeId].registeredAt then (table, reg, Err(NotNewer))
    else
      var (next, refused) := Nonces.Observe(Nonces.RETENTION, reg, r.nodeId, r.powNonce, now);
      if refused then (table, next, Err(PowReplay))
      else (table[r.nodeId := r], next, Ok(()))
  }

  /** One gossiped descriptor merged into a reconciliation's local copy. */
  function Gossip(revoked: set<Pin>, local: Table, o: Offer, now: nat): Table {
    var r := o.relay;
    if Conflicts(local, r) then local
    else if r.nodeId !in local && |local| >= MAX_DIRECTORY_RELAYS then local
    else if r.pin in revoked || !VerifyIdentity(r) || !Nonces.VerifyPow(r.registeredAt, o.work, now) then local
    else if r.nodeId !in local then local[r.nodeId := r]
    else if r.pin != local[r.nodeId].pin || r.registeredAt <= local[r.nodeId].registeredAt then local
    else local[r.nodeId := r]
  }

  function GossipAll(revoked: set<Pin>, local: Table, offers: seq<Offer>, now: nat): Table {
    if offers == [] then local
    else Gossip(revoked, GossipAll(revoked, local, offers[..|offers| - 1], now), offers[|offers| - 1], now)
  }

  /** One reconciled descriptor written back to the live table. */
  function Commit(active: Table, r: Relay): Table {
    if Conflicts(active, r) then active
    else if r.nodeId in active && active[r.nodeId].pin != r.pin then active
    else if r.nodeId !in active && |active| >= MAX_DIRECTORY_RELAYS then active
    else if r.nodeId in active && active[r.nodeId].registeredAt >= r.registeredAt then active
    else active[r.nodeId := r]
  }

  function CommitAll(active: Table, order: seq<Relay>): Table {
    if order == [] then active else Commit(CommitAll(active, order[..|order| - 1]), order[|order| - 1])
  }

  // ---- the invariant ----

  ghost predicate Admissible(revoked: set<Pin>, r: Relay) {
    VerifyIdentity(r) && r.pin !in revoked
  }

  ghost predicate Entries(revoked: set<Pin>, table: Table) {
    forall id :: id in table ==> table[id].nodeId == id && Admissible(revoked, table[id])
  }

  ghost predicate NoClash(table: Table) {
    forall id, id' :: id in table && id' in table ==> !Clash(table[id], table[id'])
  }

  ghost predicate TableOk(revoked: set<Pin>, table: Table) {
    |table| <= MAX_DIRECTORY_RELAYS && Entries(revoked, table) && NoClash(table)
  }

  /** A node that stays keeps its pin, and changes only to a newer registration. */
  ghost predicate Advances(before: Table, after: Table) {
    forall id :: id in before && id in after ==> SameOrNewer(before[id], after[id])
  }

  predicate SameOrNewer(was: Relay, now: Relay) {
    now == was || (now.pin == was.pin && now.registeredAt > was.registeredAt)
  }

  lemma InsertOk(revoked: set<Pin>, table: Table, r: Relay)
    requires TableOk(revoked, table) && Admissible(revoked, r) && !Conflicts(table, r)
    requires r.nodeId in table || |table| < MAX_DIRECTORY_RELAYS
    ensures TableOk(revoked, table[r.nodeId := r])
  {
  }

  lemma SubtableOk(revoked: set<Pin>, table: Table, part: Table)
    requires TableOk(revoked, table)
    requires part.Keys <= table.Keys && forall id :: id in part ==> part[id] == table[id]
    ensures TableOk(revoked, part)
  {
    SubsetSize(part.Keys, table.Keys);
    assert |part| == |part.Keys| && |table| == |table.Keys|;
  }

  /** A registration either leaves the table alone or adds an admissible, conflict-free,
      strictly newer descriptor. */
  lemma RegisterCases(revoked: set<Pin>, table: Table, reg: Nonces.Registry, o: Offer, now: nat)
    ensures
      var (next, _, reply) := Register(revoked, table, reg, o, now);
      if reply.Err? then next == table
      else
        && next == table[o.relay.nodeId := o.relay]
        && Admissible(revoked, o.relay) && !Conflicts(table, o.relay)
        && (o.relay.nodeId in table || |table| < MAX_DIRECTORY_RELAYS)
        && (o.relay.nodeId in table ==>
              table[o.relay.nodeId].pin == o.relay.pin && table[o.relay.nodeId].registeredAt < o.relay.registeredAt)
  {
  }

  lemma RegisterOk(revoked: set<Pin>, table: Table, reg: Nonces.Registry, o: Offer, now: nat)
    requires TableOk(revoked, table)
    ensures TableOk(revoked, Register(revoked, table, reg, o, now).0)
    ensures Advances(table, Register(revoked, table, reg, o, now).0)
  {
    RegisterCases(revoked, table, reg, o, now);
    if Register(revoked, table, reg, o, now).2.Ok? {
      InsertOk(revoked, table, o.relay);
    }
  }

  lemma GossipOk(revoked: set<Pin>, local: Table, o: Offer, now: nat)
    requires TableOk(revoked, local)
    ensures TableOk(revoked, Gossip(revoked, local, o, now))
  {
    if Gossip(revoked, local, o, now) != local {
      InsertOk(revoked, local, o.relay);
    }
  }

  lemma {:induction false} GossipAllOk(revoked: set<Pin>, local: Table, offers: seq<Offer>, now: nat)
    requires TableOk(revoked, local)
    ensures TableOk(revoked, GossipAll(revoked, local, offers, now))
  {
    if offers != [] {
      var n := |offers| - 1;
      GossipAllOk(revoked, local, offers[..n], now);
      GossipOk(revoked, GossipAll(revoked, local, offers[..n], now), offers[n], now);
    }
  }

  lemma CommitOk(revoked: set<Pin>, active: Table, r: Relay)
    requires TableOk(revoked, active) && Admissible(revoked, r)
    ensures TableOk(revoked, Commit(active, r))
    ensures Advances(active, Commit(active, r)) && active.Keys <= Commit(active, r).Keys
  {
    if Commit(active, r) != active {
      InsertOk(revoked, active, r);
    }
  }

  lemma AdvancesTwice(a: Table, b: Table, c: Table)
    requires Advances(a, b) && Advances(b, c) && a.Keys <= b.Keys
    ensures Advances(a, c)
  {
  }

  lemma {:induction false} CommitAllOk(revoked: set<Pin>, active: Table, order: seq<Relay>)
    requires TableOk(revoked, active) && forall r :: r in order ==> Admissible(revoked, r)
    ensures TableOk(revoked, CommitAll(active, order))
    ensures Advances(active, CommitAll(active, order)) && active.Keys <= CommitAll(active, order).Keys
  {
    if order != [] {
      var n := |order| - 1;
      var middle := CommitAll(active, order[..n]);
      assert order[n] in order && forall r :: r in order[..n] ==> r in order;
      CommitAllOk(revoked, active, order[..n]);
      CommitOk(revoked, middle, order[n]);
      AdvancesTwice(active, middle, Commit(middle, order[n]));
    }
  }

  // ---- runs with reconciliations in flight ----

  datatype Event =
    | Registration(offer: Offer, now: nat)
    | Eviction(now: nat, periodic: bool)
    | Begin(task: nat)                                   // clone the table before asking peers
    | PeerList(task: nat, offers: seq<Offer>, now: nat)  // one peer's answer
    | WriteBack(task: nat, order: seq<Relay>)            // merge the copy back, in any order

  predicate FromCopy(local: Table, order: seq<Relay>) {
    forall r :: r in order ==> r in local.Values
  }

  datatype State = State(active: Table, registry: Nonces.Registry, inFlight: map<nat, Table>)

  const INITIAL := State(map[], Nonces.EMPTY, map[])

  function Next(revoked: set<Pin>, s: State, ev: Event): State {
    match ev
    case Registration(offer, now) =>
      var (table, registry, _) := Register(revoked, s.active, s.registry, offer, now);
      s.(active := table, registry := registry)
    case Eviction(now, periodic) => s.(active := Evicted(s.active, now, periodic))
    case Begin(task) => s.(inFlight := s.inFlight[task := NotRetired(revoked, s.active)])
    case PeerList(task, offers, now) =>
      if task in s.inFlight
      then s.(inFlight := s.inFlight[task := GossipAll(revoked, s.inFlight[task], offers, now)])
      else s
    case WriteBack(task, order) =>
      if task in s.inFlight && FromCopy(s.inFlight[task], order)
      then s.(active := CommitAll(NotRetired(revoked, s.active), order), inFlight := s.inFlight - {task})
      else s
  }

  /** The authority that starts as `s` after the events. */
  function RunFrom(revoked: set<Pin>, s: State, events: seq<Event>): State {
    if events == [] then s
    else Next(revoked, RunFrom(revoked, s, events[..|events| - 1]), events[|events| - 1])
  }

  function Run(revoked: set<Pin>, events: seq<Event>): State {
    RunFrom(revoked, INITIAL, events)
  }

  ghost predicate CopiesOk(revoked: set<Pin>, copies: map<nat, Table>) {
    forall t :: t in copies ==> TableOk(revoked, copies[t])
  }

  ghost predicate Inv(revoked: set<Pin>, s: State) {
    TableOk(revoked, s.active) && CopiesOk(revoked, s.inFlight)
  }

  lemma CopyOk(revoked: set<Pin>, copies: map<nat, Table>, t: nat, table: Table)
    requires CopiesOk(revoked, copies) && TableOk(revoked, table)
    ensures CopiesOk(revoked, copies[t := table]) && CopiesOk(revoked, copies - {t})
  {
  }

  lemma AdvancesItself(table: Table)
    ensures Advances(table, table)
  {
  }

  lemma WriteBackOk(revoked: set<Pin>, active: Table, local: Table, order: seq<Relay>)
    requires TableOk(revoked, active) && TableOk(revoked, local)
    requires FromCopy(local, order)
    ensures
      var next := CommitAll(NotRetired(revoked, active), order);
      TableOk(revoked, next) && Advances(active, next)
  {
    assert NotRetired(revoked, active) == active;
    forall r | r in order ensures Admissible(revoked, r) {
      var id :| id in local && local[id] == r;
    }
    CommitAllOk(revoked, active, order);
  }

  lemma EvictionOk(revoked: set<Pin>, table: Table, now: nat, periodic: bool)
    requires TableOk(revoked, table)
    ensures TableOk(revoked, Evicted(table, now, periodic)) && Advances(table, Evicted(table, now, periodic))
  {
    SubtableOk(revoked, table, Evicted(table, now, periodic));
  }

  lemma NextKeepsInv(revoked: set<Pin>, s: State, ev: Event)
    requires Inv(revoked, s)
    ensures Inv(revoked, Next(revoked, s, ev)) && Advances(s.active, Next(revoked, s, ev).active)
  {
    AdvancesItself(s.active);
    match ev
    case Registration(offer, now) =>
      RegisterOk(revoked, s.active, s.registry, offer, now);
    case Eviction(now, periodic) =>
      EvictionOk(revoked, s.active, now, periodic);
    case Begin(task) =>
      SubtableOk(revoked, s.active, NotRetired(revoked, s.active));
      CopyOk(revoked, s.inFlight, task, NotRetired(revoked, s.active));
    case PeerList(task, offers, now) =>
      if task in s.inFlight {
        GossipAllOk(revoked, s.inFlight[task], offers, now);
        CopyOk(revoked, s.inFlight, task, GossipAll(revoked, s.inFlight[task], offers, now));
      }
    case WriteBack(task, order) =>
      if task in s.inFlight && FromCopy(s.inFlight[task], order) {
        WriteBackOk(revoked, s.active, s.inFlight[task], order);
        CopyOk(revoked, s.inFlight, task, s.active);
      }
  }

  /** The table invariant: at every point of every run, at most 512 relays, none retired,
      pairwise distinct in pin, in both key components and in endpoint. */
  lemma {:induction false} RunKeepsInv(revoked: set<Pin>, events: seq<Event>)
    ensures Inv(revoked, Run(revoked, events))
  {
    if events != [] {
      RunKeepsInv(revoked, events[..|events| - 1]);
      NextKeepsInv(revoked, Run(revoked, events[..|events| - 1]), events[|events| - 1]);
    }
  }

  /** While a node stays in the table its pin is fixed and its timestamp never decreases,
      whatever gossip arrives late. */
  lemma {:induction false} PinFixedWhileListed(revoked: set<Pin>, events: seq<Event>, i: nat, j: nat, id: bytes)
    requires i <= j <= |events|
    requires forall k :: i <= k <= j ==> id in Run(revoked, events[..k]).active
    ensures SameOrNewer(Run(revoked, events[..i]).active[id], Run(revoked, events[..j]).active[id])
    decreases j
  {
    if i < j {
      PinFixedWhileListed(revoked, events, i, j - 1, id);
      assert events[..j][..j - 1] == events[..j - 1] && events[..j][j - 1] == events[j - 1];
      RunKeepsInv(revoked, events[..j - 1]);
      NextKeepsInv(revoked, Run(revoked, events[..j - 1]), events[j - 1]);
      assert id in Run(revoked, events[..j - 1]).active && id in Run(revoked, events[..j]).active;
    }
  }

  // ---- no registration is replayed ----

  /** Whether a registration passes every check but the nonce registry's. */
  predicate Reaches(revoked: set<Pin>, table: Table, r: Relay) {
    && r.pin !in revoked && VerifyIdentity(r) && !Conflicts(table, r)
    && (r.nodeId in table || |table| < MAX_DIRECTORY_RELAYS)
    && (r.nodeId in table ==> table[r.nodeId].pin == r.pin && table[r.nodeId].registeredAt < r.registeredAt)
  }

  function AttemptOf(revoked: set<Pin>, table: Table, o: Offer, now: nat): Nonces.Attempt {
    var r := o.relay;
    Nonces.Attempt(r.nodeId, r.registeredAt, r.powNonce, o.work, now, Reaches(revoked, table, r))
  }

  /** A registration is one attempt at the nonce registry. */
  lemma RegistrationIsAttempt(revoked: set<Pin>, table: Table, reg: Nonces.Registry, o: Offer, now: nat)
    ensures
      var (_, next, reply) := Register(revoked, table, reg, o, now);
      var a := AttemptOf(revoked, table, o, now);
      next == Nonces.Next(Nonces.RETENTION, reg, a) && (reply.Ok? <==> Nonces.Admits(Nonces.RETENTION, reg, a))
  {
  }

  /** The event registers its descriptor. */
  predicate RegistersIn(revoked: set<Pin>, s: State, ev: Event) {
    ev.Registration? && Register(revoked, s.active, s.registry, ev.offer, ev.now).2.Ok?
  }

  predicate Registers(revoked: set<Pin>, events: seq<Event>, i: nat)
    requires i < |events|
  {
    RegistersIn(revoked, Run(revoked, events[..i]), events[i])
  }

  function ProofOf(o: Offer): Nonces.ProofId {
    Nonces.ProofId(o.relay.nodeId, o.relay.registeredAt, o.relay.powNonce)
  }

  lemma ProofStaysSpent(revoked: set<Pin>, s: State, ev: Event, p: Nonces.ProofId)
    requires Nonces.Spent(s.registry, p)
    ensures Nonces.Spent(Next(revoked, s, ev).registry, p)
    ensures ev.Registration? && ProofOf(ev.offer) == p ==> !RegistersIn(revoked, s, ev)
  {
    if ev.Registration? {
      RegistrationIsAttempt(revoked, s.active, s.registry, ev.offer, ev.now);
      Nonces.SpentStays(Nonces.RETENTION, s.registry, AttemptOf(revoked, s.active, ev.offer, ev.now), p);
    }
  }

  lemma RegistrationSpends(revoked: set<Pin>, s: State, ev: Event)
    requires RegistersIn(revoked, s, ev)
    ensures Nonces.Spent(Next(revoked, s, ev).registry, ProofOf(ev.offer))
  {
    RegistrationIsAttempt(revoked, s.active, s.registry, ev.offer, ev.now);
    Nonces.AdmissionSpends(Nonces.RETENTION, s.registry, AttemptOf(revoked, s.active, ev.offer, ev.now));
  }

  lemma {:induction false} SpentForGood(revoked: set<Pin>, s: State, events: seq<Event>, p: Nonces.ProofId)
    requires Nonces.Spent(s.registry, p)
    ensures Nonces.Spent(RunFrom(revoked, s, events).registry, p)
  {
    if events != [] {
      var n := |events| - 1;
      SpentForGood(revoked, s, events[..n], p);
      ProofStaysSpent(revoked, RunFrom(revoked, s, events[..n]), events[n], p);
    }
  }

  lemma {:induction false} RunSplits(revoked: set<Pin>, s: State, a: seq<Event>, b: seq<Event>)
    ensures RunFrom(revoked, s, a + b) == RunFrom(revoked, RunFrom(revoked, s, a), b)
  {
    if b == [] {
      assert a + b == a;
    } else {
      var n := |b| - 1;
      RunSplits(revoked, s, a, b[..n]);
      assert (a + b)[..|a + b| - 1] == a + b[..n];
    }
  }

  lemma RunOne(revoked: set<Pin>, s: State, e: Event)
    ensures RunFrom(revoked, s, [e]) == Next(revoked, s, e)
  {
    assert [e][..0] == [];
  }

  /** A run passes through the state after its `i`th event. */
  lemma RunVia(revoked: set<Pin>, events: seq<Event>, i: nat, j: nat)
    requires i < j <= |events|
    ensures Run(revoked, events[..j]) ==
      RunFrom(revoked, Next(revoked, Run(revoked, events[..i]), events[i]), events[i + 1..j])
  {
    var e, rest := events[i], events[i + 1..j];
    assert events[..j] == events[..i] + ([e] + rest);
    RunSplits(revoked, INITIAL, events[..i], [e] + rest);
    RunSplits(revoked, Run(revoked, events[..i]), [e], rest);
    RunOne(revoked, Run(revoked, events[..i]), e);
  }

  lemma SpentAfterwards(revoked: set<Pin>, events: seq<Event>, i: nat, j: nat)
    requires i < j <= |events| && Registers(revoked, events, i)
    ensures Nonces.Spent(Run(revoked, events[..j]).registry, ProofOf(events[i].offer))
  {
    var s, e := Run(revoked, events[..i]), events[i];
    RegistrationSpends(revoked, s, e);
    SpentForGood(revoked, Next(revoked, s, e), events[i + 1..j], ProofOf(e.offer));
    RunVia(revoked, events, i, j);
  }

  /** No run of the authority, whatever its clock, evictions and gossip, registers one proof of
      work twice. */
  lemma NoRegistrationReplay(revoked: set<Pin>, events: seq<Event>, i: nat, j: nat)
    requires i < j < |events| && Registers(revoked, events, i)
    requires events[j].Registration? && ProofOf(events[j].offer) == ProofOf(events[i].offer)
    ensures !Registers(revoked, events, j)
  {
    SpentAfterwards(revoked, events, i, j);
    ProofStaysSpent(revoked, Run(revoked, events[..j]), events[j], ProofOf(events[i].offer));
  }

  // ---- from the table to a frozen document ----

  /** What a client demands of every two relays of a directory. */
  predicate Separate(x: Relay, y: Relay) {
    && x.nodeId != y.nodeId && x.pin != y.pin
    && x.proof.classical != y.proof.classical && x.proof.pq != y.proof.pq
    && (x.host != y.host || x.port != y.port)
  }

  predicate AllSeparate(relays: seq<Relay>) {
    forall i, j :: 0 <= i < j < |relays| ==> Separate(relays[i], relays[j])
  }

  /** `list` is drawn from the table, in any order and without repeats. */
  ghost predicate Snapshot(table: Table, list: seq<Relay>) {
    && (forall i :: 0 <= i < |list| ==> list[i].nodeId in table && table[list[i].nodeId] == list[i])
    && (forall i, j :: 0 <= i < j < |list| ==> list[i].nodeId != list[j].nodeId)
  }

  lemma SnapshotSeparate(revoked: set<Pin>, table: Table, list: seq<Relay>)
    requires TableOk(revoked, table) && Snapshot(table, list)
    ensures AllSeparate(list)
  {
  }

  /** Every document newly frozen from a reachable table has relays that pass all of a
      client's duplicate checks, and its creation is never refused for capacity. */
  lemma FrozenDocumentSeparate(revoked: set<Pin>, events: seq<Event>, list: seq<Relay>,
                               signer: Signer, policy: Policy, now: nat)
    requires signer.key.Pin? && Snapshot(Run(revoked, events).active, list)
    ensures |list| <= MAX_DIRECTORY_RELAYS
    ensures
      var doc := NewVote(signer, EpochOf(now), FreshRelays(policy, now, list));
      AllSeparate(doc.relays) && forall r :: r in doc.relays ==> VerifyIdentity(r)
  {
    var table := Run(revoked, events).active;
    RunKeepsInv(revoked, events);
    DistinctImagesFit((r: Relay) => r.nodeId, list, table.Keys);
    SnapshotSeparate(revoked, table, list);
    FilterPairwise((r: Relay) => Fresh(policy, now, r), Separate, list);
  }
}
