/** Bounded per-source admission (src/mesh/admission.rs) compared with a table that never
    forgets, and the tracker's admission order (src/mesh/tracker.rs). */
module Sources {
  import opened Prelude
  import opened Address
  import opened Admission

  const SOURCE_SLOTS: nat := 4
  const SOURCE_BURST: nat := 64
  const SOURCE_REFILL: nat := 83_334_000
  const SOURCE_IDLE: nat := 120_000_000_000
  const SECOND: nat := 1_000_000_000
  const MAX_SOURCES: nat := 4096

  datatype Group = GroupV4(a: byte, b: byte, c: byte, d: byte) | GroupV6(prefix: bytes)

  function GroupOf(ip: Ip): Group {
    match ip
    case V4(a, b, c, d) => GroupV4(a, b, c, d)
    case V6(o) =>
      if o[..10] == ZERO10 && o[10] == 0xff && o[11] == 0xff then GroupV4(o[12], o[13], o[14], o[15])
      else GroupV6(o[..8])
  }

  ghost predicate Mapped(o: Octets16, a: byte, b: byte, c: byte, d: byte) {
    o == [0, 0, 0, 0, 0, 0, 0, 0, 0, 0, 0xff, 0xff, a, b, c, d]
  }

  /** Sources share a budget exactly when they are the same IPv4 address, plain or mapped, or two
      other IPv6 addresses with the same first eight octets. */
  lemma SameGroup(x: Ip, y: Ip)
    ensures GroupOf(x) == GroupOf(y) <==>
      || (exists a, b, c, d :: IsV4(x, a, b, c, d) && IsV4(y, a, b, c, d))
      || (x.V6? && y.V6? && x.octets[..8] == y.octets[..8]
          && (forall a, b, c, d :: !IsV4(x, a, b, c, d)) && forall a, b, c, d :: !IsV4(y, a, b, c, d))
  {
    GroupCases(x);
    GroupCases(y);
    if GroupOf(x) == GroupOf(y) && GroupOf(x).GroupV4? {
      var g := GroupOf(x);
      assert IsV4(x, g.a, g.b, g.c, g.d) && IsV4(y, g.a, g.b, g.c, g.d);
    }
  }

  /** The address is this IPv4 address, plain or mapped. */
  ghost predicate IsV4(ip: Ip, a: byte, b: byte, c: byte, d: byte) {
    if ip.V4? then ip == V4(a, b, c, d) else Mapped(ip.octets, a, b, c, d)
  }

  lemma GroupCases(ip: Ip)
    ensures forall a, b, c, d :: IsV4(ip, a, b, c, d) <==> GroupOf(ip) == GroupV4(a, b, c, d)
    ensures GroupOf(ip).GroupV6? ==> ip.V6? && GroupOf(ip).prefix == ip.octets[..8]
  {
    if ip.V6? {
      var o := ip.octets;
      forall a, b, c, d ensures Mapped(o, a, b, c, d) <==> GroupOf(ip) == GroupV4(a, b, c, d) {
        if o[..10] == ZERO10 {
          assert forall i :: 0 <= i < 10 ==> o[i] == o[..10][i] == 0;
        }
      }
    }
  }

  /** A group's outstanding permits, its token bucket, and when it was last admitted. */
  datatype Source = Source(held: nat, rate: Bucket, seen: nat)

  datatype State<G> = State(sources: map<G, Source>, nextSweep: Option<nat>)

  datatype Decision = Admitted | Refused | Full

  function NewSource(now: nat): Source {
    Source(0, NewBucket(SOURCE_BURST, SOURCE_REFILL, now), now)
  }

  predicate SourceOk(s: Source, now: nat) {
    && s.held <= SOURCE_SLOTS
    && s.rate.burst == SOURCE_BURST && s.rate.refill == SOURCE_REFILL && s.rate.tokens <= SOURCE_BURST
    && s.rate.last <= s.seen <= now
  }

  predicate Keep(s: Source, now: nat) {
    s.held != 0 || SaturatingSub(now, s.seen) < SOURCE_IDLE
  }

  function Kept<G>(sources: map<G, Source>, now: nat): map<G, Source> {
    map g | g in sources && Keep(sources[g], now) :: sources[g]
  }

  function Sweep<G>(st: State<G>, now: nat): State<G> {
    State(Kept(st.sources, now), Some(now + SECOND))
  }

  predicate SweepDue<G>(st: State<G>, now: nat) {
    |st.sources| >= MAX_SOURCES || st.nextSweep.None? || now >= st.nextSweep.value
  }

  /** What one admission does to its own group: take a slot, then a token. */
  function Start(s: Source, now: nat): (Source, bool)
    requires BucketOk(s.rate)
  {
    if s.held >= SOURCE_SLOTS then (s, false)
    else
      var (rate, done) := Take(s.rate, now);
      if done then (Source(s.held + 1, rate, now), true) else (s.(rate := rate), false)
  }

  function Entry<G>(sources: map<G, Source>, g: G, now: nat): Source {
    if g in sources then sources[g] else NewSource(now)
  }

  ghost predicate AllOk<G(!new)>(sources: map<G, Source>, now: nat) {
    forall g :: g in sources ==> SourceOk(sources[g], now)
  }

  ghost function TryAdmit<G(!new)>(st: State<G>, g: G, now: nat): (State<G>, Decision)
    requires AllOk(st.sources, now)
  {
    var st := if g !in st.sources && SweepDue(st, now) then Sweep(st, now) else st;
    if g !in st.sources && |st.sources| >= MAX_SOURCES then (st, Full)
    else
      var (s, done) := Start(Entry(st.sources, g, now), now);
      (st.(sources := st.sources[g := s]), if done then Admitted else Refused)
  }

  function Drop(s: Source): Source {
    if s.held > 0 then s.(held := s.held - 1) else s
  }

  function Release<G>(sources: map<G, Source>, g: G): map<G, Source> {
    if g in sources then sources[g := Drop(sources[g])] else sources
  }

  class SourceAdmission<G(!new, ==)> {
    var sources: map<G, Source>
    var nextSweep: Option<nat>

    ghost function Value(): State<G>
      reads this
    {
      State(sources, nextSweep)
    }

    constructor ()
      ensures Value() == State(map[], None)
    {
      sources, nextSweep := map[], None;
    }

    method SweepSources(now: nat)
      modifies this
      ensures Value() == Sweep(old(Value()), now)
    {
      sources := map g | g in sources && (sources[g].held != 0 || SaturatingSub(now, sources[g].seen) < SOURCE_IDLE) :: sources[g];
      nextSweep := Some(now + SECOND);
    }

    method Admit(g: G, now: nat) returns (decision: Decision)
      requires AllOk(sources, now)
      modifies this
      ensures (Value(), decision) == TryAdmit(old(Value()), g, now)
    {
      if g !in sources {
        if |sources| >= MAX_SOURCES || nextSweep.None? || now >= nextSweep.value {
          SweepSources(now);
        }
        if |sources| >= MAX_SOURCES {
          return Full;
        }
      }
      var source := if g in sources then sources[g] else NewSource(now);
      var done := StartSource(g, source, now);
      return if done then Admitted else Refused;
    }

    /** One start for an existing or new source: a slot first, then a token. */
    method StartSource(g: G, source: Source, now: nat) returns (done: bool)
      requires SourceOk(source, now)
      modifies this`sources
      ensures sources == old(sources)[g := Start(source, now).0] && done == Start(source, now).1
    {
      if source.held == SOURCE_SLOTS {
        sources := sources[g := source];
        return false;
      }
      var bucket := Take(source.rate, now);
      if !bucket.1 {
        sources := sources[g := source.(rate := bucket.0)];
        return false;
      }
      sources := sources[g := Source(source.held + 1, bucket.0, now)];
      return true;
    }

    /** A permit returns its slot and no rate credit. */
    method ReturnSlot(g: G)
      modifies this`sources
      ensures sources == Release(old(sources), g)
    {
      if g in sources && sources[g].held > 0 {
        sources := sources[g := sources[g].(held := sources[g].held - 1)];
      }
    }
  }

  // ---- one group ----

  /** An admission keeps a source well formed; only a success changes its time of sight. */
  lemma StartOk(s: Source, now: nat)
    requires SourceOk(s, now)
    ensures SourceOk(Start(s, now).0, now)
  {
  }

  /** After the idle time every token is back, so a forgotten source starts exactly as a new
      one does. */
  lemma IdleStartsAsNew(s: Source, now: nat)
    requires SourceOk(s, now) && s.held == 0 && now - s.seen >= SOURCE_IDLE
    ensures Start(s, now) == Start(NewSource(now), now) && Start(s, now).1
  {
  }

  /** A start succeeds exactly when fewer than four permits are out and the bucket holds or has
      earned a token; it takes one of each. A refusal takes neither. */
  lemma StartExactly(s: Source, now: nat)
    requires SourceOk(s, now)
    ensures
      var (next, done) := Start(s, now);
      var earned := s.rate.tokens + (now - s.rate.last) / 83_334_000;
      && (done <==> s.held < 4 && earned > 0)
      && next.held == (if done then s.held + 1 else s.held) && next.seen == (if done then now else s.seen)
      && (done ==> next.rate.tokens == (if earned <= 64 then earned else 64) - 1)
      && (s.held == 4 ==> next == s)
  {
    RefillExactly(s.rate, now);
  }

  /** A sweep keeps exactly the groups with permits out and those seen within two minutes. */
  lemma SweepExactly<G(!new)>(st: State<G>, now: nat, g: G)
    ensures
      var next := Sweep(st, now);
      && (g in next.sources <==>
            g in st.sources && (st.sources[g].held > 0 || now < st.sources[g].seen + 120_000_000_000))
      && (g in next.sources ==> next.sources[g] == st.sources[g])
      && next.nextSweep == Some(now + 1_000_000_000)
  {
  }

  /** An attempt sweeps exactly when its group is unknown and the table is full or the last sweep
      is a second old, is refused for lack of room exactly when a full table stays full, and
      otherwise starts its group and leaves the others alone. */
  lemma AdmitExactly<G(!new)>(st: State<G>, g: G, now: nat)
    requires AllOk(st.sources, now)
    ensures
      var due := g !in st.sources && (|st.sources| >= 4096 || st.nextSweep.None? || st.nextSweep.value <= now);
      var swept := if due then Sweep(st, now) else st;
      var (next, decision) := TryAdmit(st, g, now);
      && (decision.Full? <==> g !in swept.sources && |swept.sources| >= 4096)
      && next.nextSweep == swept.nextSweep
      && (decision.Full? ==> next == swept)
      && (!decision.Full? ==> next.sources.Keys == swept.sources.Keys + {g})
      && (forall h :: h in swept.sources && h != g ==> h in next.sources && next.sources[h] == swept.sources[h])
  {
  }

  // ---- comparison with the table that never forgets ----

  /** The real table, and the reference table with no sweep and no capacity. */
  datatype World<G> = World(bounded: State<G>, unbounded: map<G, Source>)

  ghost predicate Agrees<G(!new)>(bounded: map<G, Source>, unbounded: map<G, Source>) {
    forall g :: g in bounded ==> g in unbounded && unbounded[g] == bounded[g]
  }

  predicate Forgettable(s: Source, now: nat) {
    s.held == 0 && SaturatingSub(now, s.seen) >= SOURCE_IDLE
  }

  ghost predicate ForgotIdle<G(!new)>(bounded: map<G, Source>, unbounded: map<G, Source>, now: nat) {
    forall g :: g in unbounded && g !in bounded ==> Forgettable(unbounded[g], now)
  }

  ghost predicate Simulates<G(!new)>(w: World<G>, now: nat) {
    && AllOk(w.bounded.sources, now) && AllOk(w.unbounded, now)
    && Agrees(w.bounded.sources, w.unbounded) && ForgotIdle(w.bounded.sources, w.unbounded, now)
    && |w.bounded.sources| <= MAX_SOURCES
  }

  lemma SimulatesLater<G(!new)>(w: World<G>, now: nat, later: nat)
    requires Simulates(w, now) && now <= later
    ensures Simulates(w, later)
  {
  }

  lemma SweepSimulates<G(!new)>(w: World<G>, now: nat)
    requires Simulates(w, now)
    ensures Simulates(World(Sweep(w.bounded, now), w.unbounded), now)
  {
    var kept := Kept(w.bounded.sources, now);
    SubsetSize(kept.Keys, w.bounded.sources.Keys);
  }

  lemma PutSimulates<G(!new)>(w: World<G>, g: G, s: Source, now: nat)
    requires Simulates(w, now) && SourceOk(s, now) && (g in w.bounded.sources || |w.bounded.sources| < MAX_SOURCES)
    ensures Simulates(World(w.bounded.(sources := w.bounded.sources[g := s]), w.unbounded[g := s]), now)
  {
  }

  ghost function Settled<G(!new)>(w: World<G>, g: G, now: nat): World<G> {
    if g !in w.bounded.sources && SweepDue(w.bounded, now) then World(Sweep(w.bounded, now), w.unbounded) else w
  }

  /** The reference table starts each group as the real one does. */
  lemma SameStart<G(!new)>(w: World<G>, g: G, now: nat)
    requires Simulates(w, now)
    ensures SourceOk(Entry(w.bounded.sources, g, now), now) && SourceOk(Entry(w.unbounded, g, now), now)
    ensures Start(Entry(w.bounded.sources, g, now), now) == Start(Entry(w.unbounded, g, now), now)
  {
  }

  datatype Event<G> = Admit(g: G, now: nat) | SweepAt(now: nat) | ReturnAt(g: G, now: nat)

  /** Both tables take the step; the reference skips exactly the attempts refused for lack
      of room. */
  ghost function Next<G(!new)>(w: World<G>, e: Event<G>): World<G>
    requires AllOk(w.bounded.sources, e.now) && AllOk(w.unbounded, e.now)
  {
    match e
    case SweepAt(now) => World(Sweep(w.bounded, now), w.unbounded)
    case ReturnAt(g, _) => World(w.bounded.(sources := Release(w.bounded.sources, g)), Release(w.unbounded, g))
    case Admit(g, now) =>
      var (bounded, decision) := TryAdmit(w.bounded, g, now);
      if decision.Full? then World(bounded, w.unbounded)
      else World(bounded, w.unbounded[g := Start(Entry(w.unbounded, g, now), now).0])
  }

  lemma AdmitSimulates<G(!new)>(w: World<G>, g: G, now: nat)
    requires Simulates(w, now)
    ensures Simulates(Next(w, Admit(g, now)), now)
    ensures var decision := TryAdmit(w.bounded, g, now).1;
      decision.Full? || decision.Admitted? == Start(Entry(w.unbounded, g, now), now).1
  {
    SweepSimulates(w, now);
    var settled := Settled(w, g, now);
    SameStart(settled, g, now);
    StartOk(Entry(settled.unbounded, g, now), now);
    if g in settled.bounded.sources || |settled.bounded.sources| < MAX_SOURCES {
      PutSimulates(settled, g, Start(Entry(settled.unbounded, g, now), now).0, now);
    }
  }

  lemma ReturnSimulates<G(!new)>(w: World<G>, g: G, now: nat)
    requires Simulates(w, now)
    ensures Simulates(Next(w, ReturnAt(g, now)), now)
  {
  }

  lemma NextSimulates<G(!new)>(w: World<G>, e: Event<G>)
    requires Simulates(w, e.now)
    ensures Simulates(Next(w, e), e.now)
  {
    match e
    case SweepAt(now) => SweepSimulates(w, now);
    case ReturnAt(g, now) => ReturnSimulates(w, g, now);
    case Admit(g, now) => AdmitSimulates(w, g, now);
  }

  ghost predicate InOrder<G(!new)>(events: seq<Event<G>>) {
    forall i, j :: 0 <= i < j < |events| ==> events[i].now <= events[j].now
  }

  function Clock<G>(events: seq<Event<G>>): nat {
    if events == [] then 0 else events[|events| - 1].now
  }

  /** The two tables after the events, and the proof that they still agree. */
  ghost function Run<G(!new)>(events: seq<Event<G>>): (w: World<G>)
    requires InOrder(events)
    ensures Simulates(w, Clock(events))
  {
    if events == [] then World(State(map[], None), map[])
    else
      var front := events[..|events| - 1];
      var before := Run(front);
      var e := events[|events| - 1];
      SimulatesLater(before, Clock(front), e.now);
      NextSimulates(before, e);
      Next(before, e)
  }

  /** Eviction is unobservable: after any run, the next attempt is decided as the table that
      never forgets would decide it, unless it is refused for lack of room; that happens only
      while the table holds 4096 groups, each with a live permit or seen within the idle time. */
  lemma EvictionUnobservable<G(!new)>(events: seq<Event<G>>, g: G, now: nat)
    requires InOrder(events) && Clock(events) <= now
    ensures
      var w := Run(events);
      && AllOk(w.bounded.sources, now) && AllOk(w.unbounded, now)
      && var (after, decision) := TryAdmit(w.bounded, g, now);
      && (decision.Full? || decision.Admitted? == Start(Entry(w.unbounded, g, now), now).1)
      && (decision.Full? ==> g !in after.sources && |after.sources| == MAX_SOURCES
                             && forall h :: h in after.sources ==> Keep(after.sources[h], now))
  {
    var w := Run(events);
    SimulatesLater(w, Clock(events), now);
    SweepSimulates(w, now);
    AdmitSimulates(w, g, now);
  }

  // ---- the rate of one group over a whole run ----

  /** How many attempts of `g` a run admitted. */
  ghost function Starts<G(!new)>(events: seq<Event<G>>, g: G): nat
    requires InOrder(events)
  {
    if events == [] then 0
    else
      var front := events[..|events| - 1];
      var e := events[|events| - 1];
      Starts(front, g) + if e.Admit? && e.g == g && TryAdmit(Run(front).bounded, g, e.now).1.Admitted? then 1 else 0
  }

  /** One attempt spends no credit that was not earned. */
  lemma StartEarned(s: Source, now: nat, t0: nat, starts: nat)
    requires SourceOk(s, now) && Earned(s.rate, t0, starts)
    ensures Earned(Start(s, now).0.rate, t0, if Start(s, now).1 then starts + 1 else starts)
  {
  }

  ghost predicate CreditOk<G(!new)>(unbounded: map<G, Source>, g: G, t0: nat, starts: nat) {
    if g in unbounded then Earned(unbounded[g].rate, t0, starts) else starts == 0
  }

  lemma NextCredit<G(!new)>(w: World<G>, e: Event<G>, g: G, t0: nat, starts: nat)
    requires Simulates(w, e.now) && t0 <= e.now && CreditOk(w.unbounded, g, t0, starts)
    ensures
      var admitted := e.Admit? && e.g == g && TryAdmit(w.bounded, g, e.now).1.Admitted?;
      CreditOk(Next(w, e).unbounded, g, t0, if admitted then starts + 1 else starts)
  {
    if e.Admit? && e.g == g {
      AdmitSimulates(w, g, e.now);
      StartEarned(Entry(w.unbounded, g, e.now), e.now, t0, starts);
    }
  }

  lemma {:induction false} RunCredit<G(!new)>(events: seq<Event<G>>, g: G, t0: nat)
    requires InOrder(events) && (events == [] || t0 <= events[0].now)
    ensures CreditOk(Run(events).unbounded, g, t0, Starts(events, g))
  {
    if events != [] {
      var front := events[..|events| - 1];
      var e := events[|events| - 1];
      assert t0 <= e.now;
      RunCredit(front, g, t0);
      SimulatesLater(Run(front), Clock(front), e.now);
      NextCredit(Run(front), e, g, t0, Starts(front, g));
    }
  }

  /** Forgetting a source never gives it credit back: over any run that begins at t0, with any
      sweeps and evictions, a group starts at most its burst plus one per refill period. */
  lemma SourceRate<G(!new)>(events: seq<Event<G>>, g: G, t0: nat)
    requires InOrder(events) && events != [] && t0 <= events[0].now
    ensures Starts(events, g) <= SOURCE_BURST + (Clock(events) - t0) / SOURCE_REFILL
  {
    RunCredit(events, g, t0);
    var unbounded := Run(events).unbounded;
    if g in unbounded {
      DivMonotone(unbounded[g].rate.last - t0, Clock(events) - t0, SOURCE_REFILL);
    }
  }

  // ---- a group that waits is served ----

  /** Some attempt of the group was no earlier than this. */
  ghost predicate TriedSince<G(!new)>(events: seq<Event<G>>, g: G, at: nat) {
    exists i :: 0 <= i < |events| && events[i].Admit? && events[i].g == g && events[i].now >= at
  }

  lemma {:induction false} RefilledWhenTried<G(!new)>(events: seq<Event<G>>, g: G)
    requires InOrder(events) && g in Run(events).unbounded
    ensures TriedSince(events, g, Run(events).unbounded[g].rate.last)
  {
    if events != [] {
      var front, e := events[..|events| - 1], events[|events| - 1];
      SimulatesLater(Run(front), Clock(front), e.now);
      if e.Admit? && e.g == g && !TryAdmit(Run(front).bounded, g, e.now).1.Full? {
        AdmitSimulates(Run(front), g, e.now);
        assert events[|events| - 1] == e;
      } else {
        RefilledWhenTried(front, g);
        var i :| 0 <= i < |front| && front[i].Admit? && front[i].g == g
                 && front[i].now >= Run(front).unbounded[g].rate.last;
        assert events[i] == front[i];
      }
    }
  }

  /** A group that has made no attempt for one refill period and has fewer than four permits out
      is admitted, whatever was swept, unless the table is full. */
  lemma WaitingGroupServed<G(!new)>(events: seq<Event<G>>, g: G, now: nat)
    requires InOrder(events) && Clock(events) <= now
    requires forall i :: 0 <= i < |events| && events[i].Admit? && events[i].g == g ==> events[i].now + 83_334_000 <= now
    requires g in Run(events).unbounded ==> Run(events).unbounded[g].held < 4
    ensures
      var w := Run(events);
      AllOk(w.bounded.sources, now) && !TryAdmit(w.bounded, g, now).1.Refused?
  {
    var w := Run(events);
    SimulatesLater(w, Clock(events), now);
    AdmitSimulates(w, g, now);
    StartExactly(Entry(w.unbounded, g, now), now);
    if g in w.unbounded {
      RefilledWhenTried(events, g);
      DivMonotone(83_334_000, now - w.unbounded[g].rate.last, 83_334_000);
    }
  }

  // ---- permits ----

  /** How many permits of `g` were returned in a run, and that none was returned twice: each
      return comes while a permit is out. */
  ghost function Returns<G(!new)>(events: seq<Event<G>>, g: G): nat {
    if events == [] then 0
    else
      var e := events[|events| - 1];
      Returns(events[..|events| - 1], g) + if e.ReturnAt? && e.g == g then 1 else 0
  }

  ghost predicate Matched<G(!new)>(events: seq<Event<G>>, g: G)
    requires InOrder(events)
  {
    events == [] ||
    var front, e := events[..|events| - 1], events[|events| - 1];
    Matched(front, g) && (e.ReturnAt? && e.g == g ==> Returns(front, g) < Starts(front, g))
  }

  function HeldBy<G>(sources: map<G, Source>, g: G): nat {
    if g in sources then sources[g].held else 0
  }

  lemma NextHeld<G(!new)>(w: World<G>, e: Event<G>, g: G)
    requires Simulates(w, e.now)
    ensures
      var admitted := e.Admit? && e.g == g && TryAdmit(w.bounded, g, e.now).1.Admitted?;
      var before, after := HeldBy(w.unbounded, g), HeldBy(Next(w, e).unbounded, g);
      after == if admitted then before + 1 else if e.ReturnAt? && e.g == g && before > 0 then before - 1 else before
  {
    if e.Admit? && e.g == g {
      AdmitSimulates(w, g, e.now);
      StartExactly(Entry(w.unbounded, g, e.now), e.now);
    }
  }

  /** Permits are conserved: over any run with any sweeps and evictions, the permits a group has
      out are its starts less its returns, and never more than four. */
  lemma {:induction false} PermitsConserved<G(!new)>(events: seq<Event<G>>, g: G)
    requires InOrder(events) && Matched(events, g)
    ensures
      var w := Run(events);
      && HeldBy(w.unbounded, g) == HeldBy(w.bounded.sources, g)
      && HeldBy(w.bounded.sources, g) + Returns(events, g) == Starts(events, g) && HeldBy(w.bounded.sources, g) <= 4
  {
    if events != [] {
      var front, e := events[..|events| - 1], events[|events| - 1];
      PermitsConserved(front, g);
      SimulatesLater(Run(front), Clock(front), e.now);
      NextHeld(Run(front), e, g);
    }
  }

  // ---- the tracker's accept loop ----

  /** One accepted connection: the shared budget is tested first, the source is admitted
      next, and only then is the shared credit spent. The last take never refuses, and a
      refused source costs the others nothing. */
  method AdmitConnection(rate: TokenBucket, sources: SourceAdmission<Group>, peer: Ip, now: nat) returns (admitted: bool)
    requires BucketOk(rate.Value()) && rate.last <= now && AllOk(sources.sources, now)
    modifies rate, sources
    ensures admitted <==> old(Refilled(rate.Value(), now).tokens) > 0
                          && TryAdmit(old(sources.Value()), GroupOf(peer), now).1.Admitted?
    ensures rate.Value() == if admitted then Take(old(rate.Value()), now).0 else Refilled(old(rate.Value()), now)
    ensures old(Refilled(rate.Value(), now).tokens) == 0 ==> sources.Value() == old(sources.Value())
    ensures old(Refilled(rate.Value(), now).tokens) > 0 ==>
      sources.Value() == TryAdmit(old(sources.Value()), GroupOf(peer), now).0
  {
    ghost var before := rate.Value();
    var some := rate.Available(now);
    if !some {
      return false;
    }
    var decision := sources.Admit(GroupOf(peer), now);
    if !decision.Admitted? {
      return false;
    }
    RefillLeavesRemainder(before, now);
    AvailableThenTake(before, now);
    var taken := rate.TakeToken(now);
    assert taken;
    return true;
  }
}
