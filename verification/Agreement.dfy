/** The directory agreement protocol as a step system: honest authorities with memory and
    disk, crashes, failed writes, arbitrary clocks and arbitrary relay views; Byzantine
    authorities may sign anything. */
module Agreement {
  import opened Prelude
  import opened Sorting
  import opened Address
  import opened Directory
  import opened Identity
  import opened Consensus
  import opened Votes

  /** What can happen to one honest authority. A call's clock, relay view, retirement policy
      and write outcome are arbitrary. */
  datatype Event =
    | Call(policy: Policy, relays: seq<Relay>, now: nat, outcome: WriteOutcome)
    | Crash
    | Restart

  /** `memory` is `None` while the process is down. `released` is every digest whose
      signature ever left the authority, over all its lives. */
  datatype AuthorityState = AuthorityState(
    memory: Option<VoteTable>, journal: VoteTable, released: set<Digest>)

  const INITIAL := AuthorityState(None, map[], {})

  function Next(signer: Signer, s: AuthorityState, ev: Event): AuthorityState
    requires signer.key.Pin?
  {
    match ev
    case Crash => s.(memory := None)
    case Restart => s.(memory := Some(s.journal))
    case Call(policy, relays, now, outcome) =>
      if s.memory.None? then s
      else
        var (store, reply) := Freeze(signer, policy, Store(s.memory.value, s.journal), relays, now, outcome);
        AuthorityState(Some(store.memory), store.journal,
                       s.released + if reply.Ok? then {Canonical(reply.value)} else {})
  }

  function RunAuthority(signer: Signer, events: seq<Event>): AuthorityState
    requires signer.key.Pin?
  {
    if events == [] then INITIAL
    else Next(signer, RunAuthority(signer, events[..|events| - 1]), events[|events| - 1])
  }

  /** The table either holds the vote that was released for this epoch, or is past it. */
  ghost predicate Remembers(votes: VoteTable, d: Digest) {
    if d.validAfter in votes then Canonical(votes[d.validAfter]) == d
    else exists e :: e in votes && e > d.validAfter
  }

  ghost predicate OneVote(released: set<Digest>) {
    forall d, e :: d in released && e in released && d.validAfter == e.validAfter ==> d == e
  }

  ghost predicate RemembersAll(votes: VoteTable, digests: set<Digest>) {
    forall d :: d in digests ==> Remembers(votes, d)
  }

  ghost function Held(votes: VoteTable): set<Digest> {
    set e | e in votes :: Canonical(votes[e])
  }

  ghost predicate Inv(signer: Signer, s: AuthorityState) {
    && signer.key.Pin?
    && OwnVotes(signer, s.journal) && RemembersAll(s.journal, s.released)
    && OneVote(s.released)
    && (s.memory.Some? ==>
         && OwnVotes(signer, s.memory.value)
         && RemembersAll(s.memory.value, s.released)
         && RemembersAll(s.journal, Held(s.memory.value)))
  }

  /** Recording a newer epoch, with pruning, forgets nothing that matters. */
  lemma RecordingRemembers(votes: VoteTable, epoch: nat, doc: ConsensusDocument, d: Digest)
    requires Remembers(votes, d) && epoch !in votes
    requires forall e :: e in votes ==> e <= epoch
    ensures Remembers(Recorded(votes, epoch, doc), d)
  {
    var next := Recorded(votes, epoch, doc);
    assert epoch in next;
    if d.validAfter !in votes {
      var e :| e in votes && e > d.validAfter;
      assert e <= epoch;
    }
  }

  lemma HeldRemembered(signer: Signer, votes: VoteTable)
    requires OwnVotes(signer, votes)
    ensures RemembersAll(votes, Held(votes))
  {
  }

  lemma RecordingRemembersAll(votes: VoteTable, epoch: nat, doc: ConsensusDocument, ds: set<Digest>)
    requires RemembersAll(votes, ds) && epoch !in votes
    requires forall e :: e in votes ==> e <= epoch
    ensures RemembersAll(Recorded(votes, epoch, doc), ds)
    ensures forall d :: d in ds ==> d.validAfter != epoch
  {
    forall d | d in ds ensures Remembers(Recorded(votes, epoch, doc), d) && d.validAfter != epoch {
      RecordingRemembers(votes, epoch, doc, d);
    }
  }

  /** Answering with the vote already held releases nothing new for its epoch. */
  lemma RepeatKeepsInv(signer: Signer, s: AuthorityState, epoch: nat)
    requires Inv(signer, s) && s.memory.Some? && epoch in s.memory.value
    ensures Inv(signer, s.(released := s.released + {Canonical(s.memory.value[epoch])}))
  {
  }

  /** Recording and releasing a vote for a new, latest epoch. */
  lemma RecordKeepsInv(signer: Signer, s: AuthorityState, epoch: nat, doc: ConsensusDocument)
    requires Inv(signer, s) && s.memory.Some? && epoch !in s.memory.value
    requires forall e :: e in s.memory.value ==> e <= epoch
    requires OwnVote(signer, epoch, doc)
    ensures
      var next := Recorded(s.memory.value, epoch, doc);
      && Inv(signer, AuthorityState(Some(next), next, s.released + {Canonical(doc)}))
      && Inv(signer, s.(journal := next))
  {
    var votes := s.memory.value;
    var next := Recorded(votes, epoch, doc);
    RecordedIsOwn(signer, votes, epoch, doc);
    RecordingRemembersAll(votes, epoch, doc, s.released);
    HeldRemembered(signer, votes);
    RecordingRemembersAll(votes, epoch, doc, Held(votes));
    HeldRemembered(signer, next);
    assert Canonical(doc).validAfter == epoch && Remembers(next, Canonical(doc));
  }

  /** What a call can do to the state: nothing, release the vote held for this epoch, or
      record a vote for a new latest epoch in memory and journal, or in the journal only. */
  lemma CallCases(signer: Signer, s: AuthorityState, ev: Event)
    requires signer.key.Pin? && s.memory.Some? && ev.Call?
    ensures
      var votes, epoch, next := s.memory.value, EpochOf(ev.now), Next(signer, s, ev);
      var doc := NewVote(signer, epoch, FreshRelays(ev.policy, ev.now, ev.relays));
      var recorded := Recorded(votes, epoch, doc);
      || next == s
      || (epoch in votes && next == s.(released := s.released + {Canonical(votes[epoch])}))
      || (&& epoch !in votes && (forall e :: e in votes ==> e <= epoch) && |ev.relays| <= MAX_DIRECTORY_RELAYS
          && (|| next == AuthorityState(Some(recorded), recorded, s.released + {Canonical(doc)})
              || next == s.(journal := recorded)))
  {
  }

  lemma CallKeepsInv(signer: Signer, s: AuthorityState, ev: Event)
    requires Inv(signer, s) && s.memory.Some? && ev.Call?
    ensures Inv(signer, Next(signer, s, ev))
  {
    var votes, epoch, next := s.memory.value, EpochOf(ev.now), Next(signer, s, ev);
    CallCases(signer, s, ev);
    if next == s {
    } else if epoch in votes {
      RepeatKeepsInv(signer, s, epoch);
    } else {
      NewVoteIsOwn(signer, ev.policy, ev.now, ev.relays);
      RecordKeepsInv(signer, s, epoch, NewVote(signer, epoch, FreshRelays(ev.policy, ev.now, ev.relays)));
    }
  }

  lemma NextKeepsInv(signer: Signer, s: AuthorityState, ev: Event)
    requires Inv(signer, s)
    ensures Inv(signer, Next(signer, s, ev))
  {
    if ev.Restart? {
      HeldRemembered(signer, s.journal);
    } else if ev.Call? && s.memory.Some? {
      CallKeepsInv(signer, s, ev);
    }
  }

  lemma {:induction false} RunKeepsInv(signer: Signer, events: seq<Event>)
    requires signer.key.Pin?
    ensures Inv(signer, RunAuthority(signer, events))
  {
    if events != [] {
      RunKeepsInv(signer, events[..|events| - 1]);
      NextKeepsInv(signer, RunAuthority(signer, events[..|events| - 1]), events[|events| - 1]);
    }
  }

  /** One vote per epoch forever: whatever the clock, the disk and the crashes do, an
      honest authority releases at most one digest per epoch over all its lives. */
  lemma OneVotePerEpoch(signer: Signer, events: seq<Event>, d: Digest, e: Digest)
    requires signer.key.Pin?
    requires d in RunAuthority(signer, events).released && e in RunAuthority(signer, events).released
    requires d.validAfter == e.validAfter
    ensures d == e
  {
    RunKeepsInv(signer, events);
  }

  /** In every reachable state the journal on disk passes the start-up check, so a
      restart never refuses what the authority itself wrote. */
  lemma ReachableJournalReloads(signer: Signer, events: seq<Event>, docs: seq<ConsensusDocument>)
    requires signer.key.Pin?
    requires Lists(docs, RunAuthority(signer, events).journal)
    ensures Reloads(signer, docs)
  {
    RunKeepsInv(signer, events);
    JournalReloads(signer, RunAuthority(signer, events).journal, docs);
  }

  // ---- what is released ----

  /** The event is the call that made the document: for its epoch, of exactly the relays that
      were electable then. */
  ghost predicate MadeBy(ev: Event, doc: ConsensusDocument) {
    && ev.Call? && doc.validAfter == ev.now - ev.now % 300
    && ListsElectable(ev.policy, ev.now, ev.relays, doc.relays)
  }

  ghost predicate Made(events: seq<Event>, doc: ConsensusDocument) {
    exists i :: 0 <= i < |events| && MadeBy(events[i], doc)
  }

  ghost predicate AllMade(events: seq<Event>, votes: VoteTable) {
    forall e :: e in votes ==> Made(events, votes[e])
  }

  ghost predicate DigestMade(events: seq<Event>, d: Digest) {
    exists doc :: Made(events, doc) && Canonical(doc) == d
  }

  ghost predicate ReleasedMade(events: seq<Event>, released: set<Digest>) {
    forall d :: d in released ==> DigestMade(events, d)
  }

  lemma MadeLater(events: seq<Event>, ev: Event, doc: ConsensusDocument)
    requires Made(events, doc)
    ensures Made(events + [ev], doc)
  {
    var i :| 0 <= i < |events| && MadeBy(events[i], doc);
    assert (events + [ev])[i] == events[i];
  }

  lemma AllMadeLater(events: seq<Event>, ev: Event, votes: VoteTable, released: set<Digest>)
    requires AllMade(events, votes) && ReleasedMade(events, released)
    ensures AllMade(events + [ev], votes) && ReleasedMade(events + [ev], released)
  {
    forall e | e in votes ensures Made(events + [ev], votes[e]) {
      MadeLater(events, ev, votes[e]);
    }
    forall d | d in released ensures DigestMade(events + [ev], d) {
      var doc :| Made(events, doc) && Canonical(doc) == d;
      MadeLater(events, ev, doc);
    }
  }

  /** A call makes the document it records, whether or not the write reaches memory. */
  lemma CallMakes(signer: Signer, ev: Event, events: seq<Event>)
    requires signer.key.Pin? && ev.Call?
    ensures Made(events + [ev], NewVote(signer, EpochOf(ev.now), FreshRelays(ev.policy, ev.now, ev.relays)))
  {
    FreshElects(ev.policy, ev.now, ev.relays);
    assert EpochOf(ev.now) == ev.now - ev.now % 300;
    assert (events + [ev])[|events|] == ev;
  }

  lemma CallKeepsMade(signer: Signer, s: AuthorityState, ev: Event, events: seq<Event>)
    requires signer.key.Pin? && s.memory.Some? && ev.Call?
    requires AllMade(events, s.memory.value) && AllMade(events, s.journal) && ReleasedMade(events, s.released)
    ensures
      var next := Next(signer, s, ev);
      && next.memory.Some? && AllMade(events + [ev], next.memory.value) && AllMade(events + [ev], next.journal)
      && ReleasedMade(events + [ev], next.released)
  {
    var votes, epoch := s.memory.value, EpochOf(ev.now);
    var doc := NewVote(signer, epoch, FreshRelays(ev.policy, ev.now, ev.relays));
    CallCases(signer, s, ev);
    CallMakes(signer, ev, events);
    AllMadeLater(events, ev, votes, s.released);
    AllMadeLater(events, ev, s.journal, s.released);
    assert AllMade(events + [ev], Recorded(votes, epoch, doc));
    assert DigestMade(events + [ev], Canonical(doc));
    if epoch in votes {
      assert DigestMade(events + [ev], Canonical(votes[epoch]));
    }
  }

  /** Everything an authority holds or has released was made by one of its calls, of exactly
      the relays that were then verified, not retired and at most two hours old. */
  lemma {:induction false} ReleasedWereElectable(signer: Signer, events: seq<Event>)
    requires signer.key.Pin?
    ensures
      var s := RunAuthority(signer, events);
      && (s.memory.Some? ==> AllMade(events, s.memory.value))
      && AllMade(events, s.journal) && ReleasedMade(events, s.released)
  {
    if events != [] {
      var front, ev := events[..|events| - 1], events[|events| - 1];
      var s := RunAuthority(signer, front);
      ReleasedWereElectable(signer, front);
      assert events == front + [ev];
      AllMadeLater(front, ev, s.journal, s.released);
      if s.memory.Some? {
        AllMadeLater(front, ev, s.memory.value, s.released);
        if ev.Call? {
          CallKeepsMade(signer, s, ev, front);
        }
      }
    }
  }

  /** What a call answers in a state that is up. */
  function ReplyTo(signer: Signer, s: AuthorityState, ev: Event): Result<ConsensusDocument, VoteError>
    requires signer.key.Pin? && s.memory.Some? && ev.Call?
  {
    Freeze(signer, ev.policy, Store(s.memory.value, s.journal), ev.relays, ev.now, ev.outcome).1
  }

  /** Whatever a restarted authority finds in its journal, no call releases a document that
      lists an identity retired by that call's policy. */
  lemma NoRetiredReleased(signer: Signer, events: seq<Event>, i: nat)
    requires signer.key.Pin? && i < |events| && events[i].Call?
    ensures
      var s, after := RunAuthority(signer, events[..i]), RunAuthority(signer, events[..i + 1]);
      s.memory.Some? && ReplyTo(signer, s, events[i]).Ok? ==>
        var doc := ReplyTo(signer, s, events[i]).value;
        NoneRetired(events[i].policy.revoked, doc) && after.released == s.released + {Canonical(doc)}
  {
    var s, ev := RunAuthority(signer, events[..i]), events[i];
    assert events[..i + 1][..i] == events[..i];
    if s.memory.Some? {
      FreezeMeaning(signer, ev.policy, Store(s.memory.value, s.journal), ev.relays, ev.now, ev.outcome);
    }
  }

  /** A crash loses the memory and nothing else, and a restart reads the whole journal back. */
  lemma LivesFollowJournal(signer: Signer, events: seq<Event>)
    requires signer.key.Pin?
    ensures RunAuthority(signer, events + [Crash]) == RunAuthority(signer, events).(memory := None)
    ensures
      var s := RunAuthority(signer, events);
      RunAuthority(signer, events + [Restart]) == s.(memory := Some(s.journal))
  {
    assert (events + [Crash])[..|events|] == events && (events + [Restart])[..|events|] == events;
  }

  /** A vote whose write failed late is still the authority's one vote: after a crash and a restart
      it is what any call in its epoch gets, of whatever relays that call has, unless its policy
      retires one of the listed relays or demands more of them. */
  lemma LateVoteReturns(signer: Signer, s: AuthorityState, call: Event, up: AuthorityState, again: Event)
    requires signer.key.Pin? && s.memory.Some? && call.Call? && again.Call? && call.outcome.FailedNew?
    requires ReplyTo(signer, s, call) == Err(CannotPersist) && forall e :: e in s.memory.value ==> e <= EpochOf(call.now)
    requires up == Next(signer, Next(signer, Next(signer, s, call), Crash), Restart)
    requires EpochOf(again.now) == EpochOf(call.now) && !again.policy.requireUsable
    ensures
      && up.memory.Some? && EpochOf(call.now) in up.memory.value
      && var doc := up.memory.value[EpochOf(call.now)];
      && ListsElectable(call.policy, call.now, call.relays, doc.relays)
      && (NoneRetired(again.policy.revoked, doc) ==> ReplyTo(signer, up, again) == Ok(doc))
  {
    RestartAfter(signer, s, call);
    LateVoteJournalled(signer, s, call);
    if NoneRetired(again.policy.revoked, up.memory.value[EpochOf(call.now)]) {
      HeldVoteReturns(signer, up, again);
    }
  }

  lemma LateVoteJournalled(signer: Signer, s: AuthorityState, call: Event)
    requires signer.key.Pin? && s.memory.Some? && call.Call? && call.outcome.FailedNew?
    requires ReplyTo(signer, s, call) == Err(CannotPersist) && forall e :: e in s.memory.value ==> e <= EpochOf(call.now)
    ensures
      var journal := Freeze(signer, call.policy, Store(s.memory.value, s.journal), call.relays, call.now, call.outcome).0.journal;
      && EpochOf(call.now) in journal && (forall e :: e in journal ==> e <= EpochOf(call.now))
      && ListsElectable(call.policy, call.now, call.relays, journal[EpochOf(call.now)].relays)
  {
    assert EpochOf(call.now) == call.now - call.now % 300;
    FailsLate(signer, call.policy, Store(s.memory.value, s.journal), call.relays, call.now, call.outcome);
  }

  lemma RestartAfter(signer: Signer, s: AuthorityState, call: Event)
    requires signer.key.Pin? && s.memory.Some? && call.Call?
    ensures
      var journal := Freeze(signer, call.policy, Store(s.memory.value, s.journal), call.relays, call.now, call.outcome).0.journal;
      Next(signer, Next(signer, Next(signer, s, call), Crash), Restart).memory == Some(journal)
  {
  }

  lemma HeldVoteReturns(signer: Signer, s: AuthorityState, ev: Event)
    requires signer.key.Pin? && s.memory.Some? && ev.Call? && !ev.policy.requireUsable && EpochOf(ev.now) in s.memory.value
    requires forall e :: e in s.memory.value ==> e <= EpochOf(ev.now)
    requires NoneRetired(ev.policy.revoked, s.memory.value[EpochOf(ev.now)])
    ensures ReplyTo(signer, s, ev) == Ok(s.memory.value[EpochOf(ev.now)])
  {
    FreezeMeaning(signer, ev.policy, Store(s.memory.value, s.journal), ev.relays, ev.now, ev.outcome);
    assert EpochOf(ev.now) == ev.now - ev.now % 300;
  }

  ghost predicate Unlisted(released: set<Digest>, pin: Pin) {
    forall d, r :: d in released && r in d.relays ==> r.pin != pin
  }

  lemma CanonicalPins(doc: ConsensusDocument, revoked: set<Pin>)
    requires NoneRetired(revoked, doc)
    ensures forall r :: r in Canonical(doc).relays ==> r.pin !in revoked
  {
    var sorted := SortBy(ById<Host, Pin, Proof>, doc.relays);
    ByIdPreorder<Host, Pin, Proof>();
    SortSorts(ById<Host, Pin, Proof>, doc.relays);
    forall i | 0 <= i < |sorted| ensures sorted[i].pin !in revoked {
      assert sorted[i] in multiset(sorted);
    }
  }

  /** An identity that every call's policy retires is in no digest ever released. */
  lemma {:induction false} RetiredNeverReleased(signer: Signer, events: seq<Event>, pin: Pin)
    requires signer.key.Pin? && forall i :: 0 <= i < |events| && events[i].Call? ==> pin in events[i].policy.revoked
    ensures Unlisted(RunAuthority(signer, events).released, pin)
  {
    if events != [] {
      var n := |events| - 1;
      RetiredNeverReleased(signer, events[..n], pin);
      assert events[..n + 1] == events;
      if events[n].Call? {
        var s := RunAuthority(signer, events[..n]);
        NoRetiredReleased(signer, events, n);
        if s.memory.Some? && ReplyTo(signer, s, events[n]).Ok? {
          CanonicalPins(ReplyTo(signer, s, events[n]).value, events[n].policy.revoked);
        }
      }
    }
  }

  // ---- the whole network ----

  /** The honest authorities' ids by key. Every other key is Byzantine. */
  type Honest = map<Pin, string>

  type Step = (Pin, Event)

  function InitialSystem(honest: Honest): map<Pin, AuthorityState> {
    map k | k in honest :: INITIAL
  }

  predicate RealKeys(honest: Honest) {
    forall k :: k in honest ==> k.Pin?
  }

  function NextSystem(honest: Honest, sys: map<Pin, AuthorityState>, step: Step): map<Pin, AuthorityState>
    requires RealKeys(honest)
  {
    if step.0 in honest && step.0 in sys
    then sys[step.0 := Next(Signer(honest[step.0], step.0), sys[step.0], step.1)]
    else sys
  }

  function RunSystem(honest: Honest, steps: seq<Step>): map<Pin, AuthorityState>
    requires RealKeys(honest)
  {
    if steps == [] then InitialSystem(honest)
    else NextSystem(honest, RunSystem(honest, steps[..|steps| - 1]), steps[|steps| - 1])
  }

  /** The events of one authority in a run of the whole network. */
  function EventsOf(steps: seq<Step>, k: Pin): seq<Event> {
    if steps == [] then []
    else
      var front, last := EventsOf(steps[..|steps| - 1], k), steps[|steps| - 1];
      if last.0 == k then front + [last.1] else front
  }

  /** The network is its authorities: each honest one is where its own events alone lead it. */
  lemma {:induction false} NetworkIsAuthorities(honest: Honest, steps: seq<Step>, k: Pin)
    requires RealKeys(honest) && k in honest
    ensures k in RunSystem(honest, steps) && RunSystem(honest, steps)[k] == RunAuthority(Signer(honest[k], k), EventsOf(steps, k))
  {
    if steps != [] {
      var n := |steps| - 1;
      NetworkIsAuthorities(honest, steps[..n], k);
      if steps[n].0 == k {
        var front := EventsOf(steps[..n], k);
        assert (front + [steps[n].1])[..|front|] == front;
      }
    }
  }

  ghost predicate SystemInv(honest: Honest, sys: map<Pin, AuthorityState>) {
    && sys.Keys == honest.Keys
    && forall k :: k in sys ==> Inv(Signer(honest[k], k), sys[k])
  }

  lemma {:induction false} RunSystemInv(honest: Honest, steps: seq<Step>)
    requires RealKeys(honest)
    ensures SystemInv(honest, RunSystem(honest, steps))
  {
    if steps != [] {
      var sys, step := RunSystem(honest, steps[..|steps| - 1]), steps[|steps| - 1];
      RunSystemInv(honest, steps[..|steps| - 1]);
      if step.0 in honest {
        NextKeepsInv(Signer(honest[step.0], step.0), sys[step.0], step.1);
      }
    }
  }

  /** Unforgeability: a valid signature of an honest key on a digest was released by it. */
  ghost predicate Genuine(sys: map<Pin, AuthorityState>, doc: ConsensusDocument) {
    forall v, k, d :: v in doc.signatures && k in sys && Verifies(k, SignedDigest(d), v.proof)
      ==> d in sys[k].released
  }

  /** Released votes stay released, so a genuine document stays genuine. */
  lemma {:induction false} GenuineLater(honest: Honest, steps: seq<Step>, more: seq<Step>, doc: ConsensusDocument)
    requires RealKeys(honest) && Genuine(RunSystem(honest, steps), doc)
    ensures Genuine(RunSystem(honest, steps + more), doc)
    decreases |more|
  {
    if more == [] {
      assert steps + more == steps;
    } else {
      var n := |more| - 1;
      GenuineLater(honest, steps, more[..n], doc);
      RunSystemInv(honest, steps + more[..n]);
      assert (steps + more)[..|steps + more| - 1] == steps + more[..n];
      var before, after := RunSystem(honest, steps + more[..n]), RunSystem(honest, steps + more);
      forall k | k in after ensures k in before && before[k].released <= after[k].released {
      }
    }
  }

  lemma UnionSize<T>(a: set<T>, b: set<T>)
    ensures |a + b| + |a * b| == |a| + |b|
  {
  }

  /** Two sets of more than two thirds of the keys share an honest key. */
  lemma QuorumsMeet(keys: set<Pin>, honest: set<Pin>, a: set<Pin>, b: set<Pin>) returns (k: Pin)
    requires a <= keys && b <= keys
    requires |a| >= 2 * |keys| / 3 + 1 && |b| >= 2 * |keys| / 3 + 1
    requires 3 * |keys - honest| < |keys|
    ensures k in a && k in b && k in honest
  {
    UnionSize(a, b);
    SubsetSize(a + b, keys);
    if a * b * honest == {} {
      forall x | x in a * b ensures x in keys - honest {
        assert x !in a * b * honest;
      }
      SubsetSize(a * b, keys - honest);
      assert false;
    }
    k :| k in a * b * honest;
  }

  /** A client's trusted authorities, and the quorum `PinnedDirectoryClient` insists on. */
  ghost predicate SafeClient(trusted: Authorities, threshold: nat) {
    DistinctKeys(trusted) && threshold >= 2 * |trusted| / 3 + 1
  }

  /** A quorum of voters is a large set of trusted keys that each signed this digest. */
  lemma QuorumSigned(sys: map<Pin, AuthorityState>, doc: ConsensusDocument, trusted: Authorities,
                     threshold: nat, now: nat, k: Pin)
    requires Genuine(sys, doc) && HasQuorum(doc, trusted, threshold, now)
    requires k in Voters(doc, trusted) && k in sys
    ensures Canonical(doc) in sys[k].released
  {
  }

  /** Agreement: with fewer than a third of the keys Byzantine, no run lets two documents
      for one epoch with different digests both reach quorum, at any two clients that
      trust the same keys under whatever names, at any two times. */
  lemma Agreement(honest: Honest, steps: seq<Step>, d: ConsensusDocument, e: ConsensusDocument,
                  trusted: Authorities, threshold: nat, now: nat,
                  trusted': Authorities, threshold': nat, now': nat)
    requires RealKeys(honest)
    requires SafeClient(trusted, threshold) && SafeClient(trusted', threshold')
    requires trusted.Values == trusted'.Values
    requires 3 * |trusted.Values - honest.Keys| < |trusted|
    requires Genuine(RunSystem(honest, steps), d) && Genuine(RunSystem(honest, steps), e)
    requires HasQuorum(d, trusted, threshold, now) && HasQuorum(e, trusted', threshold', now')
    requires d.validAfter == e.validAfter
    ensures Canonical(d) == Canonical(e)
  {
    var sys := RunSystem(honest, steps);
    RunSystemInv(honest, steps);
    DistinctValues(trusted);
    DistinctValues(trusted');
    VotersTrusted(Canonical(d), trusted, d.signatures);
    VotersTrusted(Canonical(e), trusted', e.signatures);
    var k := QuorumsMeet(trusted.Values, honest.Keys, Voters(d, trusted), Voters(e, trusted'));
    QuorumSigned(sys, d, trusted, threshold, now, k);
    QuorumSigned(sys, e, trusted', threshold', now', k);
    assert OneVote(sys[k].released);
  }
}
