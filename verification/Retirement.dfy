/** Every interleaving of the starts that share one retirement journal (src/core/revocation.rs):
    starts with a policy serialise on a lock file, starts without one only look. */
module Retirement {
  import opened Prelude
  import opened Identity
  import opened Consensus
  import opened Votes
  import opened Revocation

  /** The journal's record of the last accepted policy. */
  datatype Accepted = Accepted(generation: nat, digest: PolicyContent, revoked: seq<Pin>)

  function Elements(s: seq<Pin>): set<Pin> {
    set p | p in s
  }

  function Record(p: RevocationPolicy): Accepted {
    Accepted(p.generation, PolicyDigest(p), p.revoked)
  }

  ghost predicate WellRecorded(a: Accepted) {
    a.generation != 0 && |a.revoked| <= MAX_REVOKED_IDENTITIES && DistinctPins(a.revoked, |a.revoked|)
  }

  /** Neither older, nor different at the same generation, nor missing a retired identity. */
  ghost predicate Succeeds(next: Accepted, previous: Accepted) {
    && previous.generation <= next.generation
    && (previous.generation == next.generation ==> previous.digest == next.digest)
    && Elements(previous.revoked) <= Elements(next.revoked)
  }

  ghost predicate Admissible(previous: Option<Accepted>, p: RevocationPolicy, keys: Authorities, quorum: nat) {
    && Approved(p, keys, quorum)
    && (previous.Some? ==> WellRecorded(previous.value) && Succeeds(Record(p), previous.value))
  }

  /** The policy file of a start: none configured, one that cannot be read or parsed, or a policy. */
  datatype PolicyFile = NoPath | BadFile | Loaded(policy: RevocationPolicy)

  /** The journal and lock file as one start uses them, with no other start in between. */
  class RetirementState {
    var journal: Option<Accepted>
    var lock: bool

    method CheckRecord(previous: Accepted, p: RevocationPolicy) returns (ok: bool)
      ensures ok <==> WellRecorded(previous) && Succeeds(Record(p), previous)
    {
      var distinct := Elements(previous.revoked);
      DistinctElements(previous.revoked);
      if previous.generation == 0 || |previous.revoked| > MAX_REVOKED_IDENTITIES || |distinct| != |previous.revoked| {
        return false;
      }
      var identities := Elements(p.revoked);
      return !(p.generation < previous.generation
               || (p.generation == previous.generation && PolicyDigest(p) != previous.digest)
               || exists i :: 0 <= i < |previous.revoked| && previous.revoked[i] !in identities);
    }

    /** `load_and_commit`: `readable` says whether the journal, if there is one, can be read and
        parsed. Whatever fails, the journal stays as it was unless its own write failed late. */
    method LoadAndCommit(policy: PolicyFile, readable: bool, keys: Authorities, quorum: nat, outcome: WriteOutcome)
      returns (r: Option<set<Pin>>)
      modifies this
      ensures lock == old(lock)
      ensures !readable ==> journal == old(journal) && r.None?
      ensures policy.NoPath? && readable ==>
        journal == old(journal) && r == if old(lock) || old(journal).Some? then None else Some({})
      ensures !policy.NoPath? && readable ==>
        if !old(lock) && policy.Loaded? && Admissible(old(journal), policy.policy, keys, quorum)
        then journal == (if outcome.FailedOld? then old(journal) else Some(Record(policy.policy)))
             && r == if outcome.Written? then Some(Elements(policy.policy.revoked)) else None
        else journal == old(journal) && r.None?
    {
      if policy.NoPath? {
        return if !readable || lock || journal.Some? then None else Some({});
      }
      if lock {
        return None;
      }
      lock := true;
      r := CheckAndWrite(policy, readable, keys, quorum, outcome);
      lock := false;
    }

    /** The part under the lock. */
    method CheckAndWrite(policy: PolicyFile, readable: bool, keys: Authorities, quorum: nat, outcome: WriteOutcome)
      returns (r: Option<set<Pin>>)
      modifies this`journal
      ensures
        if readable && policy.Loaded? && Admissible(old(journal), policy.policy, keys, quorum)
        then journal == (if outcome.FailedOld? then old(journal) else Some(Record(policy.policy)))
             && r == if outcome.Written? then Some(Elements(policy.policy.revoked)) else None
        else journal == old(journal) && r.None?
    {
      if !readable || !policy.Loaded? {
        return None;
      }
      var p := policy.policy;
      var approved := VerifyPolicy(p, keys, quorum);
      if approved && journal.Some? {
        approved := CheckRecord(journal.value, p);
      }
      if !approved {
        return None;
      }
      if !outcome.FailedOld? {
        journal := Some(Record(p));
      }
      return if outcome.Written? then Some(Elements(p.revoked)) else None;
    }
  }

  ghost function FirstElements(s: seq<Pin>, k: nat): set<Pin>
    requires k <= |s|
  {
    set i | 0 <= i < k :: s[i]
  }

  lemma {:induction false} FirstDistinct(s: seq<Pin>, k: nat)
    requires k <= |s|
    ensures |FirstElements(s, k)| <= k
    ensures |FirstElements(s, k)| == k <==> DistinctPins(s, k)
  {
    if k > 0 {
      FirstDistinct(s, k - 1);
      assert FirstElements(s, k) == FirstElements(s, k - 1) + {s[k - 1]};
    }
  }

  lemma DistinctElements(s: seq<Pin>)
    ensures |Elements(s)| == |s| <==> DistinctPins(s, |s|)
  {
    FirstDistinct(s, |s|);
    assert Elements(s) == FirstElements(s, |s|);
  }

  // ---- processes ----

  datatype Stage = Locked | Checked(previous: Option<Accepted>) | Finished

  /** A start in progress; `begin` is how many journal records existed when it began. */
  datatype Process =
    | WithPolicy(begin: nat, policy: RevocationPolicy, keys: Authorities, quorum: nat, stage: Stage)
    | Bare(begin: nat)
    | BareRead(begin: nat, previous: Option<Accepted>)

  /** A record that reached the disk, and the policy and authorities behind it. */
  datatype Commit = Commit(policy: RevocationPolicy, keys: Authorities, quorum: nat)

  /** A start that succeeded: how many records existed when it began and when it decided, and
      whether it carried a policy. */
  datatype Success = Success(begin: nat, decided: nat, enrolled: bool, revoked: set<Pin>)

  datatype World = World(
    journal: Option<Accepted>, lock: bool, processes: map<nat, Process>, commits: seq<Commit>, successes: seq<Success>)

  const INITIAL := World(None, false, map[], [], [])

  /** A start with a policy may return at any point, in success or with an error, which drops
      its lock (`Unlock`); any start may be killed, which leaves the lock file behind (`Crash`).
      The operator removes a stale lock only when no start is running. */
  datatype Event =
    | Begin(id: nat, policy: Option<RevocationPolicy>, keys: Authorities, quorum: nat)
    | Read(id: nat)
    | Write(id: nat, outcome: WriteOutcome)
    | Decide(id: nat)
    | Unlock(id: nat)
    | Crash(id: nat)
    | RemoveLock

  function Ended(w: World, id: nat): World {
    w.(processes := w.processes - {id})
  }

  function Put(w: World, id: nat, p: Process): World {
    w.(processes := w.processes[id := p])
  }

  function Started(w: World, id: nat, policy: Option<RevocationPolicy>, keys: Authorities, quorum: nat): World {
    var begin := |w.commits|;
    if policy.None? then Put(w, id, Bare(begin))
    else if w.lock then w
    else Put(w, id, WithPolicy(begin, policy.value, keys, quorum, Locked)).(lock := true)
  }

  /** Check the policy against the record that was read, and replace the journal. */
  ghost function Committed(w: World, id: nat, p: Process, outcome: WriteOutcome): World
    requires p.WithPolicy? && p.stage.Checked?
  {
    var finished := Put(w, id, p.(stage := Finished));
    if !Admissible(p.stage.previous, p.policy, p.keys, p.quorum) || outcome.FailedOld? then finished
    else
      var commits := w.commits + [Commit(p.policy, p.keys, p.quorum)];
      var success := Success(p.begin, |commits|, true, Elements(p.policy.revoked));
      finished.(journal := Some(Record(p.policy)), commits := commits,
      successes := if outcome.Written? then w.successes + [success] else w.successes)
  }

  function Looked(w: World, id: nat, p: Process): World
    requires p.BareRead?
  {
    if w.lock || p.previous.Some? then Ended(w, id)
    else Ended(w, id).(successes := w.successes + [Success(p.begin, |w.commits|, false, {})])
  }

  ghost function Step(w: World, id: nat, p: Process, e: Event): World {
    match e
    case Read(_) =>
      if p.Bare? then Put(w, id, BareRead(p.begin, w.journal))
      else if p.WithPolicy? && p.stage.Locked? then Put(w, id, p.(stage := Checked(w.journal)))
      else w
    case Write(_, outcome) => if p.WithPolicy? && p.stage.Checked? then Committed(w, id, p, outcome) else w
    case Decide(_) => if p.BareRead? then Looked(w, id, p) else w
    case Unlock(_) => if p.WithPolicy? then Ended(w, id).(lock := false) else w
    case Crash(_) => Ended(w, id)
    case _ => w
  }

  ghost function Next(w: World, e: Event): World {
    match e
    case RemoveLock => if w.processes == map[] then w.(lock := false) else w
    case Begin(id, policy, keys, quorum) => if id in w.processes then w else Started(w, id, policy, keys, quorum)
    case _ => if e.id in w.processes then Step(w, e.id, w.processes[e.id], e) else w
  }

  ghost function Run(events: seq<Event>): World {
    if events == [] then INITIAL else Next(Run(events[..|events| - 1]), events[|events| - 1])
  }

  // ---- the invariant ----

  ghost predicate CommitsOk(commits: seq<Commit>) {
    forall i :: 0 <= i < |commits| ==> Approved(commits[i].policy, commits[i].keys, commits[i].quorum)
  }

  ghost predicate Cumulative(commits: seq<Commit>) {
    forall i, j :: 0 <= i < j < |commits| ==> Succeeds(Record(commits[j].policy), Record(commits[i].policy))
  }

  function LastRecord(commits: seq<Commit>): Option<Accepted> {
    if commits == [] then None else Some(Record(commits[|commits| - 1].policy))
  }

  predicate ProcessOk(w: World, p: Process) {
    && p.begin <= |w.commits|
    && match p
       case WithPolicy(_, _, _, _, stage) => w.lock && (stage.Checked? ==> stage.previous == w.journal)
       case Bare(_) => true
       case BareRead(begin, previous) => begin > 0 ==> previous.Some?
  }

  ghost predicate ProcessesOk(w: World) {
    forall id :: id in w.processes ==> ProcessOk(w, w.processes[id])
  }

  /** The lock file admits one start with a policy at a time. */
  ghost predicate Exclusive(processes: map<nat, Process>) {
    forall i, j :: i in processes && j in processes && processes[i].WithPolicy? && processes[j].WithPolicy? ==> i == j
  }

  ghost predicate Covers(revoked: set<Pin>, commits: seq<Commit>, n: nat) {
    forall i :: 0 <= i < n && i < |commits| ==> Elements(commits[i].policy.revoked) <= revoked
  }

  /** A start with a policy returned the set of a record written after it began, its own, which
      covers every earlier one; a start without a policy began before there was any record. */
  ghost predicate SuccessOk(s: Success, commits: seq<Commit>) {
    if s.enrolled then
      && s.begin < s.decided <= |commits| && s.revoked == Elements(commits[s.decided - 1].policy.revoked)
      && Covers(s.revoked, commits, s.decided)
    else s.begin == 0 && s.revoked == {}
  }

  ghost predicate SuccessesOk(successes: seq<Success>, commits: seq<Commit>) {
    forall i :: 0 <= i < |successes| ==> SuccessOk(successes[i], commits)
  }

  ghost predicate Inv(w: World) {
    && CommitsOk(w.commits) && Cumulative(w.commits) && w.journal == LastRecord(w.commits)
    && ProcessesOk(w) && Exclusive(w.processes) && SuccessesOk(w.successes, w.commits)
  }

  // ---- every step keeps it ----

  lemma SucceedsTransitive(a: Accepted, b: Accepted, c: Accepted)
    requires Succeeds(b, a) && Succeeds(c, b)
    ensures Succeeds(c, a)
  {
  }

  lemma CommitExtends(commits: seq<Commit>, c: Commit)
    requires CommitsOk(commits) && Cumulative(commits)
    requires Admissible(LastRecord(commits), c.policy, c.keys, c.quorum)
    ensures CommitsOk(commits + [c]) && Cumulative(commits + [c])
    ensures Covers(Elements(c.policy.revoked), commits + [c], |commits| + 1)
  {
    var n := |commits|;
    forall i | 0 <= i < n ensures Succeeds(Record(c.policy), Record(commits[i].policy)) {
      if i < n - 1 {
        SucceedsTransitive(Record(commits[i].policy), Record(commits[n - 1].policy), Record(c.policy));
      }
    }
  }

  lemma SuccessesStay(successes: seq<Success>, commits: seq<Commit>, more: seq<Commit>)
    requires SuccessesOk(successes, commits) && commits <= more
    ensures SuccessesOk(successes, more)
  {
  }

  /** Steps that touch one process and neither the journal nor the lock. */
  lemma PutKeepsInv(w: World, id: nat, p: Process)
    requires Inv(w) && ProcessOk(w, p)
    requires p.WithPolicy? ==> id in w.processes && w.processes[id].WithPolicy?
    ensures Inv(Put(w, id, p))
  {
  }

  lemma EndKeepsInv(w: World, id: nat, lock: bool)
    requires Inv(w) && (lock == w.lock || (id in w.processes && w.processes[id].WithPolicy?))
    ensures Inv(Ended(w, id).(lock := lock))
  {
  }

  lemma BeginKeepsInv(w: World, id: nat, policy: Option<RevocationPolicy>, keys: Authorities, quorum: nat)
    requires Inv(w) && id !in w.processes
    ensures Inv(Started(w, id, policy, keys, quorum))
  {
  }

  /** A commit by the only start that holds the lock. */
  lemma CommitKeepsProcesses(w: World, w': World, id: nat, p: Process)
    requires Inv(w) && id in w.processes && w.processes[id] == p && p.WithPolicy?
    requires w'.processes == w.processes[id := p.(stage := Finished)] && w'.lock == w.lock && |w.commits| <= |w'.commits|
    ensures ProcessesOk(w') && Exclusive(w'.processes)
  {
  }

  lemma WriteKeepsInv(w: World, id: nat, p: Process, outcome: WriteOutcome)
    requires Inv(w) && id in w.processes && w.processes[id] == p && p.WithPolicy? && p.stage.Checked?
    ensures Inv(Committed(w, id, p, outcome))
  {
    var w' := Committed(w, id, p, outcome);
    assert ProcessOk(w, p);
    CommitKeepsProcesses(w, w', id, p);
    if w'.commits != w.commits {
      var c := Commit(p.policy, p.keys, p.quorum);
      CommitExtends(w.commits, c);
      SuccessesStay(w.successes, w.commits, w.commits + [c]);
    }
  }

  lemma LookKeepsInv(w: World, id: nat, p: Process)
    requires Inv(w) && id in w.processes && w.processes[id] == p && p.BareRead?
    ensures Inv(Looked(w, id, p))
  {
    EndKeepsInv(w, id, w.lock);
    assert ProcessOk(w, p);
    var ended, w' := Ended(w, id), Looked(w, id, p);
    forall i | i in w'.processes ensures ProcessOk(w', w'.processes[i]) {
      assert ProcessOk(ended, ended.processes[i]);
    }
  }

  lemma StepKeepsInv(w: World, id: nat, p: Process, e: Event)
    requires Inv(w) && id in w.processes && w.processes[id] == p
    ensures Inv(Step(w, id, p, e))
  {
    assert ProcessOk(w, p);
    match e
    case Read(_) =>
      if p.Bare? {
        PutKeepsInv(w, id, BareRead(p.begin, w.journal));
      } else if p.WithPolicy? && p.stage.Locked? {
        PutKeepsInv(w, id, p.(stage := Checked(w.journal)));
      }
    case Write(_, outcome) => if p.WithPolicy? && p.stage.Checked? { WriteKeepsInv(w, id, p, outcome); }
    case Decide(_) => if p.BareRead? { LookKeepsInv(w, id, p); }
    case Unlock(_) => if p.WithPolicy? { EndKeepsInv(w, id, false); }
    case Crash(_) => EndKeepsInv(w, id, w.lock);
    case _ =>
  }

  lemma NextKeepsInv(w: World, e: Event)
    requires Inv(w)
    ensures Inv(Next(w, e))
  {
    match e
    case RemoveLock =>
    case Begin(id, policy, keys, quorum) => if id !in w.processes { BeginKeepsInv(w, id, policy, keys, quorum); }
    case _ => if e.id in w.processes { StepKeepsInv(w, e.id, w.processes[e.id], e); }
  }

  lemma {:induction false} RunKeepsInv(events: seq<Event>)
    ensures Inv(Run(events))
  {
    if events != [] {
      RunKeepsInv(events[..|events| - 1]);
      NextKeepsInv(Run(events[..|events| - 1]), events[|events| - 1]);
    }
  }

  // ---- starts proceed ----

  /** The world after one start with a policy ran from beginning to end. */
  ghost function Enrolled(w: World, id: nat, p: RevocationPolicy, keys: Authorities, quorum: nat, outcome: WriteOutcome): World {
    Next(Next(Next(Next(w, Begin(id, Some(p), keys, quorum)), Read(id)), Write(id, outcome)), Unlock(id))
  }

  /** An undisturbed start with a policy, while the lock is free, leaves the lock free and does what
      `LoadAndCommit` does: an admissible policy whose write reaches the disk replaces the record,
      and if the write succeeded the start does too, with exactly the policy's identities. */
  lemma EnrolledStartProceeds(w: World, id: nat, p: RevocationPolicy, keys: Authorities, quorum: nat, outcome: WriteOutcome)
    requires id !in w.processes && !w.lock
    ensures
      var done := Enrolled(w, id, p, keys, quorum, outcome);
      && done.processes == w.processes && !done.lock
      && if Admissible(w.journal, p, keys, quorum) && !outcome.FailedOld? then
           && done.journal == Some(Record(p)) && done.commits == w.commits + [Commit(p, keys, quorum)]
           && done.successes == w.successes +
              if outcome.Written? then [Success(|w.commits|, |w.commits| + 1, true, Elements(p.revoked))] else []
         else done.journal == w.journal && done.commits == w.commits && done.successes == w.successes
  {
    var locked := Next(w, Begin(id, Some(p), keys, quorum));
    var read := Next(locked, Read(id));
    ReadAfterBegin(w, id, p, keys, quorum);
    WriteProceeds(read, id, read.processes[id], outcome);
    assert Next(Next(read, Write(id, outcome)), Unlock(id)).processes == w.processes;
  }

  lemma ReadAfterBegin(w: World, id: nat, p: RevocationPolicy, keys: Authorities, quorum: nat)
    requires id !in w.processes && !w.lock
    ensures
      var process := WithPolicy(|w.commits|, p, keys, quorum, Checked(w.journal));
      Next(Next(w, Begin(id, Some(p), keys, quorum)), Read(id)) == w.(lock := true, processes := w.processes[id := process])
  {
    var locked := Next(w, Begin(id, Some(p), keys, quorum));
    assert locked.processes[id] == WithPolicy(|w.commits|, p, keys, quorum, Locked);
  }

  /** A checked start that writes and returns. */
  lemma WriteProceeds(w: World, id: nat, p: Process, outcome: WriteOutcome)
    requires id in w.processes && w.processes[id] == p && p.WithPolicy? && p.stage.Checked?
    ensures
      var done := Next(Next(w, Write(id, outcome)), Unlock(id));
      && done.processes == w.processes - {id} && !done.lock
      && if Admissible(p.stage.previous, p.policy, p.keys, p.quorum) && !outcome.FailedOld? then
           && done.journal == Some(Record(p.policy)) && done.commits == w.commits + [Commit(p.policy, p.keys, p.quorum)]
           && done.successes == w.successes +
              if outcome.Written? then [Success(p.begin, |w.commits| + 1, true, Elements(p.policy.revoked))] else []
         else done.journal == w.journal && done.commits == w.commits && done.successes == w.successes
  {
    var written := Next(w, Write(id, outcome));
    assert id in written.processes && written.processes[id].WithPolicy?;
  }

  /** A start without a policy succeeds, with nothing retired, exactly when there is no record and no
      start with a policy holds the lock. */
  lemma BareStartProceeds(w: World, id: nat, keys: Authorities, quorum: nat)
    requires id !in w.processes
    ensures
      var done := Next(Next(Next(w, Begin(id, None, keys, quorum)), Read(id)), Decide(id));
      && done.processes == w.processes && done.journal == w.journal && done.lock == w.lock && done.commits == w.commits
      && done.successes == w.successes +
         if w.journal.None? && !w.lock then [Success(|w.commits|, |w.commits|, false, {})] else []
  {
    var begun := Next(w, Begin(id, None, keys, quorum));
    var read := Next(begun, Read(id));
    assert begun.processes[id] == Bare(|w.commits|) && read.processes[id] == BareRead(|w.commits|, w.journal);
    assert read.processes - {id} == w.processes;
  }

  /** A start that is killed leaves its lock behind, which stops every start with a policy until an
      operator removes it while no start runs. */
  lemma StaleLockBlocks(w: World, id: nat, other: nat, p: RevocationPolicy, keys: Authorities, quorum: nat)
    requires Inv(w) && id in w.processes && w.processes[id].WithPolicy? && w.processes.Keys == {id}
    ensures
      var killed := Next(w, Crash(id));
      && killed.processes == map[] && killed.lock && killed.journal == w.journal
      && Next(killed, Begin(other, Some(p), keys, quorum)) == killed
      && Next(killed, RemoveLock) == killed.(lock := false) && Next(w, RemoveLock) == w
  {
    assert ProcessOk(w, w.processes[id]);
    var killed := Next(w, Crash(id));
    assert killed.processes.Keys == {};
  }

  /** A start reads the record once and writes once. */
  lemma StartWritesOnce(w: World, id: nat, outcome: WriteOutcome)
    requires id in w.processes && w.processes[id].WithPolicy? && !w.processes[id].stage.Locked?
    ensures Next(w, Read(id)) == w
    ensures w.processes[id].stage.Finished? ==> Next(w, Write(id, outcome)) == w
  {
  }

  // ---- what every run guarantees ----

  /** Retirement is cumulative: over any interleaving of starts, crashes and failed writes,
      committed generations never decrease, equal generations carry equal digests and no
      identity is ever dropped; each record has the approval of more than two thirds of the
      keys of an exact, distinct authority set, and is one that the next start can read back. */
  lemma CommitsCumulative(events: seq<Event>, i: nat, j: nat)
    requires i <= j < |Run(events).commits|
    ensures
      var a, b := Run(events).commits[i], Run(events).commits[j];
      && a.policy.generation <= b.policy.generation
      && (a.policy.generation == b.policy.generation ==> PolicyDigest(a.policy) == PolicyDigest(b.policy))
      && Elements(a.policy.revoked) <= Elements(b.policy.revoked)
      && WellRecorded(Record(a.policy))
      && var signers := Signers(PolicyDigest(a.policy), a.keys, a.policy.signatures, |a.policy.signatures|);
      signers <= a.keys.Values && |a.keys.Values| == |a.keys| && 3 * |signers| > 2 * |a.keys|
  {
    RunKeepsInv(events);
    var w := Run(events);
    var a := w.commits[i];
    assert Approved(a.policy, a.keys, a.quorum);
    DistinctValues(a.keys);
    if i < j {
      assert Succeeds(Record(w.commits[j].policy), Record(a.policy));
    }
  }

  /** Equal committed generations retire the same identities. */
  lemma OneSetPerGeneration(events: seq<Event>, i: nat, j: nat)
    requires i < |Run(events).commits| && j < |Run(events).commits|
    requires Run(events).commits[i].policy.generation == Run(events).commits[j].policy.generation
    ensures
      var a, b := Run(events).commits[i].policy, Run(events).commits[j].policy;
      SameTerms(a, b) && Elements(a.revoked) == Elements(b.revoked)
  {
    var a, b := Run(events).commits[i].policy, Run(events).commits[j].policy;
    CommitsCumulative(events, if i <= j then i else j, if i <= j then j else i);
    PolicyDigestMeaning(a, b);
    forall p ensures p in Elements(a.revoked) <==> p in Elements(b.revoked) {
      assert p in multiset(a.revoked) <==> p in multiset(b.revoked);
    }
  }

  /** Every start that succeeds after enrolment carries a policy, and returns the set of the
      record it committed, a superset of every set committed before. */
  lemma StartsCumulative(events: seq<Event>)
    ensures SuccessesOk(Run(events).successes, Run(events).commits)
  {
    RunKeepsInv(events);
  }
}
