/** The tracker's rendezvous directory (src/mesh/tracker.rs): relays wait under a node name
    and a capability token, clients claim them, and every relay task cleans up after itself. */
module Tracker {
  import opened Prelude
  import opened Sorting
  import opened Directory

  const MAX_WAITING: nat := 128
  const MAX_PER_NODE: nat := 3
  const MAX_CONTROL: nat := 32 * 1024
  const NODE_LENGTH: nat := 64

  /** A waiting relay: the random id its cleanup looks for, and the waiting task. Ids are
      drawn at random and two may coincide. */
  datatype Slot = Slot(id: nat, task: nat)

  datatype Entry<T> = Entry(token: T, waiting: seq<Slot>)

  datatype Outcome = Registered | Unauthorized | Busy

  // ---- the three critical sections ----

  function EntryFor<N, T>(dir: map<N, Entry<T>>, node: N, token: T): Entry<T> {
    if node in dir then dir[node] else Entry(token, [])
  }

  function Register<N, T(==)>(dir: map<N, Entry<T>>, node: N, token: T, slot: Slot): (map<N, Entry<T>>, Outcome) {
    var entry := EntryFor(dir, node, token);
    if entry.token != token then (dir, Unauthorized)
    else if |entry.waiting| >= MAX_PER_NODE then (dir, Busy)
    else (dir[node := Entry(token, entry.waiting + [slot])], Registered)
  }

  predicate Claimable<N, T(==)>(dir: map<N, Entry<T>>, node: N, token: T) {
    node in dir && dir[node].token == token && dir[node].waiting != []
  }

  function Claimed<N, T>(dir: map<N, Entry<T>>, node: N): (map<N, Entry<T>>, Slot)
    requires node in dir && dir[node].waiting != []
  {
    var waiting := dir[node].waiting;
    var last := |waiting| - 1;
    (dir[node := Entry(dir[node].token, waiting[..last])], waiting[last])
  }

  function Others(id: nat, waiting: seq<Slot>): seq<Slot> {
    Filter((slot: Slot) => slot.id != id, waiting)
  }

  function Cleaned<N, T>(dir: map<N, Entry<T>>, node: N, id: nat): map<N, Entry<T>> {
    if node !in dir then dir
    else
      var left := Others(id, dir[node].waiting);
      if left == [] then dir - {node} else dir[node := Entry(dir[node].token, left)]
  }

  // ---- tasks, clients and every interleaving of their steps ----

  datatype Registration<N, T> = Registration(node: N, token: T, id: nat)

  /** A registered task waits; a client may have asked it for its relay; once it has left the
      wait it only has its cleanup to do. */
  datatype Phase = Waiting | Asked(client: nat) | Leaving

  /** What a client presented, and whose request channel took its request. */
  datatype Request<N, T> = Request(node: N, token: T, target: Option<nat>)

  datatype Handoff = Handoff(task: nat, client: nat)

  /** `tasks` and `requests` remember every task and client; `live` holds those tasks that have
      not cleaned up, `listening` the clients that have not given up, and `handoffs` the
      relays that changed hands, in order. */
  datatype State<N, T> = State(
    dir: map<N, Entry<T>>,
    tasks: map<nat, Registration<N, T>>,
    live: map<nat, Phase>,
    requests: map<nat, Request<N, T>>,
    listening: set<nat>,
    handoffs: seq<Handoff>)

  /** `permit` says whether the waiting semaphore, which refused registrations also hold for a
      moment, still had a permit. */
  datatype Event<N, T> =
    | RegisterReverse(task: nat, node: N, token: T, id: nat, permit: bool)
    | ConnectReverse(client: nat, node: N, token: T)
    | StopWaiting(task: nat)
    | HandOver(task: nat)
    | GiveUp(client: nat)
    | CleanUp(task: nat)

  function AfterRegister<N, T(==)>(s: State<N, T>, task: nat, r: Registration<N, T>): State<N, T> {
    var (dir, outcome) := Register(s.dir, r.node, r.token, Slot(r.id, task));
    if outcome.Registered? then s.(dir := dir, tasks := s.tasks[task := r], live := s.live[task := Waiting]) else s
  }

  function AfterConnect<N, T(==)>(s: State<N, T>, client: nat, node: N, token: T): State<N, T> {
    if !Claimable(s.dir, node, token) then s.(requests := s.requests[client := Request(node, token, None)])
    else
      var (dir, slot) := Claimed(s.dir, node);
      if slot.task in s.live && s.live[slot.task].Waiting?
      then s.(dir := dir,
              live := s.live[slot.task := Asked(client)],
              requests := s.requests[client := Request(node, token, Some(slot.task))],
              listening := s.listening + {client})
      else s.(dir := dir, requests := s.requests[client := Request(node, token, None)])
  }

  function AfterHandOver<N, T>(s: State<N, T>, task: nat): State<N, T>
    requires task in s.live && s.live[task].Asked?
  {
    var client := s.live[task].client;
    s.(live := s.live[task := Leaving],
    listening := s.listening - {client},
    handoffs := if client in s.listening then s.handoffs + [Handoff(task, client)] else s.handoffs)
  }

  function AfterCleanUp<N, T>(s: State<N, T>, task: nat): State<N, T>
    requires task in s.tasks
  {
    s.(dir := Cleaned(s.dir, s.tasks[task].node, s.tasks[task].id), live := s.live - {task})
  }

  /** One step; an event that cannot happen now changes nothing. */
  function Next<N, T(==)>(s: State<N, T>, e: Event<N, T>): State<N, T> {
    match e
    case RegisterReverse(task, node, token, id, permit) =>
      if task in s.tasks || !permit || |s.live| >= MAX_WAITING then s
      else AfterRegister(s, task, Registration(node, token, id))
    case ConnectReverse(client, node, token) =>
      if client in s.requests then s else AfterConnect(s, client, node, token)
    case StopWaiting(task) =>
      if task in s.live && !s.live[task].Leaving? then s.(live := s.live[task := Leaving]) else s
    case HandOver(task) =>
      if task in s.live && s.live[task].Asked? then AfterHandOver(s, task) else s
    case GiveUp(client) => s.(listening := s.listening - {client})
    case CleanUp(task) =>
      if task in s.live && task in s.tasks && s.live[task].Leaving? then AfterCleanUp(s, task) else s
  }

  function Run<N, T(==)>(events: seq<Event<N, T>>): State<N, T> {
    if events == [] then State(map[], map[], map[], map[], {}, [])
    else Next(Run(events[..|events| - 1]), events[|events| - 1])
  }

  // ---- the invariant ----

  /** The slot belongs to a live task that registered here, with this token and id, and that
      no client has asked yet. */
  predicate SlotOk<N(==), T(==)>(s: State<N, T>, node: N, token: T, slot: Slot) {
    && slot.task in s.tasks && s.tasks[slot.task] == Registration(node, token, slot.id)
    && slot.task in s.live && !s.live[slot.task].Asked?
  }

  ghost predicate SlotsOk<N, T>(s: State<N, T>, node: N, entry: Entry<T>) {
    forall i :: 0 <= i < |entry.waiting| ==> SlotOk(s, node, entry.token, entry.waiting[i])
  }

  ghost predicate DistinctTasks(waiting: seq<Slot>) {
    forall i, j :: 0 <= i < j < |waiting| ==> waiting[i].task != waiting[j].task
  }

  /** Some task of this node has yet to clean up. */
  ghost predicate Attended<N, T>(s: State<N, T>, node: N) {
    exists t :: AttendedBy(s, node, t)
  }

  ghost predicate AttendedBy<N, T>(s: State<N, T>, node: N, t: nat) {
    t in s.live && t in s.tasks && s.tasks[t].node == node
  }

  ghost predicate EntryOk<N, T>(s: State<N, T>, node: N, entry: Entry<T>) {
    && |entry.waiting| <= MAX_PER_NODE && DistinctTasks(entry.waiting)
    && SlotsOk(s, node, entry) && Attended(s, node)
  }

  ghost predicate DirOk<N(!new), T(!new)>(s: State<N, T>) {
    forall node :: node in s.dir ==> EntryOk(s, node, s.dir[node])
  }

  /** The client presented the node and token registered by this task, and its request went
      to that task. */
  predicate Sent<N(==), T(==)>(s: State<N, T>, client: nat, task: nat) {
    && task in s.tasks && client in s.requests
    && s.requests[client] == Request(s.tasks[task].node, s.tasks[task].token, Some(task))
  }

  ghost predicate LiveOk<N, T>(s: State<N, T>) {
    forall t :: t in s.live ==> t in s.tasks && (s.live[t].Asked? ==> Sent(s, s.live[t].client, t))
  }

  ghost predicate HandoffsOk<N, T>(s: State<N, T>) {
    forall i :: 0 <= i < |s.handoffs| ==>
      && Sent(s, s.handoffs[i].client, s.handoffs[i].task)
      && (s.handoffs[i].task in s.live ==> s.live[s.handoffs[i].task].Leaving?)
  }

  ghost predicate HandedOnce(handoffs: seq<Handoff>) {
    forall i, j :: 0 <= i < j < |handoffs| ==> handoffs[i].task != handoffs[j].task
  }

  ghost predicate Inv<N(!new), T(!new)>(s: State<N, T>) {
    DirOk(s) && LiveOk(s) && HandoffsOk(s) && HandedOnce(s.handoffs) && |s.live| <= MAX_WAITING
  }

  // ---- every step keeps it ----

  ghost predicate TasksKept<N(!new), T(!new)>(s: State<N, T>, s': State<N, T>) {
    forall t :: t in s.tasks ==> t in s'.tasks && s'.tasks[t] == s.tasks[t]
  }

  /** No live task of the node has ended. */
  ghost predicate StillLive<N, T>(s: State<N, T>, s': State<N, T>, node: N) {
    forall t :: t in s.live && t in s.tasks && s.tasks[t].node == node ==> t in s'.live
  }

  ghost predicate NoneAsked(live: map<nat, Phase>, waiting: seq<Slot>) {
    forall i :: 0 <= i < |waiting| && waiting[i].task in live ==> !live[waiting[i].task].Asked?
  }

  /** An entry stays good when no task is forgotten, none of its tasks ends, and none of the
      tasks that wait in it is asked. */
  lemma EntryFrame<N(!new), T(!new)>(s: State<N, T>, s': State<N, T>, node: N, entry: Entry<T>)
    requires EntryOk(s, node, entry) && TasksKept(s, s') && StillLive(s, s', node) && NoneAsked(s'.live, entry.waiting)
    ensures EntryOk(s', node, entry)
  {
    var t :| AttendedBy(s, node, t);
    assert AttendedBy(s', node, t);
    forall i | 0 <= i < |entry.waiting| ensures SlotOk(s', node, entry.token, entry.waiting[i]) {
      assert SlotOk(s, node, entry.token, entry.waiting[i]);
    }
  }

  lemma WaitersNotAsked<N, T>(s: State<N, T>, node: N, entry: Entry<T>)
    requires SlotsOk(s, node, entry)
    ensures NoneAsked(s.live, entry.waiting)
  {
  }

  function WithTask<N, T>(s: State<N, T>, task: nat, r: Registration<N, T>): State<N, T> {
    s.(tasks := s.tasks[task := r], live := s.live[task := Waiting])
  }

  lemma OldEntryOk<N(!new), T(!new)>(s: State<N, T>, task: nat, r: Registration<N, T>, node: N, entry: Entry<T>)
    requires EntryOk(s, node, entry) && task !in s.tasks
    ensures EntryOk(WithTask(s, task, r), node, entry)
  {
    WaitersNotAsked(s, node, entry);
    EntryFrame(s, WithTask(s, task, r), node, entry);
  }

  /** The entry with its new waiter. */
  lemma NewEntryOk<N(!new), T(!new)>(s: State<N, T>, task: nat, r: Registration<N, T>, entry: Entry<T>)
    requires task !in s.tasks && entry.token == r.token && |entry.waiting| < MAX_PER_NODE
    requires entry.waiting == [] || EntryOk(s, r.node, entry)
    ensures EntryOk(WithTask(s, task, r), r.node, Entry(r.token, entry.waiting + [Slot(r.id, task)]))
  {
    var s' := WithTask(s, task, r);
    assert AttendedBy(s', r.node, task);
    assert SlotOk(s', r.node, r.token, Slot(r.id, task));
    if entry.waiting != [] {
      forall i | 0 <= i < |entry.waiting| ensures entry.waiting[i].task != task {
        assert SlotOk(s, r.node, entry.token, entry.waiting[i]);
      }
      OldEntryOk(s, task, r, r.node, entry);
    }
  }

  lemma RegisterKeepsDir<N(!new), T(!new)>(s: State<N, T>, task: nat, r: Registration<N, T>)
    requires DirOk(s) && task !in s.tasks && Register(s.dir, r.node, r.token, Slot(r.id, task)).1.Registered?
    ensures DirOk(AfterRegister(s, task, r))
  {
    var s' := AfterRegister(s, task, r);
    forall node | node in s'.dir ensures EntryOk(s', node, s'.dir[node]) {
      if node == r.node {
        NewEntryOk(s, task, r, EntryFor(s.dir, node, r.token));
        SameTasks(WithTask(s, task, r), s', node, s'.dir[node]);
      } else {
        OldEntryOk(s, task, r, node, s.dir[node]);
        SameTasks(WithTask(s, task, r), s', node, s'.dir[node]);
      }
    }
  }

  lemma SameTasks<N(!new), T(!new)>(s: State<N, T>, s': State<N, T>, node: N, entry: Entry<T>)
    requires EntryOk(s, node, entry) && s.tasks == s'.tasks && s.live == s'.live
    ensures EntryOk(s', node, entry)
  {
    WaitersNotAsked(s, node, entry);
    EntryFrame(s, s', node, entry);
  }

  lemma RegisterKeepsInv<N(!new), T(!new)>(s: State<N, T>, task: nat, r: Registration<N, T>)
    requires Inv(s) && task !in s.tasks && |s.live| < MAX_WAITING
    ensures Inv(AfterRegister(s, task, r))
  {
    if Register(s.dir, r.node, r.token, Slot(r.id, task)).1.Registered? {
      RegisterKeepsDir(s, task, r);
      assert s.live[task := Waiting].Keys == s.live.Keys + {task};
    }
  }

  /** A slot of another entry, or another slot of the same one, is another task. */
  lemma SlotElsewhere<N(!new), T(!new)>(s: State<N, T>, node: N, i: nat, node': N, j: nat)
    requires DirOk(s) && node in s.dir && node' in s.dir
    requires i < |s.dir[node].waiting| && j < |s.dir[node'].waiting| && (node != node' || i != j)
    ensures s.dir[node].waiting[i].task != s.dir[node'].waiting[j].task
  {
  }

  lemma ClaimKeepsDir<N(!new), T(!new)>(s: State<N, T>, client: nat, node: N, token: T)
    requires Inv(s) && client !in s.requests && Claimable(s.dir, node, token)
    ensures DirOk(AfterConnect(s, client, node, token))
  {
    var s' := AfterConnect(s, client, node, token);
    var last := |s.dir[node].waiting| - 1;
    forall m | m in s'.dir ensures EntryOk(s', m, s'.dir[m]) {
      assert EntryOk(s, m, s.dir[m]);
      forall j | 0 <= j < |s'.dir[m].waiting| ensures s'.dir[m].waiting[j].task != s.dir[node].waiting[last].task {
        SlotElsewhere(s, node, last, m, j);
      }
      assert EntryOk(s, m, s'.dir[m]) by { ShorterOk(s, m, s.dir[m], |s'.dir[m].waiting|); }
      WaitersNotAsked(s, m, s'.dir[m]);
      EntryFrame(s, s', m, s'.dir[m]);
    }
  }

  lemma ShorterOk<N, T>(s: State<N, T>, node: N, entry: Entry<T>, n: nat)
    requires EntryOk(s, node, entry) && n <= |entry.waiting|
    ensures EntryOk(s, node, Entry(entry.token, entry.waiting[..n]))
    ensures n == |entry.waiting| ==> entry == Entry(entry.token, entry.waiting[..n])
  {
  }

  lemma ConnectKeepsInv<N(!new), T(!new)>(s: State<N, T>, client: nat, node: N, token: T)
    requires Inv(s) && client !in s.requests
    ensures Inv(AfterConnect(s, client, node, token))
  {
    var s' := AfterConnect(s, client, node, token);
    if Claimable(s.dir, node, token) {
      ClaimKeepsDir(s, client, node, token);
      var slot := Claimed(s.dir, node).1;
      assert EntryOk(s, node, s.dir[node]);
      assert SlotOk(s, node, token, slot);
      assert s'.live.Keys == s.live.Keys;
    } else {
      forall m | m in s'.dir ensures EntryOk(s', m, s'.dir[m]) {
        SameTasks(s, s', m, s.dir[m]);
      }
    }
  }

  lemma LeaveKeepsInv<N(!new), T(!new)>(s: State<N, T>, task: nat, s': State<N, T>)
    requires Inv(s) && task in s.live
    requires s'.dir == s.dir && s'.tasks == s.tasks && s'.requests == s.requests && s'.live == s.live[task := Leaving]
    requires s'.handoffs == s.handoffs || (s.live[task].Asked? && s'.handoffs == s.handoffs + [Handoff(task, s.live[task].client)])
    ensures Inv(s')
  {
    assert s'.live.Keys == s.live.Keys;
    forall m | m in s'.dir ensures EntryOk(s', m, s'.dir[m]) {
      WaitersNotAsked(s, m, s.dir[m]);
      EntryFrame(s, s', m, s.dir[m]);
    }
  }

  lemma CleanedEntryOk<N(!new), T(!new)>(s: State<N, T>, task: nat)
    requires Inv(s) && task in s.live && task in s.tasks && s.tasks[task].node in AfterCleanUp(s, task).dir
    ensures var node := s.tasks[task].node; EntryOk(AfterCleanUp(s, task), node, AfterCleanUp(s, task).dir[node])
  {
    var s' := AfterCleanUp(s, task);
    var Registration(node, _, id) := s.tasks[task];
    var entry, left := s.dir[node], s'.dir[node].waiting;
    assert EntryOk(s, node, entry);
    assert DistinctTasks(left) by {
      FilterPairwise((slot: Slot) => slot.id != id, (a: Slot, b: Slot) => a.task != b.task, entry.waiting);
    }
    forall i | 0 <= i < |left| ensures SlotOk(s', node, entry.token, left[i]) {
      assert left[i] in entry.waiting;
      var k :| 0 <= k < |entry.waiting| && entry.waiting[k] == left[i];
      assert SlotOk(s, node, entry.token, entry.waiting[k]);
    }
    assert SlotOk(s', node, entry.token, left[0]);
    assert AttendedBy(s', node, left[0].task);
  }

  lemma CleanUpKeepsInv<N(!new), T(!new)>(s: State<N, T>, task: nat)
    requires Inv(s) && task in s.live && task in s.tasks
    ensures Inv(AfterCleanUp(s, task))
  {
    var s' := AfterCleanUp(s, task);
    var node := s.tasks[task].node;
    forall m | m in s'.dir ensures EntryOk(s', m, s'.dir[m]) {
      if m == node {
        CleanedEntryOk(s, task);
      } else {
        WaitersNotAsked(s, m, s.dir[m]);
        EntryFrame(s, s', m, s.dir[m]);
      }
    }
    SubsetSize(s'.live.Keys, s.live.Keys);
  }

  lemma NextKeepsInv<N(!new), T(!new)>(s: State<N, T>, e: Event<N, T>)
    requires Inv(s)
    ensures Inv(Next(s, e))
  {
    if Next(s, e) != s {
      match e
      case RegisterReverse(task, node, token, id, _) => RegisterKeepsInv(s, task, Registration(node, token, id));
      case ConnectReverse(client, node, token) => ConnectKeepsInv(s, client, node, token);
      case StopWaiting(task) => LeaveKeepsInv(s, task, Next(s, e));
      case HandOver(task) => LeaveKeepsInv(s, task, Next(s, e));
      case GiveUp(_) => SameInv(s, Next(s, e));
      case CleanUp(task) => CleanUpKeepsInv(s, task);
    }
  }

  lemma SameInv<N(!new), T(!new)>(s: State<N, T>, s': State<N, T>)
    requires Inv(s) && s' == s.(listening := s'.listening)
    ensures Inv(s')
  {
    forall m | m in s'.dir ensures EntryOk(s', m, s'.dir[m]) {
      SameTasks(s, s', m, s.dir[m]);
    }
  }

  lemma {:induction false} RunKeepsInv<N(!new), T(!new)>(events: seq<Event<N, T>>)
    ensures Inv(Run(events))
  {
    if events != [] {
      RunKeepsInv(events[..|events| - 1]);
      NextKeepsInv(Run(events[..|events| - 1]), events[|events| - 1]);
    }
  }

  // ---- what every interleaving guarantees ----

  /** Each relay goes to at most one client and each client gets at most one relay, and only
      for the node and token that the relay registered. */
  lemma HandoffsSafe<N(!new), T(!new)>(events: seq<Event<N, T>>)
    ensures
      var s := Run(events);
      && (forall i :: 0 <= i < |s.handoffs| ==>
            && s.handoffs[i].task in s.tasks && s.handoffs[i].client in s.requests
            && s.requests[s.handoffs[i].client].node == s.tasks[s.handoffs[i].task].node
            && s.requests[s.handoffs[i].client].token == s.tasks[s.handoffs[i].task].token)
      && (forall i, j :: 0 <= i < j < |s.handoffs| ==>
            s.handoffs[i].task != s.handoffs[j].task && s.handoffs[i].client != s.handoffs[j].client)
  {
    RunKeepsInv(events);
    var s := Run(events);
    forall i, j | 0 <= i < j < |s.handoffs| ensures s.handoffs[i].client != s.handoffs[j].client {
      assert Sent(s, s.handoffs[i].client, s.handoffs[i].task) && Sent(s, s.handoffs[j].client, s.handoffs[j].task);
    }
  }

  ghost function WaitingTasks<N, T>(dir: map<N, Entry<T>>): set<nat> {
    set node, i | node in dir && 0 <= i < |dir[node].waiting| :: dir[node].waiting[i].task
  }

  /** A set whose members are each the node of some live task is no larger than the set of live tasks. */
  lemma {:induction false} NodesCounted<N, T>(s: State<N, T>, nodes: set<N>, live: set<nat>)
    requires forall t :: t in live ==> t in s.tasks
    requires forall node :: node in nodes ==> exists t :: t in live && t in s.tasks && s.tasks[t].node == node
    ensures |nodes| <= |live|
    decreases |live|
  {
    if nodes != {} {
      var node :| node in nodes;
      var t :| t in live && t in s.tasks && s.tasks[t].node == node;
      NodesCounted(s, nodes - {node}, live - {t});
      assert |nodes| == |nodes - {node}| + 1;
    }
  }

  /** The directory stays bounded: three waiters to a node, 128 in all, no more entries than
      tasks still to clean up; and an entry that has run out of waiters has such a task. */
  lemma DirectoryBounded<N(!new), T(!new)>(events: seq<Event<N, T>>)
    ensures
      var s := Run(events);
      && (forall node :: node in s.dir ==> |s.dir[node].waiting| <= MAX_PER_NODE && Attended(s, node))
      && |WaitingTasks(s.dir)| <= MAX_WAITING
      && |s.dir| <= |s.live| <= MAX_WAITING
  {
    RunKeepsInv(events);
    var s := Run(events);
    forall node | node in s.dir
      ensures Attended(s, node) && exists t :: t in s.live.Keys && t in s.tasks && s.tasks[t].node == node
    {
      assert EntryOk(s, node, s.dir[node]);
      var t :| AttendedBy(s, node, t);
      assert t in s.live.Keys && t in s.tasks && s.tasks[t].node == node;
    }
    NodesCounted(s, s.dir.Keys, s.live.Keys);
    assert WaitingTasks(s.dir) <= s.live.Keys by {
      forall node, i | node in s.dir && 0 <= i < |s.dir[node].waiting| ensures s.dir[node].waiting[i].task in s.live {
        assert EntryOk(s, node, s.dir[node]);
        assert SlotOk(s, node, s.dir[node].token, s.dir[node].waiting[i]);
      }
    }
    SubsetSize(WaitingTasks(s.dir), s.live.Keys);
  }

  /** Two waiters are always two tasks, so the bound above counts waiters. */
  lemma WaitersDistinct<N(!new), T(!new)>(events: seq<Event<N, T>>, node: N, i: nat, node': N, j: nat)
    requires node in Run(events).dir && i < |Run(events).dir[node].waiting|
    requires node' in Run(events).dir && j < |Run(events).dir[node'].waiting|
    requires node != node' || i != j
    ensures Run(events).dir[node].waiting[i].task != Run(events).dir[node'].waiting[j].task
  {
    RunKeepsInv(events);
    SlotElsewhere(Run(events), node, i, node', j);
  }

  // ---- waiters are served ----

  /** A relay is registered exactly when its node is new or has the same token, and fewer than
      three wait; it then waits last, and nothing else changes. */
  lemma RegisterExactly<N(!new), T(!new)>(dir: map<N, Entry<T>>, node: N, token: T, slot: Slot)
    ensures
      var (next, outcome) := Register(dir, node, token, slot);
      var before := if node in dir then dir[node].waiting else [];
      && (outcome.Unauthorized? <==> node in dir && dir[node].token != token)
      && (outcome.Registered? <==> (node in dir ==> dir[node].token == token) && |before| < 3)
      && (outcome.Registered? ==> next == dir[node := Entry(token, before + [slot])])
      && (!outcome.Registered? ==> next == dir)
  {
  }

  /** A new task with a permit, an authorised token and a free place waits in the directory. */
  lemma AuthorisedWaits<N(!new), T(!new)>(s: State<N, T>, task: nat, node: N, token: T, id: nat)
    requires task !in s.tasks && |s.live| < 128
    requires node in s.dir ==> s.dir[node].token == token && |s.dir[node].waiting| < 3
    ensures
      var next := Next(s, RegisterReverse(task, node, token, id, true));
      && task in next.live && next.live[task].Waiting? && next.tasks == s.tasks[task := Registration(node, token, id)]
      && node in next.dir && next.dir[node].token == token && Slot(id, task) in next.dir[node].waiting
  {
    RegisterExactly(s.dir, node, token, Slot(id, task));
    var before := if node in s.dir then s.dir[node].waiting else [];
    assert (before + [Slot(id, task)])[|before|] == Slot(id, task);
  }

  predicate Waits<N(==), T>(dir: map<N, Entry<T>>, node: N, slot: Slot) {
    node in dir && slot in dir[node].waiting
  }

  /** A cleanup removes the waiters of its node with its id, and no other; it removes the entry
      exactly when none is left. */
  lemma CleanedExactly<N(!new), T(!new)>(dir: map<N, Entry<T>>, node: N, id: nat, n: N, slot: Slot)
    ensures Waits(Cleaned(dir, node, id), n, slot) <==> Waits(dir, n, slot) && (n == node ==> slot.id != id)
    ensures n in Cleaned(dir, node, id) ==> n in dir && Cleaned(dir, node, id)[n].token == dir[n].token
    ensures n in dir && n !in Cleaned(dir, node, id) ==> n == node && forall w :: w in dir[n].waiting ==> w.id == id
  {
    if node in dir {
      var left := Others(id, dir[node].waiting);
      assert left != [] ==> left[0] in left;
    }
  }

  /** The waiter that this client takes, if any. */
  function TakenBy<N, T(==)>(s: State<N, T>, e: Event<N, T>): Option<Slot> {
    if e.ConnectReverse? && e.client !in s.requests && Claimable(s.dir, e.node, e.token)
    then Some(Claimed(s.dir, e.node).1) else None
  }

  /** A waiter stays until a client with its token takes it, or a task of its node with its id
      cleans up. */
  lemma WaiterStays<N(!new), T(!new)>(s: State<N, T>, e: Event<N, T>, node: N, slot: Slot)
    requires Waits(s.dir, node, slot) && TakenBy(s, e) != Some(slot)
    requires e.CleanUp? && e.task in s.tasks && e.task in s.live && s.live[e.task].Leaving? ==>
      s.tasks[e.task].node != node || s.tasks[e.task].id != slot.id
    ensures Waits(Next(s, e).dir, node, slot)
  {
    var i :| 0 <= i < |s.dir[node].waiting| && s.dir[node].waiting[i] == slot;
    match e
    case RegisterReverse(task, n, token, id, _) =>
      RegisterExactly(s.dir, n, token, Slot(id, task));
      if n == node {
        assert (s.dir[node].waiting + [Slot(id, task)])[i] == slot;
      }
    case ConnectReverse(client, n, token) =>
      if n == node && client !in s.requests && Claimable(s.dir, n, token) {
        var waiting := s.dir[node].waiting;
        assert i < |waiting| - 1 && waiting[..|waiting| - 1][i] == slot;
      }
    case CleanUp(task) =>
      if task in s.tasks && task in s.live && s.live[task].Leaving? {
        CleanedExactly(s.dir, s.tasks[task].node, s.tasks[task].id, node, slot);
      }
    case _ =>
  }

  /** A client that presents a node's token while a relay waits there gets that relay: the last
      one to have registered is asked, and hands over to a client that is still listening. */
  lemma RendezvousCompletes<N(!new), T(!new)>(s: State<N, T>, client: nat, node: N, token: T)
    requires Inv(s) && client !in s.requests && node in s.dir && s.dir[node].token == token && s.dir[node].waiting != []
    requires s.live[s.dir[node].waiting[|s.dir[node].waiting| - 1].task].Waiting?
    ensures
      var task := s.dir[node].waiting[|s.dir[node].waiting| - 1].task;
      var asked := Next(s, ConnectReverse(client, node, token));
      && task in asked.live && asked.live[task] == Asked(client) && client in asked.listening
      && Next(asked, HandOver(task)).handoffs == s.handoffs + [Handoff(task, client)]
  {
    var last := |s.dir[node].waiting| - 1;
    assert EntryOk(s, node, s.dir[node]);
    assert SlotOk(s, node, token, s.dir[node].waiting[last]);
  }

  /** A client asks once: its request is on record afterwards, addressed to a task only if that
      task was waiting under this node and token, and asking again changes nothing. */
  lemma RequestsOnce<N(!new), T(!new)>(s: State<N, T>, client: nat, node: N, token: T)
    requires client !in s.requests
    ensures
      var asked := Next(s, ConnectReverse(client, node, token));
      && client in asked.requests && asked.requests[client].node == node && asked.requests[client].token == token
      && (asked.requests[client].target.Some? ==>
            Claimable(s.dir, node, token) && asked.requests[client].target.value == Claimed(s.dir, node).1.task)
      && forall n, t :: Next(asked, ConnectReverse(client, n, t)) == asked
  {
  }

  /** A task that stops waiting and cleans up is gone, and with it every slot under its id. */
  lemma TaskEnds<N(!new), T(!new)>(s: State<N, T>, task: nat)
    requires Inv(s) && task in s.live && !s.live[task].Leaving?
    ensures
      var done := Next(Next(s, StopWaiting(task)), CleanUp(task));
      && done.live == s.live - {task} && done.handoffs == s.handoffs
      && forall slot: Slot :: slot.id == s.tasks[task].id ==> !Waits(done.dir, s.tasks[task].node, slot)
  {
    var left := Next(s, StopWaiting(task));
    assert task in left.live && task in left.tasks && left.live[task].Leaving?;
    var done := Next(left, CleanUp(task));
    assert done.live == s.live - {task};
    forall slot: Slot | slot.id == s.tasks[task].id ensures !Waits(done.dir, s.tasks[task].node, slot) {
      CleanedExactly(left.dir, s.tasks[task].node, s.tasks[task].id, s.tasks[task].node, slot);
    }
  }

  ghost predicate Served(s: seq<Handoff>, client: nat) {
    exists i :: 0 <= i < |s| && s[i].client == client
  }

  /** The client made its request and no longer listens. */
  predicate Gone<N, T>(s: State<N, T>, client: nat) {
    client in s.requests && client !in s.listening
  }

  lemma GoneStays<N(!new), T(!new)>(s: State<N, T>, e: Event<N, T>, client: nat)
    requires Gone(s, client)
    ensures Gone(Next(s, e), client) && (Served(Next(s, e).handoffs, client) ==> Served(s.handoffs, client))
  {
    if Served(Next(s, e).handoffs, client) {
      var i :| 0 <= i < |Next(s, e).handoffs| && Next(s, e).handoffs[i].client == client;
      assert i < |s.handoffs| && s.handoffs[i].client == client;
    }
  }

  lemma GiveUpIsGone<N(!new), T(!new)>(s: State<N, T>, client: nat)
    requires client in s.requests
    ensures Gone(Next(s, GiveUp(client)), client) && Next(s, GiveUp(client)).handoffs == s.handoffs
  {
  }

  /** The directory that starts as `s` after the events. */
  function RunOn<N, T(==)>(s: State<N, T>, events: seq<Event<N, T>>): State<N, T> {
    if events == [] then s else Next(RunOn(s, events[..|events| - 1]), events[|events| - 1])
  }

  lemma {:induction false} RunOnAfter<N, T>(first: seq<Event<N, T>>, rest: seq<Event<N, T>>)
    ensures RunOn(Run(first), rest) == Run(first + rest)
  {
    if rest == [] {
      assert first + rest == first;
    } else {
      var n := |rest| - 1;
      RunOnAfter(first, rest[..n]);
      assert (first + rest)[..|first + rest| - 1] == first + rest[..n];
    }
  }

  /** A client that has given up before it was served never gets a relay, whatever happens. */
  lemma {:induction false} GivenUpGetsNothing<N(!new), T(!new)>(s: State<N, T>, client: nat, events: seq<Event<N, T>>)
    requires client in s.requests && !Served(s.handoffs, client)
    ensures
      var later := RunOn(Next(s, GiveUp(client)), events);
      Gone(later, client) && !Served(later.handoffs, client)
    decreases |events|
  {
    if events == [] {
      GiveUpIsGone(s, client);
    } else {
      var n := |events| - 1;
      GivenUpGetsNothing(s, client, events[..n]);
      GoneStays(RunOn(Next(s, GiveUp(client)), events[..n]), events[n], client);
    }
  }

  // ---- the listing ----

  predicate IsHex(c: byte) {
    '0' as int <= c <= '9' as int || 'a' as int <= c <= 'f' as int
  }

  predicate ValidNode(node: bytes) {
    |node| == NODE_LENGTH && forall i :: 0 <= i < |node| ==> IsHex(node[i])
  }

  /** A node name is 64 lower-case hexadecimal digits. */
  lemma ValidNodeExactly(node: bytes)
    ensures ValidNode(node) <==> |node| == 64 && forall i :: 0 <= i < |node| ==>
      var c := node[i] as char; '0' <= c <= '9' || c == 'a' || c == 'b' || c == 'c' || c == 'd' || c == 'e' || c == 'f'
  {
  }

  const EMPTY: bytes := [69, 77, 80, 84, 89]
  const NEWLINE: byte := 10

  function Join(nodes: seq<bytes>): bytes {
    if nodes == [] then []
    else if |nodes| == 1 then nodes[0]
    else nodes[0] + [NEWLINE] + Join(nodes[1..])
  }

  function Reply(nodes: seq<bytes>): bytes {
    if Join(nodes) == [] then EMPTY else Join(nodes)
  }

  lemma {:induction false} JoinLength(nodes: seq<bytes>)
    requires forall i :: 0 <= i < |nodes| ==> |nodes[i]| == NODE_LENGTH
    ensures |Join(nodes)| == if nodes == [] then 0 else (NODE_LENGTH + 1) * |nodes| - 1
  {
    if |nodes| > 1 {
      JoinLength(nodes[1..]);
    }
  }

  ghost predicate Commands(events: seq<Event<bytes, bytes>>) {
    forall i :: 0 <= i < |events| && events[i].RegisterReverse? ==> ValidNode(events[i].node)
  }

  ghost predicate TasksValid(s: State<bytes, bytes>) {
    forall t :: t in s.tasks ==> ValidNode(s.tasks[t].node)
  }

  lemma TasksGrow<N, T>(s: State<N, T>, e: Event<N, T>)
    ensures Next(s, e).tasks == s.tasks
            || (e.RegisterReverse? && Next(s, e).tasks == s.tasks[e.task := Registration(e.node, e.token, e.id)])
  {
  }

  lemma {:induction false} RunTasksValid(events: seq<Event<bytes, bytes>>)
    requires Commands(events)
    ensures TasksValid(Run(events))
  {
    if events != [] {
      var front := events[..|events| - 1];
      assert forall i :: 0 <= i < |front| ==> front[i] == events[i];
      RunTasksValid(front);
      TasksGrow(Run(front), events[|events| - 1]);
    }
  }

  /** `nodes` lists, once each, the nodes of `within` that have a waiter. */
  ghost predicate Lists<T>(dir: map<bytes, Entry<T>>, within: set<bytes>, nodes: seq<bytes>) {
    && (forall i, j :: 0 <= i < j < |nodes| ==> nodes[i] != nodes[j])
    && (forall node :: node in nodes <==> node in within && node in dir && dir[node].waiting != [])
  }

  /** The pieces of a text between its newlines. */
  function Split(text: bytes): (pieces: seq<bytes>)
    ensures pieces != []
  {
    if text == [] then [[]]
    else if text[0] == NEWLINE then [[]] + Split(text[1..])
    else
      var rest := Split(text[1..]);
      [[text[0]] + rest[0]] + rest[1..]
  }

  lemma {:induction false} SplitPiece(piece: bytes, rest: bytes)
    requires NEWLINE !in piece
    ensures Split(piece) == [piece] && Split(piece + [NEWLINE] + rest) == [piece] + Split(rest)
  {
    var text := piece + [NEWLINE] + rest;
    if piece == [] {
      assert text == [NEWLINE] + rest && text[1..] == rest;
    } else {
      SplitPiece(piece[1..], rest);
      assert text[1..] == piece[1..] + [NEWLINE] + rest && piece == [piece[0]] + piece[1..];
    }
  }

  /** Joining and splitting are inverse: the text names exactly the nodes that were joined. */
  lemma {:induction false} SplitJoin(nodes: seq<bytes>)
    requires nodes != [] && forall i :: 0 <= i < |nodes| ==> NEWLINE !in nodes[i]
    ensures Split(Join(nodes)) == nodes
  {
    if |nodes| > 1 {
      SplitJoin(nodes[1..]);
      SplitPiece(nodes[0], Join(nodes[1..]));
      assert nodes == [nodes[0]] + nodes[1..];
    } else {
      SplitPiece(nodes[0], []);
    }
  }

  /** In every reachable state the reply is "EMPTY" exactly when no node has a waiter, and
      otherwise lists, one to a line, exactly the nodes that have. */
  lemma ReplyMeaning(events: seq<Event<bytes, bytes>>, nodes: seq<bytes>)
    requires Commands(events) && Lists(Run(events).dir, Run(events).dir.Keys, nodes)
    ensures Reply(nodes) == [69, 77, 80, 84, 89] <==> nodes == []
    ensures nodes != [] ==> Split(Reply(nodes)) == nodes
  {
    ListedValid(events, nodes);
    JoinLength(nodes);
    if nodes != [] {
      forall i | 0 <= i < |nodes| ensures NEWLINE !in nodes[i] {
        assert ValidNode(nodes[i]);
      }
      SplitJoin(nodes);
    }
  }

  lemma ListedValid(events: seq<Event<bytes, bytes>>, nodes: seq<bytes>)
    requires Commands(events) && Lists(Run(events).dir, Run(events).dir.Keys, nodes)
    ensures forall i :: 0 <= i < |nodes| ==> ValidNode(nodes[i])
  {
    var s := Run(events);
    RunKeepsInv(events);
    RunTasksValid(events);
    forall i | 0 <= i < |nodes| ensures ValidNode(nodes[i]) {
      assert nodes[i] in nodes && EntryOk(s, nodes[i], s.dir[nodes[i]]);
      var t :| AttendedBy(s, nodes[i], t);
    }
  }

  /** In every reachable state the listing is a control message of legal length. */
  lemma ReplyFits(events: seq<Event<bytes, bytes>>, nodes: seq<bytes>)
    requires Commands(events) && Lists(Run(events).dir, Run(events).dir.Keys, nodes)
    ensures 0 < |Reply(nodes)| <= MAX_CONTROL
  {
    var s := Run(events);
    DirectoryBounded(events);
    ListedValid(events, nodes);
    DistinctImagesFit((node: bytes) => node, nodes, s.dir.Keys);
    JoinLength(nodes);
  }

  lemma SortKeepsList<T>(dir: map<bytes, Entry<T>>, within: set<bytes>, nodes: seq<bytes>)
    requires Lists(dir, within, nodes)
    ensures Lists(dir, within, SortBy(LexLe, nodes)) && Sorted(LexLe, SortBy(LexLe, nodes))
  {
    LexPreorder();
    SortSorts(LexLe, nodes);
    var sorted := SortBy(LexLe, nodes);
    forall node ensures node in sorted <==> node in nodes {
      assert node in multiset(sorted) <==> node in multiset(nodes);
    }
    OnceEach(nodes);
    OnceMeansDistinct(sorted);
  }

  lemma {:induction false} OnceEach<T>(s: seq<T>)
    requires forall i, j :: 0 <= i < j < |s| ==> s[i] != s[j]
    ensures forall x :: multiset(s)[x] <= 1
  {
    if s != [] {
      assert s == [s[0]] + s[1..];
      assert s[0] !in s[1..];
      OnceEach(s[1..]);
    }
  }

  lemma OnceMeansDistinct<T>(s: seq<T>)
    requires forall x :: multiset(s)[x] <= 1
    ensures forall i, j :: 0 <= i < j < |s| ==> s[i] != s[j]
  {
    forall i, j | 0 <= i < j < |s| ensures s[i] != s[j] {
      assert s == s[..j] + s[j..];
      assert s[i] in s[..j] && s[j] in s[j..];
      assert multiset(s)[s[j]] == multiset(s[..j])[s[j]] + multiset(s[j..])[s[j]];
    }
  }

  // ---- the directory as the server holds it ----

  class RendezvousDirectory {
    var dir: map<bytes, Entry<bytes>>

    constructor ()
      ensures dir == map[]
    {
      dir := map[];
    }

    method RegisterWaiter(node: bytes, token: bytes, slot: Slot) returns (outcome: Outcome)
      modifies this
      ensures (dir, outcome) == Register(old(dir), node, token, slot)
      ensures !outcome.Registered? ==> dir == old(dir)
    {
      var entry := if node in dir then dir[node] else Entry(token, []);
      if entry.token != token {
        return Unauthorized;
      }
      if |entry.waiting| >= MAX_PER_NODE {
        return Busy;
      }
      dir := dir[node := Entry(entry.token, entry.waiting + [slot])];
      return Registered;
    }

    method ClaimWaiter(node: bytes, token: bytes) returns (selected: Option<Slot>)
      modifies this
      ensures selected.Some? <==> Claimable(old(dir), node, token)
      ensures selected.Some? ==> (dir, selected.value) == Claimed(old(dir), node)
      ensures selected.None? ==> dir == old(dir)
    {
      if node !in dir || dir[node].token != token || dir[node].waiting == [] {
        return None;
      }
      var waiting := dir[node].waiting;
      selected := Some(waiting[|waiting| - 1]);
      dir := dir[node := Entry(dir[node].token, waiting[..|waiting| - 1])];
    }

    method RemoveWaiter(node: bytes, id: nat)
      modifies this
      ensures dir == Cleaned(old(dir), node, id)
    {
      if node in dir {
        var left := Filter((slot: Slot) => slot.id != id, dir[node].waiting);
        if left == [] {
          dir := dir - {node};
        } else {
          dir := dir[node := Entry(dir[node].token, left)];
        }
      }
    }

    /** The sorted list of nodes with a waiter, and the reply made of it. */
    method ListNodes() returns (nodes: seq<bytes>, reply: bytes)
      ensures Lists(dir, dir.Keys, nodes) && Sorted(LexLe, nodes) && reply == Reply(nodes)
    {
      nodes := [];
      var remaining := dir.Keys;
      while remaining != {}
        invariant remaining <= dir.Keys && Lists(dir, dir.Keys - remaining, nodes)
        decreases |remaining|
      {
        var node :| node in remaining;
        remaining := remaining - {node};
        if dir[node].waiting != [] {
          nodes := nodes + [node];
        }
      }
      assert dir.Keys - remaining == dir.Keys;
      SortKeepsList(dir, dir.Keys, nodes);
      nodes := SortBy(LexLe, nodes);
      reply := Reply(nodes);
    }
  }
}
