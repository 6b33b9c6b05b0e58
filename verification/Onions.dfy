/** Guarded onion chains (src/mesh/pool.rs): the answers the builder can give for a request,
    and what they mean. */
module Onions {
  import opened Prelude
  import opened Address
  import opened Identity
  import opened ClientPool
  import opened Paths

  datatype GuardState = GuardState(guards: seq<Endpoint>, identities: map<Endpoint, Pin>)

  ghost predicate Keyed(nodes: Nodes) {
    forall e :: e in nodes ==> At(nodes[e]) == e
  }

  /** Alive nodes whose identity is not cooling down after an entry-link failure. */
  function Healthy(nodes: Nodes, keys: Keys, cooldowns: map<Pin, nat>, now: nat): Nodes {
    map e | e in nodes && nodes[e].isAlive
            && !(e in keys && keys[e] in cooldowns && cooldowns[keys[e]] > now) :: nodes[e]
  }

  /** A node is healthy exactly when it is alive and its pin, if known, is not cooling down. */
  lemma HealthyExactly(nodes: Nodes, keys: Keys, cooldowns: map<Pin, nat>, now: nat, e: Endpoint)
    ensures e in Healthy(nodes, keys, cooldowns, now) <==>
      e in nodes && nodes[e].isAlive && (e in keys && keys[e] in cooldowns ==> cooldowns[keys[e]] <= now)
    ensures e in Healthy(nodes, keys, cooldowns, now) ==> Healthy(nodes, keys, cooldowns, now)[e] == nodes[e]
  {
  }

  ghost predicate DrawnFromTable(nodes: Nodes, order: seq<ProxyNode>) {
    forall n :: n in order ==> At(n) in nodes && nodes[At(n)] == n
  }

  /** `order` lists every node of the table once. */
  ghost predicate ListsTable(nodes: Nodes, order: seq<ProxyNode>) {
    && DistinctEndpoints(order) && DrawnFromTable(nodes, order)
    && forall e :: e in nodes ==> nodes[e] in order
  }

  /** All nodes of a table in an arbitrary order. */
  method Shuffle(nodes: Nodes) returns (order: seq<ProxyNode>)
    requires Keyed(nodes)
    ensures ListsTable(nodes, order)
  {
    order := [];
    var rest := nodes.Keys;
    while rest != {}
      invariant rest <= nodes.Keys && DistinctEndpoints(order)
      invariant forall n :: n in order ==> At(n) in nodes && nodes[At(n)] == n && At(n) !in rest
      invariant forall e :: e in nodes && e !in rest ==> nodes[e] in order
    {
      var e :| e in rest;
      assert forall i :: 0 <= i < |order| ==> order[i] in order;
      rest := rest - {e};
      order := order + [nodes[e]];
    }
  }

  /** Whether `n` may serve as the guard recorded under `g`. */
  predicate GuardMatches(state: GuardState, keys: Keys, entryPins: seq<Pin>, g: Endpoint, n: ProxyNode) {
    if g in state.identities then
      && At(n) in keys && keys[At(n)] == state.identities[g]
      && (entryPins == [] || state.identities[g] in entryPins)
    else entryPins == [] && keys == map[] && At(n) == g
  }

  /** No node of the pool can serve as any of the first `g` recorded guards. */
  ghost predicate NoGuardBefore(state: GuardState, keys: Keys, entryPins: seq<Pin>, pool: seq<ProxyNode>, g: nat)
    requires g <= |state.guards|
  {
    forall j, i :: 0 <= j < g && 0 <= i < |pool| ==> !GuardMatches(state, keys, entryPins, state.guards[j], pool[i])
  }

  /** `n` serves as the earliest recorded guard that any node of the pool can serve as. */
  ghost predicate FirstGuard(state: GuardState, keys: Keys, entryPins: seq<Pin>, pool: seq<ProxyNode>, n: ProxyNode) {
    exists g :: 0 <= g < |state.guards| && GuardMatches(state, keys, entryPins, state.guards[g], n)
                && NoGuardBefore(state, keys, entryPins, pool, g)
  }

  /** The first recorded guard that some node serves as, and the first such node. */
  ghost predicate FoundAt(state: GuardState, keys: Keys, entryPins: seq<Pin>, pool: seq<ProxyNode>, g: nat, i: nat) {
    && g < |state.guards| && i < |pool|
    && GuardMatches(state, keys, entryPins, state.guards[g], pool[i])
    && NoGuardBefore(state, keys, entryPins, pool, g)
    && forall k :: 0 <= k < i ==> !GuardMatches(state, keys, entryPins, state.guards[g], pool[k])
  }

  ghost predicate FoundGuard(state: GuardState, keys: Keys, entryPins: seq<Pin>, pool: seq<ProxyNode>, n: ProxyNode) {
    exists g: nat, i: nat :: FoundAt(state, keys, entryPins, pool, g, i) && pool[i] == n
  }

  method FindGuard(state: GuardState, keys: Keys, entryPins: seq<Pin>, pool: seq<ProxyNode>)
    returns (guard: Option<ProxyNode>)
    ensures guard.None? <==> NoGuardBefore(state, keys, entryPins, pool, |state.guards|)
    ensures guard.Some? ==> FoundGuard(state, keys, entryPins, pool, guard.value)
  {
    for g := 0 to |state.guards|
      invariant NoGuardBefore(state, keys, entryPins, pool, g)
    {
      for i := 0 to |pool|
        invariant forall k :: 0 <= k < i ==> !GuardMatches(state, keys, entryPins, state.guards[g], pool[k])
      {
        if GuardMatches(state, keys, entryPins, state.guards[g], pool[i]) {
          assert FoundAt(state, keys, entryPins, pool, g, i);
          return Some(pool[i]);
        }
      }
    }
    return None;
  }

  predicate EntryAllowed(keys: Keys, entryPins: seq<Pin>, n: ProxyNode) {
    entryPins == [] || (At(n) in keys && keys[At(n)] in entryPins)
  }

  /** The first guard set: up to three allowed nodes, with their pins when known. */
  function SeedGuards(state: GuardState, seeds: seq<ProxyNode>, keys: Keys): GuardState
    decreases seeds
  {
    if seeds == [] then state
    else
      var e := At(seeds[0]);
      SeedGuards(GuardState(state.guards + [e], if e in keys then state.identities[e := keys[e]] else state.identities),
                 seeds[1..], keys)
  }

  function FirstThree<T>(s: seq<T>): seq<T> {
    if |s| <= MAX_GUARDS then s else s[..MAX_GUARDS]
  }

  function Seeds(keys: Keys, entryPins: seq<Pin>, middles: seq<ProxyNode>): seq<ProxyNode> {
    FirstThree(Filter((n: ProxyNode) => EntryAllowed(keys, entryPins, n), middles))
  }

  /** An empty guard set is filled from the shuffled middles, if it can be saved. */
  function OnionGuards(state: GuardState, keys: Keys, entryPins: seq<Pin>, middles: seq<ProxyNode>, saved: bool): GuardState {
    if state.guards == [] && saved then SeedGuards(state, Seeds(keys, entryPins, middles), keys) else state
  }

  // ---- completing a chain ----

  /** The first exit that fits after the hops selected so far. */
  function FirstFit(enforce: bool, start: seq<ProxyNode>, exits: seq<ProxyNode>): (exit: Option<ProxyNode>)
    ensures exit.Some? ==> exit.value in exits && Fits(enforce, start + [exit.value])
    ensures exit.None? ==> forall i :: 0 <= i < |exits| ==> !Fits(enforce, start + [exits[i]])
  {
    if exits == [] then None
    else if Fits(enforce, start + [exits[0]]) then Some(exits[0])
    else FirstFit(enforce, start, exits[1..])
  }

  method FirstFitting(enforce: bool, start: seq<ProxyNode>, exits: seq<ProxyNode>) returns (exit: Option<ProxyNode>)
    ensures exit == FirstFit(enforce, start, exits)
  {
    for i := 0 to |exits|
      invariant FirstFit(enforce, start, exits) == FirstFit(enforce, start, exits[i..])
    {
      assert exits[i..][1..] == exits[i + 1..];
      var ok := CheckFits(enforce, start + [exits[i]]);
      if ok {
        return Some(exits[i]);
      }
    }
    return None;
  }

  /** The possible results of completing a chain from `start`: an exit is reserved, the middles
      are filled greedily, and a random length is kept. */
  ghost predicate Completes(start: seq<ProxyNode>, pool: seq<ProxyNode>, exits: seq<ProxyNode>, enforce: bool,
                            minHops: nat, middleCount: nat, chain: seq<ProxyNode>) {
    match FirstFit(enforce, start, exits)
    case None => chain == []
    case Some(exit) =>
      var selected := Greedy(enforce, start, pool, Some(exit), middleCount, |pool|);
      if |selected| + 1 < minHops then chain == []
      else exists length :: Keeps(selected, exit, minHops, length, chain)
  }

  ghost predicate Keeps(selected: seq<ProxyNode>, exit: ProxyNode, minHops: nat, length: nat, chain: seq<ProxyNode>) {
    1 <= length && minHops <= length <= |selected| + 1 && chain == selected[..length - 1] + [exit]
  }

  method CompleteChain(start: seq<ProxyNode>, pool: seq<ProxyNode>, exits: seq<ProxyNode>, enforce: bool,
                       minHops: nat, middleCount: nat)
    returns (chain: seq<ProxyNode>)
    requires 1 <= minHops
    ensures Completes(start, pool, exits, enforce, minHops, middleCount, chain)
  {
    var exit := FirstFitting(enforce, start, exits);
    if exit.None? {
      return [];
    }
    var selected := FillMiddles(start, pool, exit, middleCount, enforce);
    var available := |selected| + 1;
    if available < minHops {
      return [];
    }
    var length :| minHops <= length <= available;
    chain := selected[..length - 1] + [exit.value];
    assert Keeps(selected, exit.value, minHops, length, chain);
  }

  /** No endpoint occurs in both lists. */
  ghost predicate Apart(a: seq<ProxyNode>, b: seq<ProxyNode>) {
    forall i, j :: 0 <= i < |a| && 0 <= j < |b| ==> At(a[i]) != At(b[j])
  }

  /** A chain between the bounds that ends in one of the exits and otherwise uses the given
      hops, each endpoint once, diverse as a whole if enforced. */
  ghost predicate ExitChain(hops: seq<ProxyNode>, exits: seq<ProxyNode>, enforce: bool, minHops: nat, maxHops: nat,
                            chain: seq<ProxyNode>) {
    && minHops <= |chain| <= maxHops && 0 < |chain|
    && chain[|chain| - 1] in exits && (forall i :: 0 <= i < |chain| - 1 ==> chain[i] in hops)
    && DistinctEndpoints(chain) && Fits(enforce, chain)
  }

  lemma FinishedOnion(start: seq<ProxyNode>, pool: seq<ProxyNode>, exits: seq<ProxyNode>, enforce: bool, exit: ProxyNode,
                      picks: seq<nat>, selected: seq<ProxyNode>, minHops: nat, length: nat)
    requires DistinctEndpoints(start) && DistinctEndpoints(pool) && Apart(start, pool)
    requires Apart(start, exits) && Apart(pool, exits) && exit in exits
    requires Picked(start, pool, picks, selected) && Fits(enforce, selected + [exit])
    requires 1 <= length <= |selected| + 1 && minHops <= length
    ensures ExitChain(start + pool, exits, enforce, minHops, |selected| + 1, selected[..length - 1] + [exit])
    ensures length >= 2 && start != [] ==> (selected[..length - 1] + [exit])[0] == start[0]
  {
    var c := selected[..length - 1] + [exit];
    PicksDistinct(start, pool, picks, selected);
    var e :| 0 <= e < |exits| && exits[e] == exit;
    forall i | 0 <= i < |selected| ensures selected[i] in start + pool && At(selected[i]) != At(exit) {
      if i < |start| {
        assert selected[i] == start[i] && (start + pool)[i] == start[i];
      } else {
        assert selected[|start| + (i - |start|)] == pool[picks[i - |start|]];
        assert (start + pool)[|start| + picks[i - |start|]] == selected[i];
      }
    }
    TruncatedDistinct(selected, exit, length - 1);
    TruncatedFits(enforce, selected, [exit], length - 1);
    assert forall i :: 0 <= i < length - 1 ==> c[i] == selected[i];
  }

  /** Distinct further hops that make a diverse chain between `start` and `exit`. */
  ghost predicate Fills(start: seq<ProxyNode>, pool: seq<ProxyNode>, exit: ProxyNode, enforce: bool, others: seq<ProxyNode>) {
    && (forall i :: 0 <= i < |others| ==> others[i] in pool && others[i] !in start)
    && (forall i, j :: 0 <= i < j < |others| ==> others[i] != others[j])
    && Fits(enforce, start + others + Last(Some(exit)))
  }

  /** No chain from `start` to this exit, which fits it, has enough hops. */
  ghost predicate TooShort(start: seq<ProxyNode>, pool: seq<ProxyNode>, exit: ProxyNode, enforce: bool, minHops: nat) {
    && Fits(enforce, start + [exit])
    && forall others :: Fills(start, pool, exit, enforce, others) ==> |start| + |others| + 1 < minHops
  }

  /** Why a chain cannot be completed: no exit fits, or the reserved one leaves too few hops. */
  ghost predicate Stuck(start: seq<ProxyNode>, pool: seq<ProxyNode>, exits: seq<ProxyNode>, enforce: bool, minHops: nat) {
    || (forall i :: 0 <= i < |exits| ==> !Fits(enforce, start + [exits[i]]))
    || (exists i :: 0 <= i < |exits| && TooShort(start, pool, exits[i], enforce, minHops))
  }

  lemma GreedyTooShort(start: seq<ProxyNode>, pool: seq<ProxyNode>, exit: ProxyNode, enforce: bool, minHops: nat,
                       picks: seq<nat>, selected: seq<ProxyNode>)
    requires Fits(enforce, start + [exit]) && |selected| + 1 < minHops
    requires Picked(start, pool, picks, selected) && Exhausted(enforce, pool, |pool|, selected, Some(exit))
    ensures TooShort(start, pool, exit, enforce, minHops)
  {
    forall others | Fills(start, pool, exit, enforce, others) ensures |start| + |others| + 1 < minHops {
      GreedyMaximum(enforce, start, pool, Some(exit), picks, selected, others);
    }
  }

  /** A completed chain lies between the bounds, ends in an exit, repeats no endpoint, is diverse
      as a whole, and from two hops on begins with `start`. */
  lemma CompletesSound(start: seq<ProxyNode>, pool: seq<ProxyNode>, exits: seq<ProxyNode>, enforce: bool,
                       minHops: nat, middleCount: nat, chain: seq<ProxyNode>)
    requires DistinctEndpoints(start) && DistinctEndpoints(pool) && Apart(start, pool)
    requires Apart(start, exits) && Apart(pool, exits) && |start| <= middleCount
    requires Completes(start, pool, exits, enforce, minHops, middleCount, chain) && chain != []
    ensures ExitChain(start + pool, exits, enforce, minHops, middleCount + 1, chain)
    ensures |chain| >= 2 && start != [] ==> chain[0] == start[0]
  {
    var exit := FirstFit(enforce, start, exits).value;
    var picks := GreedyMeaning(enforce, start, pool, Some(exit), middleCount, |pool|);
    var selected := Greedy(enforce, start, pool, Some(exit), middleCount, |pool|);
    var length :| Keeps(selected, exit, minHops, length, chain);
    FinishedOnion(start, pool, exits, enforce, exit, picks, selected, minHops, length);
  }

  /** What greedy filling adds is one way to fill the chain. */
  lemma GreedyFills(start: seq<ProxyNode>, pool: seq<ProxyNode>, exit: ProxyNode, enforce: bool, limit: nat)
    requires DistinctEndpoints(pool) && Apart(start, pool) && Fits(enforce, start + [exit])
    ensures Fills(start, pool, exit, enforce, Greedy(enforce, start, pool, Some(exit), limit, |pool|)[|start|..])
  {
    var selected := Greedy(enforce, start, pool, Some(exit), limit, |pool|);
    var picks := GreedyMeaning(enforce, start, pool, Some(exit), limit, |pool|);
    var others := selected[|start|..];
    assert selected == start + others;
    forall i | 0 <= i < |others| ensures picks[i] < |pool| && others[i] == pool[picks[i]] && others[i] !in start {
      assert others[i] == selected[|start| + i];
    }
    forall i, j | 0 <= i < j < |others| ensures others[i] != others[j] {
      assert At(pool[picks[i]]) != At(pool[picks[j]]);
    }
  }

  /** The builder fails for a given order exactly when no exit fits, or the one it reserves leaves
      no diverse choice of middles that is long enough. */
  lemma FailsExactly(start: seq<ProxyNode>, pool: seq<ProxyNode>, exits: seq<ProxyNode>, enforce: bool,
                     minHops: nat, middleCount: nat)
    requires DistinctEndpoints(pool) && Apart(start, pool) && 1 <= minHops <= middleCount + 1 && |start| <= middleCount
    ensures Completes(start, pool, exits, enforce, minHops, middleCount, []) <==>
      var exit := FirstFit(enforce, start, exits);
      exit.None? || TooShort(start, pool, exit.value, enforce, minHops)
  {
    var exit := FirstFit(enforce, start, exits);
    if exit.Some? {
      var selected := Greedy(enforce, start, pool, exit, middleCount, |pool|);
      var picks := GreedyMeaning(enforce, start, pool, exit, middleCount, |pool|);
      GreedyFills(start, pool, exit.value, enforce, middleCount);
      if |selected| + 1 < minHops {
        GreedyTooShort(start, pool, exit.value, enforce, minHops, picks, selected);
      }
    }
  }

  /** An onion chain from a pool of healthy nodes: within the bounds, its last hop and only
      its last hop an exit, each endpoint once, diverse as a whole if enforced. */
  ghost predicate OnionChain(healthy: Nodes, enforce: bool, minHops: nat, maxHops: nat, chain: seq<ProxyNode>) {
    && minHops <= |chain| <= maxHops && 0 < |chain|
    && (forall i :: 0 <= i < |chain| ==> At(chain[i]) in healthy && healthy[At(chain[i])] == chain[i])
    && (forall i :: 0 <= i < |chain| ==> (chain[i].isExit <==> i == |chain| - 1))
    && DistinctEndpoints(chain) && Fits(enforce, chain)
  }

  lemma ExitChainIsOnion(healthy: Nodes, order: seq<ProxyNode>, start: seq<ProxyNode>, pool: seq<ProxyNode>,
                         enforce: bool, minHops: nat, maxHops: nat, chain: seq<ProxyNode>)
    requires DrawnFromTable(healthy, order)
    requires forall i :: 0 <= i < |start| ==> start[i] in Filter(NotExit, order)
    requires forall i :: 0 <= i < |pool| ==> pool[i] in Filter(NotExit, order)
    requires ExitChain(start + pool, Filter(IsExit, order), enforce, minHops, maxHops, chain)
    ensures OnionChain(healthy, enforce, minHops, maxHops, chain)
  {
    forall i | 0 <= i < |chain|
      ensures chain[i] in order && (chain[i].isExit <==> i == |chain| - 1)
    {
      if i < |chain| - 1 {
        assert chain[i] in start + pool;
        var j :| 0 <= j < |start + pool| && (start + pool)[j] == chain[i];
        assert chain[i] in Filter(NotExit, order);
      } else {
        assert chain[i] in Filter(IsExit, order);
      }
    }
  }

  lemma OnionWiden(healthy: Nodes, enforce: bool, minHops: nat, m: nat, maxHops: nat, chain: seq<ProxyNode>)
    requires OnionChain(healthy, enforce, minHops, m, chain) && m <= maxHops
    ensures OnionChain(healthy, enforce, minHops, maxHops, chain)
  {
  }

  /** Splitting a shuffled pool: exits and non-exits keep distinct endpoints and share none. */
  lemma SplitPool(order: seq<ProxyNode>)
    requires DistinctEndpoints(order)
    ensures DistinctEndpoints(Filter(NotExit, order)) && DistinctEndpoints(Filter(IsExit, order))
    ensures Apart(Filter(NotExit, order), Filter(IsExit, order))
  {
    var differ := (x: ProxyNode, y: ProxyNode) => At(x) != At(y);
    FilterPairwise(NotExit, differ, order);
    FilterPairwise(IsExit, differ, order);
    var a, b := Filter(NotExit, order), Filter(IsExit, order);
    forall i, j | 0 <= i < |a| && 0 <= j < |b| ensures At(a[i]) != At(b[j]) {
      assert a[i] in a && b[j] in b;
      DistinctNodes(order, a[i], b[j]);
    }
  }

  /** The middles without the guard. */
  function Rest(guard: ProxyNode, middles: seq<ProxyNode>): seq<ProxyNode> {
    Filter((n: ProxyNode) => At(n) != At(guard), middles)
  }

  /** The guard is set apart from the remaining middles and from the exits. */
  lemma GuardApart(middles: seq<ProxyNode>, exits: seq<ProxyNode>, guard: ProxyNode)
    requires DistinctEndpoints(middles) && Apart(middles, exits) && guard in middles
    ensures
      var rest := Rest(guard, middles);
      DistinctEndpoints(rest) && Apart([guard], rest) && Apart([guard], exits) && Apart(rest, exits)
  {
    var keep := (n: ProxyNode) => At(n) != At(guard);
    var rest := Filter(keep, middles);
    FilterPairwise(keep, (x: ProxyNode, y: ProxyNode) => At(x) != At(y), middles);
    var g :| 0 <= g < |middles| && middles[g] == guard;
    forall j | 0 <= j < |rest| ensures rest[j] in middles && keep(rest[j]) {
      assert rest[j] in rest;
    }
    forall i, j | 0 <= i < |rest| && 0 <= j < |exits| ensures At(rest[i]) != At(exits[j]) {
      var k :| 0 <= k < |middles| && middles[k] == rest[i];
    }
  }

  // ---- the builder's answers ----

  /** What is asked of the builder. */
  datatype Request = Request(minHops: nat, maxHops: nat, enforce: bool, entryPins: seq<Pin>)

  /** What the builder sees: the healthy nodes, the recorded pins, the guard set, and whether a
      new guard set can be saved. */
  datatype View = View(healthy: Nodes, keys: Keys, state: GuardState, saved: bool)

  predicate InBounds(v: View, q: Request, order: seq<ProxyNode>) {
    && 1 <= q.minHops <= q.maxHops <= MAX_HOPS && q.minHops <= |v.healthy|
    && Filter(IsExit, order) != [] && q.minHops <= |Filter(NotExit, order)| + 1
  }

  /** The hops before the exit of the longest chain considered. */
  function MiddleCount(q: Request, order: seq<ProxyNode>): nat
    requires 1 <= q.maxHops
  {
    var capacity := |Filter(NotExit, order)| + 1;
    (if q.maxHops <= capacity then q.maxHops else capacity) - 1
  }

  predicate NeedsGuard(v: View, q: Request, order: seq<ProxyNode>) {
    InBounds(v, q, order) && MiddleCount(q, order) > 0
  }

  /** The guard set that the call leaves. */
  function GuardsAfter(v: View, q: Request, order: seq<ProxyNode>): GuardState {
    if NeedsGuard(v, q, order) then OnionGuards(v.state, v.keys, q.entryPins, Filter(NotExit, order), v.saved) else v.state
  }

  /** A call that is refused for its bounds, for want of healthy nodes or exits, or that considers no
      hop before the exit, leaves the guard set alone. */
  lemma GuardsUntouched(v: View, q: Request, order: seq<ProxyNode>)
    requires
      || q.minHops == 0 || q.maxHops < q.minHops || q.maxHops > 8 || |v.healthy| < q.minHops || q.maxHops == 1
      || Filter(IsExit, order) == [] || Filter(NotExit, order) == [] || q.minHops > |Filter(NotExit, order)| + 1
    ensures GuardsAfter(v, q, order) == v.state
  {
  }

  /** The answers the builder can give for the nodes listed in this order. */
  ghost predicate Answers(v: View, q: Request, order: seq<ProxyNode>, chain: seq<ProxyNode>) {
    if !InBounds(v, q, order) then chain == []
    else if MiddleCount(q, order) == 0 then
      Completes([], Filter(NotExit, order), Filter(IsExit, order), q.enforce, q.minHops, 0, chain)
    else GuardedAnswers(v, q, order, chain)
  }

  ghost predicate GuardedAnswers(v: View, q: Request, order: seq<ProxyNode>, chain: seq<ProxyNode>)
    requires NeedsGuard(v, q, order)
  {
    var middles, after := Filter(NotExit, order), GuardsAfter(v, q, order);
    if NoGuardBefore(after, v.keys, q.entryPins, middles, |after.guards|) then chain == []
    else exists g :: FoundGuard(after, v.keys, q.entryPins, middles, g) && AnswersThrough(q, order, g, chain)
  }

  ghost predicate AnswersThrough(q: Request, order: seq<ProxyNode>, g: ProxyNode, chain: seq<ProxyNode>)
    requires 1 <= q.maxHops
  {
    Completes([g], Rest(g, Filter(NotExit, order)), Filter(IsExit, order), q.enforce, q.minHops, MiddleCount(q, order), chain)
  }

  ghost predicate StartsGuarded(v: View, q: Request, order: seq<ProxyNode>, chain: seq<ProxyNode>) {
    chain != [] && FirstGuard(GuardsAfter(v, q, order), v.keys, q.entryPins, Filter(NotExit, order), chain[0])
  }

  lemma FoundIsFirst(state: GuardState, keys: Keys, entryPins: seq<Pin>, pool: seq<ProxyNode>, n: ProxyNode)
    requires FoundGuard(state, keys, entryPins, pool, n)
    ensures n in pool && FirstGuard(state, keys, entryPins, pool, n)
  {
    var g: nat, i: nat :| FoundAt(state, keys, entryPins, pool, g, i) && pool[i] == n;
  }

  lemma ThroughGuardSound(v: View, q: Request, order: seq<ProxyNode>, g: ProxyNode, chain: seq<ProxyNode>)
    requires ListsTable(v.healthy, order) && NeedsGuard(v, q, order) && g in Filter(NotExit, order)
    requires AnswersThrough(q, order, g, chain) && chain != []
    ensures OnionChain(v.healthy, q.enforce, q.minHops, q.maxHops, chain)
    ensures |chain| >= 2 ==> chain[0] == g
  {
    var middles, exits, m := Filter(NotExit, order), Filter(IsExit, order), MiddleCount(q, order);
    SplitPool(order);
    GuardApart(middles, exits, g);
    var rest := Rest(g, middles);
    CompletesSound([g], rest, exits, q.enforce, q.minHops, m, chain);
    forall i | 0 <= i < |rest| ensures rest[i] in middles { assert rest[i] in rest; }
    ExitChainIsOnion(v.healthy, order, [g], rest, q.enforce, q.minHops, m + 1, chain);
    OnionWiden(v.healthy, q.enforce, q.minHops, m + 1, q.maxHops, chain);
  }

  lemma ExitAloneSound(v: View, q: Request, order: seq<ProxyNode>, chain: seq<ProxyNode>)
    requires ListsTable(v.healthy, order) && InBounds(v, q, order) && MiddleCount(q, order) == 0
    requires Answers(v, q, order, chain) && chain != []
    ensures OnionChain(v.healthy, q.enforce, q.minHops, q.maxHops, chain) && |chain| == 1
  {
    var middles, exits := Filter(NotExit, order), Filter(IsExit, order);
    SplitPool(order);
    CompletesSound([], middles, exits, q.enforce, q.minHops, 0, chain);
    ExitChainIsOnion(v.healthy, order, [], middles, q.enforce, q.minHops, 1, chain);
    OnionWiden(v.healthy, q.enforce, q.minHops, 1, q.maxHops, chain);
  }

  /** Path soundness: every chain the builder can return is within the bounds, has its only exit
      last, repeats no endpoint, is diverse as a whole, and starts at the earliest recorded,
      pinned and allowed guard unless it is the exit alone. */
  lemma AnswersSound(v: View, q: Request, order: seq<ProxyNode>, chain: seq<ProxyNode>)
    requires ListsTable(v.healthy, order) && Answers(v, q, order, chain) && chain != []
    ensures OnionChain(v.healthy, q.enforce, q.minHops, q.maxHops, chain) && q.maxHops <= MAX_HOPS
    ensures |chain| >= 2 ==> StartsGuarded(v, q, order, chain)
  {
    if MiddleCount(q, order) == 0 {
      ExitAloneSound(v, q, order, chain);
    } else {
      var middles, after := Filter(NotExit, order), GuardsAfter(v, q, order);
      var g :| FoundGuard(after, v.keys, q.entryPins, middles, g) && AnswersThrough(q, order, g, chain);
      FoundIsFirst(after, v.keys, q.entryPins, middles, g);
      ThroughGuardSound(v, q, order, g, chain);
    }
  }

  /** What the first hop of a chain of two or more is: the node under the recorded pin of some
      guard, among the entry pins if there are any; or, while no pin is known at all and none is
      demanded, the recorded endpoint itself. */
  ghost predicate PinnedGuard(state: GuardState, keys: Keys, entryPins: seq<Pin>, n: ProxyNode) {
    exists g :: g in state.guards &&
      if g in state.identities
      then At(n) in keys && keys[At(n)] == state.identities[g] && (|entryPins| > 0 ==> state.identities[g] in entryPins)
      else |entryPins| == 0 && |keys| == 0 && n.host == g.host && n.port == g.port
  }

  lemma GuardIsPinned(v: View, q: Request, order: seq<ProxyNode>, chain: seq<ProxyNode>)
    requires ListsTable(v.healthy, order) && Answers(v, q, order, chain) && |chain| >= 2
    ensures PinnedGuard(GuardsAfter(v, q, order), v.keys, q.entryPins, chain[0])
  {
    AnswersSound(v, q, order, chain);
    var after := GuardsAfter(v, q, order);
    var g :| 0 <= g < |after.guards| && GuardMatches(after, v.keys, q.entryPins, after.guards[g], chain[0]);
    assert after.guards[g] in after.guards;
  }

  /** What holds of every answer: it is nothing, or an onion chain within the bounds that, from two
      hops on, starts at the earliest guard served and at a pinned one. */
  ghost predicate SoundAnswer(v: View, q: Request, order: seq<ProxyNode>, chain: seq<ProxyNode>) {
    chain != [] ==>
      && OnionChain(v.healthy, q.enforce, q.minHops, q.maxHops, chain) && q.maxHops <= MAX_HOPS
      && (|chain| >= 2 ==> StartsGuarded(v, q, order, chain)
                           && PinnedGuard(GuardsAfter(v, q, order), v.keys, q.entryPins, chain[0]))
  }

  lemma AnswerIsSound(v: View, q: Request, order: seq<ProxyNode>, chain: seq<ProxyNode>)
    requires ListsTable(v.healthy, order) && Answers(v, q, order, chain)
    ensures SoundAnswer(v, q, order, chain)
  {
    if chain != [] {
      AnswersSound(v, q, order, chain);
      if |chain| >= 2 {
        GuardIsPinned(v, q, order, chain);
      }
    }
  }

  // ---- when every answer starts at a guard ----

  /** Whatever the nodes, pins, guard set and shuffle, an answer that is not empty starts at the
      guard. */
  ghost predicate AlwaysGuarded(minHops: nat, maxHops: nat, enforce: bool) {
    forall v: View, entryPins: seq<Pin>, order: seq<ProxyNode>, chain: seq<ProxyNode> ::
      ListsTable(v.healthy, order) && Answers(v, Request(minHops, maxHops, enforce, entryPins), order, chain) && chain != [] ==>
        StartsGuarded(v, Request(minHops, maxHops, enforce, entryPins), order, chain)
  }

  /** A node at an address of its own class. */
  function NodeAt(class_: byte, host: byte, isExit: bool): ProxyNode {
    ProxyNode(Address(V4(class_, 0, host, 0), 0), 443, isExit, true)
  }

  /** One recorded guard and one compatible exit. */
  function SmallView(): View {
    var g, e := NodeAt(1, 0, false), NodeAt(2, 0, true);
    View(map[At(g) := g, At(e) := e], map[At(g) := Pin(1, 1), At(e) := Pin(2, 2)],
         GuardState([At(g)], map[At(g) := Pin(1, 1)]), true)
  }

  lemma SmallOrder()
    ensures
      var g, e := NodeAt(1, 0, false), NodeAt(2, 0, true);
      && Filter(NotExit, [g, e]) == [g] && Filter(IsExit, [g, e]) == [e] && Rest(g, [g]) == []
      && ListsTable(SmallView().healthy, [g, e])
  {
    var g, e := NodeAt(1, 0, false), NodeAt(2, 0, true);
    assert [g, e][1..] == [e] && [e][1..] == [] && [g][1..] == [];
    assert NotExit(g) && !NotExit(e) && IsExit(e) && !IsExit(g);
  }

  lemma TwoClassesFit(enforce: bool)
    ensures
      var g, e := NodeAt(1, 0, false), NodeAt(2, 0, true);
      Fits(enforce, [g, e]) && Fits(enforce, [e])
  {
    var g, e := NodeAt(1, 0, false), NodeAt(2, 0, true);
    assert Hosts([g, e])[0] == g.host && Hosts([g, e])[1] == e.host;
  }

  lemma SmallCompletes(enforce: bool)
    ensures
      var g, e := NodeAt(1, 0, false), NodeAt(2, 0, true);
      Completes([], [g], [e], enforce, 1, 0, [e]) && Completes([g], [], [e], enforce, 1, 1, [e])
  {
    var g, e := NodeAt(1, 0, false), NodeAt(2, 0, true);
    TwoClassesFit(enforce);
    assert [] + [e] == [e] && [g] + [e] == [g, e];
    assert Greedy(enforce, [], [g], Some(e), 0, 1) == [] && Greedy(enforce, [g], [], Some(e), 1, 0) == [g];
    assert Keeps([], e, 1, 1, [e]) && Keeps([g], e, 1, 1, [e]);
  }

  lemma SmallGuard()
    ensures
      var v, g, e := SmallView(), NodeAt(1, 0, false), NodeAt(2, 0, true);
      && FoundGuard(v.state, v.keys, [], [g], g) && FirstGuard(v.state, v.keys, [], [g], g)
      && !FirstGuard(v.state, v.keys, [], [g], e)
      && !NoGuardBefore(v.state, v.keys, [], [g], |v.state.guards|)
  {
    var v, g := SmallView(), NodeAt(1, 0, false);
    assert FoundAt(v.state, v.keys, [], [g], 0, 0);
  }

  lemma SmallSize()
    ensures |SmallView().healthy| == 2
  {
    assert SmallView().healthy.Keys == {At(NodeAt(1, 0, false)), At(NodeAt(2, 0, true))};
  }

  /** Asked for at least one hop, the builder may answer with the exit alone although a usable
      guard is recorded. */
  lemma ExitAloneAnswer(maxHops: nat, enforce: bool)
    requires 1 <= maxHops <= MAX_HOPS
    ensures
      var v, q, g, e := SmallView(), Request(1, maxHops, enforce, []), NodeAt(1, 0, false), NodeAt(2, 0, true);
      && ListsTable(v.healthy, [g, e]) && Answers(v, q, [g, e], [e])
      && FirstGuard(GuardsAfter(v, q, [g, e]), v.keys, [], [g], g)
      && !StartsGuarded(v, q, [g, e], [e])
  {
    var v, q, g, e := SmallView(), Request(1, maxHops, enforce, []), NodeAt(1, 0, false), NodeAt(2, 0, true);
    SmallOrder();
    SmallSize();
    SmallCompletes(enforce);
    SmallGuard();
    assert GuardsAfter(v, q, [g, e]) == v.state;
    assert maxHops > 1 ==> AnswersThrough(q, [g, e], g, [e]);
  }

  /** The exact condition, which a caller can check: every nonempty answer, over every pool, starts
      at the guard if and only if the request is not one that the builder accepts with a minimum
      of one hop. */
  lemma GuardedExactly(minHops: nat, maxHops: nat, enforce: bool)
    ensures AlwaysGuarded(minHops, maxHops, enforce) <==> !(minHops == 1 && 1 <= maxHops <= MAX_HOPS)
  {
    if minHops == 1 && 1 <= maxHops <= MAX_HOPS {
      ExitAloneAnswer(maxHops, enforce);
    } else {
      forall v: View, entryPins: seq<Pin>, order: seq<ProxyNode>, chain: seq<ProxyNode>
        | ListsTable(v.healthy, order) && Answers(v, Request(minHops, maxHops, enforce, entryPins), order, chain) && chain != []
        ensures StartsGuarded(v, Request(minHops, maxHops, enforce, entryPins), order, chain)
      {
        AnswersSound(v, Request(minHops, maxHops, enforce, entryPins), order, chain);
      }
    }
  }

  /** The gateway raises both bounds to three, so its chains always start at the guard. */
  lemma GatewayGuarded(minLength: nat, maxLength: nat, enforce: bool)
    ensures AlwaysGuarded(if minLength < 3 then 3 else minLength, if maxLength < 3 then 3 else maxLength, enforce)
  {
    GuardedExactly(if minLength < 3 then 3 else minLength, if maxLength < 3 then 3 else maxLength, enforce);
  }
}
