/** Building whole circuits: private bridge chains, guarded onion chains, and what the
    handshake demands of them (src/mesh/pool.rs, src/gateway/server.rs). */
module Circuits {
  import opened Prelude
  import opened Identity
  import opened ClientPool
  import opened Paths
  import opened Onions
  import ClientLoad

  // ---- private bridge chains ----

  /** An entry, distinct non-exit candidates, then an exit candidate; diverse if enforced. */
  ghost predicate BridgeChain(entry: ProxyNode, candidates: seq<ProxyNode>, enforce: bool, c: seq<ProxyNode>) {
    && |c| >= 2 && c[0] == entry
    && c[|c| - 1] in candidates && c[|c| - 1].isExit
    && (forall i :: 1 <= i < |c| - 1 ==> c[i] in candidates && !c[i].isExit)
    && DistinctEndpoints(c) && Fits(enforce, c)
  }

  /** The chain's middle hops. */
  function Middles(c: seq<ProxyNode>): seq<ProxyNode>
    requires |c| >= 2
  {
    c[1..|c| - 1]
  }

  lemma BridgeParts(entry: ProxyNode, candidates: seq<ProxyNode>, enforce: bool, c: seq<ProxyNode>)
    requires BridgeChain(entry, candidates, enforce, c)
    ensures c == [entry] + Middles(c) + [c[|c| - 1]]
    ensures forall i :: 0 <= i < |Middles(c)| ==> Middles(c)[i] in Filter(NotExit, candidates) && Middles(c)[i] != entry
    ensures forall i, j :: 0 <= i < j < |Middles(c)| ==> Middles(c)[i] != Middles(c)[j]
  {
  }

  /** No chain that ends in `exit` has more middles than the greedy selection for it. */
  lemma NoLongerBridgeChain(entry: ProxyNode, candidates: seq<ProxyNode>, enforce: bool, exit: ProxyNode,
                            picks: seq<nat>, selected: seq<ProxyNode>, c: seq<ProxyNode>)
    requires Picked([entry], Filter(NotExit, candidates), picks, selected)
    requires Exhausted(enforce, Filter(NotExit, candidates), |Filter(NotExit, candidates)|, selected, Some(exit))
    requires BridgeChain(entry, candidates, enforce, c) && c[|c| - 1] == exit
    ensures |c| <= |selected| + 1
  {
    BridgeParts(entry, candidates, enforce, c);
    GreedyMaximum(enforce, [entry], Filter(NotExit, candidates), Some(exit), picks, selected, Middles(c));
  }

  /** A chain uses at most every non-exit candidate. */
  lemma BridgeChainBound(entry: ProxyNode, candidates: seq<ProxyNode>, enforce: bool, c: seq<ProxyNode>)
    requires BridgeChain(entry, candidates, enforce, c)
    ensures |c| <= |Filter(NotExit, candidates)| + 2
  {
    var pool := Filter(NotExit, candidates);
    var id := (n: ProxyNode) => n;
    BridgeParts(entry, candidates, enforce, c);
    forall i | 0 <= i < |Middles(c)| ensures id(Middles(c)[i]) in Images(id, pool) {
      assert Middles(c)[i] in pool;
      var j :| 0 <= j < |pool| && pool[j] == Middles(c)[i];
      assert id(pool[j]) == Middles(c)[i];
    }
    InjectiveBound(id, Middles(c), pool);
  }

  /** Every hop after the first is a non-exit candidate. */
  ghost predicate HopsFrom(candidates: seq<ProxyNode>, hops: seq<ProxyNode>) {
    forall i :: 1 <= i < |hops| ==> hops[i] in candidates && !hops[i].isExit
  }

  ghost predicate NotAmong(entry: ProxyNode, candidates: seq<ProxyNode>) {
    forall i :: 0 <= i < |candidates| ==> At(candidates[i]) != At(entry)
  }

  lemma PicksInPool(entry: ProxyNode, candidates: seq<ProxyNode>, picks: seq<nat>, selected: seq<ProxyNode>)
    requires Picked([entry], Filter(NotExit, candidates), picks, selected)
    ensures selected[0] == entry
    ensures HopsFrom(candidates, selected)
  {
    assert selected[..1][0] == selected[0];
    forall i | 1 <= i < |selected| ensures selected[i] in candidates && !selected[i].isExit {
      assert selected[1 + (i - 1)] == Filter(NotExit, candidates)[picks[i - 1]];
      assert selected[i] in Filter(NotExit, candidates);
    }
  }

  lemma SelectedDistinct(entry: ProxyNode, candidates: seq<ProxyNode>, exit: ProxyNode,
                         picks: seq<nat>, selected: seq<ProxyNode>)
    requires DistinctEndpoints(candidates) && exit in candidates && exit.isExit
    requires NotAmong(entry, candidates)
    requires Picked([entry], Filter(NotExit, candidates), picks, selected)
    ensures DistinctEndpoints(selected)
    ensures forall i :: 0 <= i < |selected| ==> At(selected[i]) != At(exit)
  {
    var pool := Filter(NotExit, candidates);
    FilterPairwise(NotExit, (x: ProxyNode, y: ProxyNode) => At(x) != At(y), candidates);
    forall j | 0 <= j < |pool| ensures At(pool[j]) != At(entry) {
      assert pool[j] in candidates;
    }
    PicksDistinct([entry], pool, picks, selected);
    PicksInPool(entry, candidates, picks, selected);
    forall i | 0 <= i < |selected| ensures At(selected[i]) != At(exit) {
      if i > 0 {
        DistinctNodes(candidates, selected[i], exit);
      }
    }
  }

  /** The finished chain for one exit: `length - 1` of the selected hops, then the exit. */
  lemma FinishedBridge(entry: ProxyNode, candidates: seq<ProxyNode>, enforce: bool, exit: ProxyNode,
                       picks: seq<nat>, selected: seq<ProxyNode>, length: nat)
    requires DistinctEndpoints(candidates) && exit in candidates && exit.isExit
    requires NotAmong(entry, candidates)
    requires Picked([entry], Filter(NotExit, candidates), picks, selected)
    requires Fits(enforce, selected + [exit]) && 2 <= length <= |selected| + 1
    ensures BridgeChain(entry, candidates, enforce, selected[..length - 1] + [exit])
  {
    FinishedHops(entry, candidates, exit, picks, selected, length - 1);
    TruncatedFits(enforce, selected, [exit], length - 1);
    ChainOf(entry, candidates, enforce, selected, exit, length - 1);
  }

  lemma FinishedHops(entry: ProxyNode, candidates: seq<ProxyNode>, exit: ProxyNode,
                     picks: seq<nat>, selected: seq<ProxyNode>, n: nat)
    requires DistinctEndpoints(candidates) && exit in candidates && exit.isExit
    requires NotAmong(entry, candidates)
    requires Picked([entry], Filter(NotExit, candidates), picks, selected) && n <= |selected|
    ensures selected[0] == entry && DistinctEndpoints(selected[..n] + [exit])
    ensures HopsFrom(candidates, selected)
  {
    SelectedDistinct(entry, candidates, exit, picks, selected);
    TruncatedDistinct(selected, exit, n);
    PicksInPool(entry, candidates, picks, selected);
  }

  lemma ChainOf(entry: ProxyNode, candidates: seq<ProxyNode>, enforce: bool, selected: seq<ProxyNode>, exit: ProxyNode, n: nat)
    requires 1 <= n <= |selected| && selected[0] == entry && exit in candidates && exit.isExit
    requires HopsFrom(candidates, selected)
    requires DistinctEndpoints(selected[..n] + [exit]) && Fits(enforce, selected[..n] + [exit])
    ensures BridgeChain(entry, candidates, enforce, selected[..n] + [exit])
  {
  }

  /** No chain that ends in `exit` is long enough. */
  ghost predicate NoneEndsIn(entry: ProxyNode, candidates: seq<ProxyNode>, enforce: bool, minHops: nat, exit: ProxyNode) {
    forall c :: BridgeChain(entry, candidates, enforce, c) && c[|c| - 1] == exit ==> |c| < minHops
  }

  /** The attempt for one exit: the chain, or nothing when no chain ending in this exit
      reaches the minimum. */
  method BridgeChainFor(entry: ProxyNode, candidates: seq<ProxyNode>, enforce: bool, exit: ProxyNode, minHops: nat, limit: nat)
    returns (chain: seq<ProxyNode>)
    requires DistinctEndpoints(candidates)
    requires NotAmong(entry, candidates)
    requires exit in candidates && exit.isExit && 3 <= minHops <= limit
    ensures chain != [] ==> BridgeChain(entry, candidates, enforce, chain) && minHops <= |chain| <= limit
    ensures chain == [] ==> NoneEndsIn(entry, candidates, enforce, minHops, exit)
  {
    assert [entry] + [exit] == [entry, exit] == [entry] + Last(Some(exit));
    var compatible := CheckFits(enforce, [entry, exit]);
    if !compatible {
      IncompatibleExit(entry, candidates, enforce, minHops, exit);
      return [];
    }
    var middles := Filter(NotExit, candidates);
    var selected := FillMiddles([entry], middles, Some(exit), limit - 1, enforce);
    ghost var picks := GreedyMeaning(enforce, [entry], middles, Some(exit), limit - 1, |middles|);
    if |selected| + 1 < minHops {
      GreedyBridgeFails(entry, candidates, enforce, minHops, exit, picks, selected);
      return [];
    }
    var actual :| minHops <= actual <= |selected| + 1;
    FinishedBridge(entry, candidates, enforce, exit, picks, selected, actual);
    return selected[..actual - 1] + [exit];
  }

  lemma IncompatibleExit(entry: ProxyNode, candidates: seq<ProxyNode>, enforce: bool, minHops: nat, exit: ProxyNode)
    ensures Fits(enforce, [entry, exit]) || NoneEndsIn(entry, candidates, enforce, minHops, exit)
  {
    assert [entry] + [exit] == [entry, exit];
    forall c | BridgeChain(entry, candidates, enforce, c) && c[|c| - 1] == exit ensures Fits(enforce, [entry, exit]) {
      BridgeParts(entry, candidates, enforce, c);
      FitsDrop(enforce, [entry], Middles(c), [exit]);
    }
  }

  lemma GreedyBridgeFails(entry: ProxyNode, candidates: seq<ProxyNode>, enforce: bool, minHops: nat, exit: ProxyNode,
                          picks: seq<nat>, selected: seq<ProxyNode>)
    requires Picked([entry], Filter(NotExit, candidates), picks, selected) && |selected| + 1 < minHops
    requires Exhausted(enforce, Filter(NotExit, candidates), |Filter(NotExit, candidates)|, selected, Some(exit))
    ensures NoneEndsIn(entry, candidates, enforce, minHops, exit)
  {
    forall c | BridgeChain(entry, candidates, enforce, c) && c[|c| - 1] == exit ensures |c| < minHops {
      NoLongerBridgeChain(entry, candidates, enforce, exit, picks, selected, c);
    }
  }

  /** Greedy completeness: for this entry, the selection comes back empty exactly when no
      exit and enough non-exit candidates form a chain at all; otherwise what it returns is
      such a chain within the bounds. */
  method SelectBridgeChain(entry: ProxyNode, candidates: seq<ProxyNode>, enforce: bool, minHops: nat, maxHops: nat)
    returns (chain: seq<ProxyNode>)
    requires DistinctEndpoints(candidates)
    requires NotAmong(entry, candidates)
    requires 3 <= minHops <= maxHops
    ensures chain != [] ==> BridgeChain(entry, candidates, enforce, chain) && minHops <= |chain| <= maxHops
    ensures chain == [] <==> !exists c :: BridgeChain(entry, candidates, enforce, c) && minHops <= |c|
  {
    var inner := |Filter(NotExit, candidates)|;
    var ceiling := if maxHops < inner + 2 then maxHops else inner + 2;
    if ceiling < minHops {
      forall c | BridgeChain(entry, candidates, enforce, c) ensures |c| < minHops {
        BridgeChainBound(entry, candidates, enforce, c);
      }
      return [];
    }
    var exits := Filter(IsExit, candidates);
    forall i | 0 <= i < |exits| ensures exits[i] in candidates && exits[i].isExit {
      assert exits[i] in exits;
    }
    chain := TryExits(entry, candidates, enforce, minHops, ceiling, exits);
    if chain == [] {
      forall c | BridgeChain(entry, candidates, enforce, c) ensures |c| < minHops {
        EveryExitFails(entry, candidates, enforce, minHops, exits, c);
      }
    }
  }

  /** The loop over the exits. */
  method TryExits(entry: ProxyNode, candidates: seq<ProxyNode>, enforce: bool, minHops: nat, ceiling: nat, exits: seq<ProxyNode>)
    returns (chain: seq<ProxyNode>)
    requires DistinctEndpoints(candidates) && NotAmong(entry, candidates) && 3 <= minHops <= ceiling
    requires forall i :: 0 <= i < |exits| ==> exits[i] in candidates && exits[i].isExit
    ensures chain != [] ==> BridgeChain(entry, candidates, enforce, chain) && minHops <= |chain| <= ceiling
    ensures chain == [] ==> NoneEndsInAny(entry, candidates, enforce, minHops, exits, |exits|)
  {
    for k := 0 to |exits|
      invariant NoneEndsInAny(entry, candidates, enforce, minHops, exits, k)
    {
      chain := BridgeChainFor(entry, candidates, enforce, exits[k], minHops, ceiling);
      if chain != [] {
        return;
      }
    }
    return [];
  }

  ghost predicate NoneEndsInAny(entry: ProxyNode, candidates: seq<ProxyNode>, enforce: bool, minHops: nat,
                                exits: seq<ProxyNode>, k: nat)
    requires k <= |exits|
  {
    forall i :: 0 <= i < k ==> NoneEndsIn(entry, candidates, enforce, minHops, exits[i])
  }

  lemma EveryExitFails(entry: ProxyNode, candidates: seq<ProxyNode>, enforce: bool, minHops: nat,
                       exits: seq<ProxyNode>, c: seq<ProxyNode>)
    requires exits == Filter(IsExit, candidates) && NoneEndsInAny(entry, candidates, enforce, minHops, exits, |exits|)
    requires BridgeChain(entry, candidates, enforce, c)
    ensures |c| < minHops
  {
    assert c[|c| - 1] in exits;
    var i :| 0 <= i < |exits| && exits[i] == c[|c| - 1];
  }

  // ---- the handshake's demands ----

  /** `get_identity_keys`: a hop's recorded pin, and zero for an unknown hop or an expired
      directory. */
  function PinsFor(keys: Keys, expired: bool, chain: seq<ProxyNode>): (pins: seq<Pin>)
    ensures |pins| == |chain|
    ensures expired ==> forall i :: 0 <= i < |chain| ==> pins[i] == ZeroPin
    ensures !expired ==> forall i :: 0 <= i < |chain| ==>
      if At(chain[i]) in keys then pins[i] == keys[At(chain[i])] else pins[i] == ZeroPin
  {
    seq(|chain|, i requires 0 <= i < |chain| =>
      if !expired && At(chain[i]) in keys then keys[At(chain[i])] else ZeroPin)
  }

  /** The checks with which `negotiate_telescopic_hops` begins. */
  predicate HandshakeAccepts(chain: seq<ProxyNode>, pins: seq<Pin>) {
    && 3 <= |chain| <= MAX_HOPS && |pins| == |chain|
    && (forall i, j :: 0 <= i < j < |pins| ==> pins[i] != pins[j])
    && DistinctEndpoints(chain) && ZeroPin !in pins
  }

  /** The handshake accepts exactly three to eight hops at different addresses whose pins are all
      known and different. */
  lemma HandshakeExactly(chain: seq<ProxyNode>, pins: seq<Pin>)
    ensures HandshakeAccepts(chain, pins) <==>
      && 3 <= |chain| <= 8 && |pins| == |chain|
      && (forall i :: 0 <= i < |pins| ==> pins[i] != ZeroPin)
      && (forall i, j :: 0 <= i < |pins| && 0 <= j < |pins| && i != j ==> pins[i] != pins[j])
      && (forall i, j :: 0 <= i < |chain| && 0 <= j < |chain| && i != j ==>
            chain[i].host != chain[j].host || chain[i].port != chain[j].port)
  {
  }

  /** Path soundness to handshake: on a directory-loaded pool that has not expired, every
      chain of three to eight hops the builder can return passes the handshake's checks. */
  lemma OnionChainPassesHandshake(nodes: Nodes, keys: Keys, revoked: set<Pin>, cooldowns: map<Pin, nat>, now: nat,
                                  enforce: bool, minHops: nat, maxHops: nat, chain: seq<ProxyNode>)
    requires DirectoryPool(nodes, keys, revoked) && 3 <= minHops && maxHops <= MAX_HOPS
    requires OnionChain(Healthy(nodes, keys, cooldowns, now), enforce, minHops, maxHops, chain)
    ensures HandshakeAccepts(chain, PinsFor(keys, false, chain))
    ensures !HandshakeAccepts(chain, PinsFor(keys, true, chain))
  {
    var pins := PinsFor(keys, false, chain);
    forall i | 0 <= i < |chain| ensures At(chain[i]) in keys && pins[i] == keys[At(chain[i])] {
    }
    forall i, j | 0 <= i < j < |chain| ensures pins[i] != pins[j] {
      assert At(chain[i]) != At(chain[j]);
    }
    assert PinsFor(keys, true, chain)[0] == ZeroPin;
  }

  /** An independently provisioned entry. */
  datatype Binding = Binding(identity: Pin, bridge: Endpoint)

  predicate EligibleHop(keys: Keys, bindings: seq<Binding>, n: ProxyNode) {
    && n.isAlive && At(n) in keys && keys[At(n)] != ZeroPin
    && forall i :: 0 <= i < |bindings| ==> bindings[i].identity != keys[At(n)] && bindings[i].bridge.host != n.host
  }

  /** A private bridge chain passes too, once the entry's own pin is put in front. */
  lemma BridgeChainPassesHandshake(nodes: Nodes, keys: Keys, revoked: set<Pin>, bindings: seq<Binding>, b: nat,
                                   entry: ProxyNode, candidates: seq<ProxyNode>, enforce: bool, chain: seq<ProxyNode>)
    requires DirectoryPool(nodes, keys, revoked) && b < |bindings| && bindings[b].identity != ZeroPin
    requires forall i :: 0 <= i < |candidates| ==> EligibleHop(keys, bindings, candidates[i])
    requires BridgeChain(entry, candidates, enforce, chain) && 3 <= |chain| <= MAX_HOPS
    ensures HandshakeAccepts(chain, PinsFor(keys, false, chain)[0 := bindings[b].identity])
  {
  }

  /** The node is in the pool, alive, and its pin, if known, is not cooling down. */
  ghost predicate InService(nodes: Nodes, keys: Keys, cooldowns: map<Pin, nat>, now: nat, n: ProxyNode) {
    && At(n) in nodes && nodes[At(n)] == n && n.isAlive
    && (At(n) in keys && keys[At(n)] in cooldowns ==> cooldowns[keys[At(n)]] <= now)
  }

  ghost predicate AllInService(nodes: Nodes, keys: Keys, cooldowns: map<Pin, nat>, now: nat, chain: seq<ProxyNode>) {
    forall i :: 0 <= i < |chain| ==> InService(nodes, keys, cooldowns, now, chain[i])
  }

  lemma HealthyInService(nodes: Nodes, keys: Keys, cooldowns: map<Pin, nat>, now: nat, q: Request, chain: seq<ProxyNode>)
    requires OnionChain(Healthy(nodes, keys, cooldowns, now), q.enforce, q.minHops, q.maxHops, chain)
    ensures AllInService(nodes, keys, cooldowns, now, chain)
  {
    forall i | 0 <= i < |chain| ensures InService(nodes, keys, cooldowns, now, chain[i]) {
      HealthyExactly(nodes, keys, cooldowns, now, At(chain[i]));
    }
  }

  /** A hop that may follow a bridge: alive, with a known pin, and sharing neither pin nor host
      with any binding. */
  ghost predicate FollowsBridges(keys: Keys, bindings: seq<Binding>, n: ProxyNode) {
    && n.isAlive && At(n) in keys && keys[At(n)].Pin?
    && forall b :: b in bindings ==> keys[At(n)] != b.identity && n.host != b.bridge.host
  }

  lemma EligibleHopExactly(keys: Keys, bindings: seq<Binding>, n: ProxyNode)
    ensures EligibleHop(keys, bindings, n) <==> FollowsBridges(keys, bindings, n)
  {
    if EligibleHop(keys, bindings, n) {
      forall b | b in bindings ensures keys[At(n)] != b.identity && n.host != b.bridge.host {
        var i :| 0 <= i < |bindings| && bindings[i] == b;
      }
    }
  }

  /** The client's circuit builder over one pool. */
  class CircuitPlanner {
    const pool: ClientLoad.ProxyPool
    var cooldowns: map<Pin, nat>
    var guardState: GuardState

    constructor (pool: ClientLoad.ProxyPool, guardState: GuardState)
      ensures this.pool == pool && this.guardState == guardState && cooldowns == map[]
    {
      this.pool, this.guardState, cooldowns := pool, guardState, map[];
    }

    /** The guard set is filled once, and only if it can be saved. */
    method EnsureGuards(middles: seq<ProxyNode>, entryPins: seq<Pin>, saved: bool) returns (ok: bool)
      modifies this`guardState
      ensures ok == (old(guardState.guards) != [] || saved)
      ensures guardState == OnionGuards(old(guardState), pool.identityKeys, entryPins, middles, saved)
    {
      if guardState.guards != [] {
        return true;
      }
      if !saved {
        return false;
      }
      guardState := SeedGuards(guardState, Seeds(pool.identityKeys, entryPins, middles), pool.identityKeys);
      return true;
    }

    ghost function OnionView(now: nat, saved: bool): View
      reads this, pool
    {
      View(Healthy(pool.nodes, pool.identityKeys, cooldowns, now), pool.identityKeys, guardState, saved)
    }

    /** `get_onion_chain_with_entry_pins` with an exit required last: exactly one of the possible
        answers, and the guard set that goes with it, for the healthy nodes in some order; an
        expired directory yields nothing and changes nothing. */
    method GetOnionChain(q: Request, wall: nat, now: nat, saved: bool)
      returns (chain: seq<ProxyNode>, ghost order: seq<ProxyNode>)
      requires Keyed(pool.nodes)
      modifies this`guardState
      ensures pool.consensusDeadline != 0 && wall >= pool.consensusDeadline ==> chain == [] && guardState == old(guardState)
      ensures pool.consensusDeadline == 0 || wall < pool.consensusDeadline ==>
        && ListsTable(old(OnionView(now, saved)).healthy, order)
        && Answers(old(OnionView(now, saved)), q, order, chain)
        && guardState == GuardsAfter(old(OnionView(now, saved)), q, order)
      ensures SoundAnswer(old(OnionView(now, saved)), q, order, chain)
      ensures AllInService(pool.nodes, pool.identityKeys, cooldowns, now, chain)
    {
      if pool.consensusDeadline != 0 && wall >= pool.consensusDeadline {
        return [], [];
      }
      ghost var v := OnionView(now, saved);
      var healthy := Healthy(pool.nodes, pool.identityKeys, cooldowns, now);
      chain, order := AnswerOnion(q, healthy, saved);
      AnswerIsSound(v, q, order, chain);
      if chain != [] {
        HealthyInService(pool.nodes, pool.identityKeys, cooldowns, now, q, chain);
      }
    }

    /** The builder on the healthy nodes. */
    method AnswerOnion(q: Request, healthy: Nodes, saved: bool) returns (chain: seq<ProxyNode>, ghost order: seq<ProxyNode>)
      requires Keyed(healthy)
      modifies this`guardState
      ensures
        var v := View(healthy, pool.identityKeys, old(guardState), saved);
        ListsTable(healthy, order) && Answers(v, q, order, chain) && guardState == GuardsAfter(v, q, order)
    {
      var shuffled := Shuffle(healthy);
      order := shuffled;
      if q.minHops == 0 || q.maxHops < q.minHops || |healthy| < q.minHops {
        return [], order;
      }
      var exits, middles := Filter(IsExit, shuffled), Filter(NotExit, shuffled);
      if exits == [] {
        return [], order;
      }
      var capacity := |middles| + 1;
      var ceiling := if q.maxHops <= capacity then q.maxHops else capacity;
      if q.minHops > ceiling || q.maxHops > MAX_HOPS {
        return [], order;
      }
      var middleCount := ceiling - 1;
      if middleCount == 0 {
        chain := CompleteChain([], middles, exits, q.enforce, q.minHops, 0);
      } else {
        chain := ChainThroughGuard(q, healthy, shuffled, middleCount, saved);
      }
    }

    /** The guarded part: fill the guard set if it is empty, find a guard, complete the chain. */
    method ChainThroughGuard(q: Request, ghost healthy: Nodes, order: seq<ProxyNode>, middleCount: nat, saved: bool)
      returns (chain: seq<ProxyNode>)
      requires NeedsGuard(View(healthy, pool.identityKeys, guardState, saved), q, order) && middleCount == MiddleCount(q, order)
      modifies this`guardState
      ensures
        var v := View(healthy, pool.identityKeys, old(guardState), saved);
        guardState == GuardsAfter(v, q, order) && GuardedAnswers(v, q, order, chain)
    {
      var middles := Filter(NotExit, order);
      var ready := EnsureGuards(middles, q.entryPins, saved);
      if !ready {
        return [];
      }
      var guard := FindGuard(guardState, pool.identityKeys, q.entryPins, middles);
      if guard.None? {
        return [];
      }
      chain := CompleteChain([guard.value], Rest(guard.value, middles), Filter(IsExit, order), q.enforce, q.minHops, middleCount);
      assert AnswersThrough(q, order, guard.value, chain);
    }

    /** The first recorded guard that a binding can serve as. */
    method FindBinding(bindings: seq<Binding>, now: nat) returns (found: Option<Binding>)
      ensures found.None? <==> NoneServes(guardState, cooldowns, now, bindings, |guardState.guards|)
      ensures found.Some? ==> found.value in bindings && FirstServed(guardState, cooldowns, now, bindings, found.value)
    {
      for g := 0 to |guardState.guards|
        invariant NoneServes(guardState, cooldowns, now, bindings, g)
      {
        for b := 0 to |bindings|
          invariant forall c :: 0 <= c < b ==> !ServesAs(guardState, cooldowns, now, guardState.guards[g], bindings[c])
        {
          if ServesAs(guardState, cooldowns, now, guardState.guards[g], bindings[b]) {
            return Some(bindings[b]);
          }
        }
      }
      return None;
    }

    /** Fills an empty guard set from the bindings, if it can be saved, and picks the entry. */
    method PickEntry(bindings: seq<Binding>, now: nat, saved: bool) returns (entry: Option<ProxyNode>)
      modifies this`guardState
      ensures guardState == BridgeGuards(old(guardState), bindings, saved)
      ensures entry.None? <==> guardState.guards == [] || NoneServes(guardState, cooldowns, now, bindings, |guardState.guards|)
      ensures entry.Some? ==> ServedEntry(guardState, cooldowns, now, bindings, entry.value)
    {
      if guardState.guards == [] {
        if !saved {
          return None;
        }
        guardState := SeedBindings(guardState, FirstThree(bindings));
      }
      var binding := FindBinding(bindings, now);
      if binding.None? {
        return None;
      }
      return Some(ProxyNode(binding.value.bridge.host, binding.value.bridge.port, false, true));
    }

    /** The eligible hops in an arbitrary order. */
    method BridgeCandidates(bindings: seq<Binding>) returns (order: seq<ProxyNode>)
      requires Keyed(pool.nodes)
      ensures DistinctEndpoints(order)
      ensures forall n :: n in order <==> n in pool.nodes.Values && EligibleHop(pool.identityKeys, bindings, n)
    {
      var eligible := map e | e in pool.nodes && EligibleHop(pool.identityKeys, bindings, pool.nodes[e]) :: pool.nodes[e];
      order := Shuffle(eligible);
      forall n | n in pool.nodes.Values && EligibleHop(pool.identityKeys, bindings, n) ensures n in order {
        var e :| e in pool.nodes && pool.nodes[e] == n;
        assert eligible[e] == n;
      }
    }

    /** `get_private_bridge_chain_with_bounds`. For the entry it picks, a binding recorded as
        guard under its pin and not cooling down, it comes back empty exactly when no chain of
        at least `minHops` hops exists over the eligible nodes. */
    method GetPrivateBridgeChain(bindings: seq<Binding>, enforce: bool, minHops: nat, maxHops: nat,
                                 wall: nat, now: nat, saved: bool)
      returns (chain: seq<ProxyNode>, ghost entry: Option<ProxyNode>, ghost candidates: seq<ProxyNode>)
      requires Keyed(pool.nodes)
      modifies this`guardState
      ensures entry.None? ==> chain == []
      ensures
        var usable := 3 <= minHops <= maxHops <= MAX_HOPS && wall < pool.consensusDeadline
                      && |bindings| > 0 && (forall b :: b in bindings ==> b.identity !in pool.revoked);
        && guardState == (if usable then BridgeGuards(old(guardState), bindings, saved) else old(guardState))
        && (entry.None? <==>
              !usable || guardState.guards == [] || NoneServes(guardState, cooldowns, now, bindings, |guardState.guards|))
      ensures entry.Some? ==>
        && ServedEntry(guardState, cooldowns, now, bindings, entry.value)
        && RecordedBridge(guardState, cooldowns, now, bindings, entry.value)
        && (forall n :: n in candidates <==> n in pool.nodes.Values && FollowsBridges(pool.identityKeys, bindings, n))
        && (chain == [] <==> !exists c :: BridgeChain(entry.value, candidates, enforce, c) && minHops <= |c|)
      ensures chain != [] ==>
        BridgeChain(entry.value, candidates, enforce, chain) && 3 <= minHops <= |chain| <= maxHops <= MAX_HOPS
    {
      entry, candidates := None, [];
      if minHops < 3 || maxHops < minHops || maxHops > MAX_HOPS {
        return [], entry, candidates;
      }
      if bindings == [] || (exists b :: 0 <= b < |bindings| && bindings[b].identity in pool.revoked)
         || pool.consensusDeadline == 0 || wall >= pool.consensusDeadline {
        return [], entry, candidates;
      }
      var first := PickEntry(bindings, now, saved);
      if first.None? {
        return [], entry, candidates;
      }
      var order := BridgeCandidates(bindings);
      EntryApart(pool.identityKeys, bindings, guardState, cooldowns, now, first.value, order);
      entry, candidates := first, order;
      EntryRecorded(guardState, cooldowns, now, bindings, first.value);
      forall n ensures EligibleHop(pool.identityKeys, bindings, n) <==> FollowsBridges(pool.identityKeys, bindings, n) {
        EligibleHopExactly(pool.identityKeys, bindings, n);
      }
      chain := SelectBridgeChain(first.value, order, enforce, minHops, maxHops);
    }
  }

  predicate ServesAs(state: GuardState, cooldowns: map<Pin, nat>, now: nat, g: Endpoint, b: Binding) {
    && g == b.bridge && g in state.identities && state.identities[g] == b.identity
    && !(b.identity in cooldowns && cooldowns[b.identity] > now)
  }

  /** No binding serves as any of the first `g` recorded guards. */
  ghost predicate NoneServes(state: GuardState, cooldowns: map<Pin, nat>, now: nat, bindings: seq<Binding>, g: nat)
    requires g <= |state.guards|
  {
    forall h, b :: 0 <= h < g && 0 <= b < |bindings| ==> !ServesAs(state, cooldowns, now, state.guards[h], bindings[b])
  }

  /** The binding serves as the earliest recorded guard that any binding can serve as: under its
      own pin, and not cooling down. */
  ghost predicate FirstServed(state: GuardState, cooldowns: map<Pin, nat>, now: nat, bindings: seq<Binding>, b: Binding) {
    exists g :: 0 <= g < |state.guards| && ServesAs(state, cooldowns, now, state.guards[g], b)
                && NoneServes(state, cooldowns, now, bindings, g)
  }

  /** The entry is a live, non-exit node at the endpoint of that binding. */
  ghost predicate ServedEntry(state: GuardState, cooldowns: map<Pin, nat>, now: nat, bindings: seq<Binding>, entry: ProxyNode) {
    && !entry.isExit && entry.isAlive
    && exists b :: b in bindings && FirstServed(state, cooldowns, now, bindings, b) && At(entry) == b.bridge
  }

  /** The entry is the endpoint of a binding whose identity is recorded for it as a guard, and
      which is not cooling down. */
  ghost predicate RecordedBridge(state: GuardState, cooldowns: map<Pin, nat>, now: nat, bindings: seq<Binding>, entry: ProxyNode) {
    exists b :: b in bindings && entry.host == b.bridge.host && entry.port == b.bridge.port && Recorded(state, cooldowns, now, b)
  }

  ghost predicate Recorded(state: GuardState, cooldowns: map<Pin, nat>, now: nat, b: Binding) {
    && b.bridge in state.guards && b.bridge in state.identities && state.identities[b.bridge] == b.identity
    && (b.identity in cooldowns ==> cooldowns[b.identity] <= now)
  }

  lemma EntryRecorded(state: GuardState, cooldowns: map<Pin, nat>, now: nat, bindings: seq<Binding>, entry: ProxyNode)
    requires ServedEntry(state, cooldowns, now, bindings, entry)
    ensures RecordedBridge(state, cooldowns, now, bindings, entry)
  {
    var b :| b in bindings && FirstServed(state, cooldowns, now, bindings, b) && At(entry) == b.bridge;
    var g :| 0 <= g < |state.guards| && ServesAs(state, cooldowns, now, state.guards[g], b);
    assert state.guards[g] in state.guards && Recorded(state, cooldowns, now, b);
  }

  /** No entry is found exactly when no binding is recorded as a guard under its own identity, or
      all that are, are cooling down. */
  lemma NoneServesExactly(state: GuardState, cooldowns: map<Pin, nat>, now: nat, bindings: seq<Binding>)
    ensures NoneServes(state, cooldowns, now, bindings, |state.guards|) <==>
            forall b :: b in bindings ==> !Recorded(state, cooldowns, now, b)
  {
    if b :| b in bindings && Recorded(state, cooldowns, now, b) {
      var i :| 0 <= i < |bindings| && bindings[i] == b;
      var g :| 0 <= g < |state.guards| && state.guards[g] == b.bridge;
      assert ServesAs(state, cooldowns, now, state.guards[g], bindings[i]);
    } else {
      forall h, b | 0 <= h < |state.guards| && 0 <= b < |bindings|
        ensures !ServesAs(state, cooldowns, now, state.guards[h], bindings[b])
      {
        assert bindings[b] in bindings && state.guards[h] in state.guards;
        assert !Recorded(state, cooldowns, now, bindings[b]);
      }
    }
  }

  /** The guard set is filled once and only if it can be saved: with the endpoints of the first
      three bindings, each with an identity bound to it. */
  lemma NewBridgeGuards(state: GuardState, bindings: seq<Binding>, saved: bool)
    ensures
      var after, n := BridgeGuards(state, bindings, saved), if |bindings| < 3 then |bindings| else 3;
      if state.guards != [] || !saved then after == state
      else
        && |after.guards| == n
        && (forall i :: 0 <= i < n ==> after.guards[i] == bindings[i].bridge)
        && forall i :: 0 <= i < n ==> BoundIn(after, bindings, n, bindings[i].bridge)
  {
    if state.guards == [] && saved {
      var firsts, after := FirstThree(bindings), BridgeGuards(state, bindings, saved);
      BindingsSeeded(state, firsts);
      forall i | 0 <= i < |firsts| ensures BoundIn(after, bindings, |firsts|, bindings[i].bridge) {
        SeededBound(state, firsts, firsts[i].bridge);
        assert firsts == bindings[..|firsts|];
        BoundWithin(after, bindings, |firsts|, bindings[i].bridge);
      }
    }
  }

  lemma BoundWithin(s: GuardState, bindings: seq<Binding>, n: nat, e: Endpoint)
    requires n <= |bindings| && BoundIn(s, bindings[..n], n, e)
    ensures BoundIn(s, bindings, n, e)
  {
    var j :| 0 <= j < n && bindings[..n][j].bridge == e && s.identities[e] == bindings[..n][j].identity;
    assert bindings[j] == bindings[..n][j];
  }

  /** The endpoint has the identity of one of the first `n` bindings with that endpoint. */
  ghost predicate BoundIn(state: GuardState, bindings: seq<Binding>, n: nat, e: Endpoint) {
    e in state.identities &&
    exists j :: 0 <= j < n && j < |bindings| && bindings[j].bridge == e && state.identities[e] == bindings[j].identity
  }

  lemma {:induction false} BindingsSeeded(state: GuardState, bindings: seq<Binding>)
    ensures
      var s := SeedBindings(state, bindings);
      && |s.guards| == |state.guards| + |bindings|
      && (forall i :: 0 <= i < |state.guards| ==> s.guards[i] == state.guards[i])
      && (forall i :: 0 <= i < |bindings| ==> s.guards[|state.guards| + i] == bindings[i].bridge)
    decreases |bindings|
  {
    if bindings != [] {
      var b := bindings[0];
      BindingsSeeded(GuardState(state.guards + [b.bridge], state.identities[b.bridge := b.identity]), bindings[1..]);
    }
  }

  lemma BoundLater(s: GuardState, bindings: seq<Binding>, e: Endpoint)
    requires bindings != [] && BoundIn(s, bindings[1..], |bindings| - 1, e)
    ensures BoundIn(s, bindings, |bindings|, e)
  {
    var j :| 0 <= j < |bindings| - 1 && bindings[1..][j].bridge == e && s.identities[e] == bindings[1..][j].identity;
    assert bindings[j + 1] == bindings[1..][j];
  }

  /** Seeding keeps or rebinds an endpoint, and binds every endpoint it seeds. */
  lemma {:induction false} SeededBound(state: GuardState, bindings: seq<Binding>, e: Endpoint)
    ensures
      var s := SeedBindings(state, bindings);
      || BoundIn(s, bindings, |bindings|, e)
      || (&& (e in s.identities <==> e in state.identities) && (e in s.identities ==> s.identities[e] == state.identities[e])
          && forall i :: 0 <= i < |bindings| ==> bindings[i].bridge != e)
    decreases |bindings|
  {
    if bindings != [] {
      var b, rest := bindings[0], bindings[1..];
      var next := GuardState(state.guards + [b.bridge], state.identities[b.bridge := b.identity]);
      SeededBound(next, rest, e);
      if BoundIn(SeedBindings(next, rest), rest, |rest|, e) {
        BoundLater(SeedBindings(next, rest), bindings, e);
      } else if b.bridge == e {
        assert BoundIn(SeedBindings(next, rest), bindings, |bindings|, e);
      } else {
        assert forall i :: 0 < i < |bindings| ==> bindings[i] == rest[i - 1];
      }
    }
  }

  lemma EntryApart(keys: Keys, bindings: seq<Binding>, state: GuardState, cooldowns: map<Pin, nat>, now: nat,
                   entry: ProxyNode, order: seq<ProxyNode>)
    requires ServedEntry(state, cooldowns, now, bindings, entry)
    requires forall n :: n in order ==> EligibleHop(keys, bindings, n)
    ensures NotAmong(entry, order)
  {
    var b :| b in bindings && FirstServed(state, cooldowns, now, bindings, b) && At(entry) == b.bridge;
    forall i | 0 <= i < |order| ensures At(order[i]) != At(entry) {
      assert EligibleHop(keys, bindings, order[i]);
      assert b.bridge.host != order[i].host;
    }
  }

  /** An empty guard set is filled from the first three bindings, if it can be saved. */
  function BridgeGuards(state: GuardState, bindings: seq<Binding>, saved: bool): GuardState {
    if state.guards == [] && saved then SeedBindings(state, FirstThree(bindings)) else state
  }

  function SeedBindings(state: GuardState, bindings: seq<Binding>): GuardState
    decreases bindings
  {
    if bindings == [] then state
    else
      var b := bindings[0];
      SeedBindings(GuardState(state.guards + [b.bridge], state.identities[b.bridge := b.identity]), bindings[1..])
  }
}
