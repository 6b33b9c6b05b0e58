/** When the onion builder (src/mesh/pool.rs) can return nothing: it records guards and reserves
    an exit as the shuffle offers them and never goes back. */
module OnionFailures {
  import opened Prelude
  import opened Identity
  import opened Diversity
  import opened ClientPool
  import opened Paths
  import opened Onions

  ghost predicate SameMembers(a: seq<ProxyNode>, b: seq<ProxyNode>) {
    forall n :: n in a <==> n in b
  }

  lemma ListingsAgree(nodes: Nodes, a: seq<ProxyNode>, b: seq<ProxyNode>)
    requires ListsTable(nodes, a) && ListsTable(nodes, b)
    ensures SameMembers(Filter(NotExit, a), Filter(NotExit, b)) && SameMembers(Filter(IsExit, a), Filter(IsExit, b))
    ensures |Filter(NotExit, a)| == |Filter(NotExit, b)|
  {
    assert SameMembers(a, b);
    SplitPool(a);
    SplitPool(b);
    NoLonger(Filter(NotExit, a), Filter(NotExit, b));
    NoLonger(Filter(NotExit, b), Filter(NotExit, a));
  }

  lemma NoLonger(a: seq<ProxyNode>, b: seq<ProxyNode>)
    requires DistinctEndpoints(a) && SameMembers(a, b)
    ensures |a| <= |b|
  {
    forall i | 0 <= i < |a| ensures At(a[i]) in Images(At, b) {
      assert a[i] in b;
      var j :| 0 <= j < |b| && b[j] == a[i];
    }
    InjectiveBound(At, a, b);
  }

  lemma SameBounds(v: View, q: Request, order: seq<ProxyNode>, order': seq<ProxyNode>)
    requires ListsTable(v.healthy, order) && ListsTable(v.healthy, order')
    ensures InBounds(v, q, order) <==> InBounds(v, q, order')
    ensures 1 <= q.maxHops ==> MiddleCount(q, order) == MiddleCount(q, order')
  {
    ListingsAgree(v.healthy, order, order');
    var exits, exits' := Filter(IsExit, order), Filter(IsExit, order');
    assert exits != [] ==> exits[0] in exits';
    assert exits' != [] ==> exits'[0] in exits;
  }

  /** Whether a chain can be completed depends on the nodes, not on their order. */
  lemma StuckSame(start: seq<ProxyNode>, pool: seq<ProxyNode>, exits: seq<ProxyNode>,
                  pool': seq<ProxyNode>, exits': seq<ProxyNode>, enforce: bool, minHops: nat)
    requires SameMembers(pool, pool') && SameMembers(exits, exits') && Stuck(start, pool, exits, enforce, minHops)
    ensures Stuck(start, pool', exits', enforce, minHops)
  {
    if i :| 0 <= i < |exits| && TooShort(start, pool, exits[i], enforce, minHops) {
      TooShortSame(start, pool, pool', exits[i], enforce, minHops);
      assert exits[i] in exits';
      var j :| 0 <= j < |exits'| && exits'[j] == exits[i];
    } else {
      forall j | 0 <= j < |exits'| ensures !Fits(enforce, start + [exits'[j]]) {
        assert exits'[j] in exits;
        var i :| 0 <= i < |exits| && exits[i] == exits'[j];
      }
    }
  }

  lemma TooShortSame(start: seq<ProxyNode>, pool: seq<ProxyNode>, pool': seq<ProxyNode>,
                     exit: ProxyNode, enforce: bool, minHops: nat)
    requires SameMembers(pool, pool') && TooShort(start, pool, exit, enforce, minHops)
    ensures TooShort(start, pool', exit, enforce, minHops)
  {
    forall others | Fills(start, pool', exit, enforce, others) ensures |start| + |others| + 1 < minHops {
      assert Fills(start, pool, exit, enforce, others);
    }
  }

  lemma FirstGuardSame(state: GuardState, keys: Keys, entryPins: seq<Pin>, pool: seq<ProxyNode>, pool': seq<ProxyNode>,
                       n: ProxyNode)
    requires SameMembers(pool, pool') && FirstGuard(state, keys, entryPins, pool, n)
    ensures FirstGuard(state, keys, entryPins, pool', n)
  {
    var g :| 0 <= g < |state.guards| && GuardMatches(state, keys, entryPins, state.guards[g], n)
             && NoGuardBefore(state, keys, entryPins, pool, g);
    forall j, i | 0 <= j < g && 0 <= i < |pool'| ensures !GuardMatches(state, keys, entryPins, state.guards[j], pool'[i]) {
      assert pool'[i] in pool;
      var k :| 0 <= k < |pool| && pool[k] == pool'[i];
    }
  }

  /** Either no node serves as any of the first `g` guards, or some node serves as the earliest. */
  lemma {:induction false} SomeFirstGuard(state: GuardState, keys: Keys, entryPins: seq<Pin>, pool: seq<ProxyNode>, g: nat)
    requires g <= |state.guards|
    ensures NoGuardBefore(state, keys, entryPins, pool, g) ||
            exists n :: n in pool && FirstGuard(state, keys, entryPins, pool, n)
  {
    if g > 0 {
      SomeFirstGuard(state, keys, entryPins, pool, g - 1);
      if i :| 0 <= i < |pool| && GuardMatches(state, keys, entryPins, state.guards[g - 1], pool[i]) {
        assert pool[i] in pool;
        assert NoGuardBefore(state, keys, entryPins, pool, g - 1) ==> FirstGuard(state, keys, entryPins, pool, pool[i]);
      }
    }
  }

  lemma NoneServesExactly(state: GuardState, keys: Keys, entryPins: seq<Pin>, pool: seq<ProxyNode>)
    ensures NoGuardBefore(state, keys, entryPins, pool, |state.guards|) <==>
            forall n :: !(n in pool && FirstGuard(state, keys, entryPins, pool, n))
  {
    SomeFirstGuard(state, keys, entryPins, pool, |state.guards|);
    forall n | n in pool && FirstGuard(state, keys, entryPins, pool, n)
      ensures !NoGuardBefore(state, keys, entryPins, pool, |state.guards|)
    {
      var i :| 0 <= i < |pool| && pool[i] == n;
    }
  }

  lemma FoundUnique(state: GuardState, keys: Keys, entryPins: seq<Pin>, pool: seq<ProxyNode>, a: ProxyNode, b: ProxyNode)
    requires FoundGuard(state, keys, entryPins, pool, a) && FoundGuard(state, keys, entryPins, pool, b)
    ensures a == b && !NoGuardBefore(state, keys, entryPins, pool, |state.guards|)
  {
    var g: nat, i: nat :| FoundAt(state, keys, entryPins, pool, g, i) && pool[i] == a;
    var h: nat, j: nat :| FoundAt(state, keys, entryPins, pool, h, j) && pool[j] == b;
    assert g == h;
  }

  /** For one order and the guard found in it: the builder fails exactly when no exit fits after
      the guard, or the first that fits leaves too few hops. */
  lemma OrderFailsExactly(v: View, q: Request, order: seq<ProxyNode>, g: ProxyNode)
    requires ListsTable(v.healthy, order) && NeedsGuard(v, q, order)
    requires FoundGuard(GuardsAfter(v, q, order), v.keys, q.entryPins, Filter(NotExit, order), g)
    ensures Answers(v, q, order, []) <==>
      var exit := FirstFit(q.enforce, [g], Filter(IsExit, order));
      exit.None? || TooShort([g], Rest(g, Filter(NotExit, order)), exit.value, q.enforce, q.minHops)
  {
    var middles, exits, after := Filter(NotExit, order), Filter(IsExit, order), GuardsAfter(v, q, order);
    FoundUnique(after, v.keys, q.entryPins, middles, g, g);
    forall n | FoundGuard(after, v.keys, q.entryPins, middles, n) ensures n == g {
      FoundUnique(after, v.keys, q.entryPins, middles, n, g);
    }
    assert Answers(v, q, order, []) <==> AnswersThrough(q, order, g, []);
    FoundIsFirst(after, v.keys, q.entryPins, middles, g);
    SplitPool(order);
    GuardApart(middles, exits, g);
    FailsExactly([g], Rest(g, middles), exits, q.enforce, q.minHops, MiddleCount(q, order));
  }

  /** What filling an empty guard set records. */
  lemma {:induction false} SeedsRecorded(state: GuardState, seeds: seq<ProxyNode>, keys: Keys)
    ensures
      var s := SeedGuards(state, seeds, keys);
      && |s.guards| == |state.guards| + |seeds|
      && (forall i :: 0 <= i < |state.guards| ==> s.guards[i] == state.guards[i])
      && (forall i :: 0 <= i < |seeds| ==> s.guards[|state.guards| + i] == At(seeds[i]))
      && (forall e :: e in state.identities ==> e in s.identities)
      && (forall e :: e in s.identities ==>
            (e in state.identities && s.identities[e] == state.identities[e]) || (e in keys && s.identities[e] == keys[e]))
      && (forall i :: 0 <= i < |seeds| && At(seeds[i]) in keys ==>
            At(seeds[i]) in s.identities && s.identities[At(seeds[i])] == keys[At(seeds[i])])
    decreases |seeds|
  {
    if seeds != [] {
      var e := At(seeds[0]);
      SeedsRecorded(GuardState(state.guards + [e], if e in keys then state.identities[e := keys[e]] else state.identities),
                    seeds[1..], keys);
    }
  }

  /** The guard set is filled once and only if it can be saved: with the endpoints of the first
      three middles, in the shuffle's order, whose pin is demanded, or of any if none is; each
      with its pin if that is known. */
  lemma NewGuardSet(state: GuardState, keys: Keys, entryPins: seq<Pin>, middles: seq<ProxyNode>, saved: bool)
    ensures
      var after := OnionGuards(state, keys, entryPins, middles, saved);
      var allowed := Filter((n: ProxyNode) => |entryPins| == 0 || (At(n) in keys && keys[At(n)] in entryPins), middles);
      if state.guards != [] || !saved then after == state
      else
        && |after.guards| == (if |allowed| < 3 then |allowed| else 3)
        && (forall i :: 0 <= i < |after.guards| ==> after.guards[i] == At(allowed[i]))
        && (forall i :: 0 <= i < |after.guards| && At(allowed[i]) in keys ==>
              At(allowed[i]) in after.identities && after.identities[At(allowed[i])] == keys[At(allowed[i])])
  {
    var allowed := Filter((n: ProxyNode) => |entryPins| == 0 || (At(n) in keys && keys[At(n)] in entryPins), middles);
    SameFilter((n: ProxyNode) => EntryAllowed(keys, entryPins, n),
               (n: ProxyNode) => |entryPins| == 0 || (At(n) in keys && keys[At(n)] in entryPins), middles);
    SeedsRecorded(state, Seeds(keys, entryPins, middles), keys);
  }

  lemma {:induction false} SameFilter(f: ProxyNode -> bool, g: ProxyNode -> bool, s: seq<ProxyNode>)
    requires forall x :: f(x) <==> g(x)
    ensures Filter(f, s) == Filter(g, s)
  {
    if s != [] {
      SameFilter(f, g, s[1..]);
    }
  }

  /** An empty guard set has no identities, as in every state the program itself writes. */
  ghost predicate Coherent(v: View) {
    v.state.guards == [] ==> v.state.identities == map[]
  }

  /** Whether `n`, once recorded as a guard, can serve as it. */
  predicate Servable(v: View, n: ProxyNode) {
    v.keys == map[] || At(n) in v.keys
  }

  /** Nodes that may enter a new guard set and can never serve as guards: no pin is known for
      them although pins are known for others. */
  function Unservable(v: View, q: Request, middles: seq<ProxyNode>): seq<ProxyNode> {
    Filter((n: ProxyNode) => EntryAllowed(v.keys, q.entryPins, n) && !Servable(v, n), middles)
  }

  /** The nodes that can turn out to be the guard: those that serve as the earliest guard of a
      recorded set, or any allowed, servable middle when the set is empty and can be saved. */
  ghost predicate MayGuard(v: View, q: Request, middles: seq<ProxyNode>, g: ProxyNode) {
    && g in middles
    && if v.state.guards == [] then v.saved && EntryAllowed(v.keys, q.entryPins, g) && Servable(v, g)
       else FirstGuard(v.state, v.keys, q.entryPins, middles, g)
  }

  ghost predicate NoneMayGuard(v: View, q: Request, middles: seq<ProxyNode>) {
    forall g :: !MayGuard(v, q, middles, g)
  }

  lemma MayGuardSame(v: View, q: Request, middles: seq<ProxyNode>, middles': seq<ProxyNode>, g: ProxyNode)
    requires SameMembers(middles, middles') && MayGuard(v, q, middles, g)
    ensures MayGuard(v, q, middles', g)
  {
    if v.state.guards != [] {
      FirstGuardSame(v.state, v.keys, q.entryPins, middles, middles', g);
    }
  }

  lemma SeedsDrawn(v: View, q: Request, middles: seq<ProxyNode>, i: nat)
    requires i < |Seeds(v.keys, q.entryPins, middles)|
    ensures
      var s := Seeds(v.keys, q.entryPins, middles)[i];
      s in middles && EntryAllowed(v.keys, q.entryPins, s) && (!Servable(v, s) ==> s in Unservable(v, q, middles))
  {
    var allowed := Filter((n: ProxyNode) => EntryAllowed(v.keys, q.entryPins, n), middles);
    assert Seeds(v.keys, q.entryPins, middles)[i] in allowed;
  }

  /** Which nodes can serve as the guards of a newly filled set. */
  lemma SeededMatches(v: View, q: Request, middles: seq<ProxyNode>, j: nat, n: ProxyNode)
    requires Coherent(v) && v.state.guards == [] && v.saved && j < |Seeds(v.keys, q.entryPins, middles)|
    ensures
      var s, after := Seeds(v.keys, q.entryPins, middles)[j], OnionGuards(v.state, v.keys, q.entryPins, middles, v.saved);
      && |after.guards| == |Seeds(v.keys, q.entryPins, middles)| && after.guards[j] == At(s)
      && (GuardMatches(after, v.keys, q.entryPins, At(s), n) ==>
            Servable(v, s) && Servable(v, n) && EntryAllowed(v.keys, q.entryPins, n))
      && (Servable(v, s) ==> GuardMatches(after, v.keys, q.entryPins, At(s), s))
  {
    SeedsRecorded(v.state, Seeds(v.keys, q.entryPins, middles), v.keys);
    SeedsDrawn(v, q, middles, j);
  }

  lemma FoundMayGuard(v: View, q: Request, order: seq<ProxyNode>, g: ProxyNode)
    requires Coherent(v) && NeedsGuard(v, q, order)
    requires FoundGuard(GuardsAfter(v, q, order), v.keys, q.entryPins, Filter(NotExit, order), g)
    ensures MayGuard(v, q, Filter(NotExit, order), g)
  {
    var middles, after := Filter(NotExit, order), GuardsAfter(v, q, order);
    FoundIsFirst(after, v.keys, q.entryPins, middles, g);
    if v.state.guards == [] && v.saved {
      var k: nat, i: nat :| FoundAt(after, v.keys, q.entryPins, middles, k, i) && middles[i] == g;
      SeedsRecorded(v.state, Seeds(v.keys, q.entryPins, middles), v.keys);
      SeededMatches(v, q, middles, k, g);
    }
  }

  lemma FirstRecordedFound(state: GuardState, keys: Keys, entryPins: seq<Pin>, middles: seq<ProxyNode>)
    requires middles != [] && FirstGuard(state, keys, entryPins, middles, middles[0])
    ensures FoundGuard(state, keys, entryPins, middles, middles[0])
  {
    var k :| 0 <= k < |state.guards| && GuardMatches(state, keys, entryPins, state.guards[k], middles[0])
             && NoGuardBefore(state, keys, entryPins, middles, k);
    assert FoundAt(state, keys, entryPins, middles, k, 0);
  }

  lemma FirstSeedFound(v: View, q: Request, middles: seq<ProxyNode>)
    requires Coherent(v) && v.state.guards == [] && v.saved && middles != []
    requires EntryAllowed(v.keys, q.entryPins, middles[0]) && Servable(v, middles[0])
    ensures FoundGuard(OnionGuards(v.state, v.keys, q.entryPins, middles, v.saved), v.keys, q.entryPins, middles, middles[0])
  {
    assert Seeds(v.keys, q.entryPins, middles)[0] == middles[0];
    SeededMatches(v, q, middles, 0, middles[0]);
    assert FoundAt(OnionGuards(v.state, v.keys, q.entryPins, middles, v.saved), v.keys, q.entryPins, middles, 0, 0);
  }

  /** The first of the middles, if it may guard, is the guard found. */
  lemma FirstMiddleFound(v: View, q: Request, order: seq<ProxyNode>, g: ProxyNode)
    requires Coherent(v) && ListsTable(v.healthy, order) && NeedsGuard(v, q, order)
    requires Filter(NotExit, order) != [] && Filter(NotExit, order)[0] == g && MayGuard(v, q, Filter(NotExit, order), g)
    ensures FoundGuard(GuardsAfter(v, q, order), v.keys, q.entryPins, Filter(NotExit, order), g)
  {
    if v.state.guards == [] {
      FirstSeedFound(v, q, Filter(NotExit, order));
    } else {
      FirstRecordedFound(v.state, v.keys, q.entryPins, Filter(NotExit, order));
    }
  }

  lemma NoneRecordedExactly(v: View, q: Request, middles: seq<ProxyNode>)
    requires v.state.guards != [] || !v.saved
    ensures NoGuardBefore(v.state, v.keys, q.entryPins, middles, |v.state.guards|) <==> NoneMayGuard(v, q, middles)
  {
    NoneServesExactly(v.state, v.keys, q.entryPins, middles);
    if v.state.guards != [] {
      forall n ensures MayGuard(v, q, middles, n) <==> n in middles && FirstGuard(v.state, v.keys, q.entryPins, middles, n) {}
    }
  }

  ghost predicate NoneServable(v: View, nodes: seq<ProxyNode>) {
    forall i :: 0 <= i < |nodes| ==> !Servable(v, nodes[i])
  }

  /** A newly filled set has no serving guard exactly when none of its nodes is servable. */
  lemma NoneSeededExactly(v: View, q: Request, middles: seq<ProxyNode>)
    requires Coherent(v) && v.state.guards == [] && v.saved
    ensures
      var seeds, after := Seeds(v.keys, q.entryPins, middles), OnionGuards(v.state, v.keys, q.entryPins, middles, v.saved);
      NoGuardBefore(after, v.keys, q.entryPins, middles, |after.guards|) <==> NoneServable(v, seeds)
  {
    var seeds, after := Seeds(v.keys, q.entryPins, middles), OnionGuards(v.state, v.keys, q.entryPins, middles, v.saved);
    SeedsRecorded(v.state, seeds, v.keys);
    if j :| 0 <= j < |seeds| && Servable(v, seeds[j]) {
      SeedsDrawn(v, q, middles, j);
      SeededMatches(v, q, middles, j, seeds[j]);
      var i :| 0 <= i < |middles| && middles[i] == seeds[j];
    } else {
      forall j, i | 0 <= j < |after.guards| && 0 <= i < |middles|
        ensures !GuardMatches(after, v.keys, q.entryPins, after.guards[j], middles[i])
      {
        SeededMatches(v, q, middles, j, middles[i]);
      }
    }
  }

  /** No guard can be found: no node may guard, or three unservable nodes may fill an empty set. */
  ghost predicate Guardless(v: View, q: Request, middles: seq<ProxyNode>) {
    || NoneMayGuard(v, q, middles)
    || (v.state.guards == [] && v.saved && |Unservable(v, q, middles)| >= MAX_GUARDS)
  }

  lemma GuardlessSame(v: View, q: Request, middles: seq<ProxyNode>, middles': seq<ProxyNode>)
    requires DistinctEndpoints(middles) && SameMembers(middles, middles') && Guardless(v, q, middles)
    ensures Guardless(v, q, middles')
  {
    if NoneMayGuard(v, q, middles) {
      forall g | MayGuard(v, q, middles', g) ensures MayGuard(v, q, middles, g) {
        MayGuardSame(v, q, middles', middles, g);
      }
    } else {
      UnservableDistinct(v, q, middles);
      NoLonger(Unservable(v, q, middles), Unservable(v, q, middles'));
    }
  }

  lemma UnservableDistinct(v: View, q: Request, middles: seq<ProxyNode>)
    requires DistinctEndpoints(middles)
    ensures DistinctEndpoints(Unservable(v, q, middles))
  {
    FilterPairwise((n: ProxyNode) => EntryAllowed(v.keys, q.entryPins, n) && !Servable(v, n),
                   (x: ProxyNode, y: ProxyNode) => At(x) != At(y), middles);
  }

  /** Three seeds of which none is servable are three unservable nodes. */
  lemma UnservableSeeds(v: View, q: Request, middles: seq<ProxyNode>)
    requires DistinctEndpoints(middles) && v.state.guards == [] && v.saved
    requires NoneServable(v, Seeds(v.keys, q.entryPins, middles))
    ensures Guardless(v, q, middles)
  {
    var seeds := Seeds(v.keys, q.entryPins, middles);
    var allowed := Filter((n: ProxyNode) => EntryAllowed(v.keys, q.entryPins, n), middles);
    FilterPairwise((n: ProxyNode) => EntryAllowed(v.keys, q.entryPins, n),
                   (x: ProxyNode, y: ProxyNode) => At(x) != At(y), middles);
    if |allowed| <= MAX_GUARDS {
      forall g | MayGuard(v, q, middles, g) ensures g in seeds && Servable(v, g) {}
    } else {
      var unservable := Unservable(v, q, middles);
      forall i | 0 <= i < |seeds| ensures At(seeds[i]) in Images(At, unservable) {
        SeedsDrawn(v, q, middles, i);
        var j :| 0 <= j < |unservable| && unservable[j] == seeds[i];
      }
      InjectiveBound(At, seeds, unservable);
    }
  }

  /** An order in which no guard is found. */
  lemma NoneFoundMeansGuardless(v: View, q: Request, order: seq<ProxyNode>)
    requires Coherent(v) && ListsTable(v.healthy, order) && NeedsGuard(v, q, order)
    requires
      var after := GuardsAfter(v, q, order);
      NoGuardBefore(after, v.keys, q.entryPins, Filter(NotExit, order), |after.guards|)
    ensures Guardless(v, q, Filter(NotExit, order))
  {
    var middles := Filter(NotExit, order);
    SplitPool(order);
    if v.state.guards == [] && v.saved {
      NoneSeededExactly(v, q, middles);
      UnservableSeeds(v, q, middles);
    } else {
      NoneRecordedExactly(v, q, middles);
    }
  }

  /** The order with some of its nodes moved to the front. */
  function Front(firsts: seq<ProxyNode>, order: seq<ProxyNode>): seq<ProxyNode> {
    firsts + Filter((n: ProxyNode) => n !in firsts, order)
  }

  lemma FrontLists(nodes: Nodes, firsts: seq<ProxyNode>, order: seq<ProxyNode>)
    requires ListsTable(nodes, order) && DistinctEndpoints(firsts) && forall n :: n in firsts ==> n in order
    ensures ListsTable(nodes, Front(firsts, order))
  {
    var keep := (n: ProxyNode) => n !in firsts;
    var rest := Filter(keep, order);
    FilterPairwise(keep, (x: ProxyNode, y: ProxyNode) => At(x) != At(y), order);
    forall i, j | 0 <= i < |firsts| && 0 <= j < |rest| ensures At(firsts[i]) != At(rest[j]) {
      assert rest[j] in rest && firsts[i] in firsts;
      DistinctNodes(order, firsts[i], rest[j]);
    }
  }

  lemma FrontPair(nodes: Nodes, g: ProxyNode, e: ProxyNode, order: seq<ProxyNode>)
    requires ListsTable(nodes, order) && g in order && e in order && !g.isExit && e.isExit
    ensures ListsTable(nodes, Front([g, e], order))
    ensures Filter(NotExit, Front([g, e], order)) != [] && Filter(NotExit, Front([g, e], order))[0] == g
    ensures Filter(IsExit, Front([g, e], order)) != [] && Filter(IsExit, Front([g, e], order))[0] == e
  {
    DistinctNodes(order, g, e);
    FrontLists(nodes, [g, e], order);
    var rest := Filter((n: ProxyNode) => n !in [g, e], order);
    assert Front([g, e], order) == [g] + ([e] + rest);
    FilterHead(NotExit, g, [e] + rest);
    FilterHead(IsExit, g, [e] + rest);
    FilterHead(IsExit, e, rest);
  }

  ghost predicate SomeOrderFails(v: View, q: Request) {
    exists order :: ListsTable(v.healthy, order) && Answers(v, q, order, [])
  }

  /** Why some shuffle fails: the request is out of bounds, no guard need be found, or after some
      possible guard no exit fits or one that fits leaves no diverse choice of middles that is
      long enough. With no hop before the exit there is no guard to choose. */
  ghost predicate MayFail(v: View, q: Request, order: seq<ProxyNode>) {
    var middles, exits := Filter(NotExit, order), Filter(IsExit, order);
    if !InBounds(v, q, order) then true
    else if MiddleCount(q, order) == 0 then Stuck([], middles, exits, q.enforce, q.minHops)
    else Guardless(v, q, middles) || exists g :: StuckAfter(v, q, order, g)
  }

  ghost predicate StuckAfter(v: View, q: Request, order: seq<ProxyNode>, g: ProxyNode) {
    && MayGuard(v, q, Filter(NotExit, order), g)
    && Stuck([g], Rest(g, Filter(NotExit, order)), Filter(IsExit, order), q.enforce, q.minHops)
  }

  lemma StuckAfterSame(v: View, q: Request, order: seq<ProxyNode>, order': seq<ProxyNode>, g: ProxyNode)
    requires ListsTable(v.healthy, order) && ListsTable(v.healthy, order') && StuckAfter(v, q, order, g)
    ensures StuckAfter(v, q, order', g)
  {
    ListingsAgree(v.healthy, order, order');
    MayGuardSame(v, q, Filter(NotExit, order), Filter(NotExit, order'), g);
    StuckSame([g], Rest(g, Filter(NotExit, order)), Filter(IsExit, order),
              Rest(g, Filter(NotExit, order')), Filter(IsExit, order'), q.enforce, q.minHops);
  }

  lemma ExitAloneLongEnough(pool: seq<ProxyNode>, exit: ProxyNode, enforce: bool, minHops: nat)
    requires minHops <= 1
    ensures !TooShort([], pool, exit, enforce, minHops)
  {
    if Fits(enforce, [] + [exit]) {
      assert [] + [] + Last(Some(exit)) == [] + [exit];
      assert Fills([], pool, exit, enforce, []);
    }
  }

  /** Without a hop before the exit, the builder fails exactly when no exit fits. */
  lemma ExitAloneFails(v: View, q: Request, order: seq<ProxyNode>)
    requires ListsTable(v.healthy, order) && InBounds(v, q, order) && MiddleCount(q, order) == 0
    ensures Answers(v, q, order, []) <==> Stuck([], Filter(NotExit, order), Filter(IsExit, order), q.enforce, q.minHops)
  {
    var middles, exits := Filter(NotExit, order), Filter(IsExit, order);
    SplitPool(order);
    FailsExactly([], middles, exits, q.enforce, q.minHops, 0);
    forall exit: ProxyNode ensures !TooShort([], middles, exit, q.enforce, q.minHops) {
      ExitAloneLongEnough(middles, exit, q.enforce, q.minHops);
    }
  }

  /** A failure in one order has one of the causes. */
  lemma FailureHasCause(v: View, q: Request, order: seq<ProxyNode>)
    requires Coherent(v) && ListsTable(v.healthy, order) && NeedsGuard(v, q, order) && Answers(v, q, order, [])
    ensures Guardless(v, q, Filter(NotExit, order)) || exists g :: StuckAfter(v, q, order, g)
  {
    var middles, after := Filter(NotExit, order), GuardsAfter(v, q, order);
    if NoGuardBefore(after, v.keys, q.entryPins, middles, |after.guards|) {
      NoneFoundMeansGuardless(v, q, order);
    } else {
      var g :| FoundGuard(after, v.keys, q.entryPins, middles, g) && AnswersThrough(q, order, g, []);
      FoundMayGuard(v, q, order, g);
      OrderFailsExactly(v, q, order, g);
      var exit := FirstFit(q.enforce, [g], Filter(IsExit, order));
      if exit.Some? {
        var j :| 0 <= j < |Filter(IsExit, order)| && Filter(IsExit, order)[j] == exit.value;
      }
      assert StuckAfter(v, q, order, g);
    }
  }

  /** An exit that shows why the builder is stuck: it leaves too few hops, or no exit fits. */
  ghost predicate Unlucky(q: Request, order: seq<ProxyNode>, g: ProxyNode, e: ProxyNode) {
    var exits := Filter(IsExit, order);
    && e in exits
    && (TooShort([g], Rest(g, Filter(NotExit, order)), e, q.enforce, q.minHops)
        || forall i :: 0 <= i < |exits| ==> !Fits(q.enforce, [g] + [exits[i]]))
  }

  lemma UnluckySame(v: View, q: Request, order: seq<ProxyNode>, order': seq<ProxyNode>, g: ProxyNode, e: ProxyNode)
    requires ListsTable(v.healthy, order) && ListsTable(v.healthy, order') && Unlucky(q, order, g, e)
    ensures Unlucky(q, order', g, e)
  {
    ListingsAgree(v.healthy, order, order');
    if TooShort([g], Rest(g, Filter(NotExit, order)), e, q.enforce, q.minHops) {
      TooShortSame([g], Rest(g, Filter(NotExit, order)), Rest(g, Filter(NotExit, order')), e, q.enforce, q.minHops);
    } else {
      var exits, exits' := Filter(IsExit, order), Filter(IsExit, order');
      forall i | 0 <= i < |exits'| ensures !Fits(q.enforce, [g] + [exits'[i]]) {
        assert exits'[i] in exits;
        var j :| 0 <= j < |exits| && exits[j] == exits'[i];
      }
    }
  }

  /** A shuffle that puts a possible guard and an unlucky exit first makes the builder fail. */
  lemma UnluckyFrontFails(v: View, q: Request, order: seq<ProxyNode>, g: ProxyNode, e: ProxyNode)
    requires Coherent(v) && ListsTable(v.healthy, order) && NeedsGuard(v, q, order)
    requires MayGuard(v, q, Filter(NotExit, order), g) && Unlucky(q, order, g, e)
    ensures SomeOrderFails(v, q)
  {
    var order' := Front([g, e], order);
    FrontPair(v.healthy, g, e, order);
    ListingsAgree(v.healthy, order, order');
    SameBounds(v, q, order, order');
    MayGuardSame(v, q, Filter(NotExit, order), Filter(NotExit, order'), g);
    UnluckySame(v, q, order, order', g, e);
    FirstMiddleFound(v, q, order', g);
    OrderFailsExactly(v, q, order', g);
  }

  lemma UnluckyOrder(v: View, q: Request, order: seq<ProxyNode>, g: ProxyNode)
    requires Coherent(v) && ListsTable(v.healthy, order) && NeedsGuard(v, q, order) && StuckAfter(v, q, order, g)
    ensures SomeOrderFails(v, q)
  {
    var middles, exits := Filter(NotExit, order), Filter(IsExit, order);
    if i :| 0 <= i < |exits| && TooShort([g], Rest(g, middles), exits[i], q.enforce, q.minHops) {
      assert exits[i] in exits;
      UnluckyFrontFails(v, q, order, g, exits[i]);
    } else {
      UnluckyFrontFails(v, q, order, g, exits[0]);
    }
  }

  /** When no node may guard every shuffle fails; otherwise one that puts three unservable nodes first. */
  lemma GuardlessOrder(v: View, q: Request, order: seq<ProxyNode>)
    requires Coherent(v) && ListsTable(v.healthy, order) && NeedsGuard(v, q, order)
    requires Guardless(v, q, Filter(NotExit, order))
    ensures SomeOrderFails(v, q)
  {
    var middles := Filter(NotExit, order);
    if v.state.guards != [] || !v.saved {
      NoneRecordedExactly(v, q, middles);
      assert Answers(v, q, order, []);
    } else if NoneMayGuard(v, q, middles) {
      var seeds := Seeds(v.keys, q.entryPins, middles);
      forall i | 0 <= i < |seeds| ensures !Servable(v, seeds[i]) {
        SeedsDrawn(v, q, middles, i);
        assert !MayGuard(v, q, middles, seeds[i]);
      }
      NoneSeededFails(v, q, order);
    } else {
      UnservableFirst(v, q, order);
    }
  }

  lemma NoneSeededFails(v: View, q: Request, order: seq<ProxyNode>)
    requires Coherent(v) && ListsTable(v.healthy, order) && NeedsGuard(v, q, order) && v.state.guards == [] && v.saved
    requires NoneServable(v, Seeds(v.keys, q.entryPins, Filter(NotExit, order)))
    ensures SomeOrderFails(v, q)
  {
    NoneSeededExactly(v, q, Filter(NotExit, order));
    assert Answers(v, q, order, []);
  }

  lemma UnservableFirst(v: View, q: Request, order: seq<ProxyNode>)
    requires Coherent(v) && ListsTable(v.healthy, order) && NeedsGuard(v, q, order) && v.state.guards == [] && v.saved
    requires |Unservable(v, q, Filter(NotExit, order))| >= MAX_GUARDS
    ensures SomeOrderFails(v, q)
  {
    var middles := Filter(NotExit, order);
    var unservable := Unservable(v, q, middles);
    var firsts := unservable[..MAX_GUARDS];
    SplitPool(order);
    UnservableDistinct(v, q, middles);
    forall i | 0 <= i < |firsts|
      ensures firsts[i] in middles && EntryAllowed(v.keys, q.entryPins, firsts[i]) && !Servable(v, firsts[i])
    {
      assert firsts[i] == unservable[i] && unservable[i] in unservable;
    }
    var order' := Front(firsts, order);
    FrontLists(v.healthy, firsts, order);
    SameBounds(v, q, order, order');
    SeedsFront(v, q, firsts, order'[|firsts|..]);
    assert order' == firsts + order'[|firsts|..];
    NoneSeededFails(v, q, order');
  }

  lemma SeedsFront(v: View, q: Request, firsts: seq<ProxyNode>, rest: seq<ProxyNode>)
    requires |firsts| == MAX_GUARDS
    requires forall i :: 0 <= i < |firsts| ==> NotExit(firsts[i]) && EntryAllowed(v.keys, q.entryPins, firsts[i])
    ensures Seeds(v.keys, q.entryPins, Filter(NotExit, firsts + rest)) == firsts
  {
    FilterKept(NotExit, firsts, rest);
    FilterKept((n: ProxyNode) => EntryAllowed(v.keys, q.entryPins, n), firsts, Filter(NotExit, rest));
  }

  lemma CauseInEveryOrder(v: View, q: Request, order: seq<ProxyNode>, order': seq<ProxyNode>)
    requires Coherent(v) && ListsTable(v.healthy, order) && ListsTable(v.healthy, order') && Answers(v, q, order, [])
    ensures MayFail(v, q, order')
  {
    var middles, exits := Filter(NotExit, order), Filter(IsExit, order);
    var middles', exits' := Filter(NotExit, order'), Filter(IsExit, order');
    ListingsAgree(v.healthy, order, order');
    SameBounds(v, q, order, order');
    if InBounds(v, q, order) {
      if MiddleCount(q, order) == 0 {
        ExitAloneFails(v, q, order);
        StuckSame([], middles, exits, middles', exits', q.enforce, q.minHops);
      } else {
        FailureHasCause(v, q, order);
        if g :| StuckAfter(v, q, order, g) {
          StuckAfterSame(v, q, order, order', g);
        } else {
          SplitPool(order);
          GuardlessSame(v, q, middles, middles');
        }
      }
    }
  }

  lemma CauseMakesFailure(v: View, q: Request, order: seq<ProxyNode>)
    requires Coherent(v) && ListsTable(v.healthy, order) && MayFail(v, q, order)
    ensures SomeOrderFails(v, q)
  {
    if !InBounds(v, q, order) {
      assert Answers(v, q, order, []);
    } else if MiddleCount(q, order) == 0 {
      ExitAloneFails(v, q, order);
    } else if g :| StuckAfter(v, q, order, g) {
      UnluckyOrder(v, q, order, g);
    } else {
      GuardlessOrder(v, q, order);
    }
  }

  /** The builder commits to one fitting exit, so it may return nothing although another exit would
      complete a chain. For every pool, guard set and request, some shuffle fails if and only if
      one of the causes of `MayFail` is present, whatever order they are looked up in. */
  lemma SomeOrderFailsExactly(v: View, q: Request, order: seq<ProxyNode>)
    requires Coherent(v) && ListsTable(v.healthy, order)
    ensures SomeOrderFails(v, q) <==> MayFail(v, q, order)
  {
    if order' :| ListsTable(v.healthy, order') && Answers(v, q, order', []) {
      CauseInEveryOrder(v, q, order', order);
    }
    if MayFail(v, q, order) {
      CauseMakesFailure(v, q, order);
    }
  }

  // ---- when some shuffle succeeds ----

  ghost predicate SomeOrderSucceeds(v: View, q: Request) {
    exists order, chain :: ListsTable(v.healthy, order) && Answers(v, q, order, chain) && chain != []
  }

  /** Each hop of a chain is listed, the last among the exits and the others among the middles. */
  lemma HopListed(v: View, q: Request, order: seq<ProxyNode>, c: seq<ProxyNode>, i: nat)
    requires ListsTable(v.healthy, order) && OnionChain(v.healthy, q.enforce, q.minHops, q.maxHops, c) && i < |c|
    ensures if i == |c| - 1 then c[i] in Filter(IsExit, order) else c[i] in Filter(NotExit, order)
  {
    assert v.healthy[At(c[i])] in order;
  }

  function Middle(c: seq<ProxyNode>): seq<ProxyNode>
    requires |c| >= 2
  {
    c[1..|c| - 1]
  }

  lemma Assembled(c: seq<ProxyNode>)
    requires |c| >= 2
    ensures c == [c[0]] + Middle(c) + [c[|c| - 1]]
  {
  }

  lemma MiddleListed(v: View, q: Request, order: seq<ProxyNode>, c: seq<ProxyNode>, i: nat)
    requires ListsTable(v.healthy, order) && OnionChain(v.healthy, q.enforce, q.minHops, q.maxHops, c) && i + 2 < |c|
    ensures c[i + 1] in Rest(c[0], Filter(NotExit, order)) && c[i + 1] != c[0]
  {
    HopListed(v, q, order, c, i + 1);
    assert At(c[0]) != At(c[i + 1]);
  }

  /** The middles of a chain of two hops or more fill it between its guard and its exit. */
  lemma ChainParts(v: View, q: Request, order: seq<ProxyNode>, c: seq<ProxyNode>)
    requires ListsTable(v.healthy, order) && OnionChain(v.healthy, q.enforce, q.minHops, q.maxHops, c) && |c| >= 2
    ensures Fills([c[0]], Rest(c[0], Filter(NotExit, order)), c[|c| - 1], q.enforce, Middle(c))
  {
    var others := Middle(c);
    forall i | 0 <= i < |others| ensures others[i] in Rest(c[0], Filter(NotExit, order)) && others[i] !in [c[0]] {
      MiddleListed(v, q, order, c, i);
    }
    forall i, j | 0 <= i < j < |others| ensures others[i] != others[j] {
      assert At(c[i + 1]) != At(c[j + 1]);
    }
    Assembled(c);
    assert Last(Some(c[|c| - 1])) == [c[|c| - 1]];
  }

  /** A completion that does not fail has an answer. */
  lemma CompletesSomehow(start: seq<ProxyNode>, pool: seq<ProxyNode>, exits: seq<ProxyNode>, enforce: bool,
                         minHops: nat, middleCount: nat) returns (chain: seq<ProxyNode>)
    requires 1 <= minHops && !Completes(start, pool, exits, enforce, minHops, middleCount, [])
    ensures chain != [] && Completes(start, pool, exits, enforce, minHops, middleCount, chain)
  {
    var exit := FirstFit(enforce, start, exits).value;
    var selected := Greedy(enforce, start, pool, Some(exit), middleCount, |pool|);
    chain := selected[..minHops - 1] + [exit];
    assert Keeps(selected, exit, minHops, minHops, chain);
  }

  lemma FrontAmongMiddles(v: View, q: Request, order: seq<ProxyNode>, c: seq<ProxyNode>)
    requires ListsTable(v.healthy, order) && OnionChain(v.healthy, q.enforce, q.minHops, q.maxHops, c)
    ensures |c| <= |Filter(NotExit, order)| + 1
  {
    var middles, front := Filter(NotExit, order), c[..|c| - 1];
    forall i | 0 <= i < |front| ensures At(front[i]) in Images(At, middles) {
      HopListed(v, q, order, c, i);
      var j :| 0 <= j < |middles| && middles[j] == c[i];
    }
    InjectiveBound(At, front, middles);
  }

  lemma ChainAmongHealthy(v: View, q: Request, c: seq<ProxyNode>)
    requires OnionChain(v.healthy, q.enforce, q.minHops, q.maxHops, c)
    ensures |c| <= |v.healthy|
  {
    DistinctImagesFit(At, c, v.healthy.Keys);
    assert |v.healthy| == |v.healthy.Keys|;
  }

  lemma ChainInBounds(v: View, q: Request, order: seq<ProxyNode>, c: seq<ProxyNode>)
    requires ListsTable(v.healthy, order) && OnionChain(v.healthy, q.enforce, q.minHops, q.maxHops, c) && |c| >= 2
    requires 1 <= q.minHops && q.maxHops <= 8
    ensures NeedsGuard(v, q, order)
  {
    FrontAmongMiddles(v, q, order, c);
    ChainAmongHealthy(v, q, c);
    HopListed(v, q, order, c, |c| - 1);
    EnoughNodes(v, q, order, |c|);
  }

  lemma EnoughNodes(v: View, q: Request, order: seq<ProxyNode>, n: nat)
    requires 1 <= q.minHops <= n <= q.maxHops <= 8 && 2 <= n <= |v.healthy|
    requires n <= |Filter(NotExit, order)| + 1 && Filter(IsExit, order) != []
    ensures NeedsGuard(v, q, order)
  {
  }

  /** Completeness: whenever the pool holds a chain within the bounds, of two hops or more, from
      some possible guard to an exit, some shuffle makes the builder return a chain. */
  lemma ChainMeansSuccess(v: View, q: Request, order: seq<ProxyNode>, c: seq<ProxyNode>)
    requires Coherent(v) && ListsTable(v.healthy, order) && 1 <= q.minHops && q.maxHops <= 8
    requires OnionChain(v.healthy, q.enforce, q.minHops, q.maxHops, c) && |c| >= 2
    requires MayGuard(v, q, Filter(NotExit, order), c[0])
    ensures SomeOrderSucceeds(v, q)
  {
    var g, e := c[0], c[|c| - 1];
    HopListed(v, q, order, c, 0);
    HopListed(v, q, order, c, |c| - 1);
    var order' := Front([g, e], order);
    FrontPair(v.healthy, g, e, order);
    ListingsAgree(v.healthy, order, order');
    MayGuardSame(v, q, Filter(NotExit, order), Filter(NotExit, order'), g);
    GoodFrontSucceeds(v, q, order', c);
  }

  lemma GoodFrontSucceeds(v: View, q: Request, order: seq<ProxyNode>, c: seq<ProxyNode>)
    requires Coherent(v) && ListsTable(v.healthy, order) && 1 <= q.minHops && q.maxHops <= 8
    requires OnionChain(v.healthy, q.enforce, q.minHops, q.maxHops, c) && |c| >= 2
    requires Filter(NotExit, order) != [] && Filter(NotExit, order)[0] == c[0] && MayGuard(v, q, Filter(NotExit, order), c[0])
    requires Filter(IsExit, order) != [] && Filter(IsExit, order)[0] == c[|c| - 1]
    ensures SomeOrderSucceeds(v, q)
  {
    var g := c[0];
    ChainInBounds(v, q, order, c);
    FirstMiddleFound(v, q, order, g);
    NotStuck(v, q, order, c);
    OrderFailsExactly(v, q, order, g);
    FoundAnswers(v, q, order, g, []);
    var middles, exits := Filter(NotExit, order), Filter(IsExit, order);
    var chain := CompletesSomehow([g], Rest(g, middles), exits, q.enforce, q.minHops, MiddleCount(q, order));
    FoundAnswers(v, q, order, g, chain);
  }

  /** The answers through the guard found are the answers. */
  lemma FoundAnswers(v: View, q: Request, order: seq<ProxyNode>, g: ProxyNode, chain: seq<ProxyNode>)
    requires NeedsGuard(v, q, order) && FoundGuard(GuardsAfter(v, q, order), v.keys, q.entryPins, Filter(NotExit, order), g)
    ensures AnswersThrough(q, order, g, chain) ==> Answers(v, q, order, chain)
  {
    FoundUnique(GuardsAfter(v, q, order), v.keys, q.entryPins, Filter(NotExit, order), g, g);
  }

  lemma NotStuck(v: View, q: Request, order: seq<ProxyNode>, c: seq<ProxyNode>)
    requires ListsTable(v.healthy, order) && OnionChain(v.healthy, q.enforce, q.minHops, q.maxHops, c) && |c| >= 2
    requires Filter(IsExit, order) != [] && Filter(IsExit, order)[0] == c[|c| - 1]
    ensures
      var exit := FirstFit(q.enforce, [c[0]], Filter(IsExit, order));
      exit == Some(c[|c| - 1]) && !TooShort([c[0]], Rest(c[0], Filter(NotExit, order)), exit.value, q.enforce, q.minHops)
  {
    ChainParts(v, q, order, c);
    Assembled(c);
    FitsDrop(q.enforce, [c[0]], Middle(c), [c[|c| - 1]]);
    assert [c[0]] + [] + [c[|c| - 1]] == [c[0]] + [c[|c| - 1]];
    assert |[c[0]]| + |Middle(c)| + 1 == |c|;
  }

  lemma SuccessMeansChain(v: View, q: Request, order: seq<ProxyNode>, order': seq<ProxyNode>, chain: seq<ProxyNode>)
    requires Coherent(v) && ListsTable(v.healthy, order) && ListsTable(v.healthy, order') && 2 <= q.minHops
    requires Answers(v, q, order', chain) && chain != []
    ensures OnionChain(v.healthy, q.enforce, q.minHops, q.maxHops, chain) && q.maxHops <= 8
    ensures MayGuard(v, q, Filter(NotExit, order), chain[0])
  {
    AnswersSound(v, q, order', chain);
    var middles', after := Filter(NotExit, order'), GuardsAfter(v, q, order');
    var g :| FoundGuard(after, v.keys, q.entryPins, middles', g) && AnswersThrough(q, order', g, chain);
    FoundMayGuard(v, q, order', g);
    ThroughGuardSound(v, q, order', g, chain);
    ListingsAgree(v.healthy, order', order);
    MayGuardSame(v, q, middles', Filter(NotExit, order), g);
  }

  /** For requests of two hops or more, some shuffle succeeds if and only if the pool holds a chain
      within the bounds from some possible guard to an exit. */
  lemma SomeOrderSucceedsExactly(v: View, q: Request, order: seq<ProxyNode>)
    requires Coherent(v) && ListsTable(v.healthy, order) && 2 <= q.minHops
    ensures SomeOrderSucceeds(v, q) <==> q.maxHops <= 8 && exists c :: GuardedChain(v, q, order, c)
  {
    if order', chain :| ListsTable(v.healthy, order') && Answers(v, q, order', chain) && chain != [] {
      SuccessMeansChain(v, q, order, order', chain);
      assert GuardedChain(v, q, order, chain);
    }
    if q.maxHops <= 8 && exists c :: GuardedChain(v, q, order, c) {
      var c :| GuardedChain(v, q, order, c);
      ChainMeansSuccess(v, q, order, c);
    }
  }

  ghost predicate GuardedChain(v: View, q: Request, order: seq<ProxyNode>, c: seq<ProxyNode>) {
    OnionChain(v.healthy, q.enforce, q.minHops, q.maxHops, c) && MayGuard(v, q, Filter(NotExit, order), c[0])
  }

  /** A guard, a middle in the class of one exit, and a second exit in a class of its own. */
  function TwoExitView(): View {
    var g, m, e, f := NodeAt(1, 0, false), NodeAt(2, 0, false), NodeAt(2, 1, true), NodeAt(3, 0, true);
    View(map[At(g) := g, At(m) := m, At(e) := e, At(f) := f],
         map[At(g) := Pin(1, 1), At(m) := Pin(2, 2), At(e) := Pin(3, 3), At(f) := Pin(4, 4)],
         GuardState([At(g)], map[At(g) := Pin(1, 1)]), true)
  }

  lemma TwoNodes(x: ProxyNode, y: ProxyNode, keep: ProxyNode -> bool)
    ensures Filter(keep, [x, y]) == (if keep(x) then [x] else []) + (if keep(y) then [y] else [])
  {
    assert [x, y] == [x] + [y] && [y] == [y] + [];
    FilterHead(keep, x, [y]);
    FilterHead(keep, y, []);
  }

  lemma FourNodes(w: ProxyNode, x: ProxyNode, y: ProxyNode, z: ProxyNode, keep: ProxyNode -> bool)
    ensures Filter(keep, [w, x, y, z]) ==
            (if keep(w) then [w] else []) + ((if keep(x) then [x] else []) + Filter(keep, [y, z]))
  {
    assert [w, x, y, z] == [w] + ([x] + [y, z]);
    FilterHead(keep, w, [x] + [y, z]);
    FilterHead(keep, x, [y, z]);
  }

  lemma TwoExitOrder(g: ProxyNode, m: ProxyNode, x: ProxyNode, y: ProxyNode)
    requires !g.isExit && !m.isExit && x.isExit && y.isExit && At(g) != At(m)
    ensures Filter(NotExit, [g, m, x, y]) == [g, m] && Filter(IsExit, [g, m, x, y]) == [x, y] && Rest(g, [g, m]) == [m]
  {
    FourNodes(g, m, x, y, NotExit);
    FourNodes(g, m, x, y, IsExit);
    TwoNodes(x, y, NotExit);
    TwoNodes(x, y, IsExit);
    TwoNodes(g, m, (n: ProxyNode) => At(n) != At(g));
  }

  lemma TwoExitFits()
    ensures
      var g, m, e, f := NodeAt(1, 0, false), NodeAt(2, 0, false), NodeAt(2, 1, true), NodeAt(3, 0, true);
      Fits(true, [g, e]) && Fits(true, [g, f]) && !Fits(true, [g, m, e]) && Fits(true, [g, m, f])
  {
    var g, m, e, f := NodeAt(1, 0, false), NodeAt(2, 0, false), NodeAt(2, 1, true), NodeAt(3, 0, true);
    assert HostPrefix(Hosts([g, m, e])[1]) == HostPrefix(Hosts([g, m, e])[2]);
  }

  lemma TwoExitCompletes()
    ensures
      var g, m, e, f := NodeAt(1, 0, false), NodeAt(2, 0, false), NodeAt(2, 1, true), NodeAt(3, 0, true);
      Completes([g], [m], [e, f], true, 3, 2, []) && Completes([g], [m], [f, e], true, 3, 2, [g, m, f])
  {
    var g, m, e, f := NodeAt(1, 0, false), NodeAt(2, 0, false), NodeAt(2, 1, true), NodeAt(3, 0, true);
    TwoExitFits();
    assert [g] + [e] == [g, e] && [g] + [f] == [g, f] && [g] + [m] == [g, m];
    assert [g, m] + Last(Some(e)) == [g, m, e] && [g, m] + Last(Some(f)) == [g, m, f];
    assert Greedy(true, [g], [m], Some(e), 2, 0) == [g] && Greedy(true, [g], [m], Some(f), 2, 0) == [g];
    assert Greedy(true, [g], [m], Some(e), 2, 1) == [g] && Greedy(true, [g], [m], Some(f), 2, 1) == [g, m];
    assert Keeps([g, m], f, 3, 3, [g, m, f]) by { assert [g, m][..2] + [f] == [g, m, f]; }
  }

  lemma TwoExitGuard()
    ensures
      var v, g, m := TwoExitView(), NodeAt(1, 0, false), NodeAt(2, 0, false);
      && FoundGuard(v.state, v.keys, [], [g, m], g) && |v.healthy| == 4
      && !NoGuardBefore(v.state, v.keys, [], [g, m], |v.state.guards|)
  {
    var v, g, m, e, f := TwoExitView(), NodeAt(1, 0, false), NodeAt(2, 0, false), NodeAt(2, 1, true), NodeAt(3, 0, true);
    assert FoundAt(v.state, v.keys, [], [g, m], 0, 0);
    assert v.healthy.Keys == {At(g), At(m), At(e), At(f)};
  }

  lemma TwoExitAnswers(v: View, g: ProxyNode, m: ProxyNode, x: ProxyNode, y: ProxyNode, chain: seq<ProxyNode>)
    requires !g.isExit && !m.isExit && x.isExit && y.isExit && At(g) != At(m) && |v.healthy| == 4 && v.state.guards != []
    requires FoundGuard(v.state, v.keys, [], [g, m], g) && !NoGuardBefore(v.state, v.keys, [], [g, m], |v.state.guards|)
    requires Completes([g], [m], [x, y], true, 3, 2, chain)
    ensures Answers(v, Request(3, 3, true, []), [g, m, x, y], chain)
  {
    var q, order := Request(3, 3, true, []), [g, m, x, y];
    TwoExitOrder(g, m, x, y);
    assert GuardsAfter(v, q, order) == v.state;
    assert AnswersThrough(q, order, g, chain);
  }

  lemma TwoExitLists()
    ensures
      var v := TwoExitView();
      var g, m, e, f := NodeAt(1, 0, false), NodeAt(2, 0, false), NodeAt(2, 1, true), NodeAt(3, 0, true);
      ListsTable(v.healthy, [g, m, e, f]) && ListsTable(v.healthy, [g, m, f, e])
  {
  }

  /** One view, two shuffles: the first reserves the exit whose class blocks the only middle and
      returns nothing, the second returns a full chain. */
  lemma ShuffleDecides()
    ensures
      var v, q := TwoExitView(), Request(3, 3, true, []);
      var g, m, e, f := NodeAt(1, 0, false), NodeAt(2, 0, false), NodeAt(2, 1, true), NodeAt(3, 0, true);
      && ListsTable(v.healthy, [g, m, e, f]) && Answers(v, q, [g, m, e, f], [])
      && ListsTable(v.healthy, [g, m, f, e]) && Answers(v, q, [g, m, f, e], [g, m, f])
  {
    var g, m, e, f := NodeAt(1, 0, false), NodeAt(2, 0, false), NodeAt(2, 1, true), NodeAt(3, 0, true);
    TwoExitLists();
    TwoExitCompletes();
    TwoExitGuard();
    TwoExitAnswers(TwoExitView(), g, m, e, f, []);
    TwoExitAnswers(TwoExitView(), g, m, f, e, [g, m, f]);
  }
}
