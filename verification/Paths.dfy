/** Circuit path selection (src/mesh/pool.rs) and the chain checks of the circuit handshake
    (src/gateway/server.rs). Shuffles and random lengths are nondeterministic choices. */
module Paths {
  import opened Prelude
  import opened Address
  import opened Diversity
  import opened ClientPool

  const MAX_HOPS := 8
  const MAX_GUARDS := 3

  function At(n: ProxyNode): Endpoint {
    Endpoint(n.host, n.port)
  }

  function Hosts(nodes: seq<ProxyNode>): (h: seq<Host>)
    ensures |h| == |nodes| && forall i :: 0 <= i < |nodes| ==> h[i] == nodes[i].host
  {
    seq(|nodes|, i requires 0 <= i < |nodes| => nodes[i].host)
  }

  lemma HostsConcat(a: seq<ProxyNode>, b: seq<ProxyNode>)
    ensures Hosts(a + b) == Hosts(a) + Hosts(b)
  {
  }

  predicate DistinctEndpoints(nodes: seq<ProxyNode>) {
    forall i, j :: 0 <= i < j < |nodes| ==> At(nodes[i]) != At(nodes[j])
  }

  predicate NotExit(n: ProxyNode) {
    !n.isExit
  }

  predicate IsExit(n: ProxyNode) {
    n.isExit
  }

  /** Diversity of a chain, when it is enforced. */
  predicate Fits(enforce: bool, chain: seq<ProxyNode>) {
    enforce ==> Diverse(Hosts(chain))
  }

  method CheckFits(enforce: bool, chain: seq<ProxyNode>) returns (ok: bool)
    ensures ok <==> Fits(enforce, chain)
  {
    if !enforce {
      return true;
    }
    var result := ValidateCircuitDiversity(Hosts(chain));
    return result.Ok?;
  }

  function Last(exit: Option<ProxyNode>): seq<ProxyNode> {
    if exit.Some? then [exit.value] else []
  }

  // ---- greedy filling is maximum ----

  /** No chain can use `m` beside these hops: it has no prefix, or one that is taken. */
  ghost predicate Blocked(m: ProxyNode, chain: seq<ProxyNode>) {
    HostPrefix(m.host).None? || exists i :: 0 <= i < |chain| && HostPrefix(chain[i].host) == HostPrefix(m.host)
  }

  lemma FitsInsert(enforce: bool, front: seq<ProxyNode>, m: ProxyNode, back: seq<ProxyNode>)
    ensures enforce ==> (Fits(enforce, front + [m] + back) <==> Fits(enforce, front + back) && !Blocked(m, front + back))
  {
    HostsConcat(front + [m], back);
    HostsConcat(front, [m]);
    HostsConcat(front, back);
    assert Hosts([m]) == [m.host];
    DiverseInsert(Hosts(front), m.host, Hosts(back));
    assert forall i :: 0 <= i < |front + back| ==> (Hosts(front) + Hosts(back))[i] == (front + back)[i].host;
  }

  lemma BlockedStays(m: ProxyNode, front: seq<ProxyNode>, added: ProxyNode, back: seq<ProxyNode>)
    requires Blocked(m, front + back)
    ensures Blocked(m, front + [added] + back)
  {
    if HostPrefix(m.host).Some? {
      var i :| 0 <= i < |front + back| && HostPrefix((front + back)[i].host) == HostPrefix(m.host);
      var all := front + [added] + back;
      assert all[if i < |front| then i else i + 1] == (front + back)[i];
    }
  }

  /** `picks` are the increasing positions of the chosen candidates. */
  ghost predicate Picked(start: seq<ProxyNode>, pool: seq<ProxyNode>, picks: seq<nat>, selected: seq<ProxyNode>) {
    && |selected| == |start| + |picks| && start == selected[..|start|]
    && (forall i :: 0 <= i < |picks| ==> picks[i] < |pool| && selected[|start| + i] == pool[picks[i]])
    && (forall i, j :: 0 <= i < j < |picks| ==> picks[i] < picks[j])
  }

  lemma PickedNext(start: seq<ProxyNode>, pool: seq<ProxyNode>, picks: seq<nat>, selected: seq<ProxyNode>, k: nat)
    requires Picked(start, pool, picks, selected) && k < |pool| && forall i :: 0 <= i < |picks| ==> picks[i] < k
    ensures Picked(start, pool, picks + [k], selected + [pool[k]])
  {
  }

  /** Every scanned candidate was chosen or is blocked. */
  ghost predicate Exhausted(enforce: bool, pool: seq<ProxyNode>, k: nat, selected: seq<ProxyNode>, exit: Option<ProxyNode>)
    requires k <= |pool|
  {
    forall i :: 0 <= i < k ==> pool[i] in selected || (enforce && Blocked(pool[i], selected + Last(exit)))
  }

  lemma ExhaustedNext(enforce: bool, pool: seq<ProxyNode>, k: nat, selected: seq<ProxyNode>, exit: Option<ProxyNode>)
    requires k < |pool| && Exhausted(enforce, pool, k, selected, exit)
    ensures Exhausted(enforce, pool, k + 1, selected + [pool[k]], exit)
    ensures enforce && Blocked(pool[k], selected + Last(exit)) ==> Exhausted(enforce, pool, k + 1, selected, exit)
  {
    forall i | 0 <= i < k && enforce && Blocked(pool[i], selected + Last(exit))
      ensures Blocked(pool[i], selected + [pool[k]] + Last(exit))
    {
      BlockedStays(pool[i], selected, pool[k], Last(exit));
    }
  }

  /** What filling the middles greedily selects from the first `k` candidates: each one that
      keeps the chain diverse, until `limit` hops are selected. */
  function Greedy(enforce: bool, start: seq<ProxyNode>, pool: seq<ProxyNode>, exit: Option<ProxyNode>, limit: nat, k: nat)
    : (selected: seq<ProxyNode>)
    requires k <= |pool|
    ensures |start| <= |selected| && selected[..|start|] == start
    ensures |selected| <= |start| || |selected| <= limit
  {
    if k == 0 then start
    else
      var selected := Greedy(enforce, start, pool, exit, limit, k - 1);
      if |selected| < limit && Fits(enforce, selected + [pool[k - 1]] + Last(exit)) then selected + [pool[k - 1]] else selected
  }

  lemma {:induction false} GreedyStops(enforce: bool, start: seq<ProxyNode>, pool: seq<ProxyNode>, exit: Option<ProxyNode>,
                                       limit: nat, k: nat, n: nat)
    requires k <= n <= |pool| && |Greedy(enforce, start, pool, exit, limit, k)| >= limit
    ensures Greedy(enforce, start, pool, exit, limit, n) == Greedy(enforce, start, pool, exit, limit, k)
  {
    if k < n {
      GreedyStops(enforce, start, pool, exit, limit, k, n - 1);
    }
  }

  lemma GreedyNext(enforce: bool, start: seq<ProxyNode>, pool: seq<ProxyNode>, exit: Option<ProxyNode>, k: nat,
                   before: seq<ProxyNode>, picks: seq<nat>)
    returns (picks': seq<nat>)
    requires k < |pool| && Picked(start, pool, picks, before) && (forall i :: 0 <= i < |picks| ==> picks[i] < k)
    requires Fits(enforce, before + Last(exit)) && Exhausted(enforce, pool, k, before, exit)
    ensures
      var after := if Fits(enforce, before + [pool[k]] + Last(exit)) then before + [pool[k]] else before;
      && Picked(start, pool, picks', after) && (forall i :: 0 <= i < |picks'| ==> picks'[i] < k + 1)
      && Fits(enforce, after + Last(exit)) && Exhausted(enforce, pool, k + 1, after, exit)
  {
    FitsInsert(enforce, before, pool[k], Last(exit));
    ExhaustedNext(enforce, pool, k, before, exit);
    picks' := picks;
    if Fits(enforce, before + [pool[k]] + Last(exit)) {
      PickedNext(start, pool, picks, before, k);
      picks' := picks + [k];
    }
  }

  /** The greedy selection picks candidates in order and keeps the chain diverse; it stops short
      of the limit only when every candidate is used or blocked. */
  lemma {:induction false} GreedyMeaning(enforce: bool, start: seq<ProxyNode>, pool: seq<ProxyNode>, exit: Option<ProxyNode>,
                                         limit: nat, k: nat)
    returns (picks: seq<nat>)
    requires k <= |pool| && Fits(enforce, start + Last(exit))
    ensures
      var selected := Greedy(enforce, start, pool, exit, limit, k);
      && Picked(start, pool, picks, selected) && (forall i :: 0 <= i < |picks| ==> picks[i] < k)
      && Fits(enforce, selected + Last(exit))
      && (|selected| < limit ==> Exhausted(enforce, pool, k, selected, exit))
  {
    if k == 0 {
      picks := [];
      assert start == start[..|start|];
    } else {
      var before := Greedy(enforce, start, pool, exit, limit, k - 1);
      picks := GreedyMeaning(enforce, start, pool, exit, limit, k - 1);
      if |before| < limit {
        picks := GreedyNext(enforce, start, pool, exit, k - 1, before, picks);
      }
    }
  }

  /** The middle-filling loop of both builders. */
  method FillMiddles(start: seq<ProxyNode>, pool: seq<ProxyNode>, exit: Option<ProxyNode>, limit: nat, enforce: bool)
    returns (selected: seq<ProxyNode>)
    ensures selected == Greedy(enforce, start, pool, exit, limit, |pool|)
  {
    selected := start;
    for k := 0 to |pool|
      invariant selected == Greedy(enforce, start, pool, exit, limit, k)
    {
      if |selected| >= limit {
        GreedyStops(enforce, start, pool, exit, limit, k, |pool|);
        break;
      }
      var ok := CheckFits(enforce, selected + [pool[k]] + Last(exit));
      if ok {
        selected := selected + [pool[k]];
      }
    }
  }

  /** A list with distinct images that all occur among another list's is no longer. */
  lemma InjectiveBound<T, U>(f: T -> U, s: seq<T>, t: seq<T>)
    requires forall i, j :: 0 <= i < j < |s| ==> f(s[i]) != f(s[j])
    requires forall i :: 0 <= i < |s| ==> f(s[i]) in Images(f, t)
    ensures |s| <= |t|
  {
    DistinctImagesFit(f, s, Images(f, t));
    ImagesCount(f, t);
  }

  function PrefixOfNode(n: ProxyNode): Option<Prefix> {
    HostPrefix(n.host)
  }

  /** Two hops at different positions of a diverse chain have different prefixes. */
  lemma DiverseAt(chain: seq<ProxyNode>, i: nat, j: nat)
    requires Fits(true, chain) && i < |chain| && j < |chain| && i != j
    ensures PrefixOfNode(chain[i]).Some? && PrefixOfNode(chain[i]) != PrefixOfNode(chain[j])
  {
  }

  /** Dropping hops from the middle of a chain keeps it diverse. */
  lemma FitsDrop(enforce: bool, front: seq<ProxyNode>, mid: seq<ProxyNode>, back: seq<ProxyNode>)
    requires Fits(enforce, front + mid + back)
    ensures Fits(enforce, front + back)
  {
    if enforce {
      var all, rest, n, m := front + mid + back, front + back, |front|, |mid|;
      assert forall j :: 0 <= j < |rest| ==> rest[j] == all[if j < n then j else j + m];
      forall i, j | 0 <= i < j < |rest| ensures HostPrefix(Hosts(rest)[i]) != HostPrefix(Hosts(rest)[j]) {
        DiverseAt(all, if i < n then i else i + m, if j < n then j else j + m);
      }
      forall i | 0 <= i < |rest| ensures HostPrefix(Hosts(rest)[i]).Some? {
        assert HostPrefix(Hosts(all)[if i < n then i else i + m]).Some?;
      }
    }
  }

  lemma MiddleDistinct(front: seq<ProxyNode>, mid: seq<ProxyNode>, back: seq<ProxyNode>)
    requires Fits(true, front + mid + back)
    ensures forall i, j :: 0 <= i < j < |mid| ==> PrefixOfNode(mid[i]) != PrefixOfNode(mid[j])
  {
    var all, n := front + mid + back, |front|;
    forall i, j | 0 <= i < j < |mid| ensures PrefixOfNode(mid[i]) != PrefixOfNode(mid[j]) {
      DiverseAt(all, n + i, n + j);
      assert all[n + i] == mid[i] && all[n + j] == mid[j];
    }
  }

  lemma MiddleVsEnds(front: seq<ProxyNode>, mid: seq<ProxyNode>, back: seq<ProxyNode>, i: nat)
    requires Fits(true, front + mid + back) && i < |mid|
    ensures PrefixOfNode(mid[i]).Some?
    ensures forall j :: 0 <= j < |front + back| ==> PrefixOfNode(mid[i]) != PrefixOfNode((front + back)[j])
  {
    var all, rest, n, m := front + mid + back, front + back, |front|, |mid|;
    assert all[n + i] == mid[i];
    assert HostPrefix(Hosts(all)[n + i]).Some?;
    forall j | 0 <= j < |rest| ensures PrefixOfNode(mid[i]) != PrefixOfNode(rest[j]) {
      DiverseAt(all, n + i, if j < n then j else j + m);
      assert rest[j] == all[if j < n then j else j + m];
    }
  }

  /** Greedy choice over address prefixes is maximum: no other diverse choice of middles
      between the same ends is longer. */
  lemma GreedyMaximum(enforce: bool, start: seq<ProxyNode>, pool: seq<ProxyNode>, exit: Option<ProxyNode>,
                      picks: seq<nat>, selected: seq<ProxyNode>, others: seq<ProxyNode>)
    requires Picked(start, pool, picks, selected) && Exhausted(enforce, pool, |pool|, selected, exit)
    requires forall i :: 0 <= i < |others| ==> others[i] in pool && others[i] !in start
    requires forall i, j :: 0 <= i < j < |others| ==> others[i] != others[j]
    requires Fits(enforce, start + others + Last(exit))
    ensures |others| <= |selected| - |start|
  {
    var added := selected[|start|..];
    assert selected == start + added;
    if enforce {
      MiddleDistinct(start, others, Last(exit));
      forall i | 0 <= i < |others| ensures PrefixOfNode(others[i]) in Images(PrefixOfNode, added) {
        MiddleVsEnds(start, others, Last(exit), i);
        GreedyCovers(start, added, pool, exit, others, i);
      }
      InjectiveBound(PrefixOfNode, others, added);
    } else {
      var id := (n: ProxyNode) => n;
      forall i | 0 <= i < |others| ensures id(others[i]) in Images(id, added) {
        var j :| 0 <= j < |selected| && selected[j] == others[i];
        assert forall k :: 0 <= k < |start| ==> selected[k] == start[k];
        assert j >= |start|;
        assert id(added[j - |start|]) == others[i];
      }
      InjectiveBound(id, others, added);
    }
  }

  lemma GreedyCovers(start: seq<ProxyNode>, added: seq<ProxyNode>, pool: seq<ProxyNode>, exit: Option<ProxyNode>,
                     others: seq<ProxyNode>, i: nat)
    requires Exhausted(true, pool, |pool|, start + added, exit)
    requires i < |others| && others[i] in pool && PrefixOfNode(others[i]).Some?
    requires forall j :: 0 <= j < |start + Last(exit)| ==> PrefixOfNode(others[i]) != PrefixOfNode((start + Last(exit))[j])
    ensures PrefixOfNode(others[i]) in Images(PrefixOfNode, added)
  {
    var chain := start + added + Last(exit);
    var k :| 0 <= k < |pool| && pool[k] == others[i];
    var j: int;
    if others[i] in start + added {
      j :| 0 <= j < |start + added| && (start + added)[j] == others[i];
      assert chain[j] == others[i];
    } else {
      j :| 0 <= j < |chain| && HostPrefix(chain[j].host) == HostPrefix(others[i].host);
    }
    var n, ends := |start|, start + Last(exit);
    assert forall k :: 0 <= k < n ==> chain[k] == ends[k];
    assert forall k :: n + |added| <= k < |chain| ==> chain[k] == ends[k - |added|];
    assert n <= j < n + |added|;
    assert PrefixOfNode(added[j - n]) == PrefixOfNode(others[i]);
  }

  lemma {:induction false} PicksDistinct(start: seq<ProxyNode>, pool: seq<ProxyNode>, picks: seq<nat>, selected: seq<ProxyNode>)
    requires Picked(start, pool, picks, selected) && DistinctEndpoints(pool) && DistinctEndpoints(start)
    requires forall i, j :: 0 <= i < |start| && 0 <= j < |pool| ==> At(start[i]) != At(pool[j])
    ensures DistinctEndpoints(selected)
  {
    forall i, j | 0 <= i < j < |selected| ensures At(selected[i]) != At(selected[j]) {
      var n := |start|;
      assert forall k :: 0 <= k < n ==> selected[k] == start[k];
      assert i >= n ==> selected[n + (i - n)] == pool[picks[i - n]];
      assert j >= n ==> selected[n + (j - n)] == pool[picks[j - n]];
      assert i >= n ==> picks[i - n] < picks[j - n];
    }
  }

  /** A random truncation before the exit keeps the whole chain diverse. */
  lemma TruncatedFits(enforce: bool, selected: seq<ProxyNode>, exit: seq<ProxyNode>, n: nat)
    requires Fits(enforce, selected + exit) && n <= |selected|
    ensures Fits(enforce, selected[..n] + exit)
  {
    assert selected + exit == selected[..n] + selected[n..] + exit;
    FitsDrop(enforce, selected[..n], selected[n..], exit);
  }

  lemma TruncatedDistinct(selected: seq<ProxyNode>, exit: ProxyNode, n: nat)
    requires DistinctEndpoints(selected) && n <= |selected|
    requires forall i :: 0 <= i < |selected| ==> At(selected[i]) != At(exit)
    ensures DistinctEndpoints(selected[..n] + [exit])
  {
  }

  lemma DistinctNodes(nodes: seq<ProxyNode>, x: ProxyNode, y: ProxyNode)
    requires DistinctEndpoints(nodes) && x in nodes && y in nodes && x != y
    ensures At(x) != At(y)
  {
  }
}
