/** What callers of the session cache (src/gateway/session_cache.rs) get over a whole run: a live
    session is shared, every answer is what an initializer produced, and calls can proceed. */
module SessionReuse {
  import opened Prelude
  import opened SessionCache

  // ---- where answers come from ----

  /** The `at`th event is the end of an initializer with this result. */
  ghost predicate Produced<K, V>(events: seq<Event<K, V>>, n: nat, result: Result<V, string>, at: nat) {
    at < n <= |events| && events[at].Finish? && events[at].result == result
  }

  /** Every finished cell and every answer hold what the initializer that ended at their step
      produced, and a call's answer is what its cell holds. */
  ghost predicate Provenance<K(!new), V>(events: seq<Event<K, V>>, n: nat, s: State<K, V>) {
    && s.clock == n
    && (forall c :: c in s.cells && s.cells[c].content.Done? ==>
          Produced(events, n, s.cells[c].content.result, s.cells[c].content.at))
    && (forall i :: 0 <= i < |s.answers| ==> FromCell(s, s.answers[i]))
  }

  /** The answer is what its caller's cell holds, and the caller came before now. */
  ghost predicate FromCell<K(!new), V>(s: State<K, V>, a: Answer<K, V>) {
    && a.caller.since < s.clock
    && a.caller.cell in s.cells && s.cells[a.caller.cell].content == Done(a.result, a.origin, a.at)
  }

  lemma FromCellStays<K(!new), V>(maximum: nat, s: State<K, V>, e: Event<K, V>, a: Answer<K, V>)
    requires FromCell(s, a)
    ensures FromCell(Tick(Step(maximum, s, e)), a)
  {
    DoneStays(maximum, s, e, a.caller.cell, s.cells[a.caller.cell]);
  }

  /** A step finishes at most the cell of the call whose initializer ends. */
  lemma NewlyDone<K(!new), V>(maximum: nat, s: State<K, V>, e: Event<K, V>, c: nat)
    requires c in Step(maximum, s, e).cells && Step(maximum, s, e).cells[c].content.Done?
    ensures
      var content := Step(maximum, s, e).cells[c].content;
      || (c in s.cells && s.cells[c].content == content)
      || (e.Finish? && content.result == e.result && content.at == s.clock)
  {
    if e.LookUp? && e.caller !in s.callers && e.cell !in s.cells {
      LookUpExactly(maximum, s, e.caller, e.key, e.alive, e.cell);
    }
  }

  /** A step adds at most the answer of a call that returns, taken from its cell. */
  lemma NewlyAnswered<K(!new), V>(maximum: nat, s: State<K, V>, e: Event<K, V>)
    requires CallersOk(s)
    ensures
      var next := Step(maximum, s, e);
      || next.answers == s.answers
      || (&& next.answers == s.answers + [next.answers[|s.answers|]] && FromCell(Tick(next), next.answers[|s.answers|])
          && e.Return? && e.caller in s.callers && next.answers[|s.answers|].caller == s.callers[e.caller])
  {
    if e.Return? && Holds(s, e.caller) {
      assert CallerOk(s, s.callers[e.caller]);
    }
  }

  lemma ProvenanceStep<K(!new), V>(maximum: nat, events: seq<Event<K, V>>, n: nat, s: State<K, V>)
    requires n < |events| && Provenance(events, n, s) && CallersOk(s)
    ensures Provenance(events, n + 1, Tick(Step(maximum, s, events[n])))
  {
    var next := Tick(Step(maximum, s, events[n]));
    forall c | c in next.cells && next.cells[c].content.Done?
      ensures Produced(events, n + 1, next.cells[c].content.result, next.cells[c].content.at)
    {
      NewlyDone(maximum, s, events[n], c);
    }
    NewlyAnswered(maximum, s, events[n]);
    forall i | 0 <= i < |next.answers| ensures FromCell(next, next.answers[i]) {
      if i < |s.answers| {
        FromCellStays(maximum, s, events[n], s.answers[i]);
      }
    }
  }

  lemma {:induction false} RunProvenance<K(!new), V>(maximum: nat, events: seq<Event<K, V>>, n: nat)
    requires n <= |events|
    ensures Provenance(events, n, Run(maximum, Fresh(), events, n)) && Inv(maximum, Run(maximum, Fresh(), events, n))
  {
    RunKeepsInv(maximum, Fresh(), events, n);
    if n > 0 {
      RunProvenance(maximum, events, n - 1);
      ProvenanceStep(maximum, events, n - 1, Run(maximum, Fresh(), events, n - 1));
    }
  }

  /** Every answer is what an initializer of that very run produced. */
  lemma AnswerWasProduced<K(!new), V>(maximum: nat, events: seq<Event<K, V>>, i: nat)
    requires i < |Run(maximum, Fresh(), events, |events|).answers|
    ensures
      var a := Run(maximum, Fresh(), events, |events|).answers[i];
      Produced(events, |events|, a.result, a.at)
  {
    RunProvenance(maximum, events, |events|);
    var s := Run(maximum, Fresh(), events, |events|);
    assert FromCell(s, s.answers[i]);
  }

  // ---- a live session is shared ----

  /** The context's reservation is a finished cell with this session. */
  ghost predicate Serves<K, V>(s: State<K, V>, k: K, c: nat, v: V) {
    && k in s.slots && s.slots[k] == c
    && c in s.cells && s.cells[c].key == k && s.cells[c].content.Done? && s.cells[c].content.result == Ok(v)
  }

  /** A successful initializer leaves its session reserved for its context. */
  lemma FinishServes<K(!new), V>(maximum: nat, s: State<K, V>, t: nat, v: V)
    requires Inv(maximum, s) && Initializing(s, t)
    ensures Serves(Tick(Step(maximum, s, Finish(t, Ok(v)))), s.callers[t].key, s.callers[t].cell, v)
  {
    assert CallerOk(s, s.callers[t]);
  }

  lemma ServesStep<K(!new), V>(maximum: nat, s: State<K, V>, e: Event<K, V>, k: K, c: nat, v: V)
    requires Serves(s, k, c, v) && (e.LookUp? ==> e.alive(v))
    ensures Serves(Tick(Step(maximum, s, e)), k, c, v)
  {
    DoneStays(maximum, s, e, c, s.cells[c]);
    if e.LookUp? && e.caller !in s.callers && e.cell !in s.cells {
      LookUpKeeps(maximum, s, e.caller, e.key, e.alive, e.cell);
      assert Live(s, e.alive, c) && k in Survivors(s, e.alive);
    }
  }

  /** Calls for the context that looked up from step `since` on hold or held this cell. */
  ghost predicate Joined<K(!new), V>(s: State<K, V>, k: K, c: nat, since: nat) {
    && (forall t :: t in s.callers && s.callers[t].key == k && s.callers[t].since >= since ==> s.callers[t].cell == c)
    && (forall i :: 0 <= i < |s.answers| && s.answers[i].caller.key == k && s.answers[i].caller.since >= since ==>
          s.answers[i].caller.cell == c)
  }

  lemma NewCallers<K(!new), V>(maximum: nat, s: State<K, V>, e: Event<K, V>, k: K, c: nat, v: V, t: nat)
    requires Serves(s, k, c, v) && (e.LookUp? ==> e.alive(v))
    requires t in Step(maximum, s, e).callers && Step(maximum, s, e).callers[t].key == k
    ensures
      var caller := Step(maximum, s, e).callers[t];
      (t in s.callers && s.callers[t] == caller) || caller.cell == c
  {
    if e.LookUp? && e.caller !in s.callers && e.cell !in s.cells {
      LookUpExactly(maximum, s, e.caller, e.key, e.alive, e.cell);
      assert Live(s, e.alive, c) && k in Survivors(s, e.alive);
    }
  }

  lemma JoinedStep<K(!new), V>(maximum: nat, s: State<K, V>, e: Event<K, V>, k: K, c: nat, v: V, since: nat)
    requires Serves(s, k, c, v) && (e.LookUp? ==> e.alive(v)) && Joined(s, k, c, since) && CallersOk(s)
    ensures Joined(Tick(Step(maximum, s, e)), k, c, since)
  {
    var next := Step(maximum, s, e);
    forall t | t in next.callers && next.callers[t].key == k && next.callers[t].since >= since
      ensures next.callers[t].cell == c
    {
      NewCallers(maximum, s, e, k, c, v, t);
    }
    NewlyAnswered(maximum, s, e);
  }

  /** No lookup between the two steps finds this session dead. */
  ghost predicate FoundAlive<K, V>(events: seq<Event<K, V>>, n: nat, m: nat, v: V)
    requires n <= m <= |events|
  {
    forall i :: n <= i < m && events[i].LookUp? ==> events[i].alive(v)
  }

  lemma JoinedBefore<K(!new), V>(events: seq<Event<K, V>>, n: nat, s: State<K, V>, k: K, c: nat)
    requires Provenance(events, n, s) && CallersOk(s)
    ensures Joined(s, k, c, n)
  {
    forall t | t in s.callers ensures s.callers[t].since < n { assert CallerOk(s, s.callers[t]); }
    forall i | 0 <= i < |s.answers| ensures s.answers[i].caller.since < n { assert FromCell(s, s.answers[i]); }
  }

  lemma SharedStep<K(!new), V>(maximum: nat, s: State<K, V>, e: Event<K, V>, k: K, c: nat, v: V, since: nat)
    requires Serves(s, k, c, v) && (e.LookUp? ==> e.alive(v)) && Joined(s, k, c, since) && CallersOk(s)
    ensures Serves(Tick(Step(maximum, s, e)), k, c, v) && Joined(Tick(Step(maximum, s, e)), k, c, since)
  {
    ServesStep(maximum, s, e, k, c, v);
    JoinedStep(maximum, s, e, k, c, v, since);
  }

  lemma {:induction false} ServesRun<K(!new), V>(maximum: nat, events: seq<Event<K, V>>, n: nat, m: nat, k: K, c: nat, v: V)
    requires n <= m <= |events| && FoundAlive(events, n, m, v) && Serves(Run(maximum, Fresh(), events, n), k, c, v)
    ensures Serves(Run(maximum, Fresh(), events, m), k, c, v) && Joined(Run(maximum, Fresh(), events, m), k, c, n)
    decreases m
  {
    if n < m {
      ServesRun(maximum, events, n, m - 1, k, c, v);
      RunKeepsInv(maximum, Fresh(), events, m - 1);
      SharedStep(maximum, Run(maximum, Fresh(), events, m - 1), events[m - 1], k, c, v, n);
    } else {
      RunProvenance(maximum, events, n);
      JoinedBefore(events, n, Run(maximum, Fresh(), events, n), k, c);
    }
  }

  /** A live session is shared: from when a context's session is ready until a lookup finds it
      dead, the context keeps its reservation, none of its calls runs an initializer, and every
      call that looks it up and returns meanwhile gets that session. */
  lemma LiveSessionShared<K(!new), V>(maximum: nat, events: seq<Event<K, V>>, n: nat, m: nat, k: K, c: nat, v: V)
    requires n <= m <= |events| && FoundAlive(events, n, m, v) && Serves(Run(maximum, Fresh(), events, n), k, c, v)
    ensures
      var s := Run(maximum, Fresh(), events, m);
      && Serves(s, k, c, v)
      && (forall t :: Initializing(s, t) ==> s.callers[t].key != k)
      && (forall i :: 0 <= i < |s.answers| && s.answers[i].caller.key == k && s.answers[i].caller.since >= n ==>
            s.answers[i].result == Ok(v))
  {
    ServesRun(maximum, events, n, m, k, c, v);
    RunProvenance(maximum, events, m);
    var s := Run(maximum, Fresh(), events, m);
    forall t | Initializing(s, t) ensures s.callers[t].key != k {
      assert CallerOk(s, s.callers[t]);
    }
    forall i | 0 <= i < |s.answers| && s.answers[i].caller.key == k && s.answers[i].caller.since >= n
      ensures s.answers[i].result == Ok(v)
    {
      assert FromCell(s, s.answers[i]);
    }
  }

  // ---- calls proceed ----

  /** The state after three more events. */
  function Three<K, V>(maximum: nat, s: State<K, V>, a: Event<K, V>, b: Event<K, V>, c: Event<K, V>): State<K, V> {
    Tick(Step(maximum, Tick(Step(maximum, Tick(Step(maximum, s, a)), b)), c))
  }

  /** A call whose cell is done returns with what the cell holds. */
  lemma DoneReturns<K, V>(maximum: nat, s: State<K, V>, t: nat)
    requires Holds(s, t) && ContentOf(s, t).Done?
    ensures
      var next, content := Step(maximum, s, Return(t)), ContentOf(s, t);
      && next.callers == s.callers - {t} && next.slots == s.slots && next.cells == s.cells
      && next.answers == s.answers + [Answer(s.callers[t], content.result, content.origin, content.at)]
  {
  }

  /** A call whose cell is empty can fill it and gets its own initializer's result. */
  lemma EmptyProceeds<K, V>(maximum: nat, s: State<K, V>, t: nat, result: Result<V, string>)
    requires Holds(s, t) && ContentOf(s, t).Empty?
    ensures
      var next := Three(maximum, s, Begin(t), Finish(t, result), Return(t));
      next.answers == s.answers + [Answer(s.callers[t], result, s.callers[t].key, s.clock + 1)]
  {
    var s1 := Tick(Step(maximum, s, Begin(t)));
    var s2 := Tick(Step(maximum, s1, Finish(t, result)));
    assert Holds(s1, t) && ContentOf(s1, t) == Filling(t);
    assert Holds(s2, t) && ContentOf(s2, t) == Done(result, s.callers[t].key, s.clock + 1);
  }

  /** A call that waits for another's initializer shares its result, and may fill the cell
      itself if that call is cancelled. */
  lemma WaiterProceeds<K(!new), V>(maximum: nat, s: State<K, V>, t: nat, u: nat, result: Result<V, string>)
    requires Inv(maximum, s) && Holds(s, t) && ContentOf(s, t) == Filling(u) && t != u
    ensures
      var done, dropped := Tick(Step(maximum, s, Finish(u, result))), Tick(Step(maximum, s, Cancel(u)));
      && Holds(done, t) && ContentOf(done, t) == Done(result, s.callers[t].key, s.clock)
      && Holds(dropped, t) && ContentOf(dropped, t).Empty?
  {
    assert CellOk(s, s.callers[t].cell) && CallerOk(s, s.callers[t]) && CallerOk(s, s.callers[u]);
  }
}
