/** Single-flight session reservations (src/gateway/session_cache.rs): a bounded map of
    once-cells, pruned and extended under a lock, filled by concurrent callers. */
module SessionCache {
  import opened Prelude

  /** A once-cell is empty, being filled by one caller, or done for good: at step `at`, with
      what the caller's own initializer for the context `origin` produced. */
  datatype Content<K, V> = Empty | Filling(caller: nat) | Done(result: Result<V, string>, origin: K, at: nat)

  datatype Cell<K, V> = Cell(key: K, content: Content<K, V>)

  /** A caller that passed the lock at step `since` holds its cell until it returns or is
      cancelled; `alive` is the liveness test it pruned with. */
  datatype Caller<K, !V> = Caller(key: K, cell: nat, since: nat, alive: V -> bool)

  datatype Answer<K, !V> = Answer(caller: Caller<K, V>, result: Result<V, string>, origin: K, at: nat)

  /** `slots` is the shared map; `cells` remembers every cell; `callers` are the calls in
      progress and `answers` what finished calls got from their cells. */
  datatype State<K, !V> = State(
    slots: map<K, nat>,
    cells: map<nat, Cell<K, V>>,
    callers: map<nat, Caller<K, V>>,
    answers: seq<Answer<K, V>>,
    clock: nat)

  datatype Event<K, !V> =
    | LookUp(caller: nat, key: K, alive: V -> bool, cell: nat)
    | Begin(caller: nat)
    | Finish(caller: nat, result: Result<V, string>)
    | Cancel(caller: nat)
    | Return(caller: nat)

  /** Some call in progress holds the cell, so its reference count exceeds the map's own. */
  predicate Held<K, V>(callers: map<nat, Caller<K, V>>, cell: nat) {
    exists t :: t in callers && callers[t].cell == cell
  }

  predicate Retained<K, V>(s: State<K, V>, alive: V -> bool, cell: nat) {
    && cell in s.cells
    && var content := s.cells[cell].content;
    if content.Done? then content.result.Ok? && alive(content.result.value) else Held(s.callers, cell)
  }

  function Pruned<K, V>(s: State<K, V>, alive: V -> bool): map<K, nat> {
    map k | k in s.slots && Retained(s, alive, s.slots[k]) :: s.slots[k]
  }

  /** The locked section: prune, refuse when full, else reserve or share the key's cell. */
  function Reserve<K, V>(maximum: nat, s: State<K, V>, caller: nat, key: K, alive: V -> bool, cell: nat): State<K, V> {
    var slots := Pruned(s, alive);
    if key in slots then
      s.(slots := slots, callers := s.callers[caller := Caller(key, slots[key], s.clock, alive)])
    else if |slots| >= maximum then
      s.(slots := slots)
    else
      s.(slots := slots[key := cell],
      cells := s.cells[cell := Cell(key, Empty)],
      callers := s.callers[caller := Caller(key, cell, s.clock, alive)])
  }

  predicate Holds<K, V>(s: State<K, V>, t: nat) {
    t in s.callers && s.callers[t].cell in s.cells
  }

  function ContentOf<K, V>(s: State<K, V>, t: nat): Content<K, V>
    requires Holds(s, t)
  {
    s.cells[s.callers[t].cell].content
  }

  function Write<K, V>(s: State<K, V>, t: nat, content: Content<K, V>): State<K, V>
    requires Holds(s, t)
  {
    var cell := s.callers[t].cell;
    s.(cells := s.cells[cell := Cell(s.cells[cell].key, content)])
  }

  function Leave<K, V>(s: State<K, V>, t: nat): State<K, V> {
    s.(callers := s.callers - {t})
  }

  /** Cancelling a call abandons its initializer, if it was running one. */
  function Abandon<K, V>(s: State<K, V>, t: nat): State<K, V>
    requires Holds(s, t)
  {
    Leave(if ContentOf(s, t) == Filling(t) then Write(s, t, Empty) else s, t)
  }

  function Answered<K, V>(s: State<K, V>, t: nat): State<K, V>
    requires Holds(s, t) && ContentOf(s, t).Done?
  {
    var content := ContentOf(s, t);
    Leave(s, t).(answers := s.answers + [Answer(s.callers[t], content.result, content.origin, content.at)])
  }

  /** One step; an event that cannot happen now changes nothing. */
  function Step<K, V>(maximum: nat, s: State<K, V>, e: Event<K, V>): State<K, V> {
    match e
    case LookUp(t, key, alive, cell) =>
      if t in s.callers || cell in s.cells then s else Reserve(maximum, s, t, key, alive, cell)
    case Begin(t) => if Holds(s, t) && ContentOf(s, t).Empty? then Write(s, t, Filling(t)) else s
    case Finish(t, result) =>
      if Holds(s, t) && ContentOf(s, t) == Filling(t) then Write(s, t, Done(result, s.callers[t].key, s.clock)) else s
    case Cancel(t) => if Holds(s, t) then Abandon(s, t) else s
    case Return(t) => if Holds(s, t) && ContentOf(s, t).Done? then Answered(s, t) else s
  }

  function Tick<K, V>(s: State<K, V>): State<K, V> {
    s.(clock := s.clock + 1)
  }

  function Fresh<K, V>(): State<K, V> {
    State(map[], map[], map[], [], 0)
  }

  /** The cache that starts as `s` after the first `n` events of any interleaving of lookups,
      initializations, cancellations, failures and returns. */
  function Run<K, V>(maximum: nat, s: State<K, V>, events: seq<Event<K, V>>, n: nat): State<K, V>
    requires n <= |events|
  {
    if n == 0 then s else Tick(Step(maximum, Run(maximum, s, events, n - 1), events[n - 1]))
  }

  // ---- the invariant ----

  /** What a caller may see in its cell: nothing that was already a failure, or a session it
      would not call alive, when it took the lock. */
  predicate Current<K, V>(caller: Caller<K, V>, content: Content<K, V>) {
    content.Done? && content.at < caller.since ==> content.result.Ok? && caller.alive(content.result.value)
  }

  predicate CallerOk<K(==), V>(s: State<K, V>, caller: Caller<K, V>) {
    && caller.cell in s.cells && s.cells[caller.cell].key == caller.key && caller.since < s.clock
    && Current(caller, s.cells[caller.cell].content)
    && (s.cells[caller.cell].content.Done? || (caller.key in s.slots && s.slots[caller.key] == caller.cell))
  }

  ghost predicate CallersOk<K, V>(s: State<K, V>) {
    forall t :: t in s.callers ==> CallerOk(s, s.callers[t])
  }

  predicate CellOk<K(==), V>(s: State<K, V>, c: nat)
    requires c in s.cells
  {
    match s.cells[c].content
    case Empty => true
    case Filling(t) => t in s.callers && s.callers[t].cell == c
    case Done(_, origin, at) => origin == s.cells[c].key && at < s.clock
  }

  ghost predicate CellsOk<K, V>(s: State<K, V>) {
    forall c :: c in s.cells ==> CellOk(s, c)
  }

  ghost predicate SlotsOk<K(!new), V>(s: State<K, V>) {
    forall k :: k in s.slots ==> s.slots[k] in s.cells && s.cells[s.slots[k]].key == k
  }

  predicate AnswerOk<K(==), V>(a: Answer<K, V>) {
    a.origin == a.caller.key && (a.at < a.caller.since ==> a.result.Ok? && a.caller.alive(a.result.value))
  }

  ghost predicate AnswersOk<K, V>(answers: seq<Answer<K, V>>) {
    forall i :: 0 <= i < |answers| ==> AnswerOk(answers[i])
  }

  ghost predicate Inv<K(!new), V>(maximum: nat, s: State<K, V>) {
    && |s.slots| <= maximum
    && SlotsOk(s) && CallersOk(s) && CellsOk(s) && AnswersOk(s.answers)
  }

  // ---- every step keeps it ----

  lemma PrunedOk<K(!new), V>(maximum: nat, s: State<K, V>, alive: V -> bool)
    requires Inv(maximum, s)
    ensures |Pruned(s, alive)| <= maximum
    ensures Inv(maximum, Tick(s.(slots := Pruned(s, alive))))
  {
    var s' := Tick(s.(slots := Pruned(s, alive)));
    SubsetSize(s'.slots.Keys, s.slots.Keys);
    forall t | t in s'.callers ensures CallerOk(s', s'.callers[t]) {
      var caller := s.callers[t];
      assert CallerOk(s, caller);
      assert Held(s.callers, caller.cell);
    }
    forall c | c in s'.cells ensures CellOk(s', c) {
      assert CellOk(s, c);
    }
  }

  /** A caller that joins holds either a cell that survived pruning or an empty one. */
  lemma JoinKeepsInv<K(!new), V>(maximum: nat, s: State<K, V>, t: nat, caller: Caller<K, V>)
    requires Inv(maximum, s) && t !in s.callers && CallerOk(s, caller)
    ensures Inv(maximum, s.(callers := s.callers[t := caller]))
  {
  }

  function WithCell<K, V>(s: State<K, V>, key: K, cell: nat): State<K, V> {
    s.(slots := s.slots[key := cell], cells := s.cells[cell := Cell(key, Empty)])
  }

  lemma NewCellKeepsCallers<K(!new), V>(s: State<K, V>, key: K, cell: nat)
    requires SlotsOk(s) && CallersOk(s) && key !in s.slots && cell !in s.cells
    ensures CallersOk(WithCell(s, key, cell)) && SlotsOk(WithCell(s, key, cell))
  {
  }

  lemma NewCellKeepsCells<K(!new), V>(s: State<K, V>, key: K, cell: nat)
    requires CellsOk(s) && cell !in s.cells
    ensures CellsOk(WithCell(s, key, cell))
  {
  }

  lemma OneMore<K>(m: map<K, nat>, key: K, cell: nat)
    requires key !in m
    ensures |m[key := cell]| == |m| + 1
  {
  }

  lemma NewCellKeepsInv<K(!new), V>(maximum: nat, s: State<K, V>, key: K, cell: nat)
    requires Inv(maximum, s) && key !in s.slots && cell !in s.cells && |s.slots| < maximum
    ensures Inv(maximum, WithCell(s, key, cell))
  {
    NewCellKeepsCallers(s, key, cell);
    NewCellKeepsCells(s, key, cell);
    OneMore(s.slots, key, cell);
  }

  lemma ShareKeepsInv<K(!new), V>(maximum: nat, s: State<K, V>, s1: State<K, V>, t: nat, key: K, alive: V -> bool)
    requires s1 == Tick(s.(slots := Pruned(s, alive))) && Inv(maximum, s1) && t !in s1.callers && key in s1.slots
    ensures Inv(maximum, s1.(callers := s1.callers[t := Caller(key, s1.slots[key], s.clock, alive)]))
  {
  }

  lemma ReserveKeepsInv<K(!new), V>(maximum: nat, s: State<K, V>, t: nat, key: K, alive: V -> bool, cell: nat)
    requires Inv(maximum, s) && t !in s.callers && cell !in s.cells
    ensures Inv(maximum, Tick(Reserve(maximum, s, t, key, alive, cell)))
  {
    var s1 := Tick(s.(slots := Pruned(s, alive)));
    PrunedOk(maximum, s, alive);
    if key in s1.slots {
      ShareKeepsInv(maximum, s, s1, t, key, alive);
    } else if |s1.slots| < maximum {
      NewCellKeepsInv(maximum, s1, key, cell);
      JoinKeepsInv(maximum, WithCell(s1, key, cell), t, Caller(key, cell, s.clock, alive));
    }
  }

  /** Writing a cell that is not done, by a caller that holds it. */
  lemma WriteKeepsInv<K(!new), V>(maximum: nat, s: State<K, V>, t: nat, content: Content<K, V>)
    requires Inv(maximum, s) && Holds(s, t) && !ContentOf(s, t).Done?
    requires content.Filling? ==> content.caller == t
    requires content.Done? ==> content.origin == s.callers[t].key && content.at == s.clock
    ensures Inv(maximum, Tick(Write(s, t, content)))
  {
  }

  lemma LeaveKeepsInv<K(!new), V>(maximum: nat, s: State<K, V>, t: nat)
    requires Inv(maximum, s) && Holds(s, t) && ContentOf(s, t) != Filling(t)
    ensures Inv(maximum, Leave(s, t))
  {
  }

  lemma TickKeepsInv<K(!new), V>(maximum: nat, s: State<K, V>)
    requires Inv(maximum, s)
    ensures Inv(maximum, Tick(s))
  {
  }

  lemma AbandonKeepsInv<K(!new), V>(maximum: nat, s: State<K, V>, t: nat)
    requires Inv(maximum, s) && Holds(s, t)
    ensures Inv(maximum, Tick(Abandon(s, t)))
  {
    var s' := if ContentOf(s, t) == Filling(t) then Write(s, t, Empty) else s;
    if ContentOf(s, t) == Filling(t) {
      WriteKeepsInv(maximum, s, t, Empty);
    } else {
      TickKeepsInv(maximum, s);
    }
    LeaveKeepsInv(maximum, Tick(s'), t);
    assert Tick(Abandon(s, t)) == Leave(Tick(s'), t);
  }

  lemma AnswerKeepsInv<K(!new), V>(maximum: nat, s: State<K, V>, t: nat)
    requires Inv(maximum, s) && Holds(s, t) && ContentOf(s, t).Done?
    ensures Inv(maximum, Tick(Answered(s, t)))
  {
    assert CallerOk(s, s.callers[t]) && CellOk(s, s.callers[t].cell);
    TickKeepsInv(maximum, s);
    LeaveKeepsInv(maximum, Tick(s), t);
    SameButAnswers(Leave(Tick(s), t), Tick(Answered(s, t)));
  }

  lemma SameButAnswers<K(!new), V>(s: State<K, V>, s': State<K, V>)
    requires s' == s.(answers := s'.answers) && CallersOk(s) && CellsOk(s)
    ensures CallersOk(s') && CellsOk(s')
  {
  }

  lemma StepKeepsInv<K(!new), V>(maximum: nat, s: State<K, V>, e: Event<K, V>)
    requires Inv(maximum, s)
    ensures Inv(maximum, Tick(Step(maximum, s, e)))
  {
    TickKeepsInv(maximum, s);
    match e
    case LookUp(t, key, alive, cell) =>
      if t !in s.callers && cell !in s.cells {
        ReserveKeepsInv(maximum, s, t, key, alive, cell);
      }
    case Begin(t) =>
      if Holds(s, t) && ContentOf(s, t).Empty? {
        WriteKeepsInv(maximum, s, t, Filling(t));
      }
    case Finish(t, result) =>
      if Holds(s, t) && ContentOf(s, t) == Filling(t) {
        WriteKeepsInv(maximum, s, t, Done(result, s.callers[t].key, s.clock));
      }
    case Cancel(t) =>
      if Holds(s, t) {
        AbandonKeepsInv(maximum, s, t);
      }
    case Return(t) =>
      if Holds(s, t) && ContentOf(s, t).Done? {
        AnswerKeepsInv(maximum, s, t);
      }
  }

  lemma StepTo<K(!new), V>(maximum: nat, s: State<K, V>, e: Event<K, V>, next: State<K, V>)
    requires Inv(maximum, s) && next == Tick(Step(maximum, s, e))
    ensures Inv(maximum, next)
  {
    StepKeepsInv(maximum, s, e);
  }

  lemma {:induction false} RunKeepsInv<K(!new), V>(maximum: nat, s: State<K, V>, events: seq<Event<K, V>>, n: nat)
    requires Inv(maximum, s) && n <= |events|
    ensures Inv(maximum, Run(maximum, s, events, n))
  {
    if n > 0 {
      RunKeepsInv(maximum, s, events, n - 1);
      StepTo(maximum, Run(maximum, s, events, n - 1), events[n - 1], Run(maximum, s, events, n));
    }
  }

  // ---- what it means ----

  ghost predicate Initializing<K, V>(s: State<K, V>, t: nat) {
    Holds(s, t) && ContentOf(s, t) == Filling(t)
  }

  /** Single flight: never two initializers for one context at a time, never more reservations
      than the limit, and a context being initialized keeps its reservation. */
  lemma SingleFlight<K(!new), V>(maximum: nat, events: seq<Event<K, V>>)
    ensures
      var s := Run(maximum, Fresh(), events, |events|);
      && |s.slots| <= maximum
      && (forall t, u :: Initializing(s, t) && Initializing(s, u) && s.callers[t].key == s.callers[u].key ==> t == u)
      && (forall t :: Initializing(s, t) ==> s.callers[t].key in s.slots && s.slots[s.callers[t].key] == s.callers[t].cell)
  {
    RunKeepsInv(maximum, Fresh(), events, |events|);
    var s := Run(maximum, Fresh(), events, |events|);
    forall t | Initializing(s, t)
      ensures s.callers[t].key in s.slots && s.slots[s.callers[t].key] == s.callers[t].cell
    {
      assert CallerOk(s, s.callers[t]);
    }
  }

  /** Every answer comes from an initializer of the caller's own context, and one that was
      done before the caller took the lock is a session that the caller found alive: never a
      failure, never a dead session. */
  lemma AnswersCurrent<K(!new), V>(maximum: nat, events: seq<Event<K, V>>, i: nat)
    requires i < |Run(maximum, Fresh(), events, |events|).answers|
    ensures
      var a := Run(maximum, Fresh(), events, |events|).answers[i];
      && a.origin == a.caller.key
      && (a.result.Err? ==> a.caller.since <= a.at)
      && (a.result.Ok? && a.at < a.caller.since ==> a.caller.alive(a.result.value))
  {
    RunKeepsInv(maximum, Fresh(), events, |events|);
    assert AnswerOk(Run(maximum, Fresh(), events, |events|).answers[i]);
  }

  predicate CellIs<K(==), V(==)>(s: State<K, V>, c: nat, cell: Cell<K, V>) {
    c in s.cells && s.cells[c] == cell
  }

  lemma DoneStays<K, V>(maximum: nat, s: State<K, V>, e: Event<K, V>, c: nat, cell: Cell<K, V>)
    requires CellIs(s, c, cell) && cell.content.Done?
    ensures CellIs(Tick(Step(maximum, s, e)), c, cell)
  {
    if !e.LookUp? && Holds(s, e.caller) && s.callers[e.caller].cell == c {
      assert ContentOf(s, e.caller).Done?;
    }
  }

  lemma DoneStaysTo<K, V>(maximum: nat, s: State<K, V>, e: Event<K, V>, next: State<K, V>, c: nat, cell: Cell<K, V>)
    requires CellIs(s, c, cell) && cell.content.Done? && next == Tick(Step(maximum, s, e))
    ensures CellIs(next, c, cell)
  {
    DoneStays(maximum, s, e, c, cell);
  }

  /** Once done a cell never changes, so callers that share it get the same answer. */
  lemma {:induction false} DoneForGood<K, V>(maximum: nat, s: State<K, V>, events: seq<Event<K, V>>, n: nat,
                                             c: nat, cell: Cell<K, V>)
    requires n <= |events| && CellIs(s, c, cell) && cell.content.Done?
    ensures CellIs(Run(maximum, s, events, n), c, cell)
  {
    if n > 0 {
      DoneForGood(maximum, s, events, n - 1, c, cell);
      DoneStaysTo(maximum, Run(maximum, s, events, n - 1), events[n - 1], Run(maximum, s, events, n), c, cell);
    }
  }

  // ---- what a lookup does ----

  /** The cell holds a session that this test finds alive. */
  ghost predicate Live<K, V>(s: State<K, V>, alive: V -> bool, c: nat) {
    c in s.cells && s.cells[c].content.Done? && s.cells[c].content.result.Ok? && alive(s.cells[c].content.result.value)
  }

  /** The cell is unfinished and some call in progress holds it. */
  ghost predicate Pending<K, V>(s: State<K, V>, c: nat) {
    c in s.cells && !s.cells[c].content.Done? && exists t :: t in s.callers && s.callers[t].cell == c
  }

  /** The contexts whose reservations outlive a lookup with this liveness test. */
  ghost function Survivors<K, V>(s: State<K, V>, alive: V -> bool): set<K> {
    set k | k in s.slots && (Live(s, alive, s.slots[k]) || Pending(s, s.slots[k]))
  }

  lemma PrunedSurvivors<K, V>(s: State<K, V>, alive: V -> bool)
    ensures Pruned(s, alive).Keys == Survivors(s, alive) && |Pruned(s, alive)| == |Survivors(s, alive)|
    ensures forall k :: k in Survivors(s, alive) ==> Pruned(s, alive)[k] == s.slots[k]
  {
    var pruned := Pruned(s, alive);
    assert forall k :: k in s.slots ==> (Retained(s, alive, s.slots[k]) <==> k in Survivors(s, alive));
    assert pruned.Keys == Survivors(s, alive);
    assert |pruned| == |pruned.Keys|;
  }

  /** A lookup keeps exactly the live and the pending reservations, and adds at most one for its
      own context. */
  lemma LookUpKeeps<K(!new), V>(maximum: nat, s: State<K, V>, t: nat, key: K, alive: V -> bool, cell: nat)
    requires t !in s.callers && cell !in s.cells
    ensures
      var next, kept := Step(maximum, s, LookUp(t, key, alive, cell)), Survivors(s, alive);
      && (forall k :: k in kept ==> k in next.slots && next.slots[k] == s.slots[k])
      && next.slots.Keys == kept + (if key in kept || |kept| >= maximum then {} else {key})
  {
    PrunedSurvivors(s, alive);
  }

  /** A caller whose context is kept joins its cell; another gets a new empty cell if there is room,
      else nothing. */
  lemma LookUpExactly<K(!new), V>(maximum: nat, s: State<K, V>, t: nat, key: K, alive: V -> bool, cell: nat)
    requires t !in s.callers && cell !in s.cells
    ensures
      var next, kept := Step(maximum, s, LookUp(t, key, alive, cell)), Survivors(s, alive);
      && next.answers == s.answers
      && if key in kept then
           next.cells == s.cells && next.callers == s.callers[t := Caller(key, s.slots[key], s.clock, alive)]
         else if |kept| < maximum then
           && key in next.slots && next.slots[key] == cell
           && next.cells == s.cells[cell := Cell(key, Empty)]
           && next.callers == s.callers[t := Caller(key, cell, s.clock, alive)]
         else next.cells == s.cells && next.callers == s.callers
  {
    PrunedSurvivors(s, alive);
  }

  // ---- the locked map as the gateway holds it ----

  class Cache<K(!new, ==), !V> {
    var state: State<K, V>
    const maximum: nat

    constructor (maximum: nat)
      requires maximum > 0
      ensures this.maximum == maximum && state == Fresh()
    {
      this.maximum := maximum;
      state := Fresh();
    }

    /** Returns the caller's cell, or nothing when every context is taken. */
    method GetSlot(caller: nat, key: K, alive: V -> bool, cell: nat) returns (slot: Option<nat>)
      requires caller !in state.callers && cell !in state.cells
      modifies this
      ensures state == Step(maximum, old(state), LookUp(caller, key, alive, cell))
      ensures slot.None? <==> key !in state.slots
      ensures slot.Some? ==> state.slots[key] == slot.value && state.callers[caller].cell == slot.value
      ensures slot == if key in Survivors(old(state), alive) then Some(old(state).slots[key])
                      else if |Survivors(old(state), alive)| < maximum then Some(cell) else None
      ensures forall k :: k in Survivors(old(state), alive) ==> k in state.slots && state.slots[k] == old(state).slots[k]
    {
      PrunedSurvivors(state, alive);
      var slots := Pruned(state, alive);
      if key !in slots && |slots| >= maximum {
        state := state.(slots := slots);
        return None;
      }
      if key !in slots {
        slots := slots[key := cell];
        state := state.(cells := state.cells[cell := Cell(key, Empty)]);
      }
      state := state.(slots := slots, callers := state.callers[caller := Caller(key, slots[key], state.clock, alive)]);
      return Some(slots[key]);
    }
  }
}
