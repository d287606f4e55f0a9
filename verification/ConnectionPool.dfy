/** The connection pool as steps of any number of callers. */
module ConnectionPool {
  // A step is one critical section of a shard of the pool's map: the first lookup,
  // one turn of the opening loop (which holds the entry while it opens the
  // database), the removal and the closing of a disconnection.

  type Path = string
  type Caller = nat
  type Adapter = nat

  const MAX_BUSY_ATTEMPTS: nat := 3

  datatype Phase =
    | Ready
    | Opening(path: Path, attempt: nat)        // about to take the entry for this attempt
    | Holding(path: Path, adapter: Adapter)    // get_or_open returned, the reference is kept
    | Refused                                  // get_or_open returned an error
    | Removed(adapter: Adapter)                // disconnect took the adapter out of the map
    | Finished

  datatype OpenOutcome = Opens | IsBusy | Fails

  datatype Event =
    | Opened(path: Path, adapter: Adapter)
    | Returned(caller: Caller, path: Path, adapter: Adapter)
    | Disconnected(path: Path)
    | Closed(adapter: Adapter)

  datatype State = State(
    connections: map<Path, Adapter>,
    phases: map<Caller, Phase>,
    nextAdapter: Adapter,
    closed: set<Adapter>,
    history: seq<Event>)

  datatype Step =
    | LookUp(caller: Caller, path: Path)
    | TakeEntry(caller: Caller, outcome: OpenOutcome)
    | LeaveLoop(caller: Caller)
    | Release(caller: Caller)
    | Disconnect(caller: Caller, path: Path)
    | CloseLast(caller: Caller)

  const Start := State(map[], map[], 0, {}, [])

  function PhaseOf(s: State, c: Caller): Phase {
    if c in s.phases then s.phases[c] else Ready
  }

  predicate Holds(s: State, c: Caller, a: Adapter) {
    PhaseOf(s, c).Holding? && PhaseOf(s, c).adapter == a
  }

  /** Some caller still holds a reference. */
  ghost predicate Held(s: State, a: Adapter) {
    exists c :: Holds(s, c, a)
  }

  predicate Enabled(s: State, step: Step) {
    var phase := PhaseOf(s, step.caller);
    match step
    case LookUp(_, _) => phase.Ready?
    case TakeEntry(_, _) => phase.Opening? && phase.attempt <= MAX_BUSY_ATTEMPTS
    case LeaveLoop(_) => phase.Opening? && phase.attempt > MAX_BUSY_ATTEMPTS
    case Release(_) => phase.Holding?
    case Disconnect(_, _) => phase.Ready?
    case CloseLast(_) => phase.Removed?
  }

  function Return(s: State, c: Caller, path: Path, a: Adapter): State {
    s.(phases := s.phases[c := Holding(path, a)], history := s.history + [Returned(c, path, a)])
  }

  function OpenNew(s: State, path: Path): State {
    s.(connections := s.connections[path := s.nextAdapter], nextAdapter := s.nextAdapter + 1,
       history := s.history + [Opened(path, s.nextAdapter)])
  }

  ghost function Apply(s: State, step: Step): State
    requires Enabled(s, step)
  {
    var phase := PhaseOf(s, step.caller);
    match step
    case LookUp(c, path) =>
      if path in s.connections then Return(s, c, path, s.connections[path])
      else s.(phases := s.phases[c := Opening(path, 1)])
    case TakeEntry(c, outcome) =>
      if phase.path in s.connections then Return(s, c, phase.path, s.connections[phase.path])
      else
        (match outcome
         case Opens => Return(OpenNew(s, phase.path), c, phase.path, s.nextAdapter)
         case IsBusy =>
           if phase.attempt < MAX_BUSY_ATTEMPTS then s.(phases := s.phases[c := Opening(phase.path, phase.attempt + 1)])
           else s.(phases := s.phases[c := Refused])
         case Fails => s.(phases := s.phases[c := Refused]))
    case LeaveLoop(c) => s.(phases := s.phases[c := Refused])
    case Release(c) => s.(phases := s.phases[c := Finished])
    case Disconnect(c, path) =>
      if path in s.connections then
        s.(connections := s.connections - {path}, phases := s.phases[c := Removed(s.connections[path])],
           history := s.history + [Disconnected(path)])
      else s.(phases := s.phases[c := Finished])
    case CloseLast(c) =>
      if Held(s, phase.adapter) then s.(phases := s.phases[c := Finished])
      else s.(phases := s.phases[c := Finished], closed := s.closed + {phase.adapter},
              history := s.history + [Closed(phase.adapter)])
  }

  ghost predicate IsRun(states: seq<State>, steps: seq<Step>) {
    && |states| == |steps| + 1 && states[0] == Start
    && forall i {:trigger steps[i]} :: 0 <= i < |steps| ==>
         Enabled(states[i], steps[i]) && states[i + 1] == Apply(states[i], steps[i])
  }

  // ------------------------------------------------------------------
  // What every step keeps
  // ------------------------------------------------------------------

  /** Each path has its own adapter, and every adapter seen was opened. */
  ghost predicate Distinct(s: State) {
    && (forall p, q | p in s.connections && q in s.connections && p != q :: s.connections[p] != s.connections[q])
    && (forall p | p in s.connections :: s.connections[p] < s.nextAdapter)
    && (forall c :: PhaseOf(s, c).Holding? ==> PhaseOf(s, c).adapter < s.nextAdapter)
    && (forall c :: PhaseOf(s, c).Removed? ==> PhaseOf(s, c).adapter < s.nextAdapter)
    && (forall a | a in s.closed :: a < s.nextAdapter)
  }

  /** An adapter taken out of the map is in nobody else's way to be closed or found. */
  ghost predicate Detached(s: State, a: Adapter) {
    forall p | p in s.connections :: s.connections[p] != a
  }

  ghost predicate Closable(s: State) {
    && (forall c :: PhaseOf(s, c).Removed? ==> Detached(s, PhaseOf(s, c).adapter))
    && (forall a | a in s.closed :: Detached(s, a) && !Held(s, a))
  }

  ghost predicate AttemptsBounded(s: State) {
    forall c :: PhaseOf(s, c).Opening? ==> 1 <= PhaseOf(s, c).attempt <= MAX_BUSY_ATTEMPTS
  }

  /** Between positions `i` and `j` of the history `path` is not disconnected. */
  ghost predicate Undisturbed(history: seq<Event>, i: int, j: int, path: Path) {
    forall k | i < k < j && 0 <= k < |history| :: history[k] != Disconnected(path)
  }

  predicate Concerns(event: Event, path: Path, a: Adapter) {
    (event.Opened? || event.Returned?) && event.path == path && event.adapter == a
  }

  /** Since the last disconnection, the history of a path speaks of the adapter now in the map. */
  ghost predicate Current(s: State) {
    forall i, path, a :: (0 <= i < |s.history| && Concerns(s.history[i], path, a)
      && Undisturbed(s.history, i, |s.history|, path)) ==> path in s.connections && s.connections[path] == a
  }

  /** Events about one path with no disconnection between them speak of one adapter. */
  ghost predicate SameAdapter(history: seq<Event>) {
    forall i, j, path, a, b :: (0 <= i < j < |history| && Concerns(history[i], path, a) && Concerns(history[j], path, b)
      && Undisturbed(history, i, j, path)) ==> a == b && !history[j].Opened?
  }

  lemma DistinctKept(s: State, step: Step)
    requires Distinct(s) && Enabled(s, step)
    ensures Distinct(Apply(s, step))
  {
    hide Held;
    var t := Apply(s, step);
    assert forall c :: c != step.caller ==> PhaseOf(t, c) == PhaseOf(s, c);
  }

  lemma AttemptsKept(s: State, step: Step)
    requires AttemptsBounded(s) && Enabled(s, step)
    ensures AttemptsBounded(Apply(s, step))
    ensures !step.LeaveLoop?
  {
    hide Held;
    var t := Apply(s, step);
    assert forall c :: c != step.caller ==> PhaseOf(t, c) == PhaseOf(s, c);
  }

  lemma ClosableKept(s: State, step: Step)
    requires Distinct(s) && Closable(s) && Enabled(s, step)
    ensures Closable(Apply(s, step))
  {
    var t := Apply(s, step);
    assert forall c :: c != step.caller ==> PhaseOf(t, c) == PhaseOf(s, c);
    forall c | PhaseOf(t, c).Removed? ensures Detached(t, PhaseOf(t, c).adapter) {
      if c != step.caller { assert Detached(s, PhaseOf(s, c).adapter); }
    }
    forall a | a in t.closed ensures Detached(t, a) && !Held(t, a) {
      if a in s.closed {
        assert Detached(s, a) && !Held(s, a);
      } else {
        assert step.CloseLast? && PhaseOf(s, step.caller).adapter == a;
        assert Detached(s, a) && !Held(s, a);
      }
      forall c ensures !Holds(t, c, a) {
        assert !Holds(s, c, a);
      }
    }
  }

  lemma CurrentKept(s: State, step: Step)
    requires Current(s) && Enabled(s, step)
    ensures Current(Apply(s, step))
  {
    var t := Apply(s, step);
    forall i, path, a | 0 <= i < |t.history| && Concerns(t.history[i], path, a) && Undisturbed(t.history, i, |t.history|, path)
      ensures path in t.connections && t.connections[path] == a
    {
      if i < |s.history| {
        assert t.history[i] == s.history[i];
        assert forall k | i < k < |s.history| :: t.history[k] == s.history[k];
        assert Undisturbed(s.history, i, |s.history|, path);
        if |s.history| < |t.history| { assert t.history[|s.history|] != Disconnected(path); }
      }
    }
  }

  /** One more event keeps the rule if it agrees with what is current. */
  lemma SameAdapterGrows(s: State, event: Event)
    requires SameAdapter(s.history) && Current(s)
    requires event.Opened? ==> event.path !in s.connections
    requires event.Returned? ==> event.path in s.connections && s.connections[event.path] == event.adapter
    ensures SameAdapter(s.history + [event])
  {
    var h, longer := s.history, s.history + [event];
    forall i, j, path, a, b | 0 <= i < j < |longer| && Concerns(longer[i], path, a) && Concerns(longer[j], path, b)
                              && Undisturbed(longer, i, j, path)
      ensures a == b && !longer[j].Opened?
    {
      assert longer[i] == h[i];
      assert Undisturbed(h, i, if j < |h| then j else |h|, path) by {
        assert forall k | i < k < j :: longer[k] == h[k];
      }
      if j < |h| {
        assert longer[j] == h[j];
      }
    }
  }

  lemma SameAdapterKept(s: State, step: Step)
    requires SameAdapter(s.history) && Current(s) && Enabled(s, step)
    ensures SameAdapter(Apply(s, step).history)
  {
    var phase := PhaseOf(s, step.caller);
    if step.TakeEntry? && phase.path !in s.connections && step.outcome.Opens? {
      SameAdapterGrows(s, Opened(phase.path, s.nextAdapter));
      OpenNewIsCurrent(s, phase.path);
      hide SameAdapter, Current;
      SameAdapterGrows(OpenNew(s, phase.path), Returned(step.caller, phase.path, s.nextAdapter));
    } else {
      hide SameAdapter, Current;
      var t := Apply(s, step);
      if t.history != s.history {
        assert t.history == s.history + [t.history[|s.history|]];
        SameAdapterGrows(s, t.history[|s.history|]);
      }
    }
  }

  lemma OpenNewIsCurrent(s: State, path: Path)
    requires Current(s) && path !in s.connections
    ensures Current(OpenNew(s, path))
  {
    var t := OpenNew(s, path);
    forall i, p, a | 0 <= i < |t.history| && Concerns(t.history[i], p, a) && Undisturbed(t.history, i, |t.history|, p)
      ensures p in t.connections && t.connections[p] == a
    {
      if i < |s.history| {
        assert t.history[i] == s.history[i];
        assert forall k | i < k < |s.history| :: t.history[k] == s.history[k];
        assert Undisturbed(s.history, i, |s.history|, p);
      }
    }
  }

  /** Whatever is in the map or was returned was opened, and no adapter was opened twice. */
  ghost predicate OpenedOnce(s: State) {
    && (forall p | p in s.connections :: Opened(p, s.connections[p]) in s.history)
    && (forall c, p, a :: Returned(c, p, a) in s.history ==> Opened(p, a) in s.history)
    && (forall i | 0 <= i < |s.history| && s.history[i].Opened? :: s.history[i].adapter < s.nextAdapter)
    && (forall i, j | 0 <= i < j < |s.history| && s.history[i].Opened? && s.history[j].Opened? ::
          s.history[i].adapter != s.history[j].adapter)
  }

  lemma OpenedOnceKept(s: State, step: Step)
    requires OpenedOnce(s) && Enabled(s, step)
    ensures OpenedOnce(Apply(s, step))
  {
    var phase := PhaseOf(s, step.caller);
    hide Held;
    if step.TakeEntry? && phase.path !in s.connections && step.outcome.Opens? {
      OpeningOpensOnce(s, phase.path);
      hide OpenedOnce;
      ReturningOpensNothing(OpenNew(s, phase.path), step.caller, phase.path);
    } else {
      var t := Apply(s, step);
      if t.history != s.history {
        var e := t.history[|s.history|];
        assert t.history == s.history + [e];
        forall x ensures x in t.history <==> x in s.history || x == e {
        }
      }
    }
  }

  lemma OpeningOpensOnce(s: State, path: Path)
    requires OpenedOnce(s)
    ensures OpenedOnce(OpenNew(s, path))
  {
    var e := Opened(path, s.nextAdapter);
    forall x ensures x in s.history + [e] <==> x in s.history || x == e {
    }
  }

  lemma ReturningOpensNothing(s: State, c: Caller, path: Path)
    requires OpenedOnce(s) && path in s.connections
    ensures OpenedOnce(Return(s, c, path, s.connections[path]))
  {
    var e := Returned(c, path, s.connections[path]);
    forall x ensures x in s.history + [e] <==> x in s.history || x == e {
    }
  }

  ghost predicate Safe(s: State) {
    OpenedOnce(s) && Distinct(s) && Closable(s) && AttemptsBounded(s) && Current(s) && SameAdapter(s.history)
  }

  lemma {:induction false} RunIsSafe(states: seq<State>, steps: seq<Step>, i: nat)
    requires IsRun(states, steps) && i <= |steps|
    ensures |states| == |steps| + 1 && Safe(states[i])
  {
    hide Apply, Enabled;
    if i == 0 {
      StartIsSafe();
    } else {
      RunIsSafe(states, steps, i - 1);
      var s, step := states[i - 1], steps[i - 1];
      hide OpenedOnce, Distinct, Closable, AttemptsBounded, Current, SameAdapter;
      OpenedOnceKept(s, step);
      DistinctKept(s, step);
      ClosableKept(s, step);
      AttemptsKept(s, step);
      CurrentKept(s, step);
      SameAdapterKept(s, step);
    }
  }

  lemma StartIsSafe()
    ensures Safe(Start)
  {
    assert forall c :: PhaseOf(Start, c) == Ready;
  }

  // ------------------------------------------------------------------
  // What every run gives
  // ------------------------------------------------------------------

  /** Two calls that return an adapter for one path, with no disconnection of that path
      between them, return the same one, and the second opens nothing. */
  lemma CallsShareAdapter(states: seq<State>, steps: seq<Step>, n: nat, i: nat, j: nat, path: Path, a: Adapter, b: Adapter)
    requires IsRun(states, steps) && n <= |steps|
    requires var h := states[n].history;
      && i < j < |h| && Concerns(h[i], path, a) && Concerns(h[j], path, b) && Undisturbed(h, i, j, path)
    ensures a == b && !states[n].history[j].Opened?
  {
    hide IsRun, OpenedOnce, Distinct, Closable, AttemptsBounded, Current;
    RunIsSafe(states, steps, n);
  }

  /** Every adapter a call returns comes from a successful open of its path, and no other one. */
  lemma ReturnedWasOpenedOnce(states: seq<State>, steps: seq<Step>, n: nat, c: Caller, path: Path, a: Adapter)
    returns (i: nat)
    requires IsRun(states, steps) && n <= |steps| && Returned(c, path, a) in states[n].history
    ensures i < |states[n].history| && states[n].history[i] == Opened(path, a)
    ensures forall j | 0 <= j < |states[n].history| && j != i && states[n].history[j].Opened? ::
              states[n].history[j].adapter != a
  {
    hide IsRun, Distinct, Closable, AttemptsBounded, Current, SameAdapter;
    RunIsSafe(states, steps, n);
    assert Opened(path, a) in states[n].history;
    i :| 0 <= i < |states[n].history| && states[n].history[i] == Opened(path, a);
  }

  /** An adapter is closed only when no caller holds it, and is never found in the map or held again. */
  lemma ClosedIsUnused(states: seq<State>, steps: seq<Step>, n: nat, a: Adapter)
    requires IsRun(states, steps) && n <= |steps| && a in states[n].closed
    ensures !Held(states[n], a) && Detached(states[n], a)
  {
    hide IsRun, OpenedOnce, Distinct, AttemptsBounded, Current, SameAdapter, Held, Detached;
    RunIsSafe(states, steps, n);
  }

  /** Every call makes at most MAX_BUSY_ATTEMPTS attempts, and the error behind the loop is never reached. */
  lemma LoopNeverExhausted(states: seq<State>, steps: seq<Step>, n: nat)
    requires IsRun(states, steps) && n < |steps|
    ensures !steps[n].LeaveLoop?
    ensures forall c :: PhaseOf(states[n], c).Opening? ==> 1 <= PhaseOf(states[n], c).attempt <= MAX_BUSY_ATTEMPTS
  {
    hide Apply, OpenedOnce, Distinct, Closable, Current, SameAdapter;
    RunIsSafe(states, steps, n);
    var step := steps[n];
    AttemptsKept(states[n], step);
  }

  /** A call is refused only by an open that fails, or by a third busy one. */
  lemma RefusalHasCause(states: seq<State>, steps: seq<Step>, n: nat, c: Caller)
    requires IsRun(states, steps) && n < |steps| && !PhaseOf(states[n], c).Refused? && PhaseOf(states[n + 1], c).Refused?
    ensures steps[n].TakeEntry? && steps[n].caller == c
    ensures steps[n].outcome.Fails? || (steps[n].outcome.IsBusy? && PhaseOf(states[n], c).attempt == MAX_BUSY_ATTEMPTS)
  {
    LoopNeverExhausted(states, steps, n);
    var step := steps[n];
    hide Held;
    assert states[n + 1] == Apply(states[n], step);
  }
}
