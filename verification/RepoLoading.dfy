/** Opening repositories: double-checked loading under a lock, by any number of callers. */
module RepoLoading {
  import opened Options

  type Name = string
  type Caller = nat
  type LoadedRepo = nat  // which load produced the graph and its indexes

  datatype Phase =
    | Ready
    | Waiting(name: Name)                          // for the load lock
    | Rechecking(name: Name)                       // has the lock, looks again
    | Loading(name: Name)
    | Inserting(name: Name, repo: LoadedRepo)
    | Activating(name: Name, locked: bool)         // about to make it the active repository
    | Reading(name: Name)                          // get_repo, its name resolved
    | Finished

  datatype LoadOutcome = Loads | Fails             // unknown repository, no snapshot, unreadable snapshot

  datatype Event = Inserted(name: Name, repo: LoadedRepo) | Got(name: Name, repo: LoadedRepo) | NotLoaded(name: Name)

  datatype State = State(
    repos: map<Name, LoadedRepo>,
    active: Option<Name>,
    loadLock: Option<Caller>,
    phases: map<Caller, Phase>,
    nextLoad: LoadedRepo,
    history: seq<Event>)

  datatype Step =
    | Open(caller: Caller, name: Name)
    | TakeLock(caller: Caller)
    | Recheck(caller: Caller)
    | Load(caller: Caller, outcome: LoadOutcome)
    | Insert(caller: Caller)
    | Activate(caller: Caller)
    | Get(caller: Caller, requested: Option<Name>)
    | Fetch(caller: Caller)

  const Start := State(map[], None, None, map[], 0, [])

  function PhaseOf(s: State, c: Caller): Phase {
    if c in s.phases then s.phases[c] else Ready
  }

  predicate Enabled(s: State, step: Step) {
    var phase := PhaseOf(s, step.caller);
    match step
    case Open(_, _) => phase.Ready?
    case TakeLock(_) => phase.Waiting? && s.loadLock.None?
    case Recheck(_) => phase.Rechecking?
    case Load(_, _) => phase.Loading?
    case Insert(_) => phase.Inserting?
    case Activate(_) => phase.Activating?
    case Get(_, _) => phase.Ready?
    case Fetch(_) => phase.Reading?
  }

  function Go(s: State, c: Caller, phase: Phase): State {
    s.(phases := s.phases[c := phase])
  }

  function Apply(s: State, step: Step): State
    requires Enabled(s, step)
  {
    var phase := PhaseOf(s, step.caller);
    match step
    case Open(c, name) => Go(s, c, if name in s.repos then Activating(name, false) else Waiting(name))
    case TakeLock(c) => Go(s, c, Rechecking(phase.name)).(loadLock := Some(c))
    case Recheck(c) => Go(s, c, if phase.name in s.repos then Activating(phase.name, true) else Loading(phase.name))
    case Load(c, outcome) =>
      if outcome.Loads? then Go(s, c, Inserting(phase.name, s.nextLoad)).(nextLoad := s.nextLoad + 1)
      else Go(s, c, Finished).(loadLock := None)
    case Insert(c) =>
      Go(s, c, Activating(phase.name, true)).(repos := s.repos[phase.name := phase.repo],
                                              history := s.history + [Inserted(phase.name, phase.repo)])
    case Activate(c) =>
      Go(s, c, Finished).(active := Some(phase.name), loadLock := if phase.locked then None else s.loadLock)
    case Get(c, requested) =>
      if requested.Some? then Go(s, c, Reading(requested.value))
      else if s.active.Some? then Go(s, c, Reading(s.active.value))
      else Go(s, c, Finished)
    case Fetch(c) =>
      Go(s, c, Finished).(history := s.history +
        [if phase.name in s.repos then Got(phase.name, s.repos[phase.name]) else NotLoaded(phase.name)])
  }

  ghost predicate IsRun(states: seq<State>, steps: seq<Step>) {
    && |states| == |steps| + 1 && states[0] == Start
    && forall i {:trigger steps[i]} :: 0 <= i < |steps| ==>
         Enabled(states[i], steps[i]) && states[i + 1] == Apply(states[i], steps[i])
  }

  // ------------------------------------------------------------------
  // What every step keeps
  // ------------------------------------------------------------------

  predicate HasLock(phase: Phase) {
    phase.Rechecking? || phase.Loading? || phase.Inserting? || (phase.Activating? && phase.locked)
  }

  /** The lock is held by exactly the caller in the locked part. */
  ghost predicate LockOwned(s: State) {
    forall c: Caller :: HasLock(PhaseOf(s, c)) <==> s.loadLock == Some(c)
  }

  /** While a caller loads, nobody else brings the repository in. */
  ghost predicate LoadingIsNew(s: State) {
    forall c :: PhaseOf(s, c).Loading? || PhaseOf(s, c).Inserting? ==> PhaseOf(s, c).name !in s.repos
  }

  ghost predicate ActiveIsLoaded(s: State) {
    && (s.active.Some? ==> s.active.value in s.repos)
    && forall c :: PhaseOf(s, c).Activating? ==> PhaseOf(s, c).name in s.repos
  }

  /** The map holds what was inserted, each name once, and what was got came from it. */
  ghost predicate InsertedOnce(s: State) {
    && (forall n, r: LoadedRepo :: Inserted(n, r) in s.history <==> n in s.repos && s.repos[n] == r)
    && (forall n, r: LoadedRepo :: Got(n, r) in s.history ==> n in s.repos && s.repos[n] == r)
    && (forall i, j | 0 <= i < j < |s.history| && s.history[i].Inserted? && s.history[j].Inserted? ::
          s.history[i].name != s.history[j].name)
  }

  lemma OthersStay(s: State, step: Step)
    requires Enabled(s, step)
    ensures forall c :: c != step.caller ==> PhaseOf(Apply(s, step), c) == PhaseOf(s, c)
  {
  }

  lemma LockKept(s: State, step: Step)
    requires LockOwned(s) && Enabled(s, step)
    ensures LockOwned(Apply(s, step))
  {
    OthersStay(s, step);
    var t := Apply(s, step);
    assert HasLock(PhaseOf(s, step.caller)) <==> s.loadLock == Some(step.caller);
    forall c: Caller ensures HasLock(PhaseOf(t, c)) <==> t.loadLock == Some(c) {
      assert HasLock(PhaseOf(s, c)) <==> s.loadLock == Some(c);
    }
  }

  lemma NewKept(s: State, step: Step)
    requires LockOwned(s) && LoadingIsNew(s) && Enabled(s, step)
    ensures LoadingIsNew(Apply(s, step))
  {
    OthersStay(s, step);
    var t := Apply(s, step);
    forall c | PhaseOf(t, c).Loading? || PhaseOf(t, c).Inserting? ensures PhaseOf(t, c).name !in t.repos {
      if c != step.caller {
        assert HasLock(PhaseOf(s, c)) && HasLock(PhaseOf(s, step.caller)) ==> c == step.caller;
      }
    }
  }

  lemma ActiveKept(s: State, step: Step)
    requires ActiveIsLoaded(s) && Enabled(s, step)
    ensures ActiveIsLoaded(Apply(s, step))
  {
    OthersStay(s, step);
  }

  lemma InsertedKept(s: State, step: Step)
    requires InsertedOnce(s) && LoadingIsNew(s) && Enabled(s, step)
    ensures InsertedOnce(Apply(s, step))
  {
    var t := Apply(s, step);
    if t.history != s.history {
      var e := t.history[|s.history|];
      assert t.history == s.history + [e];
      forall x ensures x in t.history <==> x in s.history || x == e {
      }
      if e.Inserted? {
        assert e.name !in s.repos;
        forall i | 0 <= i < |s.history| && s.history[i].Inserted? ensures s.history[i].name != e.name {
          assert Inserted(s.history[i].name, s.history[i].repo) in s.history;
        }
      }
    }
  }

  ghost predicate Safe(s: State) {
    LockOwned(s) && LoadingIsNew(s) && ActiveIsLoaded(s) && InsertedOnce(s)
  }

  lemma {:induction false} RunIsSafe(states: seq<State>, steps: seq<Step>, i: nat)
    requires IsRun(states, steps) && i <= |steps|
    ensures |states| == |steps| + 1 && Safe(states[i])
  {
    hide Apply, Enabled;
    if i > 0 {
      RunIsSafe(states, steps, i - 1);
      var s, step := states[i - 1], steps[i - 1];
      hide LockOwned, LoadingIsNew, ActiveIsLoaded, InsertedOnce;
      LockKept(s, step);
      NewKept(s, step);
      ActiveKept(s, step);
      InsertedKept(s, step);
    }
  }

  // ------------------------------------------------------------------
  // What every run gives
  // ------------------------------------------------------------------

  /** A repository is inserted at most once, and stays what it was. */
  lemma {:induction false} LoadedOnceAndKept(states: seq<State>, steps: seq<Step>, i: nat, j: nat, n: Name)
    requires IsRun(states, steps) && i <= j <= |steps| && n in states[i].repos
    ensures n in states[j].repos && states[j].repos[n] == states[i].repos[n]
    ensures forall a, b | 0 <= a < b < |states[j].history|
                          && states[j].history[a].Inserted? && states[j].history[b].Inserted? ::
              states[j].history[a].name != states[j].history[b].name
    decreases j
  {
    RunIsSafe(states, steps, j);
    hide Apply, Enabled, LockOwned, LoadingIsNew, ActiveIsLoaded;
    if i < j {
      LoadedOnceAndKept(states, steps, i, j - 1, n);
      RunIsSafe(states, steps, j - 1);
      var step := steps[j - 1];
    }
  }

  /** A caller is about to load the repository. */
  predicate LoadsAt(s: State, step: Step, n: Name) {
    step.Load? && PhaseOf(s, step.caller) == Loading(n)
  }

  /** The repository was read, and is in the map or about to be. */
  ghost predicate WasLoaded(s: State, n: Name) {
    n in s.repos || exists c :: PhaseOf(s, c).Inserting? && PhaseOf(s, c).name == n
  }

  lemma WasLoadedKept(s: State, step: Step, n: Name)
    requires Enabled(s, step)
    requires WasLoaded(s, n) || (LoadsAt(s, step, n) && step.outcome.Loads?)
    ensures WasLoaded(Apply(s, step), n)
  {
    OthersStay(s, step);
    var t := Apply(s, step);
    if WasLoaded(s, n) && n !in s.repos {
      var c :| PhaseOf(s, c).Inserting? && PhaseOf(s, c).name == n;
      assert (step.Insert? && c == step.caller) || PhaseOf(t, c) == PhaseOf(s, c);
    } else if n !in s.repos {
      assert PhaseOf(t, step.caller).Inserting?;
    }
  }

  lemma {:induction false} StaysLoaded(states: seq<State>, steps: seq<Step>, i: nat, j: nat, n: Name)
    requires IsRun(states, steps) && i < j <= |steps| && LoadsAt(states[i], steps[i], n) && steps[i].outcome.Loads?
    ensures WasLoaded(states[j], n)
    decreases j
  {
    hide Apply, Enabled, WasLoaded, LoadsAt;
    if i < j - 1 {
      StaysLoaded(states, steps, i, j - 1, n);
    }
    WasLoadedKept(states[j - 1], steps[j - 1], n);
  }

  /** A repository is loaded successfully at most once: after that no load of it is even tried. */
  lemma LoadedAtMostOnce(states: seq<State>, steps: seq<Step>, i: nat, j: nat, n: Name)
    requires IsRun(states, steps) && i < j < |steps| && LoadsAt(states[i], steps[i], n) && steps[i].outcome.Loads?
    ensures !LoadsAt(states[j], steps[j], n)
  {
    StaysLoaded(states, steps, i, j, n);
    RunIsSafe(states, steps, j);
    hide IsRun, Apply, Enabled, ActiveIsLoaded, InsertedOnce;
  }

  /** The active repository is none, or loaded, and asking for it finds it. */
  lemma ActiveIsAlwaysLoaded(states: seq<State>, steps: seq<Step>, i: nat)
    requires IsRun(states, steps) && i <= |steps|
    ensures states[i].active.Some? ==> states[i].active.value in states[i].repos
  {
    hide IsRun, LockOwned, LoadingIsNew, InsertedOnce;
    RunIsSafe(states, steps, i);
  }

  /** Every get_repo of a name that succeeds returns the same graph and indexes. */
  lemma GetsAgree(states: seq<State>, steps: seq<Step>, i: nat, n: Name, a: LoadedRepo, b: LoadedRepo)
    requires IsRun(states, steps) && i <= |steps|
    requires Got(n, a) in states[i].history && Got(n, b) in states[i].history
    ensures a == b && Inserted(n, a) in states[i].history
  {
    RunIsSafe(states, steps, i);
    hide IsRun, LockOwned, LoadingIsNew, ActiveIsLoaded;
  }

  /** A get_repo of the active repository, begun at `i` and fetched at `j`, does not miss. */
  lemma ActiveGetSucceeds(states: seq<State>, steps: seq<Step>, i: nat, j: nat, c: Caller)
    requires IsRun(states, steps) && i < j < |steps|
    requires steps[i] == Get(c, None) && states[i].active.Some? && steps[j] == Fetch(c)
    requires PhaseOf(states[j], c) == Reading(states[i].active.value)
    ensures var n := states[i].active.value;
            n in states[j].repos && Got(n, states[j].repos[n]) in states[j + 1].history
  {
    ActiveIsAlwaysLoaded(states, steps, i);
    LoadedOnceAndKept(states, steps, i, j, states[i].active.value);
    var step := steps[j];
    assert states[j + 1] == Apply(states[j], step);
  }

  /** Whoever has the lock can take its next step, and only that caller is in the locked part. */
  lemma LockHolderCanMove(states: seq<State>, steps: seq<Step>, i: nat) returns (step: Step)
    requires IsRun(states, steps) && i <= |steps| && states[i].loadLock.Some?
    ensures step.caller == states[i].loadLock.value && Enabled(states[i], step)
    ensures forall c: Caller :: HasLock(PhaseOf(states[i], c)) <==> c == step.caller
  {
    RunIsSafe(states, steps, i);
    hide IsRun, LoadingIsNew, ActiveIsLoaded, InsertedOnce;
    var c := states[i].loadLock.value;
    assert HasLock(PhaseOf(states[i], c));
    var phase := PhaseOf(states[i], c);
    step := if phase.Rechecking? then Recheck(c) else if phase.Loading? then Load(c, Fails)
            else if phase.Inserting? then Insert(c) else Activate(c);
  }
}
