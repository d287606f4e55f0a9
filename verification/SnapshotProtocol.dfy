/** Saving a file through a temporary one, by any number of writers that may die. */
module SnapshotProtocol {
  import opened Options

  // `save_snapshot` outside Windows, and `save_manifest`.

  type Writer = nat
  type Payload = nat

  datatype Name = Target | Temp(key: nat)

  /** A file holds a whole payload, or a part of one. */
  datatype FileData = Complete(payload: Payload) | Partial(payload: Payload)

  datatype Phase = Idle | Writing | Written | Cleaning | Stopped(saved: bool)

  datatype State = State(files: map<Name, FileData>, phases: map<Writer, Phase>)

  /** What each writer saves and the key of its temporary name. */
  datatype Setup = Setup(payload: Writer -> Payload, tempKey: Writer -> nat)

  datatype Step =
    | CreateTemp(w: Writer)   // create the temporary file
    | FinishWrite(w: Writer)  // write and flush it whole
    | FailWrite(w: Writer)    // create, write or flush fails: the call returns an error
    | RenameOver(w: Writer)   // rename it over the target
    | FailRename(w: Writer)
    | RemoveTemp(w: Writer)   // clean up after a failed rename
    | Die(w: Writer)          // the process dies

  function PhaseOf(s: State, w: Writer): Phase {
    if w in s.phases then s.phases[w] else Idle
  }

  function TempOf(setup: Setup, w: Writer): Name {
    Temp(setup.tempKey(w))
  }

  predicate Enabled(setup: Setup, s: State, step: Step) {
    match step
    case CreateTemp(w) => PhaseOf(s, w) == Idle
    case FinishWrite(w) => PhaseOf(s, w) == Writing
    case FailWrite(w) => PhaseOf(s, w) == Idle || PhaseOf(s, w) == Writing
    case RenameOver(w) => PhaseOf(s, w) == Written && TempOf(setup, w) in s.files
    case FailRename(w) => PhaseOf(s, w) == Written
    case RemoveTemp(w) => PhaseOf(s, w) == Cleaning
    case Die(w) => !PhaseOf(s, w).Stopped?
  }

  function Apply(setup: Setup, s: State, step: Step): State
    requires Enabled(setup, s, step)
  {
    var temp := TempOf(setup, step.w);
    match step
    case CreateTemp(w) => State(s.files[temp := Partial(setup.payload(w))], s.phases[w := Writing])
    case FinishWrite(w) => State(s.files[temp := Complete(setup.payload(w))], s.phases[w := Written])
    case FailWrite(w) => State(s.files, s.phases[w := Stopped(false)])
    case RenameOver(w) => State(s.files[Target := s.files[temp]] - {temp}, s.phases[w := Stopped(true)])
    case FailRename(w) => State(s.files, s.phases[w := Cleaning])
    case RemoveTemp(w) => State(s.files - {temp}, s.phases[w := Stopped(false)])
    case Die(w) => State(s.files, s.phases[w := Stopped(false)])
  }

  /** A run: `states[i + 1]` is what `steps[i]` makes of `states[i]`. */
  ghost predicate IsRun(setup: Setup, states: seq<State>, steps: seq<Step>) {
    && |states| == |steps| + 1
    && forall i {:trigger steps[i]} :: 0 <= i < |steps| ==>
         Enabled(setup, states[i], steps[i]) && states[i + 1] == Apply(setup, states[i], steps[i])
  }

  /** No writer has started, and the target, if there, is whole. */
  ghost predicate Initial(s: State) {
    s.phases == map[] && (Target in s.files ==> s.files[Target].Complete?)
  }

  ghost predicate UniqueTemps(setup: Setup) {
    forall v, w {:trigger setup.tempKey(v), setup.tempKey(w)} :: v != w ==> setup.tempKey(v) != setup.tempKey(w)
  }

  /** The writer of the last rename, if any. */
  function LastRenamer(steps: seq<Step>): Option<Writer> {
    if steps == [] then None
    else if steps[|steps| - 1].RenameOver? then Some(steps[|steps| - 1].w)
    else LastRenamer(steps[..|steps| - 1])
  }

  /** What the target must hold after a run. */
  function ExpectedTarget(setup: Setup, start: State, steps: seq<Step>): Option<FileData> {
    match LastRenamer(steps)
    case Some(w) => Some(Complete(setup.payload(w)))
    case None => if Target in start.files then Some(start.files[Target]) else None
  }

  function TargetOf(s: State): Option<FileData> {
    if Target in s.files then Some(s.files[Target]) else None
  }

  /** A writer that has written, and not renamed yet, has its own payload whole in its own temporary file. */
  ghost predicate WrittenHolds(setup: Setup, s: State) {
    forall w :: PhaseOf(s, w) == Written ==>
      TempOf(setup, w) in s.files && s.files[TempOf(setup, w)] == Complete(setup.payload(w))
  }

  lemma WrittenKept(setup: Setup, s: State, step: Step)
    requires UniqueTemps(setup) && WrittenHolds(setup, s) && Enabled(setup, s, step)
    ensures WrittenHolds(setup, Apply(setup, s, step))
  {
    var t := Apply(setup, s, step);
    forall w | PhaseOf(t, w) == Written
      ensures TempOf(setup, w) in t.files && t.files[TempOf(setup, w)] == Complete(setup.payload(w))
    {
      if w != step.w {
        assert PhaseOf(s, w) == Written;
        assert setup.tempKey(w) != setup.tempKey(step.w);
      }
    }
  }

  lemma TargetKept(setup: Setup, s: State, step: Step)
    requires Enabled(setup, s, step) && WrittenHolds(setup, s)
    ensures TargetOf(Apply(setup, s, step)) ==
      if step.RenameOver? then Some(Complete(setup.payload(step.w))) else TargetOf(s)
  {
  }

  lemma {:induction false} RunHolds(setup: Setup, states: seq<State>, steps: seq<Step>)
    requires UniqueTemps(setup) && IsRun(setup, states, steps) && Initial(states[0])
    ensures WrittenHolds(setup, states[|steps|])
    ensures TargetOf(states[|steps|]) == ExpectedTarget(setup, states[0], steps)
    decreases |steps|
  {
    hide Apply, Enabled, UniqueTemps;
    if steps != [] {
      var n := |steps| - 1;
      var last := steps[n];
      RunHolds(setup, states[..n + 1], steps[..n]);
      WrittenKept(setup, states[n], last);
      TargetKept(setup, states[n], last);
    }
  }

  /** With unique temporary names, at every moment of every run the target is whole:
      the payload of the last writer that renamed, or what was there at first. */
  lemma TargetAlwaysComplete(setup: Setup, states: seq<State>, steps: seq<Step>, i: nat)
    requires UniqueTemps(setup) && IsRun(setup, states, steps) && Initial(states[0]) && i <= |steps|
    ensures TargetOf(states[i]) == ExpectedTarget(setup, states[0], steps[..i])
    ensures Target in states[i].files ==> states[i].files[Target].Complete?
    ensures Target in states[0].files ==> Target in states[i].files
  {
    hide Apply, Enabled, UniqueTemps, WrittenHolds;
    RunHolds(setup, states[..i + 1], steps[..i]);
  }

  /** Two writers sharing a temporary name can put half a payload at the target. */
  lemma SharedTempBreaksTarget(setup: Setup, v: Writer, w: Writer, start: State) returns (states: seq<State>, steps: seq<Step>)
    requires v != w && setup.tempKey(v) == setup.tempKey(w) && Initial(start)
    ensures IsRun(setup, states, steps) && states[0] == start
    ensures TargetOf(states[|steps|]) == Some(Partial(setup.payload(w)))
  {
    steps := [CreateTemp(v), FinishWrite(v), CreateTemp(w), RenameOver(v)];
    var s1 := Apply(setup, start, steps[0]);
    var s2 := Apply(setup, s1, steps[1]);
    var s3 := Apply(setup, s2, steps[2]);
    var s4 := Apply(setup, s3, steps[3]);
    states := [start, s1, s2, s3, s4];
  }

  /** The target stays whole in every run exactly when temporary names are unique. */
  lemma UniqueTempsIsExact(setup: Setup, start: State)
    requires Initial(start)
    ensures UniqueTemps(setup) <==>
      forall states: seq<State>, steps :: IsRun(setup, states, steps) && states[0] == start ==>
        Target in states[|steps|].files ==> states[|steps|].files[Target].Complete?
  {
    hide Apply, Enabled;
    if UniqueTemps(setup) {
      forall states: seq<State>, steps | IsRun(setup, states, steps) && states[0] == start
        ensures Target in states[|steps|].files ==> states[|steps|].files[Target].Complete?
      {
        TargetAlwaysComplete(setup, states, steps, |steps|);
      }
    } else {
      var v, w :| v != w && setup.tempKey(v) == setup.tempKey(w);
      var states, steps := SharedTempBreaksTarget(setup, v, w, start);
      assert IsRun(setup, states, steps) && states[0] == start;
    }
  }
}
