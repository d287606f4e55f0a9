/** Saving a snapshot on Windows, where the old file becomes a backup first. */
module WindowsSnapshotProtocol {
  // Temporary and backup names are unique to each writer.

  type Writer = nat
  type Payload = nat

  datatype Name = Target | Temp(w: Writer) | Backup(w: Writer)

  datatype FileData = Complete(payload: Payload) | Partial(payload: Payload)

  datatype Phase =
    | Idle | Writing | Written
    | ToBackUp        // the target existed when looked for
    | ToRename        // it did not
    | BackedUp | Restoring | Cleaning | RemovingBackup
    | Stopped(saved: bool)

  datatype State = State(files: map<Name, FileData>, phases: map<Writer, Phase>)

  datatype Step =
    | CreateTemp(w: Writer) | FinishWrite(w: Writer) | FailWrite(w: Writer)
    | LookForTarget(w: Writer)
    | BackUp(w: Writer) | FailBackUp(w: Writer)
    | RenameOver(w: Writer) | FailRename(w: Writer)
    | Restore(w: Writer) | FailRestore(w: Writer)
    | RemoveTemp(w: Writer)
    | RemoveBackup(w: Writer) | FailRemoveBackup(w: Writer)
    | Die(w: Writer)

  function PhaseOf(s: State, w: Writer): Phase {
    if w in s.phases then s.phases[w] else Idle
  }

  predicate Enabled(s: State, step: Step) {
    var phase := PhaseOf(s, step.w);
    match step
    case CreateTemp(w) => phase.Idle?
    case FinishWrite(w) => phase.Writing?
    case FailWrite(w) => phase.Idle? || phase.Writing?
    case LookForTarget(w) => phase.Written?
    case BackUp(w) => phase.ToBackUp? && Target in s.files
    case FailBackUp(w) => phase.ToBackUp?
    case RenameOver(w) => (phase.ToRename? || phase.BackedUp?) && Temp(w) in s.files
    case FailRename(w) => phase.ToRename? || phase.BackedUp?
    case Restore(w) => phase.Restoring? && Backup(w) in s.files
    case FailRestore(w) => phase.Restoring?
    case RemoveTemp(w) => phase.Cleaning?
    case RemoveBackup(w) => phase.RemovingBackup?
    case FailRemoveBackup(w) => phase.RemovingBackup?
    case Die(w) => !phase.Stopped?
  }

  function Apply(payload: Writer -> Payload, s: State, step: Step): State
    requires Enabled(s, step)
  {
    var phase := PhaseOf(s, step.w);
    match step
    case CreateTemp(w) => State(s.files[Temp(w) := Partial(payload(w))], s.phases[w := Writing])
    case FinishWrite(w) => State(s.files[Temp(w) := Complete(payload(w))], s.phases[w := Written])
    case FailWrite(w) => State(s.files, s.phases[w := Stopped(false)])
    case LookForTarget(w) => State(s.files, s.phases[w := if Target in s.files then ToBackUp else ToRename])
    case BackUp(w) => State(s.files[Backup(w) := s.files[Target]] - {Target}, s.phases[w := BackedUp])
    case FailBackUp(w) => State(s.files, s.phases[w := Cleaning])
    case RenameOver(w) =>
      State(s.files[Target := s.files[Temp(w)]] - {Temp(w)},
            s.phases[w := if phase.BackedUp? then RemovingBackup else Stopped(true)])
    case FailRename(w) => State(s.files, s.phases[w := if phase.BackedUp? then Restoring else Cleaning])
    case Restore(w) => State(s.files[Target := s.files[Backup(w)]] - {Backup(w)}, s.phases[w := Cleaning])
    case FailRestore(w) => State(s.files, s.phases[w := Cleaning])
    case RemoveTemp(w) => State(s.files - {Temp(w)}, s.phases[w := Stopped(false)])
    case RemoveBackup(w) => State(s.files - {Backup(w)}, s.phases[w := Stopped(true)])
    case FailRemoveBackup(w) => State(s.files, s.phases[w := Stopped(true)])
    case Die(w) => State(s.files, s.phases[w := Stopped(false)])
  }

  ghost predicate Initial(s: State) {
    s.phases == map[] && Target in s.files && s.files[Target].Complete? && forall w :: Backup(w) !in s.files
  }

  ghost predicate IsRun(payload: Writer -> Payload, states: seq<State>, steps: seq<Step>) {
    && |states| == |steps| + 1
    && forall i {:trigger steps[i]} :: 0 <= i < |steps| ==>
         Enabled(states[i], steps[i]) && states[i + 1] == Apply(payload, states[i], steps[i])
  }

  predicate HoldsOwnTemp(phase: Phase) {
    phase.Written? || phase.ToBackUp? || phase.ToRename? || phase.BackedUp?
  }

  ghost predicate TempsWhole(payload: Writer -> Payload, s: State) {
    forall w :: HoldsOwnTemp(PhaseOf(s, w)) ==> Temp(w) in s.files && s.files[Temp(w)] == Complete(payload(w))
  }

  ghost predicate SnapshotsWhole(s: State) {
    && (Target in s.files ==> s.files[Target].Complete?)
    && forall w :: Backup(w) in s.files ==> s.files[Backup(w)].Complete?
  }

  /** A backup no writer is about to delete. */
  predicate KeptBackup(s: State, w: Writer) {
    Backup(w) in s.files && !PhaseOf(s, w).RemovingBackup?
  }

  ghost predicate CopyExists(s: State) {
    Target in s.files || exists w :: KeptBackup(s, w)
  }

  lemma TempsKept(payload: Writer -> Payload, s: State, step: Step)
    requires TempsWhole(payload, s) && Enabled(s, step)
    ensures TempsWhole(payload, Apply(payload, s, step))
  {
    var t := Apply(payload, s, step);
    forall w | HoldsOwnTemp(PhaseOf(t, w)) ensures Temp(w) in t.files && t.files[Temp(w)] == Complete(payload(w)) {
      if !step.FinishWrite? || w != step.w {
        assert HoldsOwnTemp(PhaseOf(s, w));
      }
    }
  }

  lemma WholeKept(payload: Writer -> Payload, s: State, step: Step)
    requires TempsWhole(payload, s) && SnapshotsWhole(s) && Enabled(s, step)
    ensures SnapshotsWhole(Apply(payload, s, step))
  {
    assert HoldsOwnTemp(PhaseOf(s, step.w)) ==> s.files[Temp(step.w)].Complete?;
  }

  lemma CopyKept(payload: Writer -> Payload, s: State, step: Step)
    requires CopyExists(s) && Enabled(s, step)
    ensures CopyExists(Apply(payload, s, step))
  {
    var t := Apply(payload, s, step);
    if Target !in t.files {
      if Target in s.files {
        assert step.BackUp? && KeptBackup(t, step.w);
      } else {
        var w :| KeptBackup(s, w);
        assert KeptBackup(t, w);
      }
    }
  }

  lemma {:induction false} RunHolds(payload: Writer -> Payload, states: seq<State>, steps: seq<Step>, i: nat)
    requires IsRun(payload, states, steps) && Initial(states[0]) && i <= |steps|
    ensures TempsWhole(payload, states[i]) && SnapshotsWhole(states[i]) && CopyExists(states[i])
  {
    hide Apply, Enabled;
    if i > 0 {
      RunHolds(payload, states, steps, i - 1);
      var step := steps[i - 1];
      TempsKept(payload, states[i - 1], step);
      WholeKept(payload, states[i - 1], step);
      CopyKept(payload, states[i - 1], step);
    }
  }

  /** At every moment of every run a whole snapshot is at the target, or at a backup that stays. */
  lemma WholeCopyAlwaysExists(payload: Writer -> Payload, states: seq<State>, steps: seq<Step>, i: nat) returns (name: Name)
    requires IsRun(payload, states, steps) && Initial(states[0]) && i <= |steps|
    ensures name in states[i].files && states[i].files[name].Complete?
    ensures name == Target || (name.Backup? && Target !in states[i].files && !PhaseOf(states[i], name.w).RemovingBackup?)
  {
    RunHolds(payload, states, steps, i);
    hide IsRun, Initial, TempsWhole;
    if Target in states[i].files {
      name := Target;
    } else {
      var w :| KeptBackup(states[i], w);
      name := Backup(w);
    }
  }

  /** The target is not there at every moment: a backup takes it away, and no other step does. */
  lemma OnlyBackUpRemovesTarget(payload: Writer -> Payload, s: State, step: Step)
    requires Enabled(s, step) && Target in s.files
    ensures Target !in Apply(payload, s, step).files <==> step.BackUp?
  {
  }

  /** In a run that starts with a target, the target is there at every moment exactly when no save moves it
      to a backup. */
  lemma TargetAlwaysThereIff(payload: Writer -> Payload, states: seq<State>, steps: seq<Step>)
    requires IsRun(payload, states, steps) && Target in states[0].files
    ensures (forall i | 0 <= i <= |steps| :: Target in states[i].files) <==> (forall i | 0 <= i < |steps| :: !steps[i].BackUp?)
  {
    hide Apply, Enabled;
    if forall i | 0 <= i < |steps| :: !steps[i].BackUp? {
      forall i | 0 <= i <= |steps| ensures Target in states[i].files {
        TargetStays(payload, states, steps, i);
      }
    } else {
      var i :| 0 <= i < |steps| && steps[i].BackUp?;
      var step := steps[i];
      if Target in states[i].files {
        OnlyBackUpRemovesTarget(payload, states[i], step);
        assert Target !in states[i + 1].files;
      }
    }
  }

  lemma {:induction false} TargetStays(payload: Writer -> Payload, states: seq<State>, steps: seq<Step>, i: nat)
    requires IsRun(payload, states, steps) && Target in states[0].files && i <= |steps|
    requires forall k | 0 <= k < i :: !steps[k].BackUp?
    ensures Target in states[i].files
  {
    hide Apply, Enabled;
    if i > 0 {
      TargetStays(payload, states, steps, i - 1);
      var step := steps[i - 1];
      OnlyBackUpRemovesTarget(payload, states[i - 1], step);
    }
  }

  /** A save with nobody else running passes through the gap. */
  lemma GapIsReached(payload: Writer -> Payload, start: State, w: Writer) returns (states: seq<State>, steps: seq<Step>)
    requires Initial(start)
    ensures IsRun(payload, states, steps) && states[0] == start && Target !in states[|steps|].files
  {
    steps := [CreateTemp(w), FinishWrite(w), LookForTarget(w), BackUp(w)];
    var s1 := Apply(payload, start, steps[0]);
    var s2 := Apply(payload, s1, steps[1]);
    var s3 := Apply(payload, s2, steps[2]);
    var s4 := Apply(payload, s3, steps[3]);
    states := [start, s1, s2, s3, s4];
  }
}
