/** Every run of the reset is safe, whichever steps fail. */
module ResetSafety {
  import opened Sequences
  import opened SnapshotCopy
  import opened SnapshotTheorems
  import opened SnapshotPlan
  import opened ResetProtocol
  import WorktreeRetention

  ghost predicate Untouched(run: Run, start: State, s: State) {
    s.fs == run.env.fs && s.archive == start.archive && s.doomed == {}
  }

  /** Everything before the rename leaves worktree and archive alone; everything after it has the
      complete snapshot in place. */
  ghost predicate Inv(run: Run, start: State, s: State) {
    match s.phase
    case Start => Untouched(run, start, s)
    case Copying(done) =>
      && Untouched(run, start, s) && run.id !in start.archive && done <= |CopyOf(run).writes|
      && s.staging.Some? && s.staging.value.dirs <= Made(run)
      && s.staging.value == Snapshot(Apply(map[], CopyOf(run).writes[..done]), s.staging.value.dirs, false)
    case Copied =>
      Untouched(run, start, s) && run.id !in start.archive && !CopyOf(run).raised && s.staging == Some(Complete(run).(meta := false))
    case MetaWritten =>
      Untouched(run, start, s) && run.id !in start.archive && !CopyOf(run).raised && s.staging == Some(Complete(run))
    case Resetting => Renamed(run, start, s)
    case Seeding => Renamed(run, start, s)
    case Pruning => Finished(run, start, s) && run.policy.Some?
    case Refreshing => Finished(run, start, s)
    case Done => Finished(run, start, s)
    case Failed => Untouched(run, start, s) || Finished(run, start, s)
  }

  /** Nothing has been pruned yet. */
  ghost predicate Renamed(run: Run, start: State, s: State) {
    && !CopyOf(run).raised && run.id !in start.archive && s.doomed == {}
    && s.archive == start.archive[run.id := Complete(run)]
  }

  ghost predicate Finished(run: Run, start: State, s: State) {
    && !CopyOf(run).raised && run.id !in start.archive
    && run.id in s.archive && SweptFrom(s.archive[run.id], Complete(run)) && run.id !in s.doomed
    && (forall k :: k in start.archive && k !in s.doomed ==> Kept(k, s.archive, start.archive))
    && (forall k :: k in s.archive ==> k in start.archive || k == run.id)
    && (Unpruned(run, s) ==> s.archive == start.archive[run.id := Complete(run)])
  }

  /** The planner keeps the snapshot it is told to preserve, even at limits of zero. */
  lemma NewSnapshotNotChosen(run: Run, dirs: seq<WorktreeRetention.Snapshot>)
    requires run.policy.Some?
    ensures run.id !in Victims(run, dirs)
  {
    var entries := WorktreeRetention.EntriesOf(dirs, {run.id});
    var kept := WorktreeRetention.RetainTwoLevel(entries, run.policy.value, run.now);
    if run.id in WorktreeRetention.Keys(entries) {
      var e :| e in entries && e.key == run.id;
      WorktreeRetention.EntriesOfMembers(dirs, {run.id});
      WorktreeRetention.TwoLevelMembers(entries, run.policy.value, run.now);
      assert e.preserve;
      assert e in kept;
    }
  }

  lemma CopyStep(run: Run, k: nat)
    requires k < |CopyOf(run).writes|
    ensures var w := CopyOf(run).writes[k];
      Apply(map[], CopyOf(run).writes[..k + 1]) == Apply(map[], CopyOf(run).writes[..k])[w.dest := w.content]
  {
    var writes := CopyOf(run).writes;
    assert writes[..k + 1][..k] == writes[..k];
  }

  lemma InitInv(run: Run, s: State)
    requires Init(run, s)
    ensures Inv(run, s, s)
  {
  }

  lemma PrepareInv(run: Run, start: State, s: State, t: State)
    requires Inv(run, start, s) && Prepare(run, s, t)
    ensures Inv(run, start, t)
  {
    hide CopyOf, Apply;
    EmptyApply(run);
  }

  lemma EmptyApply(run: Run)
    ensures Apply(map[], CopyOf(run).writes[..0]) == map[]
  {
  }

  lemma CopyOneInv(run: Run, start: State, s: State, t: State)
    requires Inv(run, start, s) && CopyOne(run, s, t)
    ensures Inv(run, start, t)
  {
    CopyStep(run, s.phase.done);
    hide CopyOf, Apply;
  }

  lemma MakeDirInv(run: Run, start: State, s: State, t: State)
    requires Inv(run, start, s) && MakeDir(run, s, t)
    ensures Inv(run, start, t)
  {
    hide CopyOf, Apply, Made;
  }

  lemma StagedInv(run: Run, start: State, s: State, t: State)
    requires Inv(run, start, s) && (CopyEnd(run, s, t) || WriteMeta(run, s, t) || Finalize(run, s, t))
    ensures Inv(run, start, t)
  {
    hide CopyOf, Apply, Made;
    if s.phase.Copying? { assert CopyOf(run).writes[..|CopyOf(run).writes|] == CopyOf(run).writes; }
  }

  lemma RemoveInv(run: Run, start: State, s: State, t: State)
    requires Inv(run, start, s) && (RemoveOne(run, s, t) || ResetEnd(run, s, t))
    ensures Inv(run, start, t)
  {
    hide CopyOf, Removable, Complete;
  }

  lemma SeedInv(run: Run, start: State, s: State, t: State)
    requires Inv(run, start, s) && Seed(run, s, t)
    ensures Inv(run, start, t)
  {
    hide CopyOf, Complete, Lists, Victims;
    RenamedIsFinished(run, start, s);
    if run.policy.Some? {
      var fs, dirs :| Lists(dirs, s.archive) && t == s.(phase := Pruning, fs := fs, doomed := Victims(run, dirs));
      NewSnapshotNotChosen(run, dirs);
    }
  }

  lemma RenamedIsFinished(run: Run, start: State, s: State)
    requires Renamed(run, start, s)
    ensures Finished(run, start, s)
  {
    hide CopyOf, Complete, HasFileBelow;
  }

  lemma SweepInv(run: Run, start: State, s: State, t: State)
    requires Inv(run, start, s) && Sweep(run, s, t)
    ensures Inv(run, start, t)
  {
    CompleteHasMeta(run);
    hide CopyOf, Complete, HasFileBelow, HasFiles, SweptFrom;
    var k :| k in s.archive && SweptAt(s, t, k);
    SweptAtIs(s, t, k);
    if k == run.id {
      SweptMore(s.archive[k], if k in t.archive then t.archive[k] else s.archive[k], Complete(run));
    }
    if k in start.archive && k !in s.doomed {
      SweptMore(s.archive[k], if k in t.archive then t.archive[k] else s.archive[k], start.archive[k]);
    }
  }

  lemma SweptAtIs(s: State, t: State, k: string)
    requires k in s.archive && SweptAt(s, t, k)
    ensures forall l :: l in s.archive && l != k ==> l in t.archive && t.archive[l] == s.archive[l]
    ensures forall l :: l in t.archive ==> l in s.archive
    ensures if k in t.archive then SweptFrom(t.archive[k], s.archive[k]) else !HasFiles(s.archive[k])
    ensures t == s.(archive := t.archive)
  {
    hide HasFiles, HasFileBelow;
  }

  /** Sweeping a swept snapshot is sweeping it; whether it has a file does not change. */
  lemma SweptMore(mid: Snapshot, after: Snapshot, before: Snapshot)
    requires SweptFrom(mid, before)
    ensures HasFiles(mid) <==> HasFiles(before)
    ensures SweptFrom(after, mid) ==> SweptFrom(after, before)
  {
    assert forall d :: HasFileBelow(mid, d) <==> HasFileBelow(before, d);
  }

  lemma PruneInv(run: Run, start: State, s: State, t: State)
    requires Inv(run, start, s) && (PruneOne(run, s, t) || PruneEnd(run, s, t) || Refresh(run, s, t))
    ensures Inv(run, start, t)
  {
    hide CopyOf, Complete, Part, SweptFrom, HasFiles;
  }

  lemma FailInv(run: Run, start: State, s: State, t: State)
    requires Inv(run, start, s) && Fail(run, s, t)
    ensures Inv(run, start, t)
  {
    hide CopyOf, Complete, Apply;
  }

  /** Every step keeps the invariant. */
  lemma StepInv(run: Run, start: State, s: State, t: State)
    requires Inv(run, start, s) && Next(run, s, t)
    ensures Inv(run, start, t)
  {
    hide *;
    NextIs(run, s, t);
    if Prepare(run, s, t) {
      PrepareInv(run, start, s, t);
    } else if CopyOne(run, s, t) {
      CopyOneInv(run, start, s, t);
    } else if CopyEnd(run, s, t) || WriteMeta(run, s, t) || Finalize(run, s, t) {
      StagedInv(run, start, s, t);
    } else if RemoveOne(run, s, t) || ResetEnd(run, s, t) {
      RemoveInv(run, start, s, t);
    } else if Seed(run, s, t) {
      SeedInv(run, start, s, t);
    } else if Sweep(run, s, t) {
      SweepInv(run, start, s, t);
    } else if MakeDir(run, s, t) {
      MakeDirInv(run, start, s, t);
    } else if Fail(run, s, t) {
      FailInv(run, start, s, t);
    } else {
      PruneInv(run, start, s, t);
    }
  }

  lemma NextIs(run: Run, s: State, t: State)
    requires Next(run, s, t)
    ensures Prepare(run, s, t) || CopyOne(run, s, t) || CopyEnd(run, s, t) || WriteMeta(run, s, t) || Finalize(run, s, t)
      || RemoveOne(run, s, t) || ResetEnd(run, s, t) || Seed(run, s, t) || PruneOne(run, s, t) || Sweep(run, s, t)
      || PruneEnd(run, s, t) || Refresh(run, s, t) || Fail(run, s, t) || MakeDir(run, s, t)
  {
    hide Prepare, CopyOne, CopyEnd, WriteMeta, Finalize, RemoveOne, ResetEnd, Seed, PruneOne, PruneEnd, Refresh, Fail, Sweep, MakeDir;
  }

  /** A complete snapshot holds every file that must survive. */
  lemma CompleteHolds(run: Run, q: Path, target: Path)
    requires ValidRun(run) && MustSurvive(run, q, target) && !CopyOf(run).raised
    ensures var out := Complete(run).files; target in out && out[target] == run.env.fs[q].content
  {
    hide Saves, EntryFor, CarStateSpecs, Complete, CopyOf, Apply;
    var k :| 0 <= k < |CarStateSpecs()| && CarStateSpecs()[k].key in run.dirty
      && Saves(run.env, EntryFor(run.env, run.car, CarStateSpecs()[k]), q, target);
    CompleteHoldsRow(run, k, q, target);
  }

  lemma CompleteHoldsRow(run: Run, k: nat, q: Path, target: Path)
    requires ValidRun(run) && !CopyOf(run).raised
    requires k < |CarStateSpecs()| && CarStateSpecs()[k].key in run.dirty
    requires Saves(run.env, EntryFor(run.env, run.car, CarStateSpecs()[k]), q, target)
    ensures var out := Complete(run).files; target in out && out[target] == run.env.fs[q].content
  {
    hide *;
    PlanIs(run);
    var i := DirtySpecIsPlanned(run.env, run.car, CarStateSpecs(), run.dirty, k);
    PlannedAt(run, i);
    SavedIsFile(run.env, Plan(run)[i], q, target);
    PlanSaves(run.env, Plan(run), i, q, target);
  }

  lemma SavedIsFile(env: Env, e: Entry, q: Path, target: Path)
    requires Saves(env, e, q, target)
    ensures q in env.fs && env.fs[q].File?
  {
  }

  lemma PlanIs(run: Run)
    ensures ValidPlan(Plan(run)) && CopyOf(run) == PlanEffect(run.env, Plan(run))
    ensures Complete(run).files == Apply(map[], PlanEffect(run.env, Plan(run)).writes)
    ensures ValidRun(run) ==> WellFormed(run.env)
  {
    ResetPlanValid(run.env, run.car, run.dirty);
  }

  lemma PlannedAt(run: Run, i: nat)
    requires i < |SpecEntries(run.env, run.car, CarStateSpecs(), run.dirty)|
    ensures i < |Plan(run)| && Plan(run)[i] == SpecEntries(run.env, run.car, CarStateSpecs(), run.dirty)[i]
  {
  }

  lemma InvIsSafe(run: Run, start: State, s: State)
    requires ValidRun(run) && Init(run, start) && Inv(run, start, s)
    ensures Safe(run, start, s)
  {
    hide *;
    InvCases(run, start, s);
    forall q, target | MustSurvive(run, q, target)
      ensures IsFile(run.env, q) && (StillThere(run, s, q) || Archived(run, s, q, target))
    {
      SurvivorIsFile(run, q, target);
      if Finished(run, start, s) {
        FinishedHolds(run, start, s, q, target);
      } else {
        UntouchedHas(run, start, s, q);
      }
    }
    SafeWhen(run, start, s);
  }

  lemma SafeWhen(run: Run, start: State, s: State)
    requires Init(run, start) && (Untouched(run, start, s) || Finished(run, start, s))
    requires forall q, target :: MustSurvive(run, q, target) ==>
      IsFile(run.env, q) && (StillThere(run, s, q) || Archived(run, s, q, target))
    ensures Safe(run, start, s)
  {
    hide CopyOf, Complete, MustSurvive, Archived;
  }

  lemma InvCases(run: Run, start: State, s: State)
    requires Inv(run, start, s)
    ensures Untouched(run, start, s) || Finished(run, start, s)
  {
    if Renamed(run, start, s) { RenamedIsFinished(run, start, s); }
    hide Untouched, Finished, Renamed;
  }

  lemma UntouchedHas(run: Run, start: State, s: State, q: Path)
    requires Untouched(run, start, s) && IsFile(run.env, q)
    ensures StillThere(run, s, q)
  {
  }

  lemma FinishedHolds(run: Run, start: State, s: State, q: Path, target: Path)
    requires ValidRun(run) && Finished(run, start, s) && MustSurvive(run, q, target) && IsFile(run.env, q)
    ensures Archived(run, s, q, target)
  {
    hide CopyOf, Complete, MustSurvive;
    CompleteHolds(run, q, target);
    CompleteHasMeta(run);
  }

  lemma CompleteHasMeta(run: Run)
    ensures Complete(run).meta && HasFiles(Complete(run))
  {
  }

  lemma SurvivorIsFile(run: Run, q: Path, target: Path)
    requires MustSurvive(run, q, target)
    ensures IsFile(run.env, q)
  {
  }

  /** Safety of every state of every run, whichever steps fail and wherever the run stops. */
  lemma ResetIsSafe(run: Run, states: seq<State>, i: nat)
    requires ValidRun(run) && IsBehavior(run, states) && i < |states|
    ensures Safe(run, states[0], states[i])
  {
    BehaviorInv(run, states, i);
    InvIsSafe(run, states[0], states[i]);
  }

  lemma {:induction false} BehaviorInv(run: Run, states: seq<State>, i: nat)
    requires IsBehavior(run, states) && i < |states|
    ensures Inv(run, states[0], states[i])
  {
    if i == 0 {
      InitInv(run, states[0]);
    } else {
      BehaviorInv(run, states, i - 1);
      StepInv(run, states[0], states[i - 1], states[i]);
    }
  }

  // ---- Progress ----------------------------------------------------------------------------

  /** A run that is not over can always take a step that is not a failure, unless the snapshot already
      exists, nothing is dirty, copying met an unreadable file, or the archive to prune cannot be listed. */
  lemma CanContinue(run: Run, start: State, s: State) returns (t: State)
    requires Inv(run, start, s) && s.phase != Done && s.phase != Failed
    requires s.phase == Start ==> run.dirty != {} && run.id !in s.archive
    requires s.phase.Copying? ==> s.phase.done < |CopyOf(run).writes| || !CopyOf(run).raised
    requires s.phase == Seeding && run.policy.Some? ==> exists dirs :: Lists(dirs, s.archive)
    ensures Next(run, s, t) && t.phase != Failed
  {
    hide CopyOf, Apply, Removable;
    match s.phase {
      case Start => t := s.(phase := Copying(0), staging := Some(Snapshot(map[], {}, false)));
      case Copying(k) =>
        if k < |CopyOf(run).writes| {
          var w := CopyOf(run).writes[k];
          t := s.(phase := Copying(k + 1),
                  staging := Some(s.staging.value.(files := s.staging.value.files[w.dest := w.content])));
          assert CopyOne(run, s, t);
        } else if s.staging.value.dirs != Made(run) {
          assert exists d :: d in Made(run) && d !in s.staging.value.dirs;
          var d :| d in Made(run) && d !in s.staging.value.dirs;
          t := s.(staging := Some(s.staging.value.(dirs := s.staging.value.dirs + {d})));
          assert MakeDir(run, s, t);
        } else {
          t := s.(phase := Copied);
          assert CopyEnd(run, s, t);
        }
      case Copied => t := s.(phase := MetaWritten, staging := Some(s.staging.value.(meta := true)));
      case MetaWritten => t := s.(phase := Resetting, staging := None, archive := s.archive[run.id := s.staging.value]);
      case Resetting => t := s.(phase := Seeding);
      case Seeding =>
        if run.policy.None? {
          t := s.(phase := Refreshing, fs := s.fs);
        } else {
          hide Lists, Victims;
          var dirs :| Lists(dirs, s.archive);
          t := s.(phase := Pruning, fs := s.fs, doomed := Victims(run, dirs));
        }
        assert Seed(run, s, t);
      case Pruning => t := s.(phase := Refreshing);
      case Refreshing => t := s.(phase := Done);
    }
  }
}
