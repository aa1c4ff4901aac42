/** The destructive reset of CAR state as a state machine: stage a snapshot, write its META, rename it
    into place, only then remove the state, reseed, prune old snapshots, refresh META. Any step may
    fail, and removals and pruning may stop half way. */
module ResetProtocol {
  import opened Sequences
  import opened SnapshotCopy
  import opened SnapshotTheorems
  import opened SnapshotPlan
  import WorktreeRetention

  /** A snapshot directory: the files and directories copied into it, and whether META is there. */
  datatype Snapshot = Snapshot(files: map<Path, Content>, dirs: set<Path>, meta: bool)

  /** What a run is given: the worktree, its CAR directory, the dirty rows, the new snapshot's key and
      the retention policy with its clock. */
  datatype Run = Run(env: Env, car: Path, dirty: set<string>, id: string, policy: Option<WorktreeRetention.Policy>, now: int)

  ghost predicate ValidRun(run: Run) {
    WellFormed(run.env)
  }

  datatype Phase =
    | Start
    | Copying(done: nat)
    | Copied
    | MetaWritten
    | Resetting
    | Seeding
    | Pruning
    | Refreshing
    | Done
    | Failed

  /** `fs` is the worktree, `archive` the finished snapshots by key, `doomed` the keys a prune chose. */
  datatype State = State(
    phase: Phase,
    fs: map<Path, Node>,
    staging: Option<Snapshot>,
    archive: map<string, Snapshot>,
    doomed: set<string>)

  ghost function Plan(run: Run): seq<Entry> {
    ResetPlan(run.env, run.car, run.dirty)
  }

  ghost function CopyOf(run: Run): Effect {
    ResetPlanValid(run.env, run.car, run.dirty);
    PlanEffect(run.env, Plan(run))
  }

  /** The directories the copies make. */
  ghost function Made(run: Run): set<Path> {
    set d | d in CopyOf(run).made
  }

  /** The snapshot a run finalizes: every file and directory the plan copies, and META. */
  ghost function Complete(run: Run): Snapshot {
    Snapshot(Apply(map[], CopyOf(run).writes), Made(run), true)
  }

  // ---- What a reset removes -----------------------------------------------------------

  /** `_planned_reset_car_state_paths`: every existing reset path of the table, dirty or not. */
  ghost predicate IsResetTarget(run: Run, target: Path) {
    exists k, j :: 0 <= k < |CarStateSpecs()| && 0 <= j < |CarStateSpecs()[k].resetPaths|
      && target == run.car + [CarStateSpecs()[k].resetPaths[j]] && target in run.env.fs
  }

  /** The paths `_remove_with_sidecars` may delete: a target, what is really below it, its side files. */
  ghost predicate Removable(run: Run, p: Path) {
    exists target :: IsResetTarget(run, target) && target != []
      && (target <= p
        || (IsDatabase(target[|target| - 1]) && (p == WithSuffix(target, "-wal") || p == WithSuffix(target, "-shm"))))
  }

  // ---- Steps -----------------------------------------------------------------------------

  ghost predicate Init(run: Run, s: State) {
    s.phase == Start && s.fs == run.env.fs && s.staging == None && s.doomed == {}
  }

  ghost predicate Part(a: Snapshot, b: Snapshot) {
    forall p :: p in a.files ==> p in b.files && a.files[p] == b.files[p]
  }

  /** `_prepare_snapshot_roots`; an existing snapshot of that name is an error. */
  ghost predicate Prepare(run: Run, s: State, t: State) {
    && s.phase == Start && run.dirty != {} && run.id !in s.archive
    && t == s.(phase := Copying(0), staging := Some(Snapshot(map[], {}, false)))
  }

  ghost predicate CopyOne(run: Run, s: State, t: State) {
    && s.phase.Copying? && s.phase.done < |CopyOf(run).writes| && s.staging.Some?
    && var w := CopyOf(run).writes[s.phase.done];
      t == s.(phase := Copying(s.phase.done + 1),
              staging := Some(s.staging.value.(files := s.staging.value.files[w.dest := w.content])))
  }

  /** Directories are made between the copies. */
  ghost predicate MakeDir(run: Run, s: State, t: State) {
    && s.phase.Copying? && s.staging.Some?
    && (exists d :: d in Made(run)
          && t == s.(staging := Some(s.staging.value.(dirs := s.staging.value.dirs + {d}))))
  }

  ghost predicate CopyEnd(run: Run, s: State, t: State) {
    && s.phase.Copying? && s.phase.done == |CopyOf(run).writes| && !CopyOf(run).raised
    && s.staging.Some? && s.staging.value.dirs == Made(run)
    && t == s.(phase := Copied)
  }

  ghost predicate WriteMeta(run: Run, s: State, t: State) {
    && s.phase == Copied && s.staging.Some?
    && t == s.(phase := MetaWritten, staging := Some(s.staging.value.(meta := true)))
  }

  /** `_finalize_snapshot_root`: one rename. */
  ghost predicate Finalize(run: Run, s: State, t: State) {
    && s.phase == MetaWritten && s.staging.Some?
    && t == s.(phase := Resetting, staging := None, archive := s.archive[run.id := s.staging.value])
  }

  ghost predicate RemoveOne(run: Run, s: State, t: State) {
    s.phase == Resetting && exists p :: Removable(run, p) && t == s.(fs := s.fs - {p})
  }

  ghost predicate ResetEnd(run: Run, s: State, t: State) {
    s.phase == Resetting && t == s.(phase := Seeding)
  }

  /** `seed_repo_files` may write anything into the worktree; then the prune chooses its victims. */
  ghost predicate Seed(run: Run, s: State, t: State) {
    && s.phase == Seeding
    && exists fs ::
      if run.policy.None? then t == s.(phase := Refreshing, fs := fs)
      else exists dirs :: Lists(dirs, s.archive) && t == s.(phase := Pruning, fs := fs, doomed := Victims(run, dirs))
  }

  /** The archive root's directories are the finished snapshots. */
  ghost predicate Lists(dirs: seq<WorktreeRetention.Snapshot>, archive: map<string, Snapshot>) {
    && WorktreeRetention.ValidDirs(dirs)
    && (forall k :: k in archive ==> exists i :: 0 <= i < |dirs| && WorktreeRetention.KeyOf(dirs[i]) == k)
    && (forall i :: 0 <= i < |dirs| ==> WorktreeRetention.KeyOf(dirs[i]) in archive)
    && (forall i :: 0 <= i < |dirs| ==> dirs[i].hasMeta == archive[WorktreeRetention.KeyOf(dirs[i])].meta)
    && (forall i :: 0 <= i < |dirs| ==> dirs[i].hasFiles == HasFiles(archive[WorktreeRetention.KeyOf(dirs[i])]))
  }

  ghost predicate HasFiles(snapshot: Snapshot) {
    snapshot.meta || snapshot.files != map[]
  }

  /** The keys `prune_worktree_archive_root` removes when told to preserve the new snapshot. */
  ghost function Victims(run: Run, dirs: seq<WorktreeRetention.Snapshot>): set<string>
    requires run.policy.Some?
  {
    var entries := WorktreeRetention.EntriesOf(dirs, {run.id});
    WorktreeRetention.Keys(entries)
      - WorktreeRetention.Keys(WorktreeRetention.RetainTwoLevel(entries, run.policy.value, run.now))
  }

  /** A victim disappears, wholly or in part. */
  ghost predicate PruneOne(run: Run, s: State, t: State) {
    && s.phase == Pruning
    && exists k ::
      k in s.doomed && k in s.archive
      && (t == s.(archive := s.archive - {k})
        || exists rest :: Part(rest, s.archive[k]) && t == s.(archive := s.archive[k := rest]))
  }

  ghost predicate HasFileBelow(snapshot: Snapshot, d: Path) {
    (snapshot.meta && d == []) || exists p :: p in snapshot.files && d <= p
  }

  /** `_prune_empty_dirs` takes a directory without a file below it, in any snapshot, or a whole snapshot without one. */
  ghost predicate Sweep(run: Run, s: State, t: State) {
    && s.phase == Pruning
    && exists k :: k in s.archive && SweptAt(s, t, k)
  }

  ghost predicate SweptAt(s: State, t: State, k: string)
    requires k in s.archive
  {
    || (!HasFiles(s.archive[k]) && t == s.(archive := s.archive - {k}))
    || (exists d :: !HasFileBelow(s.archive[k], d)
          && t == s.(archive := s.archive[k := s.archive[k].(dirs := s.archive[k].dirs - {d})]))
  }

  /** Pruning is best effort and may stop early. */
  ghost predicate PruneEnd(run: Run, s: State, t: State) {
    s.phase == Pruning && t == s.(phase := Refreshing)
  }

  /** META is replaced atomically, or left as it is. */
  ghost predicate Refresh(run: Run, s: State, t: State) {
    s.phase == Refreshing && t == s.(phase := Done)
  }

  /** An error: the staging directory is removed as far as possible, and the run ends. */
  ghost predicate Fail(run: Run, s: State, t: State) {
    && s.phase != Done && s.phase != Failed
    && exists rest :: t == s.(phase := Failed, staging := rest)
  }

  ghost predicate Next(run: Run, s: State, t: State) {
    || Prepare(run, s, t) || CopyOne(run, s, t) || CopyEnd(run, s, t) || WriteMeta(run, s, t) || Finalize(run, s, t)
    || RemoveOne(run, s, t) || ResetEnd(run, s, t) || Seed(run, s, t) || PruneOne(run, s, t) || Sweep(run, s, t)
    || PruneEnd(run, s, t) || Refresh(run, s, t) || Fail(run, s, t) || MakeDir(run, s, t)
  }

  ghost predicate IsBehavior(run: Run, states: seq<State>) {
    && states != [] && Init(run, states[0])
    && forall i :: 0 <= i < |states| - 1 ==> Next(run, states[i], states[i + 1])
  }

  // ---- Safety ----------------------------------------------------------------------------

  /** A regular file that a dirty row of the table is there to save, and its place in the snapshot. */
  ghost predicate MustSurvive(run: Run, q: Path, target: Path) {
    exists k :: 0 <= k < |CarStateSpecs()| && CarStateSpecs()[k].key in run.dirty
      && Saves(run.env, EntryFor(run.env, run.car, CarStateSpecs()[k]), q, target)
  }

  ghost predicate StillThere(run: Run, s: State, q: Path) {
    q in s.fs && q in run.env.fs && s.fs[q] == run.env.fs[q]
  }

  /** The finished new snapshot holds q's content. */
  ghost predicate Archived(run: Run, s: State, q: Path, target: Path)
    requires IsFile(run.env, q)
  {
    && run.id in s.archive && s.archive[run.id].meta
    && target in s.archive[run.id].files && s.archive[run.id].files[target] == run.env.fs[q].content
  }

  /** What the sweep may make of a snapshot: files and META are the same, and only directories without a file are gone. */
  ghost predicate SweptFrom(after: Snapshot, before: Snapshot) {
    && after.files == before.files && after.meta == before.meta && after.dirs <= before.dirs
    && forall d :: d in before.dirs - after.dirs ==> !HasFileBelow(before, d)
  }

  /** No more is lost of the snapshot k than the sweep may take: all of it only if it has no file at all. */
  ghost predicate Kept(k: string, after: map<string, Snapshot>, before: map<string, Snapshot>)
    requires k in before
  {
    if k in after then SweptFrom(after[k], before[k]) else !HasFiles(before[k])
  }

  ghost predicate Unpruned(run: Run, s: State) {
    run.policy.None? || s.phase == Resetting || s.phase == Seeding
  }

  ghost predicate Safe(run: Run, start: State, s: State) {
    // no file of dirty state is gone or changed before the finished snapshot holds its copy
    && (forall q, target :: MustSurvive(run, q, target) ==>
      StillThere(run, s, q) || Archived(run, s, q, target))
    // the snapshot directory appears only with all its entries and META; the prune's sweep leaves its files alone
    && (run.id in s.archive && run.id !in start.archive ==> SweptFrom(s.archive[run.id], Complete(run)))
    && (run.id !in s.archive ==> s.archive == start.archive)
    && (run.id in s.archive && run.id !in start.archive && Unpruned(run, s) ==> s.archive == start.archive[run.id := Complete(run)])
    // a run that would overwrite a snapshot changes nothing
    && (run.id in start.archive ==> s.archive == start.archive && s.fs == start.fs)
    // other snapshots lose files only if the planner chose to prune them, and it never chooses the new one
    && (forall k :: k in start.archive && k !in s.doomed ==> Kept(k, s.archive, start.archive))
    && run.id !in s.doomed
    && (forall k :: k in s.archive ==> k in start.archive || k == run.id)
  }
}
