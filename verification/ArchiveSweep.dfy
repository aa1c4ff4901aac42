/** What a prune leaves of an archive as directories on the disk: removing the victims and sweeping the tree leaves
    exactly the entries that the prune's outcome says are left. */
module ArchiveSweep {
  import opened Sequences
  import opened EmptyDirs
  import R = RunArchive
  import W = WorktreeRetention

  /** The paths that are left when whole trees have been removed. */
  ghost function Without(paths: set<Path>, roots: set<Path>): set<Path> {
    set p | p in paths && !AtOrBelow(roots, p)
  }

  ghost predicate AtOrBelow(roots: set<Path>, p: Path) {
    exists root :: root in roots && root <= p
  }

  /** The disk after the removals and the sweep. */
  ghost function SweptWithout(dirs: set<Path>, files: set<Path>, roots: set<Path>, base: Path): set<Path> {
    Swept(Without(dirs, roots), Without(files, roots), base)
  }

  /** Two paths of one length are the same or apart. */
  ghost predicate SameDepth(roots: set<Path>, d: Path) {
    forall root :: root in roots ==> |root| == |d|
  }

  lemma UnderOneRoot(roots: set<Path>, d: Path, f: Path)
    requires SameDepth(roots, d) && d <= f
    ensures AtOrBelow(roots, f) <==> d in roots
  {
    forall root | root in roots && root <= f ensures root == d {
      assert root == f[..|root|];
    }
  }

  /** A directory below the base is left exactly if it is no victim and held a file from the start. */
  lemma DirectoryIsLeft(dirs: set<Path>, files: set<Path>, roots: set<Path>, base: Path, d: Path)
    requires d in dirs && Below(base, d) && SameDepth(roots, d)
    ensures d in SweptWithout(dirs, files, roots, base) <==> d !in roots && HoldsFile(files, d)
  {
    UnderOneRoot(roots, d, d);
    forall f | f in files && Below(d, f) ensures AtOrBelow(roots, f) <==> d in roots { UnderOneRoot(roots, d, f); }
    hide AtOrBelow;
  }

  // ---- Runs -------------------------------------------------------------------------------

  function RunPath(base: Path, name: string): Path { base + [name] }

  /** The listing describes the disk. */
  ghost predicate DescribesRuns(runs: seq<R.Run>, dirs: set<Path>, files: set<Path>, base: Path) {
    forall i :: 0 <= i < |runs| ==>
      RunPath(base, runs[i].name) in dirs && (runs[i].hasFiles <==> HoldsFile(files, RunPath(base, runs[i].name)))
  }

  ghost function Victims(base: Path, keys: seq<string>): set<Path> {
    set k | k in keys :: RunPath(base, k)
  }

  /** After a prune that removed something, the run directories on the swept disk are those of the outcome. */
  lemma RunsOnDisk(runs: seq<R.Run>, after: seq<R.Run>, s: W.PruneSummary, policy: R.Policy, preserved: set<string>, now: int,
                   dirs: set<Path>, files: set<Path>, base: Path, run: R.Run)
    requires R.ValidRuns(runs) && run in runs && DescribesRuns(runs, dirs, files, base)
    requires R.PruneOutcome(runs, after, s, policy, preserved, now, false) && s.pruned > 0
    ensures RunPath(base, run.name) in SweptWithout(dirs, files, Victims(base, s.prunedKeys), base) <==> run in after
  {
    var d := RunPath(base, run.name);
    var roots := Victims(base, s.prunedKeys);
    var i := Position(runs, run);
    assert d[|base|] == run.name;
    assert forall k :: RunPath(base, k)[|base|] == k && |RunPath(base, k)| == |base| + 1;
    assert d in roots <==> run.name in s.prunedKeys;
    hide HoldsFile, SweptWithout, RunPath;
    RunIsLeft(runs, after, s, policy, preserved, now, run);
    assert base <= d by { PathBelow(base, run.name); }
    DirectoryIsLeft(dirs, files, roots, base, d);
  }

  lemma PathBelow(base: Path, name: string)
    ensures base <= RunPath(base, name)
  {
  }

  lemma RunIsLeft(runs: seq<R.Run>, after: seq<R.Run>, s: W.PruneSummary, policy: R.Policy, preserved: set<string>, now: int, run: R.Run)
    requires R.ValidRuns(runs) && run in runs
    requires R.PruneOutcome(runs, after, s, policy, preserved, now, false) && s.pruned > 0
    ensures run in after <==> run.name !in s.prunedKeys && run.hasFiles
  {
    hide *;
    var limits := R.Limits(policy, now);
    R.SurvivesIff(runs, after, s, policy, preserved, now, false, run);
    R.NothingPrunedIff(runs, after, s, policy, preserved, now, false);
    R.RunsAreDistinct(runs);
    R.RetainedByName(runs, run, preserved, limits);
    R.EntryKeeps(run, preserved);
    R.PrunedKeysAre(runs, after, s, policy, preserved, now, false, R.EntryOf(run, preserved));
  }

  // ---- Snapshots -----------------------------------------------------------------------------

  function SnapshotPath(base: Path, d: W.Snapshot): Path { base + [d.worktree, d.name] }

  ghost predicate DescribesSnapshots(before: seq<W.Snapshot>, dirs: set<Path>, files: set<Path>, base: Path) {
    forall i :: 0 <= i < |before| ==>
      SnapshotPath(base, before[i]) in dirs && (before[i].hasFiles <==> HoldsFile(files, SnapshotPath(base, before[i])))
  }

  ghost function SnapshotVictims(base: Path, before: seq<W.Snapshot>, keys: seq<string>): set<Path> {
    set d | d in before && d.hasMeta && W.KeyOf(d) in keys :: SnapshotPath(base, d)
  }

  /** After a prune of an archive with at least one snapshot, the snapshot directories on the swept disk are those of
      the outcome. */
  lemma SnapshotsOnDisk(before: seq<W.Snapshot>, after: seq<W.Snapshot>, s: W.PruneSummary, policy: W.Policy, preserved: set<string>,
                        now: int, dirs: set<Path>, files: set<Path>, base: Path, d: W.Snapshot)
    requires W.ValidDirs(before) && d in before && DescribesSnapshots(before, dirs, files, base)
    requires W.PruneOutcome(before, after, s, policy, preserved, now, false) && W.EntriesOf(before, preserved) != []
    ensures SnapshotPath(base, d) in SweptWithout(dirs, files, SnapshotVictims(base, before, s.prunedKeys), base) <==> d in after
  {
    var p := SnapshotPath(base, d);
    var roots := SnapshotVictims(base, before, s.prunedKeys);
    var i := Position(before, d);
    forall root | root in roots ensures |root| == |p| {}
    VictimIff(before, s, base, d);
    assert Below(base, p);
    hide HoldsFile, SweptWithout, SnapshotPath, SnapshotVictims;
    SnapshotIsLeft(before, after, s, policy, preserved, now, d);
    DirectoryIsLeft(dirs, files, roots, base, p);
  }

  lemma VictimIff(before: seq<W.Snapshot>, s: W.PruneSummary, base: Path, d: W.Snapshot)
    requires W.ValidDirs(before) && d in before
    ensures SnapshotPath(base, d) in SnapshotVictims(base, before, s.prunedKeys) <==> d.hasMeta && W.KeyOf(d) in s.prunedKeys
  {
    if SnapshotPath(base, d) in SnapshotVictims(base, before, s.prunedKeys) {
      var e :| e in before && e.hasMeta && W.KeyOf(e) in s.prunedKeys && SnapshotPath(base, e) == SnapshotPath(base, d);
      var n := |base|;
      assert SnapshotPath(base, e)[n] == e.worktree && SnapshotPath(base, d)[n] == d.worktree;
      assert SnapshotPath(base, e)[n + 1] == e.name && SnapshotPath(base, d)[n + 1] == d.name;
      var i := Position(before, d);
      var j := Position(before, e);
      assert i == j;
    }
  }

  lemma SnapshotIsLeft(before: seq<W.Snapshot>, after: seq<W.Snapshot>, s: W.PruneSummary, policy: W.Policy, preserved: set<string>,
                       now: int, d: W.Snapshot)
    requires W.ValidDirs(before) && d in before
    requires W.PruneOutcome(before, after, s, policy, preserved, now, false) && W.EntriesOf(before, preserved) != []
    ensures d in after <==> !(d.hasMeta && W.KeyOf(d) in s.prunedKeys) && d.hasFiles
  {
    W.SurvivesIff(before, after, s, policy, preserved, now, false, d);
    W.EntriesOfMembers(before, preserved);
    var i := Position(before, d);
    hide W.EntriesOf, W.RetainTwoLevel, W.Left;
    assert d.hasMeta ==> W.EntryOf(before[i], preserved) in W.EntriesOf(before, preserved);
  }
}
