/** Which of the regular files a reset removes are copied into its snapshot, and exactly when all of them are. */
module ResetCoverage {
  import opened Sequences
  import opened SnapshotCopy
  import opened SnapshotTheorems
  import opened SnapshotPlan
  import opened SnapshotEntries
  import opened SnapshotReads
  import opened ResetProtocol

  ghost predicate SideFileOf(target: Path, q: Path)
    requires target != []
  {
    IsDatabase(target[|target| - 1]) && (q == WithSuffix(target, "-wal") || q == WithSuffix(target, "-shm"))
  }

  /** Removing the existing reset path takes q with it: q lies at or below it, or is a side file of it. */
  ghost predicate Takes(run: Run, name: string, q: Path) {
    run.car + [name] in run.env.fs && (run.car + [name] <= q || SideFileOf(run.car + [name], q))
  }

  /** Row k is why q is removed. */
  ghost predicate RowRemoves(run: Run, k: nat, q: Path)
    requires k < |CarStateSpecs()|
  {
    exists j :: 0 <= j < |CarStateSpecs()[k].resetPaths| && Takes(run, CarStateSpecs()[k].resetPaths[j], q)
  }

  /** The plan has a place in the snapshot for q. */
  ghost predicate IsSaved(run: Run, q: Path) {
    exists target :: MustSurvive(run, q, target)
  }

  /** The finished snapshot holds q, put there by a copy of it. */
  ghost predicate Arrives(run: Run, q: Path)
    requires IsFile(run.env, q)
  {
    exists target :: Write(target, q, run.env.fs[q].content) in CopyOf(run).writes
      && target in Complete(run).files && Complete(run).files[target] == run.env.fs[q].content
  }

  /** Some planned entry reads q. */
  ghost predicate IsRead(run: Run, q: Path) {
    PlanShape(run);
    PlanReads(run.env, Plan(run), q)
  }

  // ---- The three ways to have no place -----------------------------------------------------

  /** The row is clean, so nothing of it is archived, but its reset paths are removed all the same. */
  ghost predicate OfCleanRow(run: Run, q: Path) {
    exists k :: 0 <= k < |CarStateSpecs()| && CarStateSpecs()[k].key !in run.dirty && RowRemoves(run, k, q)
  }

  /** Both context directories are removed, only the canonical one is archived. */
  ghost predicate Shadowed(run: Run, q: Path) {
    "contextspace" in run.dirty && run.car + ["contextspace"] in run.env.fs && run.car + ["workspace"] <= q
  }

  /** q is a side file of a database path that is not a regular file: it is removed with the path, but copied
      only beside a regular file. */
  ghost predicate Detached(run: Run, key: string, q: Path) {
    run.car + [key] in run.env.fs && !IsFile(run.env, run.car + [key]) && IsFile(run.env, q) && SideFileOf(run.car + [key], q)
  }

  ghost predicate BesideIrregular(run: Run, q: Path) {
    exists k :: 0 <= k < |CarStateSpecs()| && CarStateSpecs()[k].key in run.dirty && Detached(run, CarStateSpecs()[k].key, q)
  }

  // ---- Facts about the table ------------------------------------------------------------------

  lemma RowFacts(k: nat)
    requires k < |CarStateSpecs()|
    ensures var spec := CarStateSpecs()[k];
      && spec.dest != [] && spec.key != "workspace" && spec.key == spec.dest[|spec.dest| - 1]
      && (spec.key != "contextspace" ==> spec.resetPaths == [spec.key])
      && (spec.key == "contextspace" ==> spec.resetPaths == ["contextspace", "workspace"])
      && (spec.key == "contextspace" <==> k == 1)
  {
  }

  lemma KeyIsPlain(k: nat)
    requires k < |CarStateSpecs()|
    ensures PlainName(CarStateSpecs()[k].key)
  {
    RowFacts(k);
    SpecName(k);
    hide *;
    PlainByLastLetter(CarStateSpecs()[k].key);
  }

  lemma WorkspaceIsPlain()
    ensures PlainName("workspace") && !IsDatabase("workspace") && !IsDatabase("contextspace")
  {
    assert "workspace"[8] == 'e' && "contextspace"[11] == 'e';
    PlainByLastLetter("workspace");
    assert ".sqlite3"[7] == '3' && ".db"[2] == 'b';
    assert "workspace"[1..][7] == 'e' && "workspace"[6..][2] == 'e' && "contextspace"[4..][7] == 'e' && "contextspace"[9..][2] == 'e';
  }

  /** The reset paths of a row are plain names, and no two rows share one. */
  lemma ResetPathsApart(k: nat, j: nat, l: nat, i: nat)
    requires k < |CarStateSpecs()| && j < |CarStateSpecs()[k].resetPaths|
    requires l < |CarStateSpecs()| && i < |CarStateSpecs()[l].resetPaths|
    ensures PlainName(CarStateSpecs()[k].resetPaths[j])
    ensures CarStateSpecs()[k].resetPaths[j] == CarStateSpecs()[l].resetPaths[i] ==> k == l
  {
    RowFacts(k);
    RowFacts(l);
    KeyIsPlain(k);
    WorkspaceIsPlain();
    SpecName(k);
    SpecName(l);
    hide CarStateSpecs, Codes, PlainName, IsDatabase;
    if k < l { CodesDiffer(k, l); }
    if l < k { CodesDiffer(l, k); }
  }

  // ---- Which row a file belongs to -----------------------------------------------------------------

  /** The name a removed or saved path has directly below the CAR directory. */
  lemma NameBelow(run: Run, name: string, q: Path)
    requires run.car + [name] <= q || SideFileOf(run.car + [name], q)
    ensures |q| > |run.car| && q[|run.car|] in {name, name + "-wal", name + "-shm"}
  {
    assert (run.car + [name])[|run.car|] == name;
    hide IsDatabase;
  }

  lemma SourceIsResetPath(run: Run, k: nat) returns (j: nat)
    requires k < |CarStateSpecs()|
    ensures j < |CarStateSpecs()[k].resetPaths|
    ensures EntryFor(run.env, run.car, CarStateSpecs()[k]).source == run.car + [CarStateSpecs()[k].resetPaths[j]]
  {
    RowFacts(k);
    hide CarStateSpecs;
    var e := EntryFor(run.env, run.car, CarStateSpecs()[k]);
    j := if e.source == run.car + ["workspace"] then |CarStateSpecs()[k].resetPaths| - 1 else 0;
    assert CarStateSpecs()[k].key != "workspace" ==> (run.car + [CarStateSpecs()[k].key])[|run.car|] != (run.car + ["workspace"])[|run.car|];
  }

  lemma SavesIsNear(env: Env, e: Entry, q: Path, target: Path)
    requires Saves(env, e, q, target)
    ensures e.source != [] && (e.source <= q || SideFileOf(e.source, q))
  {
    hide IsDatabase;
  }

  /** Only the row that removes a file can save it. */
  lemma SavedByOwnRow(run: Run, k: nat, l: nat, q: Path, target: Path)
    requires k < |CarStateSpecs()| && l < |CarStateSpecs()| && RowRemoves(run, k, q)
    requires Saves(run.env, EntryFor(run.env, run.car, CarStateSpecs()[l]), q, target)
    ensures k == l
  {
    hide *;
    var j := RemovingPath(run, k, q);
    var i := SourceIsResetPath(run, l);
    SavesIsNear(run.env, EntryFor(run.env, run.car, CarStateSpecs()[l]), q, target);
    var a, b := CarStateSpecs()[k].resetPaths[j], CarStateSpecs()[l].resetPaths[i];
    NameBelow(run, a, q);
    NameBelow(run, b, q);
    ResetPathsApart(k, j, l, i);
    ResetPathsApart(l, i, k, j);
    SuffixesCollide(a, b, q[|run.car|]);
  }

  lemma RemovingPath(run: Run, k: nat, q: Path) returns (j: nat)
    requires k < |CarStateSpecs()| && RowRemoves(run, k, q)
    ensures j < |CarStateSpecs()[k].resetPaths| && Takes(run, CarStateSpecs()[k].resetPaths[j], q)
    ensures var p := run.car + [CarStateSpecs()[k].resetPaths[j]]; p in run.env.fs && (p <= q || SideFileOf(p, q))
  {
    hide CarStateSpecs, SideFileOf;
    var i :| 0 <= i < |CarStateSpecs()[k].resetPaths| && Takes(run, CarStateSpecs()[k].resetPaths[i], q);
    j := i;
  }

  /** What a reset removes is what its rows remove. */
  lemma RemovableByRow(run: Run, q: Path)
    ensures Removable(run, q) <==> exists k :: 0 <= k < |CarStateSpecs()| && RowRemoves(run, k, q)
  {
    hide CarStateSpecs, IsDatabase;
    if Removable(run, q) {
      var target :| IsResetTarget(run, target) && target != [] && (target <= q
        || (IsDatabase(target[|target| - 1]) && (q == WithSuffix(target, "-wal") || q == WithSuffix(target, "-shm"))));
      var k, j :| 0 <= k < |CarStateSpecs()| && 0 <= j < |CarStateSpecs()[k].resetPaths|
        && target == run.car + [CarStateSpecs()[k].resetPaths[j]] && target in run.env.fs;
      assert Takes(run, CarStateSpecs()[k].resetPaths[j], q);
      assert RowRemoves(run, k, q);
    }
    if k :| 0 <= k < |CarStateSpecs()| && RowRemoves(run, k, q) {
      var j :| 0 <= j < |CarStateSpecs()[k].resetPaths| && Takes(run, CarStateSpecs()[k].resetPaths[j], q);
      assert IsResetTarget(run, run.car + [CarStateSpecs()[k].resetPaths[j]]);
    }
  }

  // ---- Files without a place -----------------------------------------------------------------------------------------

  lemma SavingRow(run: Run, k: nat, q: Path) returns (target: Path)
    requires k < |CarStateSpecs()| && RowRemoves(run, k, q) && IsSaved(run, q)
    ensures CarStateSpecs()[k].key in run.dirty && Saves(run.env, EntryFor(run.env, run.car, CarStateSpecs()[k]), q, target)
  {
    hide CarStateSpecs, Saves, EntryFor, RowRemoves;
    var t :| MustSurvive(run, q, t);
    var l :| 0 <= l < |CarStateSpecs()| && CarStateSpecs()[l].key in run.dirty
      && Saves(run.env, EntryFor(run.env, run.car, CarStateSpecs()[l]), q, t);
    SavedByOwnRow(run, k, l, q, t);
    target := t;
  }

  lemma CleanRowUnplaced(run: Run, k: nat, q: Path)
    requires k < |CarStateSpecs()| && CarStateSpecs()[k].key !in run.dirty && RowRemoves(run, k, q)
    ensures Removable(run, q) && !IsSaved(run, q)
  {
    hide *;
    RemovableByRow(run, q);
    if IsSaved(run, q) { var target := SavingRow(run, k, q); }
  }

  lemma WorkspaceExists(run: Run, q: Path)
    requires ValidRun(run) && IsFile(run.env, q) && run.car + ["workspace"] <= q
    ensures run.car + ["workspace"] in run.env.fs
  {
    var w := run.car + ["workspace"];
    if |q| > |w| {
      ParentsAreDirs(run.env, q, |w|);
      assert q[..|w|] == w;
    } else {
      assert q == w;
    }
  }

  lemma LegacyRemoved(run: Run, q: Path)
    requires ValidRun(run) && IsFile(run.env, q) && run.car + ["workspace"] <= q
    ensures 1 < |CarStateSpecs()| && CarStateSpecs()[1].key == "contextspace" && RowRemoves(run, 1, q)
  {
    WorkspaceExists(run, q);
    RowFacts(1);
    assert CarStateSpecs()[1].resetPaths[1] == "workspace";
    assert Takes(run, CarStateSpecs()[1].resetPaths[1], q);
  }

  /** With both directories there, no row has a place for a legacy file. */
  lemma LegacyUnplaced(run: Run, q: Path)
    requires ValidRun(run) && run.car + ["contextspace"] in run.env.fs
    requires IsFile(run.env, q) && run.car + ["workspace"] <= q
    ensures Removable(run, q) && !IsSaved(run, q)
  {
    hide *;
    LegacyRemoved(run, q);
    RemovableByRow(run, q);
    if IsSaved(run, q) {
      var target := SavingRow(run, 1, q);
      CanonicalSavesOther(run, q, target);
    }
  }

  lemma CanonicalSavesOther(run: Run, q: Path, target: Path)
    requires run.car + ["contextspace"] in run.env.fs && run.car + ["workspace"] <= q
    requires 1 < |CarStateSpecs()| && CarStateSpecs()[1].key == "contextspace"
    ensures !Saves(run.env, EntryFor(run.env, run.car, CarStateSpecs()[1]), q, target)
  {
    WorkspaceIsPlain();
    var n := |run.car|;
    assert q[n] == (run.car + ["workspace"])[n] && (run.car + ["contextspace"])[n] == "contextspace" && "workspace"[0] != "contextspace"[0];
    hide CarStateSpecs, IsDatabase, PlainName;
  }

  lemma DetachedUnplaced(run: Run, k: nat, q: Path)
    requires k < |CarStateSpecs()| && Detached(run, CarStateSpecs()[k].key, q)
    ensures Removable(run, q) && !IsSaved(run, q)
  {
    RowFacts(k);
    WorkspaceIsPlain();
    hide CarStateSpecs, IsDatabase, PlainName, Saves, EntryFor, IsSaved, Removable;
    var spec := CarStateSpecs()[k];
    assert (run.car + [spec.key])[|run.car|] == spec.key;
    assert Takes(run, spec.resetPaths[0], q);
    assert RowRemoves(run, k, q);
    RemovableByRow(run, q);
    if IsSaved(run, q) {
      var target := SavingRow(run, k, q);
      DetachedNotSaved(run, k, q, target);
    }
  }

  lemma DetachedNotSaved(run: Run, k: nat, q: Path, target: Path)
    requires k < |CarStateSpecs()| && CarStateSpecs()[k].key != "contextspace" && Detached(run, CarStateSpecs()[k].key, q)
    ensures !Saves(run.env, EntryFor(run.env, run.car, CarStateSpecs()[k]), q, target)
  {
    hide CarStateSpecs, IsDatabase;
    var source := run.car + [CarStateSpecs()[k].key];
    SuffixesDiffer(source);
    assert |q| == |source|;
  }

  // ---- Saved files ----------------------------------------------------------------------------------------

  lemma SourceSaves(run: Run, k: nat, q: Path)
    requires k < |CarStateSpecs()| && CarStateSpecs()[k].key in run.dirty && IsFile(run.env, q)
    requires SourceOf(run.env, run.car, CarStateSpecs()[k]) <= q
    ensures IsSaved(run, q)
  {
    RowFacts(k);
    var e := EntryFor(run.env, run.car, CarStateSpecs()[k]);
    hide CarStateSpecs, IsDatabase;
    assert e.source != [];
    assert Saves(run.env, e, q, e.dest + q[|e.source|..]);
    assert MustSurvive(run, q, e.dest + q[|e.source|..]);
  }

  lemma SideFileSaves(run: Run, k: nat, q: Path)
    requires k < |CarStateSpecs()| && CarStateSpecs()[k].key in run.dirty && CarStateSpecs()[k].key != "contextspace"
    requires IsFile(run.env, q) && IsFile(run.env, run.car + [CarStateSpecs()[k].key]) && SideFileOf(run.car + [CarStateSpecs()[k].key], q)
    ensures IsSaved(run, q)
  {
    RowFacts(k);
    var e := EntryFor(run.env, run.car, CarStateSpecs()[k]);
    hide CarStateSpecs, IsDatabase;
    var target := WithSuffix(e.dest, if q == WithSuffix(e.source, "-wal") then "-wal" else "-shm");
    assert Saves(run.env, e, q, target);
    assert MustSurvive(run, q, target);
  }

  lemma DirtyFileSaved(run: Run, k: nat, q: Path)
    requires k < |CarStateSpecs()| && CarStateSpecs()[k].key in run.dirty && IsFile(run.env, q) && RowRemoves(run, k, q)
    requires ValidRun(run) && !Shadowed(run, q) && !Detached(run, CarStateSpecs()[k].key, q)
    ensures IsSaved(run, q)
  {
    RowFacts(k);
    WorkspaceIsPlain();
    var j := RemovingPath(run, k, q);
    var spec := CarStateSpecs()[k];
    hide CarStateSpecs, IsDatabase, IsSaved, RowRemoves, PlainName;
    var p := run.car + [spec.resetPaths[j]];
    assert p[|run.car|] == spec.resetPaths[j];
    if p <= q {
      SourceSaves(run, k, q);
    } else {
      SideFileSaves(run, k, q);
    }
  }

  /** A removed file has no place in the snapshot exactly in one of the three ways. */
  lemma UnplacedIff(run: Run, q: Path)
    requires ValidRun(run) && IsFile(run.env, q) && Removable(run, q)
    ensures !IsSaved(run, q) <==> OfCleanRow(run, q) || Shadowed(run, q) || BesideIrregular(run, q)
  {
    hide *;
    RemovableByRow(run, q);
    WaysAre(run, q);
    var k :| 0 <= k < |CarStateSpecs()| && RowRemoves(run, k, q);
    if OfCleanRow(run, q) {
      var l :| 0 <= l < |CarStateSpecs()| && CarStateSpecs()[l].key !in run.dirty && RowRemoves(run, l, q);
      CleanRowUnplaced(run, l, q);
    } else if Shadowed(run, q) {
      LegacyUnplaced(run, q);
    } else if BesideIrregular(run, q) {
      var l :| 0 <= l < |CarStateSpecs()| && CarStateSpecs()[l].key in run.dirty && Detached(run, CarStateSpecs()[l].key, q);
      DetachedUnplaced(run, l, q);
    } else {
      DirtyFileSaved(run, k, q);
    }
  }

  lemma WaysAre(run: Run, q: Path)
    ensures OfCleanRow(run, q) <==>
      exists k :: 0 <= k < |CarStateSpecs()| && CarStateSpecs()[k].key !in run.dirty && RowRemoves(run, k, q)
    ensures BesideIrregular(run, q) <==>
      exists k :: 0 <= k < |CarStateSpecs()| && CarStateSpecs()[k].key in run.dirty && Detached(run, CarStateSpecs()[k].key, q)
    ensures Shadowed(run, q) <==>
      "contextspace" in run.dirty && run.car + ["contextspace"] in run.env.fs && run.car + ["workspace"] <= q
  {
    hide CarStateSpecs, RowRemoves, Detached;
  }

  // ---- What arrives is what is read -------------------------------------------------------------------------

  /** The plan is the table's entries and the configuration file. */
  lemma PlanShape(run: Run)
    ensures ValidPlan(Plan(run)) && CopyOf(run) == PlanEffect(run.env, Plan(run))
    ensures Plan(run) == SpecEntries(run.env, run.car, CarStateSpecs(), run.dirty)
      + [Entry("config.yml", run.car + ["config.yml"], CONFIG_DEST, false)]
    ensures ValidRun(run) ==> WellFormed(run.env)
  {
    ResetPlanValid(run.env, run.car, run.dirty);
  }

  lemma WriteHasContent(env: Env, src: Path, dest: Path, w: Write)
    requires WellFormed(env) && src != [] && dest != [] && w in EntryEffect(env, src, dest, {}).writes
    ensures IsFile(env, w.source) && w.content == env.fs[w.source].content
  {
    hide *;
    EntryWriteFrom(env, src, dest, {}, w);
    if IsFile(env, src) {
      FileWriteFrom(env, src, dest, w);
      if w != Write(dest, src, env.fs[src].content) {
        var suffix := if w in SidecarEffect(env, src, dest, "-wal").writes then "-wal" else "-shm";
        SidecarSource(env, src, dest, suffix, w);
        SidecarContent(env, src, dest, suffix, w);
      }
    } else {
      var t := if IsDir(env, src) then src else env.fs[src].target.path;
      if IsDir(env, t) {
        TreeWritesGood(env, t, dest, {});
        GoodHasContent(env, t, dest, w);
      }
    }
  }

  lemma SidecarContent(env: Env, src: Path, dest: Path, suffix: string, w: Write)
    requires src != [] && dest != [] && w in SidecarEffect(env, src, dest, suffix).writes
    ensures IsFile(env, w.source) && w.content == env.fs[w.source].content
  {
  }

  lemma GoodHasContent(env: Env, d: Path, dst: Path, w: Write)
    requires IsDir(env, d) && GoodWrite(env, d, dst, w)
    ensures IsFile(env, w.source) && w.content == env.fs[w.source].content
  {
    hide FileAt;
  }

  /** A file arrives in the snapshot exactly if some planned entry reads it. */
  lemma ArrivesIffRead(run: Run, q: Path)
    requires ValidRun(run) && !CopyOf(run).raised && IsFile(run.env, q)
    ensures Arrives(run, q) <==> IsRead(run, q)
  {
    hide *;
    PlanShape(run);
    ReadIs(run, q);
    PlanReadsIff(run.env, Plan(run), q);
    if Arrives(run, q) {
      ArrivedHasSource(run, q);
    }
    if HasSource(CopyOf(run).writes, q) {
      var w := SomeSource(CopyOf(run).writes, q);
      var i := WriteOfEntry(run.env, Plan(run), w);
      WriteHasContent(run.env, Plan(run)[i].source, Plan(run)[i].dest, w);
      PlanKeeps(run.env, Plan(run), w);
      SourceArrives(run, w);
    }
  }

  lemma ReadIs(run: Run, q: Path)
    ensures Proper(Plan(run)) && (IsRead(run, q) <==> PlanReads(run.env, Plan(run), q))
  {
    PlanShape(run);
    hide Plan, PlanReads;
  }

  lemma ArrivedHasSource(run: Run, q: Path)
    requires IsFile(run.env, q) && Arrives(run, q)
    ensures HasSource(CopyOf(run).writes, q)
  {
    hide CopyOf, Complete;
  }

  lemma SourceArrives(run: Run, w: Write)
    requires IsFile(run.env, w.source) && w.content == run.env.fs[w.source].content && w in CopyOf(run).writes
    requires var out := Apply(map[], CopyOf(run).writes); w.dest in out && out[w.dest] == w.content
    ensures Arrives(run, w.source)
  {
    hide CopyOf, Apply;
    assert Write(w.dest, w.source, run.env.fs[w.source].content) == w;
  }

  // ---- The main result ----------------------------------------------------------------------------------------

  ghost predicate CleanRowHasFile(run: Run) {
    exists q :: IsFile(run.env, q) && OfCleanRow(run, q) && !IsRead(run, q)
  }

  ghost predicate LegacyHasFile(run: Run) {
    exists q :: IsFile(run.env, q) && Shadowed(run, q) && !IsRead(run, q)
  }

  ghost predicate IrregularHasSideFile(run: Run) {
    exists q :: IsFile(run.env, q) && BesideIrregular(run, q) && !IsRead(run, q)
  }

  /** Every regular file that a reset removes arrives in its snapshot, exactly if no clean row has a file under its
      reset paths, the legacy context directory has none beside a dirty canonical one, and no dirty database path
      that is no regular file has a regular side file, other than files that a planned entry reads through a link. */
  lemma RemovedFilesSavedIff(run: Run)
    requires ValidRun(run) && !CopyOf(run).raised
    ensures (forall q :: IsFile(run.env, q) && Removable(run, q) ==> Arrives(run, q))
      <==> !CleanRowHasFile(run) && !LegacyHasFile(run) && !IrregularHasSideFile(run)
  {
    hide OfCleanRow, Shadowed, BesideIrregular, IsRead, Removable, Arrives, ValidRun, CopyOf;
    if q :| IsFile(run.env, q) && (OfCleanRow(run, q) || Shadowed(run, q) || BesideIrregular(run, q)) && !IsRead(run, q) {
      WayIsRemoved(run, q);
      ArrivesIffRead(run, q);
    } else {
      forall q | IsFile(run.env, q) && Removable(run, q) ensures Arrives(run, q) { RemovedFileArrives(run, q); }
    }
  }

  lemma WayIsRemoved(run: Run, q: Path)
    requires ValidRun(run) && IsFile(run.env, q) && (OfCleanRow(run, q) || Shadowed(run, q) || BesideIrregular(run, q))
    ensures Removable(run, q)
  {
    hide *;
    RemovableByRow(run, q);
    WaysAre(run, q);
    if OfCleanRow(run, q) {
    } else if Shadowed(run, q) {
      LegacyUnplaced(run, q);
    } else {
      var k :| 0 <= k < |CarStateSpecs()| && CarStateSpecs()[k].key in run.dirty && Detached(run, CarStateSpecs()[k].key, q);
      DetachedUnplaced(run, k, q);
    }
  }

  lemma RemovedFileArrives(run: Run, q: Path)
    requires ValidRun(run) && !CopyOf(run).raised && IsFile(run.env, q) && Removable(run, q)
    requires !((OfCleanRow(run, q) || Shadowed(run, q) || BesideIrregular(run, q)) && !IsRead(run, q))
    ensures Arrives(run, q)
  {
    hide *;
    ArrivesIffRead(run, q);
    UnplacedIff(run, q);
    if IsSaved(run, q) { SavedIsRead(run, q); }
  }

  // ---- A place is enough; without links it is needed --------------------------------------------------------------

  lemma SavedIsRead(run: Run, q: Path)
    requires ValidRun(run) && !CopyOf(run).raised && IsFile(run.env, q) && IsSaved(run, q)
    ensures IsRead(run, q)
  {
    hide *;
    PlanShape(run);
    ReadIs(run, q);
    PlanReadsIff(run.env, Plan(run), q);
    var w := SavedIsCopied(run, q);
    SourceIs(CopyOf(run).writes, w);
  }

  lemma SourceIs(writes: seq<Write>, w: Write)
    requires w in writes
    ensures HasSource(writes, w.source)
  {
  }

  lemma SavedIsCopied(run: Run, q: Path) returns (w: Write)
    requires ValidRun(run) && !CopyOf(run).raised && IsFile(run.env, q) && IsSaved(run, q)
    ensures w in CopyOf(run).writes && w.source == q
  {
    hide CarStateSpecs, Saves, EntryFor, CopyOf, PlanEffect, EntryEffect, ValidRun, Plan, ResetPlan, SpecEntries;
    var target :| MustSurvive(run, q, target);
    var k :| 0 <= k < |CarStateSpecs()| && CarStateSpecs()[k].key in run.dirty
      && Saves(run.env, EntryFor(run.env, run.car, CarStateSpecs()[k]), q, target);
    var i := DirtySpecIsPlanned(run.env, run.car, CarStateSpecs(), run.dirty, k);
    PlanShape(run);
    var e := Plan(run)[i];
    hide MustSurvive, IsFile;
    EntryOfPlan(run.env, Plan(run), i);
    ProperEntry(run, i);
    EntrySaves(run.env, e, q, target);
    w := Write(target, q, run.env.fs[q].content);
  }

  lemma ProperEntry(run: Run, i: nat)
    requires i < |Plan(run)|
    ensures Plan(run)[i].source != [] && Plan(run)[i].dest != []
  {
    PlanShape(run);
    hide Plan;
  }

  /** Each entry of the table's part of a plan comes from a dirty row. */
  lemma {:induction false} RowOfEntry(env: Env, car: Path, specs: seq<Spec>, dirty: set<string>, i: nat) returns (k: nat)
    requires i < |SpecEntries(env, car, specs, dirty)|
    ensures k < |specs| && specs[k].key in dirty && SpecEntries(env, car, specs, dirty)[i] == EntryFor(env, car, specs[k])
  {
    var n := |specs| - 1;
    if i < |SpecEntries(env, car, specs[..n], dirty)| {
      k := RowOfEntry(env, car, specs[..n], dirty, i);
    } else {
      k := n;
    }
  }

  lemma ConfigIsNotReset(run: Run, k: nat, q: Path, target: Path)
    requires k < |CarStateSpecs()| && RowRemoves(run, k, q)
    ensures !Saves(run.env, Entry("config.yml", run.car + ["config.yml"], CONFIG_DEST, false), q, target)
  {
    hide *;
    var e := Entry("config.yml", run.car + ["config.yml"], CONFIG_DEST, false);
    if Saves(run.env, e, q, target) {
      var j := RemovingPath(run, k, q);
      SavesIsNear(run.env, e, q, target);
      NameBelow(run, CarStateSpecs()[k].resetPaths[j], q);
      NameBelow(run, "config.yml", q);
      ResetPathsApart(k, j, k, j);
      NotConfig(k, j);
      SuffixesCollide(CarStateSpecs()[k].resetPaths[j], "config.yml", q[|run.car|]);
    }
  }

  lemma NotConfig(k: nat, j: nat)
    requires k < |CarStateSpecs()| && j < |CarStateSpecs()[k].resetPaths|
    ensures CarStateSpecs()[k].resetPaths[j] != "config.yml" && PlainName("config.yml")
  {
    RowFacts(k);
    SpecName(k);
    ConfigIsGood();
    hide CarStateSpecs, Codes, PlainName;
    assert "workspace"[0] != "config.yml"[0];
    assert CONFIG_DEST[|CONFIG_DEST| - 1] == "config.yml";
  }

  lemma SavesIsSaved(run: Run, k: nat, q: Path, target: Path)
    requires k < |CarStateSpecs()| && CarStateSpecs()[k].key in run.dirty
    requires Saves(run.env, EntryFor(run.env, run.car, CarStateSpecs()[k]), q, target)
    ensures IsSaved(run, q)
  {
    hide CarStateSpecs, Saves, EntryFor;
    assert MustSurvive(run, q, target);
  }

  /** A removed file without a place is read only through a link that some planned entry meets. */
  lemma UnplacedReadMeetsLink(run: Run, q: Path) returns (i: nat, p: Path)
    requires Removable(run, q) && IsRead(run, q) && !IsSaved(run, q)
    ensures i < |Plan(run)| && Plan(run)[i].source != [] && Meets(run.env, Plan(run)[i].source, p)
  {
    hide *;
    PlanShape(run);
    ReadIs(run, q);
    i := ReadingEntry(run.env, Plan(run), q);
    ProperEntry(run, i);
    var e := Plan(run)[i];
    ReadIsSavedOrLinked(run.env, e, q);
    if exists target :: Saves(run.env, e, q, target) {
      var target :| Saves(run.env, e, q, target);
      EntrySavedIsSaved(run, i, q, target);
      assert false;
    } else {
      p :| Meets(run.env, e.source, p);
    }
  }

  lemma ReadingEntry(env: Env, entries: seq<Entry>, q: Path) returns (i: nat)
    requires Proper(entries) && PlanReads(env, entries, q)
    ensures i < |entries| && entries[i].source != [] && EntryReads(env, entries[i].source, q)
  {
    hide EntryReads;
    i :| 0 <= i < |entries| && EntryReads(env, entries[i].source, q);
  }

  lemma EntrySavedIsSaved(run: Run, i: nat, q: Path, target: Path)
    requires Removable(run, q) && i < |Plan(run)| && Saves(run.env, Plan(run)[i], q, target)
    ensures IsSaved(run, q)
  {
    hide *;
    PlanShape(run);
    RemovableByRow(run, q);
    var l :| 0 <= l < |CarStateSpecs()| && RowRemoves(run, l, q);
    if i < |SpecEntries(run.env, run.car, CarStateSpecs(), run.dirty)| {
      var k := RowOfEntry(run.env, run.car, CarStateSpecs(), run.dirty, i);
      SavesIsSaved(run, k, q, target);
    } else {
      ConfigIsNotReset(run, l, q, target);
    }
  }

  /** Where no planned entry meets a link, a removed file arrives exactly if it has a place: the three ways alone
      decide. */
  lemma ArrivesIffPlaced(run: Run, q: Path)
    requires ValidRun(run) && !CopyOf(run).raised && IsFile(run.env, q) && Removable(run, q)
    requires forall i, p :: 0 <= i < |Plan(run)| && Plan(run)[i].source != [] ==> !Meets(run.env, Plan(run)[i].source, p)
    ensures Arrives(run, q) <==> !(OfCleanRow(run, q) || Shadowed(run, q) || BesideIrregular(run, q))
  {
    hide *;
    ArrivesIffRead(run, q);
    UnplacedIff(run, q);
    if IsSaved(run, q) {
      SavedIsRead(run, q);
    } else if IsRead(run, q) {
      var i, p := UnplacedReadMeetsLink(run, q);
      assert false;
    }
  }
}
