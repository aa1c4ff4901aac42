/** The CAR-state table in its own words: where each row's files go, what a reset takes, and that databases go with
    their side files. */
module SnapshotTable {
  import opened Sequences
  import opened SnapshotCopy
  import opened SnapshotTheorems
  import opened SnapshotPlan
  import opened SnapshotEntries
  import opened SnapshotReads
  import opened ResetProtocol
  import opened ResetSafety
  import opened ResetCoverage
  import opened DirtyRows

  // ---- Databases ------------------------------------------------------------------------

  lemma DatabaseNames(stem: string)
    ensures IsDatabase(stem + ".sqlite3") && IsDatabase(stem + ".db")
  {
    assert (stem + ".sqlite3")[|stem|..] == ".sqlite3" && (stem + ".db")[|stem|..] == ".db";
  }

  lemma NoDatabaseName(name: string)
    requires forall stem :: name != stem + ".sqlite3" && name != stem + ".db"
    ensures !IsDatabase(name)
  {
    if IsDatabase(name) { var stem := StemOf(name); }
  }

  lemma StemOf(name: string) returns (stem: string)
    requires IsDatabase(name)
    ensures name == stem + ".sqlite3" || name == stem + ".db"
  {
    stem := if EndsWith(name, ".db") then name[..|name| - 3] else name[..|name| - 8];
  }

  /** A side file beside a database is copied beside its copy, under the same extension. */
  lemma SideFileGoesAlong(env: Env, d: Path, stem: string, ending: string, suffix: string, t: Path, name: string)
    requires ending == ".sqlite3" || ending == ".db"
    requires suffix == "-wal" || suffix == "-shm"
    requires IsFile(env, d + [stem + ending]) && IsFile(env, d + [stem + ending + suffix])
    requires !EntryEffect(env, d + [stem + ending], t + [name], {}).raised
    ensures var q := d + [stem + ending + suffix];
      Write(t + [name + suffix], q, env.fs[q].content) in EntryEffect(env, d + [stem + ending], t + [name], {}).writes
  {
    DatabaseNames(stem);
    var src, dest, q := d + [stem + ending], t + [name], d + [stem + ending + suffix];
    assert WithSuffix(src, suffix) == q && WithSuffix(dest, suffix) == t + [name + suffix] && src[|src| - 1] == stem + ending;
    hide IsDatabase, WithSuffix;
    var w := Write(WithSuffix(dest, suffix), q, env.fs[q].content);
    assert w in SidecarEffect(env, src, dest, suffix).writes;
    hide SidecarEffect, CopyFileEffect;
  }

  /** A file with another name is copied alone. */
  lemma OtherFileGoesAlone(env: Env, d: Path, name: string, dest: Path)
    requires IsFile(env, d + [name]) && dest != [] && !EntryEffect(env, d + [name], dest, {}).raised
    requires forall stem :: name != stem + ".sqlite3" && name != stem + ".db"
    ensures EntryEffect(env, d + [name], dest, {}).writes == [Write(dest, d + [name], env.fs[d + [name]].content)]
  {
    NoDatabaseName(name);
    assert (d + [name])[|d + [name]| - 1] == name;
    hide IsDatabase;
  }

  /** What counts as copied is what left something in the snapshot. */
  lemma CopiesIff(env: Env, src: Path, dest: Path)
    requires src != [] && dest != [] && !EntryEffect(env, src, dest, {}).raised
    ensures var x := EntryEffect(env, src, dest, {}); Copies(env, src) <==> x.writes != [] || x.made != []
  {
    hide ChildrenEffect, SidecarsEffect;
  }

  /** A link is recorded and not followed exactly if its target does not have the root above it. */
  lemma OutsideLinkIsSkipped(env: Env, src: Path, dest: Path, t: Path)
    requires src != [] && dest != [] && src in env.fs && env.fs[src] == Link(At(t))
    ensures !(env.root <= t) ==> EntryEffect(env, src, dest, {}) == Effect([], [], [src], [], false)
    ensures env.root <= t && IsFile(env, t) && t !in env.unreadable ==>
      EntryEffect(env, src, dest, {}) == Effect([Write(dest, t, env.fs[t].content)], [], [], [], false)
  {
    hide TreeEffect;
  }

  /** What the copier does with each kind of source: what cannot be read and a link that loops end it with an error,
      what is missing or special is passed over, and a directory is made and entered. */
  lemma EntryCases(env: Env, src: Path, dest: Path)
    requires src != [] && dest != []
    ensures var x := EntryEffect(env, src, dest, {});
      && (src !in env.fs ==> x == Effect([], [], [], [], false))
      && (src in env.fs && env.fs[src] == Special ==> x == Effect([], [], [], [], false))
      && (src in env.fs && env.fs[src] == Link(Loop) ==> x == Effect([], [], [], [], true))
      && (src in env.fs && env.fs[src].File? && src in env.unreadable ==> x == Effect([], [], [], [], true))
      && (src in env.fs && env.fs[src].File? && src !in env.unreadable ==>
        x.writes != [] && x.writes[0] == Write(dest, src, env.fs[src].content))
      && (src in env.fs && env.fs[src].Dir? ==> dest in x.made && src in x.entered)
      && (src in env.fs && env.fs[src].Dir? && src in env.unreadable ==> x == Effect([], [dest], [], [src], true))
  {
    hide ChildrenEffect, SidecarsEffect;
  }

  /** The report of a plan that ran to its end names the entries that are required and not there as missing, and as
      copied those that left something in the snapshot. */
  lemma ReportIs(env: Env, entries: seq<Entry>, key: string)
    requires Proper(entries) && !PlanEffect(env, entries).raised
    ensures key in Labels(Filter(MissingIn(env), entries)) <==>
      exists i :: 0 <= i < |entries| && entries[i].key == key && entries[i].required && entries[i].source !in env.fs
    ensures key in Labels(Filter(CopiedIn(env), entries)) <==>
      exists i :: 0 <= i < |entries| && entries[i].key == key && LeftSomething(env, entries[i])
  {
    hide PlanEffect, EntryEffect, Filter, Copies;
    LabelsOf(MissingIn(env), entries, key);
    LabelsOf(CopiedIn(env), entries, key);
    forall i | 0 <= i < |entries| ensures CopiedIn(env)(entries[i]) <==> LeftSomething(env, entries[i]) {
      PartsRun(env, entries, i);
      CopiesIff(env, entries[i].source, entries[i].dest);
    }
    hide LeftSomething, Labels;
  }

  ghost predicate LeftSomething(env: Env, e: Entry)
    requires e.source != [] && e.dest != []
  {
    var x := EntryEffect(env, e.source, e.dest, {}); x.writes != [] || x.made != []
  }

  lemma LabelsOf(p: Entry -> bool, entries: seq<Entry>, key: string)
    ensures key in Labels(Filter(p, entries)) <==> exists i :: 0 <= i < |entries| && entries[i].key == key && p(entries[i])
  {
    var kept := Filter(p, entries);
    FilterMembers(p, entries);
    hide Filter;
    if key in Labels(kept) {
      var i := Position(Labels(kept), key);
      var j := Position(entries, kept[i]);
    }
    if i :| 0 <= i < |entries| && entries[i].key == key && p(entries[i]) {
      var j := Position(kept, entries[i]);
      assert Labels(kept)[j] == key;
    }
  }

  // ---- Where a row's files go ---------------------------------------------------------------

  lemma RowOf(key: string, dest: Path) returns (k: nat)
    requires (key, dest) in [("tickets", ["tickets"]), ("contextspace", ["contextspace"]), ("runs", ["runs"]), ("flows", ["flows"]),
      ("flows.db", ["flows.db"]), ("state.sqlite3", ["state", "state.sqlite3"]),
      ("app_server_threads.json", ["state", "app_server_threads.json"]), ("app_server_workspaces", ["app_server_workspaces"]),
      ("github_context", ["github_context"]), ("filebox", ["filebox"]), ("codex-autorunner.log", ["logs", "codex-autorunner.log"]),
      ("codex-server.log", ["logs", "codex-server.log"]), ("lock", ["state", "lock"])]
    ensures k < |CarStateSpecs()| && CarStateSpecs()[k].key == key && CarStateSpecs()[k].dest == dest
  {
    var rows := [("tickets", ["tickets"]), ("contextspace", ["contextspace"]), ("runs", ["runs"]), ("flows", ["flows"]),
      ("flows.db", ["flows.db"]), ("state.sqlite3", ["state", "state.sqlite3"]),
      ("app_server_threads.json", ["state", "app_server_threads.json"]), ("app_server_workspaces", ["app_server_workspaces"]),
      ("github_context", ["github_context"]), ("filebox", ["filebox"]), ("codex-autorunner.log", ["logs", "codex-autorunner.log"]),
      ("codex-server.log", ["logs", "codex-server.log"]), ("lock", ["state", "lock"])];
    k := Position(rows, (key, dest));
  }

  lemma RowFileArrives(run: Run, k: nat, rel: Path)
    requires ValidRun(run) && !CopyOf(run).raised && k < |CarStateSpecs()| && CarStateSpecs()[k].key in run.dirty
    requires SourceOf(run.env, run.car, CarStateSpecs()[k]) != [] && IsFile(run.env, SourceOf(run.env, run.car, CarStateSpecs()[k]) + rel)
    ensures var q := SourceOf(run.env, run.car, CarStateSpecs()[k]) + rel;
      var out := Complete(run).files;
      CarStateSpecs()[k].dest + rel in out && out[CarStateSpecs()[k].dest + rel] == run.env.fs[q].content
  {
    RowFacts(k);
    var e := EntryFor(run.env, run.car, CarStateSpecs()[k]);
    var q := e.source + rel;
    hide CarStateSpecs, IsDatabase, SourceOf;
    assert q[|e.source|..] == rel;
    assert Saves(run.env, e, q, e.dest + rel);
    assert MustSurvive(run, q, e.dest + rel);
    hide Saves, MustSurvive, EntryFor, Complete, CopyOf, ValidRun;
    CompleteHolds(run, q, e.dest + rel);
  }

  /** Every regular file at or below a dirty row's path is in the finished snapshot at the row's place. */
  lemma FileHasItsPlace(run: Run, key: string, dest: Path, rel: Path)
    requires (key, dest) in [("tickets", ["tickets"]), ("contextspace", ["contextspace"]), ("runs", ["runs"]), ("flows", ["flows"]),
      ("flows.db", ["flows.db"]), ("state.sqlite3", ["state", "state.sqlite3"]),
      ("app_server_threads.json", ["state", "app_server_threads.json"]), ("app_server_workspaces", ["app_server_workspaces"]),
      ("github_context", ["github_context"]), ("filebox", ["filebox"]), ("codex-autorunner.log", ["logs", "codex-autorunner.log"]),
      ("codex-server.log", ["logs", "codex-server.log"]), ("lock", ["state", "lock"])]
    requires ValidRun(run) && !CopyOf(run).raised && key in run.dirty && IsFile(run.env, run.car + [key] + rel)
    ensures var out := Complete(run).files;
      dest + rel in out && out[dest + rel] == run.env.fs[run.car + [key] + rel].content
    ensures Removable(run, run.car + [key] + rel)
  {
    hide *;
    var k := RowOf(key, dest);
    ValidIsTree(run);
    AtOrBelow(run.env, run.car + [key], run.car + [key] + rel);
    SourceIsKey(run, k);
    RowFileArrives(run, k, rel);
    KeyIsRemoved(run, k, run.car + [key] + rel);
  }

  lemma IsThere(env: Env, p: Path)
    requires IsFile(env, p)
    ensures p in env.fs
  {
  }

  lemma ValidIsTree(run: Run)
    requires ValidRun(run)
    ensures WellFormed(run.env)
  {
  }

  lemma SourceIsKey(run: Run, k: nat)
    requires k < |CarStateSpecs()| && run.car + [CarStateSpecs()[k].key] in run.env.fs
    ensures SourceOf(run.env, run.car, CarStateSpecs()[k]) == run.car + [CarStateSpecs()[k].key]
  {
    hide CarStateSpecs;
  }

  lemma KeyIsRemoved(run: Run, k: nat, q: Path)
    requires k < |CarStateSpecs()| && run.car + [CarStateSpecs()[k].key] in run.env.fs && run.car + [CarStateSpecs()[k].key] <= q
    ensures Removable(run, q)
  {
    hide *;
    FirstResetPath(k);
    TakenByKey(run, k, q);
    RemovableByRow(run, q);
  }

  lemma TakenByKey(run: Run, k: nat, q: Path)
    requires k < |CarStateSpecs()| && 0 < |CarStateSpecs()[k].resetPaths| && CarStateSpecs()[k].resetPaths[0] == CarStateSpecs()[k].key
    requires run.car + [CarStateSpecs()[k].key] in run.env.fs
    requires run.car + [CarStateSpecs()[k].key] <= q || SideFileOf(run.car + [CarStateSpecs()[k].key], q)
    ensures RowRemoves(run, k, q)
  {
    hide CarStateSpecs, SideFileOf;
    assert Takes(run, CarStateSpecs()[k].resetPaths[0], q);
  }

  /** The uncommitted part of a dirty database is saved beside it and removed with it. */
  lemma SideFileHasItsPlace(run: Run, key: string, dest: Path, suffix: string)
    requires (key, dest) in [("state.sqlite3", ["state", "state.sqlite3" + suffix]), ("flows.db", ["flows.db" + suffix])]
    requires suffix == "-wal" || suffix == "-shm"
    requires ValidRun(run) && !CopyOf(run).raised && key in run.dirty
    requires IsFile(run.env, run.car + [key]) && IsFile(run.env, run.car + [key + suffix])
    ensures var out := Complete(run).files; dest in out && out[dest] == run.env.fs[run.car + [key + suffix]].content
    ensures Removable(run, run.car + [key + suffix])
  {
    hide *;
    var k := DatabaseRow(key);
    IsThere(run.env, run.car + [key]);
    SourceIsKey(run, k);
    SideFileSurvives(run, k, suffix);
    var d := CarStateSpecs()[k].dest;
    assert d[..|d| - 1] + [d[|d| - 1] + suffix] == dest;
    CompleteHolds(run, run.car + [key + suffix], dest);
    FirstResetPath(k);
    KeyHasSideFile(run.car, key, suffix);
    TakenByKey(run, k, run.car + [key + suffix]);
    RemovableByRow(run, run.car + [key + suffix]);
  }

  lemma KeyHasSideFile(car: Path, key: string, suffix: string)
    requires key == "state.sqlite3" || key == "flows.db"
    requires suffix == "-wal" || suffix == "-shm"
    ensures SideFileOf(car + [key], car + [key + suffix])
  {
    DatabaseNames("state");
    DatabaseNames("flows");
    assert "state" + ".sqlite3" == "state.sqlite3" && "flows" + ".db" == "flows.db";
    hide IsDatabase;
    assert (car + [key])[..|car|] == car;
  }

  lemma DatabaseRow(key: string) returns (k: nat)
    requires key == "state.sqlite3" || key == "flows.db"
    ensures k < |CarStateSpecs()| && CarStateSpecs()[k].key == key
    ensures key == "state.sqlite3" ==> CarStateSpecs()[k].dest == ["state", "state.sqlite3"]
    ensures key == "flows.db" ==> CarStateSpecs()[k].dest == ["flows.db"]
  {
    k := if key == "flows.db" then 4 else 5;
  }

  lemma SideFileSurvives(run: Run, k: nat, suffix: string)
    requires k < |CarStateSpecs()| && CarStateSpecs()[k].key in run.dirty && (suffix == "-wal" || suffix == "-shm")
    requires CarStateSpecs()[k].key == "state.sqlite3" || CarStateSpecs()[k].key == "flows.db"
    requires SourceOf(run.env, run.car, CarStateSpecs()[k]) == run.car + [CarStateSpecs()[k].key]
    requires IsFile(run.env, run.car + [CarStateSpecs()[k].key]) && IsFile(run.env, run.car + [CarStateSpecs()[k].key + suffix])
    requires CarStateSpecs()[k].dest != []
    ensures var dest := CarStateSpecs()[k].dest;
      MustSurvive(run, run.car + [CarStateSpecs()[k].key + suffix], dest[..|dest| - 1] + [dest[|dest| - 1] + suffix])
  {
    var e := EntryFor(run.env, run.car, CarStateSpecs()[k]);
    KeyHasSideFile(run.car, CarStateSpecs()[k].key, suffix);
    hide CarStateSpecs, IsDatabase, SourceOf;
    var q := run.car + [CarStateSpecs()[k].key + suffix];
    assert e.source[..|e.source| - 1] == run.car && WithSuffix(e.source, suffix) == q;
    assert Saves(run.env, e, q, WithSuffix(e.dest, suffix));
  }

  /** Without a canonical context directory the legacy one is archived under the canonical name. */
  lemma LegacyHasItsPlace(run: Run, rel: Path)
    requires ValidRun(run) && !CopyOf(run).raised && "contextspace" in run.dirty && run.car + ["contextspace"] !in run.env.fs
    requires IsFile(run.env, run.car + ["workspace"] + rel)
    ensures var out := Complete(run).files;
      ["contextspace"] + rel in out && out[["contextspace"] + rel] == run.env.fs[run.car + ["workspace"] + rel].content
    ensures Removable(run, run.car + ["workspace"] + rel)
  {
    hide *;
    var k := RowOf("contextspace", ["contextspace"]);
    ValidIsTree(run);
    AtOrBelow(run.env, run.car + ["workspace"], run.car + ["workspace"] + rel);
    LegacySource(run, k);
    RowFileArrives(run, k, rel);
    LegacyRemoved(run, run.car + ["workspace"] + rel);
    RemovableByRow(run, run.car + ["workspace"] + rel);
  }

  lemma LegacySource(run: Run, k: nat)
    requires k < |CarStateSpecs()| && CarStateSpecs()[k].key == "contextspace"
    requires run.car + ["contextspace"] !in run.env.fs && run.car + ["workspace"] in run.env.fs
    ensures SourceOf(run.env, run.car, CarStateSpecs()[k]) == run.car + ["workspace"]
  {
    hide CarStateSpecs;
  }

  /** The configuration is archived whatever is dirty, and no reset removes it. */
  lemma ConfigHasItsPlace(run: Run)
    requires ValidRun(run) && !CopyOf(run).raised && IsFile(run.env, run.car + ["config.yml"])
    ensures var out := Complete(run).files;
      ["config", "config.yml"] in out && out[["config", "config.yml"]] == run.env.fs[run.car + ["config.yml"]].content
    ensures !Removable(run, run.car + ["config.yml"])
  {
    hide *;
    var q := run.car + ["config.yml"];
    ValidIsTree(run);
    PlanIs(run);
    PlanShape(run);
    ConfigSaves(run);
    var i := |SpecEntries(run.env, run.car, CarStateSpecs(), run.dirty)|;
    PlanSaves(run.env, Plan(run), i, q, ["config", "config.yml"]);
    RemovableByRow(run, q);
    if Removable(run, q) {
      var l :| 0 <= l < |CarStateSpecs()| && RowRemoves(run, l, q);
      ConfigIsNotReset(run, l, q, ["config", "config.yml"]);
    }
  }

  lemma ConfigSaves(run: Run)
    requires IsFile(run.env, run.car + ["config.yml"])
    ensures Saves(run.env, Entry("config.yml", run.car + ["config.yml"], CONFIG_DEST, false), run.car + ["config.yml"], ["config", "config.yml"])
  {
    hide IsDatabase;
    assert CONFIG_DEST + [] == ["config", "config.yml"];
    assert (run.car + ["config.yml"])[|run.car + ["config.yml"]|..] == [];
  }

  /** A reset takes nothing but these paths, what lies below them, and the side files of the two databases. */
  lemma NothingElseIsRemoved(run: Run, q: Path)
    requires Removable(run, q)
    ensures |q| > |run.car| && run.car <= q
    ensures q[|run.car|] in ["tickets", "contextspace", "workspace", "runs", "flows", "flows.db", "flows.db-wal", "flows.db-shm",
      "state.sqlite3", "state.sqlite3-wal", "state.sqlite3-shm", "app_server_threads.json", "app_server_workspaces", "github_context",
      "filebox", "codex-autorunner.log", "codex-server.log", "lock"]
  {
    hide *;
    RemovableByRow(run, q);
    var k :| 0 <= k < |CarStateSpecs()| && RowRemoves(run, k, q);
    var j := RemovingPath(run, k, q);
    NameBelow(run, CarStateSpecs()[k].resetPaths[j], q);
    BelowCar(run, CarStateSpecs()[k].resetPaths[j], q);
    ResetNames(k, j);
    if !(run.car + [CarStateSpecs()[k].resetPaths[j]] <= q) {
      NotBeside(run, k, j, q);
      DatabaseKeys(k, j);
    } else {
      FirstName(run.car, CarStateSpecs()[k].resetPaths[j], q);
    }
  }

  lemma FirstName(car: Path, name: string, q: Path)
    requires car + [name] <= q
    ensures q[|car|] == name
  {
    assert (car + [name])[|car|] == name;
  }

  lemma BelowCar(run: Run, name: string, q: Path)
    requires run.car + [name] <= q || SideFileOf(run.car + [name], q)
    ensures run.car <= q
  {
    hide IsDatabase;
    assert (run.car + [name])[..|run.car|] == run.car;
    if run.car + [name] <= q { assert q[..|run.car|] == run.car; }
  }

  lemma ResetNames(k: nat, j: nat)
    requires k < |CarStateSpecs()| && j < |CarStateSpecs()[k].resetPaths|
    ensures CarStateSpecs()[k].resetPaths[j] in ["tickets", "contextspace", "workspace", "runs", "flows", "flows.db", "flows.db-wal", "flows.db-shm",
      "state.sqlite3", "state.sqlite3-wal", "state.sqlite3-shm", "app_server_threads.json", "app_server_workspaces", "github_context",
      "filebox", "codex-autorunner.log", "codex-server.log", "lock"]
  {
  }

  lemma DatabaseKeys(k: nat, j: nat)
    requires k < |CarStateSpecs()| && j < |CarStateSpecs()[k].resetPaths|
    requires CarStateSpecs()[k].check.Exists? || CarStateSpecs()[k].check.RunnerCheck?
    ensures CarStateSpecs()[k].resetPaths[j] == "flows.db" || CarStateSpecs()[k].resetPaths[j] == "state.sqlite3"
    ensures "flows.db" + "-wal" == "flows.db-wal" && "flows.db" + "-shm" == "flows.db-shm"
    ensures "state.sqlite3" + "-wal" == "state.sqlite3-wal" && "state.sqlite3" + "-shm" == "state.sqlite3-shm"
  {
  }
}
