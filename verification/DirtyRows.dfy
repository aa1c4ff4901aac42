/** The dirty checks of the CAR-state table: which rows a worktree makes dirty, and what a clean row can hide. */
module DirtyRows {
  import opened Sequences
  import opened SnapshotCopy
  import opened SnapshotTheorems
  import opened SnapshotPlan
  import opened ResetProtocol
  import opened ResetCoverage

  /** What the checks find in files they read: those with nothing but blanks, those that hold an empty JSON value,
      and the databases of an idle runner. */
  datatype Readings = Readings(blank: set<Path>, emptyJson: set<Path>, idle: set<Path>)

  ghost predicate OfFiles(env: Env, found: Readings) {
    forall p :: p in found.blank + found.emptyJson + found.idle ==> IsFile(env, p)
  }

  /** Where a path leads, if it exists: a link is followed. */
  function Real(env: Env, p: Path): Option<Path> {
    if p !in env.fs then None
    else
      match env.fs[p]
      case Link(At(t)) => if t in env.fs then Some(t) else None
      case Link(Loop) => None
      case _ => Some(p)
  }

  function RealDir(env: Env, p: Path): Option<Path> {
    var d := Real(env, p);
    if d.Some? && IsDir(env, d.value) then d else None
  }

  function RealFile(env: Env, p: Path): Option<Path> {
    var f := Real(env, p);
    if f.Some? && IsFile(env, f.value) then f else None
  }

  /** Something below the directory that is no directory, links followed. */
  ghost predicate Holds(env: Env, d: Path, c: Path) {
    c in env.fs && d <= c && c != d && RealDir(env, c).None?
  }

  /** The default documents, without their extension. */
  const CONTEXT_DOCS := ["active_context", "decisions", "spec"]

  ghost predicate IsBlankDoc(env: Env, found: Readings, d: Path, c: Path) {
    exists doc :: doc in CONTEXT_DOCS && c == d + [doc + ".md"] && RealFile(env, c).Some? && RealFile(env, c).value in found.blank
  }

  /** A dirty check at a path. */
  ghost predicate IsDirty(env: Env, found: Readings, check: Check, p: Path) {
    var d := RealDir(env, p);
    var f := RealFile(env, p);
    match check
    case TicketsCheck => d.Some? && exists c :: Holds(env, d.value, c) && c != d.value + ["AGENTS.md"]
    case ContextCheck => d.Some? && exists c :: Holds(env, d.value, c) && !IsBlankDoc(env, found, d.value, c)
    case HasEntries => d.Some? && env.fs[d.value].names != []
    case HasPayload =>
      d.Some? && exists c :: c in env.fs && d.value <= c && c != d.value && (RealFile(env, c).Some? || env.fs[c].Link?)
    case Exists => Real(env, p).Some?
    case ExistsOrLink => p in env.fs
    case RunnerCheck => Real(env, p).Some? && Real(env, p).value !in found.idle
    case JsonCheck => f.Some? && f.value !in found.emptyJson
    case LogCheck => f.Some? && env.fs[f.value].content != []
  }

  /** `dirty_car_state_paths` */
  ghost function DirtyKeys(env: Env, car: Path, found: Readings): set<string> {
    set k | 0 <= k < |CarStateSpecs()| && IsDirty(env, found, CarStateSpecs()[k].check, SourceOf(env, car, CarStateSpecs()[k]))
      :: CarStateSpecs()[k].key
  }

  /** A run whose dirty rows are those its worktree makes dirty. */
  ghost predicate RealRun(run: Run, found: Readings) {
    ValidRun(run) && OfFiles(run.env, found) && run.dirty == DirtyKeys(run.env, run.car, found)
  }

  /** A row is dirty exactly if its check says so. */
  lemma DirtyIff(run: Run, found: Readings, k: nat)
    requires RealRun(run, found) && k < |CarStateSpecs()|
    ensures CarStateSpecs()[k].key in run.dirty <==>
      IsDirty(run.env, found, CarStateSpecs()[k].check, SourceOf(run.env, run.car, CarStateSpecs()[k]))
  {
    hide CarStateSpecs, IsDirty, SourceOf, ValidRun, OfFiles;
    if CarStateSpecs()[k].key in run.dirty {
      var l :| 0 <= l < |CarStateSpecs()| && CarStateSpecs()[l].key == CarStateSpecs()[k].key
        && IsDirty(run.env, found, CarStateSpecs()[l].check, SourceOf(run.env, run.car, CarStateSpecs()[l]));
      KeysApart(k, l);
    }
  }

  lemma KeysApart(k: nat, l: nat)
    requires k < |CarStateSpecs()| && l < |CarStateSpecs()| && CarStateSpecs()[k].key == CarStateSpecs()[l].key
    ensures k == l
  {
    hide *;
    RowFacts(k);
    RowFacts(l);
    FirstResetPath(k);
    FirstResetPath(l);
    ResetPathsApart(k, 0, l, 0);
  }

  lemma FirstResetPath(k: nat)
    requires k < |CarStateSpecs()|
    ensures 0 < |CarStateSpecs()[k].resetPaths| && CarStateSpecs()[k].resetPaths[0] == CarStateSpecs()[k].key
  {
  }

  // ---- What a clean row can hide -----------------------------------------------------------------

  /** The only files a clean row removes: what its check overlooks. */
  ghost predicate Overlooked(env: Env, found: Readings, check: Check, p: Path, q: Path)
    requires p != []
  {
    match check
    case TicketsCheck => q == p || q == p + ["AGENTS.md"]
    case ContextCheck => q == p || (q in found.blank && exists doc :: doc in CONTEXT_DOCS && q == p + [doc + ".md"])
    case HasEntries => q == p
    case HasPayload => q == p
    case Exists => Real(env, p).None? && SideFileOf(p, q)
    case ExistsOrLink => false
    case RunnerCheck => (q == p && q in found.idle) || (SideFileOf(p, q) && (Real(env, p).None? || Real(env, p).value in found.idle))
    case JsonCheck => (q == p && q in found.emptyJson) || (IsDir(env, p) && p <= q)
    case LogCheck => (q == p && IsFile(env, p) && env.fs[p].content == []) || (IsDir(env, p) && p <= q)
  }

  lemma AtOrBelow(env: Env, p: Path, q: Path)
    requires WellFormed(env) && IsFile(env, q) && p <= q
    ensures q == p || IsDir(env, p)
    ensures p in env.fs
  {
    hide WellFormed;
    if q != p {
      ParentsAreDirs(env, q, |p|);
      assert q[..|p|] == p;
    } else {
      assert q == p;
    }
  }

  lemma DatabaseEnds(name: string)
    requires IsDatabase(name)
    ensures name != "" && (name[|name| - 1] == 'b' || name[|name| - 1] == '3')
  {
    assert ".sqlite3"[7] == '3' && ".db"[2] == 'b';
    assert EndsWith(name, ".db") ==> name[|name| - 3..][2] == name[|name| - 1];
    assert EndsWith(name, ".sqlite3") ==> name[|name| - 8..][7] == name[|name| - 1];
  }

  lemma DatabaseRows(k: nat)
    requires k < |CarStateSpecs()|
    ensures var spec := CarStateSpecs()[k];
      spec.check.Exists? || spec.check.RunnerCheck?
      || (spec.key != "" && spec.key[|spec.key| - 1] != 'b' && spec.key[|spec.key| - 1] != '3')
  {
  }

  lemma DirIsNotIdle(env: Env, found: Readings, p: Path)
    requires OfFiles(env, found) && IsDir(env, p)
    ensures p !in found.idle
  {
    assert p in found.idle ==> p in found.blank + found.emptyJson + found.idle;
  }

  /** What a clean check overlooks at the path itself. */
  lemma CleanOverlooks(env: Env, found: Readings, check: Check, p: Path, q: Path)
    requires WellFormed(env) && OfFiles(env, found) && p != [] && p in env.fs && IsFile(env, q) && !IsDirty(env, found, check, p)
    requires p <= q || (SideFileOf(p, q) && (check.Exists? || check.RunnerCheck?))
    ensures Overlooked(env, found, check, p, q)
  {
    hide WellFormed, SideFileOf;
    assert RealFile(env, q) == Some(q) && RealDir(env, q) == None;
    if p <= q {
      AtOrBelow(env, p, q);
      if q != p {
        assert RealDir(env, p) == Some(p) && Real(env, p) == Some(p);
        ParentsAreDirs(env, q, |p|);
        assert q[..|p|] == p;
        assert q[|p|] in env.fs[p].names;
        assert Holds(env, p, q);
        if check.ContextCheck? {
          assert IsBlankDoc(env, found, p, q);
        } else if check.HasPayload? {
          assert false;
        }
        DirIsNotIdle(env, found, p);
      }
    }
  }

  /** In a real run, a file removed for a clean row is one its check overlooks, or a legacy context file. */
  lemma CleanRowHides(run: Run, found: Readings, k: nat, q: Path)
    requires RealRun(run, found) && k < |CarStateSpecs()| && CarStateSpecs()[k].key !in run.dirty
    requires IsFile(run.env, q) && RowRemoves(run, k, q)
    ensures var spec := CarStateSpecs()[k];
      || Overlooked(run.env, found, spec.check, SourceAt(run, k), q)
      || (spec.key == "contextspace" && run.car + ["contextspace"] in run.env.fs && run.car + ["workspace"] <= q)
  {
    hide *;
    RealIs(run, found);
    DirtyIff(run, found, k);
    var j := RemovingPath(run, k, q);
    RowFacts(k);
    WorkspaceIsPlain();
    var p := run.car + [CarStateSpecs()[k].resetPaths[j]];
    if !(p <= q) { NotBeside(run, k, j, q); }
    if p == SourceAt(run, k) {
      CleanOverlooks(run.env, found, CarStateSpecs()[k].check, p, q);
    } else {
      OtherResetPath(run, k, j);
    }
  }

  /** Where a row's check looks. */
  ghost function SourceAt(run: Run, k: nat): (p: Path)
    requires k < |CarStateSpecs()|
    ensures p != [] && p == SourceOf(run.env, run.car, CarStateSpecs()[k])
  {
    hide CarStateSpecs;
    SourceOf(run.env, run.car, CarStateSpecs()[k])
  }

  lemma RealIs(run: Run, found: Readings)
    requires RealRun(run, found)
    ensures WellFormed(run.env) && OfFiles(run.env, found)
  {
  }

  lemma NotBeside(run: Run, k: nat, j: nat, q: Path)
    requires k < |CarStateSpecs()| && j < |CarStateSpecs()[k].resetPaths|
    requires SideFileOf(run.car + [CarStateSpecs()[k].resetPaths[j]], q)
    ensures CarStateSpecs()[k].check.Exists? || CarStateSpecs()[k].check.RunnerCheck?
    ensures CarStateSpecs()[k].resetPaths[j] != "workspace"
  {
    RowFacts(k);
    WorkspaceIsPlain();
    DatabaseRows(k);
    hide CarStateSpecs, IsDatabase;
    DatabaseEnds(CarStateSpecs()[k].resetPaths[j]);
  }

  /** The reset path a row's check does not look at is a context directory beside the other. */
  lemma OtherResetPath(run: Run, k: nat, j: nat)
    requires k < |CarStateSpecs()| && j < |CarStateSpecs()[k].resetPaths|
    requires var p := run.car + [CarStateSpecs()[k].resetPaths[j]]; p in run.env.fs && p != SourceAt(run, k)
    ensures CarStateSpecs()[k].key == "contextspace" && CarStateSpecs()[k].resetPaths[j] == "workspace"
    ensures run.car + ["contextspace"] in run.env.fs
  {
    RowFacts(k);
    hide CarStateSpecs;
  }

  // ---- The checks on what may lie at a path ----------------------------------------------

  lemma NothingIsClean(env: Env, found: Readings, check: Check, p: Path)
    requires p !in env.fs
    ensures !IsDirty(env, found, check, p)
  {
  }

  /** A regular file: no directory check minds it. */
  lemma ChecksOnFile(env: Env, found: Readings, p: Path)
    requires IsFile(env, p)
    ensures !IsDirty(env, found, TicketsCheck, p) && !IsDirty(env, found, ContextCheck, p)
    ensures !IsDirty(env, found, HasEntries, p) && !IsDirty(env, found, HasPayload, p)
    ensures IsDirty(env, found, Exists, p) && IsDirty(env, found, ExistsOrLink, p)
    ensures IsDirty(env, found, RunnerCheck, p) <==> p !in found.idle
    ensures IsDirty(env, found, JsonCheck, p) <==> p !in found.emptyJson
    ensures IsDirty(env, found, LogCheck, p) <==> env.fs[p].content != []
  {
  }

  /** A dangling link, or a loop: only the check for links minds it. */
  lemma ChecksOnDangling(env: Env, found: Readings, check: Check, p: Path)
    requires p in env.fs && env.fs[p].Link? && (env.fs[p].target.At? ==> env.fs[p].target.path !in env.fs)
    ensures IsDirty(env, found, check, p) <==> check.ExistsOrLink?
  {
  }

  /** A link to something real is checked there. */
  lemma ChecksOnLink(env: Env, found: Readings, check: Check, p: Path, t: Path)
    requires p in env.fs && env.fs[p] == Link(At(t)) && t in env.fs && !env.fs[t].Link?
    ensures IsDirty(env, found, check, p) <==> IsDirty(env, found, check, t)
  {
    assert Real(env, p) == Real(env, t) == Some(t) && RealDir(env, p) == RealDir(env, t) && RealFile(env, p) == RealFile(env, t);
    hide RealDir, RealFile, Real, Holds, IsBlankDoc;
  }

  /** A directory without links: the default documents do not count, and neither do empty directories, except for
      the checks that only ask for an entry. */
  lemma ChecksOnDirectory(env: Env, found: Readings, p: Path)
    requires WellFormed(env) && OfFiles(env, found) && IsDir(env, p) && forall q :: q in env.fs && p <= q ==> !env.fs[q].Link?
    ensures IsDirty(env, found, TicketsCheck, p) <==>
      exists q :: q in env.fs && p <= q && !env.fs[q].Dir? && q != p + ["AGENTS.md"]
    ensures IsDirty(env, found, ContextCheck, p) <==>
      exists q :: q in env.fs && p <= q && !env.fs[q].Dir? && !(q in found.blank && q in [p + ["active_context" + ".md"], p + ["decisions" + ".md"], p + ["spec" + ".md"]])
    ensures IsDirty(env, found, HasEntries, p) <==> exists q :: q in env.fs && p <= q && q != p
    ensures IsDirty(env, found, HasPayload, p) <==> exists q :: IsFile(env, q) && p <= q
    ensures IsDirty(env, found, Exists, p) && IsDirty(env, found, ExistsOrLink, p) && IsDirty(env, found, RunnerCheck, p)
    ensures !IsDirty(env, found, JsonCheck, p) && !IsDirty(env, found, LogCheck, p)
  {
    DirIsNotIdle(env, found, p);
    PayloadBelow(env, found, p);
    EntriesBelow(env, found, p);
    hide WellFormed, HasBelow;
    assert RealDir(env, p) == Some(p) && Real(env, p) == Some(p);
    forall q | q in env.fs && p <= q
      ensures Holds(env, p, q) <==> !env.fs[q].Dir?
      ensures RealFile(env, q) == if env.fs[q].File? then Some(q) else None
    {
      assert q == p ==> env.fs[q].Dir?;
    }
    hide RealDir, Real;
    TicketsBelow(env, found, p);
    ContextBelow(env, found, p);
  }

  ghost predicate HasBelow(env: Env, p: Path) {
    exists q :: q in env.fs && p <= q && q != p
  }

  lemma TicketsBelow(env: Env, found: Readings, p: Path)
    requires RealDir(env, p) == Some(p) && forall q :: q in env.fs && p <= q ==> (Holds(env, p, q) <==> !env.fs[q].Dir?)
    ensures IsDirty(env, found, TicketsCheck, p) <==>
      exists q :: q in env.fs && p <= q && !env.fs[q].Dir? && q != p + ["AGENTS.md"]
  {
    hide RealDir;
    if c :| Holds(env, p, c) && c != p + ["AGENTS.md"] { assert c in env.fs && p <= c; }
  }

  lemma ContextBelow(env: Env, found: Readings, p: Path)
    requires RealDir(env, p) == Some(p) && forall q :: q in env.fs && p <= q ==> (Holds(env, p, q) <==> !env.fs[q].Dir?)
    requires forall q :: q in env.fs && p <= q ==> RealFile(env, q) == if env.fs[q].File? then Some(q) else None
    requires OfFiles(env, found)
    ensures IsDirty(env, found, ContextCheck, p) <==>
      exists q :: q in env.fs && p <= q && !env.fs[q].Dir? && !(q in found.blank && q in [p + ["active_context" + ".md"], p + ["decisions" + ".md"], p + ["spec" + ".md"]])
  {
    hide RealDir, RealFile;
    forall q | q in env.fs && p <= q
      ensures IsBlankDoc(env, found, p, q) <==>
        q in found.blank && q in [p + ["active_context" + ".md"], p + ["decisions" + ".md"], p + ["spec" + ".md"]]
    {
      BlankDocIs(env, found, p, q);
    }
    hide IsBlankDoc;
    if c :| Holds(env, p, c) && !IsBlankDoc(env, found, p, c) { assert c in env.fs && p <= c; }
  }

  lemma BlankDocIs(env: Env, found: Readings, p: Path, q: Path)
    requires q in env.fs && OfFiles(env, found) && RealFile(env, q) == if env.fs[q].File? then Some(q) else None
    ensures IsBlankDoc(env, found, p, q) <==>
      q in found.blank && q in [p + ["active_context" + ".md"], p + ["decisions" + ".md"], p + ["spec" + ".md"]]
  {
    hide RealFile;
    if q in found.blank { assert q in found.blank + found.emptyJson + found.idle; }
    assert CONTEXT_DOCS[0] == "active_context" && CONTEXT_DOCS[1] == "decisions" && CONTEXT_DOCS[2] == "spec";
    assert "active_context" in CONTEXT_DOCS && "decisions" in CONTEXT_DOCS && "spec" in CONTEXT_DOCS;
  }

  lemma EntriesBelow(env: Env, found: Readings, p: Path)
    requires WellFormed(env) && IsDir(env, p)
    ensures IsDirty(env, found, HasEntries, p) <==> exists q :: q in env.fs && p <= q && q != p
  {
    hide WellFormed;
    if q :| q in env.fs && p <= q && q != p {
      ParentsAreDirs(env, q, |p|);
      assert q[..|p|] == p;
    }
    if env.fs[p].names != [] {
      var name := env.fs[p].names[0];
      assert name in env.fs[p].names;
      ListedIsThere(env, p, name);
      assert p <= p + [name] && p + [name] != p;
    }
  }

  lemma PayloadBelow(env: Env, found: Readings, p: Path)
    requires IsDir(env, p) && forall q :: q in env.fs && p <= q ==> !env.fs[q].Link?
    ensures IsDirty(env, found, HasPayload, p) <==> exists q :: IsFile(env, q) && p <= q
  {
    if q :| IsFile(env, q) && p <= q { assert RealFile(env, q).Some? && q != p; }
    if c :| c in env.fs && p <= c && c != p && (RealFile(env, c).Some? || env.fs[c].Link?) { assert IsFile(env, c); }
  }

  /** A link below a directory is payload wherever it leads; a ticket or a document it is unless it leads to a
      directory. */
  lemma LinksCount(env: Env, found: Readings, p: Path, q: Path)
    requires IsDir(env, p) && q in env.fs && p <= q && q != p && env.fs[q].Link?
    ensures IsDirty(env, found, HasPayload, p)
    ensures q != p + ["AGENTS.md"] && (env.fs[q].target.At? ==> !IsDir(env, env.fs[q].target.path)) ==> IsDirty(env, found, TicketsCheck, p)
    ensures (env.fs[q].target.At? ==> env.fs[q].target.path !in env.fs) ==> IsDirty(env, found, ContextCheck, p)
  {
    assert RealDir(env, p) == Some(p);
    if env.fs[q].target.At? ==> !IsDir(env, env.fs[q].target.path) { assert Holds(env, p, q); }
  }

  /** Which check looks at which path. */
  lemma DirtyByName(env: Env, car: Path, found: Readings)
    ensures var dirty := DirtyKeys(env, car, found);
      && ("tickets" in dirty <==> IsDirty(env, found, TicketsCheck, car + ["tickets"]))
      && ("runs" in dirty <==> IsDirty(env, found, HasEntries, car + ["runs"]))
      && ("flows" in dirty <==> IsDirty(env, found, HasEntries, car + ["flows"]))
      && ("flows.db" in dirty <==> IsDirty(env, found, Exists, car + ["flows.db"]))
      && ("state.sqlite3" in dirty <==> IsDirty(env, found, RunnerCheck, car + ["state.sqlite3"]))
      && ("app_server_threads.json" in dirty <==> IsDirty(env, found, JsonCheck, car + ["app_server_threads.json"]))
      && ("app_server_workspaces" in dirty <==> IsDirty(env, found, HasPayload, car + ["app_server_workspaces"]))
      && ("github_context" in dirty <==> IsDirty(env, found, HasPayload, car + ["github_context"]))
      && ("filebox" in dirty <==> IsDirty(env, found, HasPayload, car + ["filebox"]))
      && ("codex-autorunner.log" in dirty <==> IsDirty(env, found, LogCheck, car + ["codex-autorunner.log"]))
      && ("codex-server.log" in dirty <==> IsDirty(env, found, LogCheck, car + ["codex-server.log"]))
      && ("lock" in dirty <==> IsDirty(env, found, ExistsOrLink, car + ["lock"]))
      && ("contextspace" in dirty <==> IsDirty(env, found, ContextCheck,
        if car + ["contextspace"] !in env.fs && car + ["workspace"] in env.fs then car + ["workspace"] else car + ["contextspace"]))
  {
    hide *;
    FirstRows();
    LastRows();
    forall k | 0 <= k < |CarStateSpecs()|
      ensures CarStateSpecs()[k].key in DirtyKeys(env, car, found) <==>
        IsDirty(env, found, CarStateSpecs()[k].check, SourceOf(env, car, CarStateSpecs()[k]))
      ensures k != 1 ==> SourceOf(env, car, CarStateSpecs()[k]) == car + [CarStateSpecs()[k].key]
    {
      KeyDirtyIff(env, car, found, k);
      RowSource(env, car, k);
    }
    RowSource(env, car, 1);
  }

  lemma KeyDirtyIff(env: Env, car: Path, found: Readings, k: nat)
    requires k < |CarStateSpecs()|
    ensures CarStateSpecs()[k].key in DirtyKeys(env, car, found) <==>
      IsDirty(env, found, CarStateSpecs()[k].check, SourceOf(env, car, CarStateSpecs()[k]))
  {
    hide CarStateSpecs, IsDirty, SourceOf;
    if CarStateSpecs()[k].key in DirtyKeys(env, car, found) {
      var l :| 0 <= l < |CarStateSpecs()| && CarStateSpecs()[l].key == CarStateSpecs()[k].key
        && IsDirty(env, found, CarStateSpecs()[l].check, SourceOf(env, car, CarStateSpecs()[l]));
      KeysApart(k, l);
    }
  }

  lemma RowSource(env: Env, car: Path, k: nat)
    requires k < |CarStateSpecs()|
    ensures k != 1 ==> SourceOf(env, car, CarStateSpecs()[k]) == car + [CarStateSpecs()[k].key]
    ensures var context := if car + ["contextspace"] !in env.fs && car + ["workspace"] in env.fs then car + ["workspace"] else car + ["contextspace"];
      k == 1 ==> SourceOf(env, car, CarStateSpecs()[k]) == context
  {
    RowFacts(k);
    hide CarStateSpecs;
  }

  lemma FirstRows()
    ensures var rows := CarStateSpecs();
      && |rows| == 13 && rows[0].key == "tickets" && rows[0].check == TicketsCheck && rows[1].key == "contextspace" && rows[1].check == ContextCheck
      && rows[2].key == "runs" && rows[2].check == HasEntries && rows[3].key == "flows" && rows[3].check == HasEntries
      && rows[4].key == "flows.db" && rows[4].check == Exists && rows[5].key == "state.sqlite3" && rows[5].check == RunnerCheck
      && rows[6].key == "app_server_threads.json" && rows[6].check == JsonCheck
  {
  }

  lemma LastRows()
    ensures var rows := CarStateSpecs();
      && |rows| == 13 && rows[7].key == "app_server_workspaces" && rows[7].check == HasPayload
      && rows[8].key == "github_context" && rows[8].check == HasPayload && rows[9].key == "filebox" && rows[9].check == HasPayload
      && rows[10].key == "codex-autorunner.log" && rows[10].check == LogCheck
      && rows[11].key == "codex-server.log" && rows[11].check == LogCheck && rows[12].key == "lock" && rows[12].check == ExistsOrLink
  {
  }

  /** A row whose source is missing is reported, except for the two that are optional. */
  lemma OptionalRows(k: nat)
    requires k < |CarStateSpecs()|
    ensures CarStateSpecs()[k].required <==> k != 6 && k != 8
    ensures CarStateSpecs()[6].key == "app_server_threads.json" && CarStateSpecs()[8].key == "github_context"
  {
  }
}
