/** Worktrees with the dirty rows they really have: one in which a reset loses a file in each of the three ways,
    and one in which a link saves a file that has no place. */
module ResetLosses {
  import opened Sequences
  import opened SnapshotCopy
  import opened SnapshotTheorems
  import opened SnapshotPlan
  import opened SnapshotEntries
  import opened SnapshotReads
  import opened ResetProtocol
  import opened ResetCoverage
  import opened DirtyRows

  const CAR: Path := ["w", "c"]
  const AGENTS: Path := ["w", "c", "tickets", "AGENTS.md"]
  const NOTES: Path := ["w", "c", "workspace", "notes"]
  const LOG: Path := ["w", "c", "flows.db-wal"]

  const NO_READINGS := Readings({}, {}, {})

  ghost function RunOn(env: Env): Run {
    Run(env, CAR, DirtyKeys(env, CAR, NO_READINGS), "w/new", None, 0)
  }

  lemma RunOnIsReal(env: Env)
    requires WellFormed(env)
    ensures RealRun(RunOn(env), NO_READINGS)
  {
    hide DirtyKeys, WellFormed;
  }

  // ---- The lossy worktree ---------------------------------------------------------------------

  /** Tickets without a ticket, both context directories, and a linked flow database with a regular log beside it. */
  function LossyWorktree(): Env {
    Env(map[[] := Dir(["w"]), ["w"] := Dir(["c", "db"]), ["w", "db"] := File([9]),
            ["w", "c"] := Dir(["contextspace", "flows.db", "flows.db-wal", "tickets", "workspace"]),
            ["w", "c", "contextspace"] := Dir(["plan"]),
            ["w", "c", "contextspace", "plan"] := File([4]),
            ["w", "c", "flows.db"] := Link(At(["w", "db"])),
            LOG := File([1]),
            ["w", "c", "tickets"] := Dir(["AGENTS.md"]),
            AGENTS := File([2]),
            ["w", "c", "workspace"] := Dir(["notes"]),
            NOTES := File([3])],
        ["w"], {})
  }

  lemma Nodes()
    ensures LossyWorktree().fs.Keys ==
      {[], ["w"], ["w", "db"], ["w", "c"], ["w", "c", "contextspace"], ["w", "c", "contextspace", "plan"], ["w", "c", "flows.db"], LOG,
       ["w", "c", "tickets"], AGENTS, ["w", "c", "workspace"], NOTES}
    ensures LossyWorktree().unreadable == {} && LossyWorktree().root == ["w"]
  {
  }

  lemma NamesDiffer()
    ensures "contextspace" != "flows.db" && "contextspace" != "flows.db-wal" && "contextspace" != "tickets" && "contextspace" != "workspace"
    ensures "flows.db" != "flows.db-wal" && "flows.db" != "tickets" && "flows.db" != "workspace"
    ensures "flows.db-wal" != "tickets" && "flows.db-wal" != "workspace" && "tickets" != "workspace" && "c" != "db"
  {
    assert "contextspace"[0] != "flows.db"[0] && "flows.db"[0] != "tickets"[0] && "flows.db"[0] != "workspace"[0];
    assert "flows.db-wal"[0] == 'f' && "contextspace"[0] == 'c' && "tickets"[0] == 't' && "workspace"[0] == 'w';
  }

  lemma UpperNodes()
    ensures var fs := LossyWorktree().fs;
      && [] in fs && fs[[]] == Dir(["w"]) && ["w"] in fs && fs[["w"]] == Dir(["c", "db"])
      && ["w", "db"] in fs && fs[["w", "db"]] == File([9])
      && ["w", "c"] in fs && fs[["w", "c"]] == Dir(["contextspace", "flows.db", "flows.db-wal", "tickets", "workspace"])
  {
    NamesDiffer();
  }

  lemma LowerNodes()
    ensures var fs := LossyWorktree().fs;
      && ["w", "c", "contextspace"] in fs && fs[["w", "c", "contextspace"]] == Dir(["plan"])
      && ["w", "c", "tickets"] in fs && fs[["w", "c", "tickets"]] == Dir(["AGENTS.md"])
      && ["w", "c", "workspace"] in fs && fs[["w", "c", "workspace"]] == Dir(["notes"])
  {
    NamesDiffer();
  }

  lemma Files()
    ensures var fs := LossyWorktree().fs;
      && ["w", "c", "contextspace", "plan"] in fs && fs[["w", "c", "contextspace", "plan"]] == File([4])
      && AGENTS in fs && fs[AGENTS] == File([2]) && NOTES in fs && fs[NOTES] == File([3])
  {
    NamesDiffer();
  }

  lemma DatabaseNodes()
    ensures var fs := LossyWorktree().fs;
      && ["w", "c", "flows.db"] in fs && fs[["w", "c", "flows.db"]] == Link(At(["w", "db"])) && LOG in fs && fs[LOG] == File([1])
  {
    NamesDiffer();
  }

  lemma Paths()
    ensures CAR + ["contextspace"] == ["w", "c", "contextspace"] && CAR + ["flows.db"] == ["w", "c", "flows.db"]
    ensures CAR + ["flows.db-wal"] == LOG && CAR + ["tickets"] == ["w", "c", "tickets"]
    ensures CAR + ["workspace"] == ["w", "c", "workspace"]
    ensures [] + ["w"] == ["w"] && ["w"] + ["c"] == CAR && ["w"] + ["db"] == ["w", "db"]
  {
  }

  lemma LowerPaths()
    ensures ["w", "c", "workspace"] + ["notes"] == NOTES && ["w", "c", "tickets"] + ["AGENTS.md"] == AGENTS
    ensures ["w", "c", "contextspace"] + ["plan"] == ["w", "c", "contextspace", "plan"]
  {
  }

  lemma AllListed()
    ensures forall p :: p in LossyWorktree().fs ==> IsListed(LossyWorktree(), p)
  {
    var env := LossyWorktree();
    Nodes();
    UpperNodes();
    LowerNodes();
    Paths();
    LowerPaths();
    hide LossyWorktree, IsListed;
    RootIsListed(env);
    ChildIsListed(env, [], "w");
    ChildIsListed(env, ["w"], "c");
    ChildIsListed(env, ["w"], "db");
    ChildIsListed(env, CAR, "contextspace");
    ChildIsListed(env, CAR, "flows.db");
    ChildIsListed(env, CAR, "flows.db-wal");
    ChildIsListed(env, CAR, "tickets");
    ChildIsListed(env, CAR, "workspace");
    ChildIsListed(env, ["w", "c", "contextspace"], "plan");
    ChildIsListed(env, ["w", "c", "tickets"], "AGENTS.md");
    ChildIsListed(env, ["w", "c", "workspace"], "notes");
  }

  lemma UpperThere()
    ensures var env := LossyWorktree();
      IsDir(env, []) && ListsOnlyThere(env, []) && IsDir(env, ["w"]) && ListsOnlyThere(env, ["w"]) && IsDir(env, CAR) && ListsOnlyThere(env, CAR)
  {
    var env := LossyWorktree();
    UpperNodes();
    LowerNodes();
    DatabaseNodes();
    Paths();
    hide LossyWorktree, ListsOnlyThere;
    ChildrenAreThere(env, []);
    ChildrenAreThere(env, ["w"]);
    ChildrenAreThere(env, CAR);
  }

  lemma LowerThere()
    ensures var env := LossyWorktree();
      && IsDir(env, ["w", "c", "contextspace"]) && ListsOnlyThere(env, ["w", "c", "contextspace"])
      && IsDir(env, ["w", "c", "tickets"]) && ListsOnlyThere(env, ["w", "c", "tickets"])
      && IsDir(env, ["w", "c", "workspace"]) && ListsOnlyThere(env, ["w", "c", "workspace"])
  {
    var env := LossyWorktree();
    LowerNodes();
    Files();
    LowerPaths();
    hide LossyWorktree, ListsOnlyThere;
    ChildrenAreThere(env, ["w", "c", "contextspace"]);
    ChildrenAreThere(env, ["w", "c", "tickets"]);
    ChildrenAreThere(env, ["w", "c", "workspace"]);
  }

  lemma DirsAre(p: Path)
    requires IsDir(LossyWorktree(), p)
    ensures p in {[], ["w"], CAR, ["w", "c", "contextspace"], ["w", "c", "tickets"], ["w", "c", "workspace"]}
  {
    Nodes();
    UpperNodes();
    Files();
    DatabaseNodes();
    hide LossyWorktree;
  }

  lemma AllThere()
    ensures forall p :: IsDir(LossyWorktree(), p) ==> ListsOnlyThere(LossyWorktree(), p)
  {
    hide *;
    UpperThere();
    LowerThere();
    forall p | IsDir(LossyWorktree(), p) ensures ListsOnlyThere(LossyWorktree(), p) { DirsAre(p); }
  }

  /** The worktree is a tree, every file can be copied, and the dirty rows are the real ones. */
  lemma LossyIsReal()
    ensures WellFormed(LossyWorktree()) && RealRun(RunOn(LossyWorktree()), NO_READINGS) && !CopyOf(RunOn(LossyWorktree())).raised
  {
    var env := LossyWorktree();
    AllListed();
    AllThere();
    LossyIsCopyable();
    hide *;
    TreeIsWellFormed(env);
    RunOnIsReal(env);
    CopyableRuns(RunOn(env));
  }

  lemma LossyIsCopyable()
    ensures Copyable(LossyWorktree()) && RunOn(LossyWorktree()).env == LossyWorktree() && RunOn(LossyWorktree()).car == CAR
  {
    Nodes();
    UpperNodes();
    LowerNodes();
    Files();
    DatabaseNodes();
    hide LossyWorktree, DirtyKeys;
  }

  lemma CopyableRuns(run: Run)
    requires Copyable(run.env)
    ensures !CopyOf(run).raised
  {
    hide *;
    PlanShape(run);
    PlanIsProper(run);
    PlanCopies(run.env, Plan(run));
  }

  lemma PlanIsProper(run: Run)
    ensures Proper(Plan(run))
  {
    PlanShape(run);
    hide Plan;
  }

  // ---- What its plan reads ----------------------------------------------------------------------------

  lemma NameInCar(name: string)
    ensures CAR + [name] in LossyWorktree().fs <==> name in ["contextspace", "flows.db", "flows.db-wal", "tickets", "workspace"]
  {
    Nodes();
    Paths();
    DatabaseNodes();
    LowerNodes();
    hide LossyWorktree;
    assert (CAR + [name])[2] == name && |CAR + [name]| == 3;
  }

  lemma RowsOf(k: nat)
    requires k < |CarStateSpecs()| && CarStateSpecs()[k].key in ["contextspace", "flows.db", "flows.db-wal", "tickets", "workspace"]
    ensures k == 0 || k == 1 || k == 4
  {
    RowFacts(k);
    SpecName(k);
    hide CarStateSpecs;
    assert |"contextspace"| == 12 && |"flows.db"| == 8 && |"flows.db-wal"| == 12 && |"tickets"| == 7 && |"workspace"| == 9;
  }

  lemma Rows()
    ensures |CarStateSpecs()| == 13 && CarStateSpecs()[0].key == "tickets" && CarStateSpecs()[0].resetPaths == ["tickets"]
    ensures CarStateSpecs()[1].key == "contextspace" && CarStateSpecs()[4].key == "flows.db"
    ensures CarStateSpecs()[0].check == TicketsCheck && CarStateSpecs()[1].check == ContextCheck && CarStateSpecs()[4].check == Exists
  {
  }

  lemma RealNodes()
    ensures var env := LossyWorktree();
      && RealDir(env, ["w", "c", "tickets"]) == Some(["w", "c", "tickets"])
      && RealDir(env, ["w", "c", "contextspace"]) == Some(["w", "c", "contextspace"])
      && RealDir(env, ["w", "c", "contextspace", "plan"]) == None
      && Real(env, ["w", "c", "flows.db"]) == Some(["w", "db"])
  {
    UpperNodes();
    LowerNodes();
    Files();
    DatabaseNodes();
    hide LossyWorktree;
  }

  lemma TicketsClean()
    ensures !IsDirty(LossyWorktree(), NO_READINGS, TicketsCheck, ["w", "c", "tickets"])
  {
    RealNodes();
    Nodes();
    LowerPaths();
    NamesDiffer();
    var env := LossyWorktree();
    hide LossyWorktree, RealDir;
    forall c | Holds(env, ["w", "c", "tickets"], c) ensures c == AGENTS {
      assert c[2] == "tickets" && |c| > 3;
    }
  }

  lemma ContextDirty()
    ensures IsDirty(LossyWorktree(), NO_READINGS, ContextCheck, ["w", "c", "contextspace"])
    ensures IsDirty(LossyWorktree(), NO_READINGS, Exists, ["w", "c", "flows.db"])
  {
    RealNodes();
    Files();
    hide LossyWorktree, RealDir, Real;
    assert Holds(LossyWorktree(), ["w", "c", "contextspace"], ["w", "c", "contextspace", "plan"]);
  }

  /** The rows that are dirty are the context row and the linked database; the tickets row is clean. */
  lemma DirtyOnes()
    ensures var dirty := RunOn(LossyWorktree()).dirty; "tickets" !in dirty && "contextspace" in dirty && "flows.db" in dirty
  {
    Rows();
    LossyIsReal();
    LossyIsCopyable();
    TicketsClean();
    ContextDirty();
    Paths();
    LowerNodes();
    var run := RunOn(LossyWorktree());
    hide CarStateSpecs, LossyWorktree, RunOn, IsDirty, RealRun;
    DirtyIff(run, NO_READINGS, 0);
    DirtyIff(run, NO_READINGS, 1);
    DirtyIff(run, NO_READINGS, 4);
  }

  /** An absent source, a link to a file, and a directory without links. */
  lemma AbsentReadsNothing(env: Env, src: Path, q: Path)
    requires WellFormed(env) && src != [] && src !in env.fs
    ensures !EntryReads(env, src, q)
  {
    hide WellFormed, IsDatabase;
  }

  lemma LinkReadsTarget(env: Env, src: Path, t: Path, q: Path)
    requires src != [] && src in env.fs && env.fs[src] == Link(At(t)) && IsFile(env, t) && EntryReads(env, src, q)
    ensures q == t
  {
    hide IsDatabase;
  }

  lemma LinkFreeReadsBelow(env: Env, src: Path, q: Path)
    requires src != [] && IsDir(env, src) && LinkFree(env, src) && EntryReads(env, src, q)
    ensures src <= q
  {
    hide IsDatabase, LinkFree;
    if e :| EntryReaches(env, src, e) && DirReads(env, e, q) {
      var rel :| DirAt(env, src, rel) == Some(e);
      LinkFreeWalk(env, src, rel);
      var name :| name in env.fs[e].names && Reads(env, e, name) == Some(q);
      ReadsCases(env, e, name, q);
      assert src <= e + [name];
      InLinkFree(env, src, e + [name], q);
    }
  }

  lemma InLinkFree(env: Env, src: Path, p: Path, q: Path)
    requires LinkFree(env, src) && src <= p && RegularFile(env, p) == Some(q)
    ensures q == p
  {
  }

  lemma ContextIsLinkFree()
    ensures LinkFree(LossyWorktree(), ["w", "c", "contextspace"])
  {
    Nodes();
    LowerNodes();
    Files();
    NamesDiffer();
    var env := LossyWorktree();
    hide LossyWorktree;
    forall p | p in env.fs && ["w", "c", "contextspace"] <= p ensures !env.fs[p].Link? {
      assert p[2] == "contextspace";
    }
  }

  lemma EntryReadsOnly(k: nat, q: Path)
    requires k < |CarStateSpecs()| && CarStateSpecs()[k].key in RunOn(LossyWorktree()).dirty
    requires EntryFor(LossyWorktree(), CAR, CarStateSpecs()[k]).source != []
    requires EntryReads(LossyWorktree(), EntryFor(LossyWorktree(), CAR, CarStateSpecs()[k]).source, q)
    ensures ["w", "c", "contextspace"] <= q || q == ["w", "db"]
  {
    var env := LossyWorktree();
    var src := EntryFor(env, CAR, CarStateSpecs()[k]).source;
    LossyIsReal();
    DirtyOnes();
    Rows();
    UpperNodes();
    LowerNodes();
    DatabaseNodes();
    Paths();
    NameInCar(CarStateSpecs()[k].key);
    hide CarStateSpecs, LossyWorktree, RunOn, EntryReads, WellFormed, RealRun;
    if src !in env.fs {
      AbsentReadsNothing(env, src, q);
    } else {
      assert k != 1 ==> src == CAR + [CarStateSpecs()[k].key];
      if k != 1 { RowsOf(k); }
      if k == 1 {
        ContextIsLinkFree();
        LinkFreeReadsBelow(env, src, q);
      } else if k == 4 {
        LinkReadsTarget(env, src, ["w", "db"], q);
      }
    }
  }

  lemma ConfigIsAbsent()
    ensures CAR + ["config.yml"] !in LossyWorktree().fs
  {
    NameInCar("config.yml");
    assert |"config.yml"| == 10 && |"contextspace"| == 12 && |"flows.db"| == 8 && |"flows.db-wal"| == 12 && |"tickets"| == 7 && |"workspace"| == 9;
  }

  /** The plan reads the canonical context directory and the linked database, and nothing else. */
  lemma PlanReadsOnly(q: Path)
    requires IsRead(RunOn(LossyWorktree()), q)
    ensures ["w", "c", "contextspace"] <= q || q == ["w", "db"]
  {
    var run := RunOn(LossyWorktree());
    hide *;
    LossyIsReal();
    LossyIsCopyable();
    ReadIs(run, q);
    PlanShape(run);
    var i := ReadingEntry(run.env, Plan(run), q);
    if i < |SpecEntries(run.env, run.car, CarStateSpecs(), run.dirty)| {
      var k := RowOfEntry(run.env, run.car, CarStateSpecs(), run.dirty, i);
      EntryReadsOnly(k, q);
    } else {
      ConfigIsAbsent();
      AbsentReadsNothing(run.env, Plan(run)[i].source, q);
    }
  }

  lemma NotArriving(q: Path)
    requires IsFile(LossyWorktree(), q) && !(["w", "c", "contextspace"] <= q) && q != ["w", "db"]
    ensures RunOn(LossyWorktree()).env == LossyWorktree() && IsFile(RunOn(LossyWorktree()).env, q) && !Arrives(RunOn(LossyWorktree()), q)
  {
    hide *;
    LossyIsReal();
    LossyIsCopyable();
    RealIsValid(RunOn(LossyWorktree()), NO_READINGS);
    ArrivesIffRead(RunOn(LossyWorktree()), q);
    if IsRead(RunOn(LossyWorktree()), q) { PlanReadsOnly(q); }
  }

  lemma RealIsValid(run: Run, found: Readings)
    requires RealRun(run, found)
    ensures ValidRun(run)
  {
  }

  lemma OutsideContext()
    ensures !(["w", "c", "contextspace"] <= AGENTS) && AGENTS != ["w", "db"]
    ensures !(["w", "c", "contextspace"] <= NOTES) && NOTES != ["w", "db"]
    ensures !(["w", "c", "contextspace"] <= LOG) && LOG != ["w", "db"]
  {
    NamesDiffer();
    assert ["w", "c", "contextspace"][2] == "contextspace";
    assert AGENTS[2] == "tickets" && NOTES[2] == "workspace" && LOG[2] == "flows.db-wal";
  }

  // ---- The three losses ----------------------------------------------------------------------------------

  /** A lost file of a real run that copied everything it planned. */
  ghost predicate IsLost(run: Run, q: Path) {
    RealRun(run, NO_READINGS) && !CopyOf(run).raised && IsFile(run.env, q) && Removable(run, q) && !Arrives(run, q)
  }

  lemma Lost(q: Path)
    requires IsFile(LossyWorktree(), q) && !(["w", "c", "contextspace"] <= q) && q != ["w", "db"]
    requires Removable(RunOn(LossyWorktree()), q)
    ensures IsLost(RunOn(LossyWorktree()), q)
  {
    NotArriving(q);
    LossyIsReal();
    hide RealRun, CopyOf, Removable, Arrives, RunOn, LossyWorktree;
  }

  /** Tickets without a ticket are clean: their AGENTS.md is removed and never copied. */
  lemma CleanTicketsLost()
    ensures OfCleanRow(RunOn(LossyWorktree()), AGENTS) && IsLost(RunOn(LossyWorktree()), AGENTS)
  {
    Rows();
    Files();
    LowerNodes();
    LossyIsCopyable();
    DirtyOnes();
    Paths();
    LowerPaths();
    NamesDiffer();
    var run := RunOn(LossyWorktree());
    hide CarStateSpecs, LossyWorktree, RunOn, SideFileOf, Removable, IsLost;
    assert Takes(run, CarStateSpecs()[0].resetPaths[0], AGENTS);
    assert RowRemoves(run, 0, AGENTS);
    RemovableByRow(run, AGENTS);
    OutsideContext();
    Lost(AGENTS);
  }

  /** With a dirty context directory beside it, a note in the legacy one is removed and never copied. */
  lemma LegacyNotesLost()
    ensures Shadowed(RunOn(LossyWorktree()), NOTES) && IsLost(RunOn(LossyWorktree()), NOTES)
  {
    Files();
    LowerNodes();
    LossyIsReal();
    LossyIsCopyable();
    DirtyOnes();
    Paths();
    NamesDiffer();
    var run := RunOn(LossyWorktree());
    hide LossyWorktree, RunOn, Removable, IsLost, WellFormed, DirtyKeys, CopyOf, OfFiles;
    LegacyUnplaced(run, NOTES);
    OutsideContext();
    Lost(NOTES);
  }

  /** The log beside the linked database is removed with the link and never copied. */
  lemma LinkedLogLost()
    ensures BesideIrregular(RunOn(LossyWorktree()), LOG) && IsLost(RunOn(LossyWorktree()), LOG)
  {
    Rows();
    DatabaseNodes();
    LossyIsCopyable();
    DirtyOnes();
    Paths();
    LogName();
    NamesDiffer();
    var run := RunOn(LossyWorktree());
    hide CarStateSpecs, LossyWorktree, RunOn, Removable, IsLost, IsDatabase, WithSuffix;
    assert Detached(run, CarStateSpecs()[4].key, LOG);
    DetachedUnplaced(run, 4, LOG);
    OutsideContext();
    Lost(LOG);
  }

  lemma LogName()
    ensures IsDatabase("flows.db") && WithSuffix(["w", "c", "flows.db"], "-wal") == LOG
  {
    assert "flows.db"[5..] == ".db";
    assert ["w", "c", "flows.db"][..2] == ["w", "c"] && "flows.db" + "-wal" == "flows.db-wal";
  }

  // ---- A link that saves -------------------------------------------------------------------------------

  /** The canonical context directory is a link to the legacy one. */
  function LinkedWorktree(): Env {
    Env(map[[] := Dir(["w"]), ["w"] := Dir(["c"]), ["w", "c"] := Dir(["contextspace", "workspace"]),
            ["w", "c", "contextspace"] := Link(At(["w", "c", "workspace"])),
            ["w", "c", "workspace"] := Dir(["notes"]),
            NOTES := File([3])],
        ["w"], {})
  }

  lemma LinkedNodes()
    ensures var env := LinkedWorktree();
      && env.fs.Keys == {[], ["w"], CAR, ["w", "c", "contextspace"], ["w", "c", "workspace"], NOTES}
      && env.unreadable == {} && env.root == ["w"]
      && env.fs[[]] == Dir(["w"]) && env.fs[["w"]] == Dir(["c"]) && env.fs[CAR] == Dir(["contextspace", "workspace"])
      && env.fs[["w", "c", "contextspace"]] == Link(At(["w", "c", "workspace"]))
      && env.fs[["w", "c", "workspace"]] == Dir(["notes"]) && env.fs[NOTES] == File([3])
  {
    NamesDiffer();
  }

  lemma LinkedListed()
    ensures forall p :: p in LinkedWorktree().fs ==> IsListed(LinkedWorktree(), p)
  {
    var env := LinkedWorktree();
    LinkedNodes();
    Paths();
    LowerPaths();
    hide LinkedWorktree, IsListed;
    RootIsListed(env);
    ChildIsListed(env, [], "w");
    ChildIsListed(env, ["w"], "c");
    ChildIsListed(env, CAR, "contextspace");
    ChildIsListed(env, CAR, "workspace");
    ChildIsListed(env, ["w", "c", "workspace"], "notes");
  }

  lemma LinkedDirsThere()
    ensures var env := LinkedWorktree();
      && IsDir(env, []) && ListsOnlyThere(env, []) && IsDir(env, ["w"]) && ListsOnlyThere(env, ["w"])
      && IsDir(env, CAR) && ListsOnlyThere(env, CAR)
      && IsDir(env, ["w", "c", "workspace"]) && ListsOnlyThere(env, ["w", "c", "workspace"])
  {
    var env := LinkedWorktree();
    LinkedNodes();
    Paths();
    LowerPaths();
    hide LinkedWorktree, ListsOnlyThere;
    ChildrenAreThere(env, []);
    ChildrenAreThere(env, ["w"]);
    ChildrenAreThere(env, CAR);
    ChildrenAreThere(env, ["w", "c", "workspace"]);
  }

  lemma LinkedDirsAre(p: Path)
    requires IsDir(LinkedWorktree(), p)
    ensures p in {[], ["w"], CAR, ["w", "c", "workspace"]}
  {
    LinkedNodes();
    hide LinkedWorktree;
  }

  lemma LinkedThere()
    ensures forall p :: IsDir(LinkedWorktree(), p) ==> ListsOnlyThere(LinkedWorktree(), p)
  {
    hide *;
    LinkedDirsThere();
    forall p | IsDir(LinkedWorktree(), p) ensures ListsOnlyThere(LinkedWorktree(), p) { LinkedDirsAre(p); }
  }

  lemma LinkedIsReal()
    ensures WellFormed(LinkedWorktree()) && RealRun(RunOn(LinkedWorktree()), NO_READINGS) && !CopyOf(RunOn(LinkedWorktree())).raised
    ensures RunOn(LinkedWorktree()).env == LinkedWorktree() && RunOn(LinkedWorktree()).car == CAR
  {
    var env := LinkedWorktree();
    LinkedListed();
    LinkedThere();
    LinkedIsCopyable();
    hide *;
    TreeIsWellFormed(env);
    RunOnIsReal(env);
    CopyableRuns(RunOn(env));
  }

  lemma LinkedIsCopyable()
    ensures Copyable(LinkedWorktree()) && RunOn(LinkedWorktree()).env == LinkedWorktree() && RunOn(LinkedWorktree()).car == CAR
  {
    LinkedNodes();
    hide LinkedWorktree, DirtyKeys;
  }

  lemma LinkedIsDirty()
    ensures "contextspace" in RunOn(LinkedWorktree()).dirty
  {
    LinkedIsReal();
    LinkedNodes();
    Rows();
    Paths();
    var run := RunOn(LinkedWorktree());
    var env := LinkedWorktree();
    BlankIsRead(env);
    hide CarStateSpecs, LinkedWorktree, RunOn, RealRun, WellFormed, CopyOf, IsBlankDoc;
    assert RealDir(env, ["w", "c", "contextspace"]) == Some(["w", "c", "workspace"]);
    assert RealDir(env, NOTES) == None;
    assert ["w", "c", "workspace"] <= NOTES && NOTES != ["w", "c", "workspace"];
    assert Holds(env, ["w", "c", "workspace"], NOTES);
    assert SourceOf(env, CAR, CarStateSpecs()[1]) == ["w", "c", "contextspace"];
    assert IsDirty(env, NO_READINGS, ContextCheck, ["w", "c", "contextspace"]);
    hide IsDirty, SourceOf, RealDir, Holds;
    DirtyIff(run, NO_READINGS, 1);
  }

  lemma BlankIsRead(env: Env)
    ensures forall d, c :: !IsBlankDoc(env, NO_READINGS, d, c)
  {
  }

  lemma LinkReadsDirectory(env: Env, src: Path, d: Path, name: string)
    requires src != [] && src in env.fs && env.fs[src] == Link(At(d)) && Inside(env, d) && IsDir(env, d)
    requires name in env.fs[d].names && IsFile(env, d + [name])
    ensures EntryReads(env, src, d + [name])
  {
    ReachesItself(env, d);
    ReadsReal(env, d, name);
    hide Reads, Reached, IsDatabase;
    assert EntryReaches(env, src, d) && DirReads(env, d, d + [name]);
  }

  /** The note in the legacy directory has no place of its own, and arrives all the same. */
  lemma LinkedNotesArrive()
    ensures var run := RunOn(LinkedWorktree());
      && RealRun(run, NO_READINGS) && IsFile(run.env, NOTES) && Removable(run, NOTES)
      && Shadowed(run, NOTES) && !IsSaved(run, NOTES) && Arrives(run, NOTES)
  {
    LinkedIsReal();
    LinkedIsDirty();
    LinkedNodes();
    Rows();
    Paths();
    LowerPaths();
    var run := RunOn(LinkedWorktree());
    RealIsValid(run, NO_READINGS);
    hide CarStateSpecs, LinkedWorktree, RunOn, RealRun, ValidRun, WellFormed, CopyOf, Removable, IsSaved, Arrives, EntryReads, IsRead;
    LegacyUnplaced(run, NOTES);
    LinkReadsDirectory(run.env, ["w", "c", "contextspace"], ["w", "c", "workspace"], "notes");
    RowIsRead(run, 1, NOTES);
    ArrivesIffRead(run, NOTES);
  }

  lemma RowIsRead(run: Run, k: nat, q: Path)
    requires k < |CarStateSpecs()| && CarStateSpecs()[k].key in run.dirty
    requires SourceAt(run, k) != [] && EntryReads(run.env, SourceAt(run, k), q)
    ensures IsRead(run, q)
  {
    var i := DirtySpecIsPlanned(run.env, run.car, CarStateSpecs(), run.dirty, k);
    hide CarStateSpecs, EntryReads, SpecEntries, Plan, PlanEffect;
    PlanShape(run);
    ReadIs(run, q);
    assert EntryReads(run.env, Plan(run)[i].source, q);
  }
}
