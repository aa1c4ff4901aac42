/** Executing a plan of archive entries, and the table of CAR-state paths the plan is made from. */
module SnapshotPlan {
  import opened Sequences
  import opened SnapshotCopy
  import opened SnapshotTheorems

  /** One archive entry in copy mode; `dest` is relative to the snapshot directory. */
  datatype Entry = Entry(key: string, source: Path, dest: Path, required: bool)

  /** The effect of copying the entries in order; an entry whose source is absent does nothing. */
  function PlanEffect(env: Env, entries: seq<Entry>): Effect
    requires forall i :: 0 <= i < |entries| ==> entries[i].source != [] && entries[i].dest != []
  {
    if entries == [] then NOTHING
    else
      var n := |entries| - 1;
      Then(PlanEffect(env, entries[..n]), EntryEffect(env, entries[n].source, entries[n].dest, {}))
  }

  function Labels(entries: seq<Entry>): seq<string> {
    seq(|entries|, i requires 0 <= i < |entries| => entries[i].key)
  }

  function CopiedIn(env: Env): Entry -> bool {
    (e: Entry) => Copies(env, e.source)
  }

  function MissingIn(env: Env): Entry -> bool {
    (e: Entry) => e.required && e.source !in env.fs
  }

  // ---- Where an entry writes ------------------------------------------------------

  /** Below the destination, or a side file of it. */
  predicate InRegion(dest: Path, q: Path)
    requires dest != []
  {
    dest <= q || q == WithSuffix(dest, "-wal") || q == WithSuffix(dest, "-shm")
  }

  lemma EntryStaysInRegion(env: Env, src: Path, dest: Path, w: Write)
    requires WellFormed(env) && src != [] && dest != []
    requires w in EntryEffect(env, src, dest, {}).writes
    ensures InRegion(dest, w.dest)
  {
    hide WellFormed, TreeEffect, IsDatabase;
    match env.fs[src] {
      case Dir(_) => TreeWritesGood(env, src, dest, {});
      case Link(At(t)) => if IsDir(env, t) { TreeWritesGood(env, t, dest, {}); }
      case File(_) =>
    }
  }

  /** Two writes of one entry to the same place put the same content there. */
  lemma EntryConsistent(env: Env, src: Path, dest: Path, v: Write, w: Write)
    requires WellFormed(env) && src != [] && dest != []
    requires v in EntryEffect(env, src, dest, {}).writes && w in EntryEffect(env, src, dest, {}).writes && v.dest == w.dest
    ensures v.content == w.content
  {
    hide *;
    EntryWriteFrom(env, src, dest, {}, v);
    EntryWriteFrom(env, src, dest, {}, w);
    if IsFile(env, src) {
      FileConsistent(env, src, dest, v, w);
    } else {
      var t := if IsDir(env, src) then src else env.fs[src].target.path;
      if IsDir(env, t) {
        TreeWritesGood(env, t, dest, {});
        SamePlaceSameContent(env, t, dest, v, w);
      }
    }
  }

  lemma SamePlaceSameContent(env: Env, dir: Path, dest: Path, v: Write, w: Write)
    requires IsDir(env, dir) && GoodWrite(env, dir, dest, v) && GoodWrite(env, dir, dest, w) && v.dest == w.dest
    ensures v.content == w.content
  {
    hide FileAt;
  }

  lemma FileConsistent(env: Env, src: Path, dest: Path, v: Write, w: Write)
    requires src != [] && dest != [] && IsFile(env, src) && v.dest == w.dest
    requires var x := Then(CopyFileEffect(env, src, dest), SidecarsEffect(env, src, dest)).writes; v in x && w in x
    ensures v.content == w.content
  {
    hide *;
    FileWriteFrom(env, src, dest, v);
    FileWriteFrom(env, src, dest, w);
    SuffixesDiffer(dest);
    forall x: Write, suffix | suffix in {"-wal", "-shm"} && x in SidecarEffect(env, src, dest, suffix).writes
      ensures x == SidecarWrite(env, src, dest, suffix) && x.dest == WithSuffix(dest, suffix)
    {
      SidecarIs(env, src, dest, suffix, x);
    }
  }

  ghost function SidecarWrite(env: Env, src: Path, dest: Path, suffix: string): Write
    requires src != [] && dest != []
  {
    var f := RegularFile(env, WithSuffix(src, suffix));
    if f.None? then Write([], [], []) else Write(WithSuffix(dest, suffix), f.value, env.fs[f.value].content)
  }

  lemma SidecarIs(env: Env, src: Path, dest: Path, suffix: string, w: Write)
    requires src != [] && dest != [] && w in SidecarEffect(env, src, dest, suffix).writes
    ensures w == SidecarWrite(env, src, dest, suffix) && w.dest == WithSuffix(dest, suffix)
  {
  }

  lemma SuffixesDiffer(dest: Path)
    requires dest != []
    ensures dest != WithSuffix(dest, "-wal") && dest != WithSuffix(dest, "-shm")
    ensures WithSuffix(dest, "-wal") != WithSuffix(dest, "-shm")
  {
    var name := dest[|dest| - 1];
    assert |name + "-wal"| == |name| + 4 && |name + "-shm"| == |name| + 4;
    assert (name + "-wal")[|name| + 1] == 'w' && (name + "-shm")[|name| + 1] == 's';
    assert WithSuffix(dest, "-wal")[|dest| - 1] == name + "-wal";
    assert WithSuffix(dest, "-shm")[|dest| - 1] == name + "-shm";
  }

  // ---- What an entry must save ------------------------------------------------------

  /** q is a regular file an entry is there to save, and where it goes: a file at or really below the
      source, or a regular side file of a source that is itself a regular database file. */
  ghost predicate Saves(env: Env, e: Entry, q: Path, target: Path) {
    && e.source != [] && e.dest != [] && IsFile(env, q)
    && ((e.source <= q && target == e.dest + q[|e.source|..])
      || (IsFile(env, e.source) && IsDatabase(e.source[|e.source| - 1])
          && ((q == WithSuffix(e.source, "-wal") && target == WithSuffix(e.dest, "-wal"))
            || (q == WithSuffix(e.source, "-shm") && target == WithSuffix(e.dest, "-shm")))))
  }

  lemma EntrySaves(env: Env, e: Entry, q: Path, target: Path)
    requires WellFormed(env) && e.source != [] && e.dest != [] && Saves(env, e, q, target)
    requires !EntryEffect(env, e.source, e.dest, {}).raised
    ensures Write(target, q, env.fs[q].content) in EntryEffect(env, e.source, e.dest, {}).writes
  {
    var src, dest := e.source, e.dest;
    hide WellFormed, TreeEffect, IsDatabase;
    if src <= q {
      var rel := q[|src|..];
      assert q == src + rel;
      if rel == [] {
        assert q == src && dest + rel == dest;
      } else {
        ParentsAreDirs(env, q, |src|);
        assert q[..|src|] == src;
        RealFileCopied(env, src, dest, {}, rel);
      }
    }
  }

  // ---- A whole plan --------------------------------------------------------------------

  ghost predicate ValidPlan(entries: seq<Entry>) {
    && (forall i :: 0 <= i < |entries| ==> entries[i].source != [] && entries[i].dest != [])
    && (forall i, j, q :: 0 <= i < j < |entries| && InRegion(entries[i].dest, q) ==> !InRegion(entries[j].dest, q))
  }

  lemma {:induction false} WriteOfEntry(env: Env, entries: seq<Entry>, w: Write) returns (i: nat)
    requires ValidPlan(entries) && w in PlanEffect(env, entries).writes
    ensures i < |entries| && w in EntryEffect(env, entries[i].source, entries[i].dest, {}).writes
  {
    var n := |entries| - 1;
    if w in EntryEffect(env, entries[n].source, entries[n].dest, {}).writes {
      i := n;
    } else {
      i := WriteOfEntry(env, entries[..n], w);
    }
  }

  lemma {:induction false} EntryOfPlan(env: Env, entries: seq<Entry>, i: nat)
    requires ValidPlan(entries) && i < |entries| && !PlanEffect(env, entries).raised
    ensures var x := EntryEffect(env, entries[i].source, entries[i].dest, {});
      !x.raised && forall w :: w in x.writes ==> w in PlanEffect(env, entries).writes
  {
    var n := |entries| - 1;
    if i < n { EntryOfPlan(env, entries[..n], i); }
  }

  /** Whatever a plan writes, the snapshot holds in the end: other writes to the same place wrote the same. */
  lemma PlanKeeps(env: Env, entries: seq<Entry>, w: Write)
    requires WellFormed(env) && ValidPlan(entries) && w in PlanEffect(env, entries).writes
    ensures var out := Apply(map[], PlanEffect(env, entries).writes); w.dest in out && out[w.dest] == w.content
  {
    hide WellFormed, PlanEffect, EntryEffect, InRegion;
    var i := WriteOfEntry(env, entries, w);
    var e := entries[i];
    EntryStaysInRegion(env, e.source, e.dest, w);
    forall v | v in PlanEffect(env, entries).writes && v.dest == w.dest ensures v.content == w.content {
      var j := WriteOfEntry(env, entries, v);
      EntryStaysInRegion(env, entries[j].source, entries[j].dest, v);
      assert j == i;
      EntryConsistent(env, e.source, e.dest, v, w);
    }
    AppliedAt(map[], PlanEffect(env, entries).writes, w.dest, w.content);
  }

  /** After a plan ran without an error, the snapshot holds every file its entries are there to save. */
  lemma PlanSaves(env: Env, entries: seq<Entry>, i: nat, q: Path, target: Path)
    requires WellFormed(env) && ValidPlan(entries) && i < |entries| && !PlanEffect(env, entries).raised
    requires Saves(env, entries[i], q, target)
    ensures var out := Apply(map[], PlanEffect(env, entries).writes);
      target in out && out[target] == env.fs[q].content
  {
    var w := Write(target, q, env.fs[q].content);
    hide WellFormed, PlanEffect, EntryEffect, Saves, InRegion;
    EntryOfPlan(env, entries, i);
    EntrySaves(env, entries[i], q, target);
    PlanKeeps(env, entries, w);
  }

  // ---- Executing a plan -------------------------------------------------------------------

  lemma PlanStep(env: Env, entries: seq<Entry>, i: nat)
    requires i < |entries| && forall j :: 0 <= j < |entries| ==> entries[j].source != [] && entries[j].dest != []
    ensures PlanEffect(env, entries[..i + 1]) ==
      Then(PlanEffect(env, entries[..i]), EntryEffect(env, entries[i].source, entries[i].dest, {}))
  {
    assert entries[..i + 1][..i] == entries[..i];
  }

  lemma {:induction false} RaisedStays(env: Env, entries: seq<Entry>, i: nat)
    requires i <= |entries| && forall j :: 0 <= j < |entries| ==> entries[j].source != [] && entries[j].dest != []
    requires PlanEffect(env, entries[..i]).raised
    ensures PlanEffect(env, entries) == PlanEffect(env, entries[..i])
    decreases |entries| - i
  {
    if i == |entries| {
      assert entries[..i] == entries;
    } else {
      PlanStep(env, entries, i);
      RaisedStays(env, entries, i + 1);
    }
  }

  /** `execute_archive_entries`, all entries in copy mode. */
  method ExecuteArchiveEntries(c: Copier, entries: seq<Entry>) returns (copiedPaths: seq<string>, missingPaths: seq<string>, raised: bool)
    requires forall i :: 0 <= i < |entries| ==> entries[i].source != [] && entries[i].dest != []
    requires c.visited == {}
    modifies c
    ensures c.Now() == Performed(old(c.Now()), PlanEffect(c.env, entries)) && c.visited == {}
    ensures raised == PlanEffect(c.env, entries).raised
    ensures !raised ==> copiedPaths == Labels(Filter(CopiedIn(c.env), entries))
    ensures !raised ==> missingPaths == Labels(Filter(MissingIn(c.env), entries))
  {
    copiedPaths, missingPaths := [], [];
    ghost var start := c.Now();
    PerformedNothing(start, false);
    assert entries[..0] == [];
    for i := 0 to |entries|
      invariant c.visited == {}
      invariant !PlanEffect(c.env, entries[..i]).raised
      invariant c.Now() == Performed(start, PlanEffect(c.env, entries[..i]))
      invariant copiedPaths == Labels(Filter(CopiedIn(c.env), entries[..i]))
      invariant missingPaths == Labels(Filter(MissingIn(c.env), entries[..i]))
    {
      hide Performed, PlanEffect, EntryEffect, Filter, Labels;
      var e := entries[i];
      PlanStep(c.env, entries, i);
      LabelsStep(CopiedIn(c.env), entries, i);
      LabelsStep(MissingIn(c.env), entries, i);
      PerformedThen(start, PlanEffect(c.env, entries[..i]), EntryEffect(c.env, e.source, e.dest, {}));
      if e.source !in c.env.fs {
        AbsentDoesNothing(c.env, e, c.Now());
        if !e.required { continue; }
        missingPaths := missingPaths + [e.key];
        continue;
      }
      var copied;
      copied, raised := c.CopyEntry(e.source, e.dest);
      if raised {
        RaisedStays(c.env, entries, i + 1);
        return;
      }
      if copied { copiedPaths := copiedPaths + [e.key]; }
    }
    assert entries[..|entries|] == entries;
    raised := false;
  }

  lemma AbsentDoesNothing(env: Env, e: Entry, p: Progress)
    requires e.source !in env.fs && e.source != [] && e.dest != []
    ensures EntryEffect(env, e.source, e.dest, {}) == NOTHING && Performed(p, NOTHING) == p
  {
    PerformedNothing(p, false);
  }

  lemma LabelsStep(p: Entry -> bool, entries: seq<Entry>, i: nat)
    requires i < |entries|
    ensures Labels(Filter(p, entries[..i + 1])) == Labels(Filter(p, entries[..i])) + (if p(entries[i]) then [entries[i].key] else [])
  {
    assert entries[..i + 1] == entries[..i] + [entries[i]];
    FilterAppend(p, entries[..i], [entries[i]]);
  }

  // ---- The CAR-state table ------------------------------------------------------------------

  /** The checks that tell whether a row holds anything worth archiving. */
  datatype Check =
    | TicketsCheck
    | ContextCheck
    | HasEntries
    | HasPayload
    | Exists
    | ExistsOrLink
    | RunnerCheck
    | JsonCheck
    | LogCheck

  /** One row: its name under the CAR directory, its place in a snapshot, what a reset removes, and its dirty check. */
  datatype Spec = Spec(key: string, dest: Path, resetPaths: seq<string>, required: bool, check: Check)

  /** The rows a reset archives; every row of the table is one. */
  function CarStateSpecs(): seq<Spec> { [
    Spec("tickets", ["tickets"], ["tickets"], true, TicketsCheck),
    Spec("contextspace", ["contextspace"], ["contextspace", "workspace"], true, ContextCheck),
    Spec("runs", ["runs"], ["runs"], true, HasEntries),
    Spec("flows", ["flows"], ["flows"], true, HasEntries),
    Spec("flows.db", ["flows.db"], ["flows.db"], true, Exists),
    Spec("state.sqlite3", ["state", "state.sqlite3"], ["state.sqlite3"], true, RunnerCheck),
    Spec("app_server_threads.json", ["state", "app_server_threads.json"], ["app_server_threads.json"], false, JsonCheck),
    Spec("app_server_workspaces", ["app_server_workspaces"], ["app_server_workspaces"], true, HasPayload),
    Spec("github_context", ["github_context"], ["github_context"], false, HasPayload),
    Spec("filebox", ["filebox"], ["filebox"], true, HasPayload),
    Spec("codex-autorunner.log", ["logs", "codex-autorunner.log"], ["codex-autorunner.log"], true, LogCheck),
    Spec("codex-server.log", ["logs", "codex-server.log"], ["codex-server.log"], true, LogCheck),
    Spec("lock", ["state", "lock"], ["lock"], true, ExistsOrLink)
  ] }

  const CONFIG_DEST: Path := ["config", "config.yml"]

  /** `_contextspace_source` for the contextspace row, the plain name for the others. */
  function SourceOf(env: Env, car: Path, spec: Spec): Path {
    if spec.key != "contextspace" then car + [spec.key]
    else if car + ["contextspace"] in env.fs then car + ["contextspace"]
    else if car + ["workspace"] in env.fs then car + ["workspace"]
    else car + ["contextspace"]
  }

  function EntryFor(env: Env, car: Path, spec: Spec): Entry {
    Entry(spec.key, SourceOf(env, car, spec), spec.dest, spec.required)
  }

  function SpecEntries(env: Env, car: Path, specs: seq<Spec>, dirty: set<string>): seq<Entry> {
    if specs == [] then []
    else
      var n := |specs| - 1;
      SpecEntries(env, car, specs[..n], dirty) + (if specs[n].key in dirty then [EntryFor(env, car, specs[n])] else [])
  }

  /** The plan of a reset: the dirty rows in table order, then the configuration file if there is one. */
  function ResetPlan(env: Env, car: Path, dirty: set<string>): seq<Entry> {
    SpecEntries(env, car, CarStateSpecs(), dirty) + [Entry("config.yml", car + ["config.yml"], CONFIG_DEST, false)]
  }

  // ---- The rows do not overlap in a snapshot ---------------------------------------------------

  predicate PlainName(name: string) { !EndsWith(name, "-wal") && !EndsWith(name, "-shm") }

  /** One name that is not a grouping directory, or a name in a grouping directory. */
  predicate GoodDest(d: Path) {
    && (|d| == 1 || |d| == 2) && PlainName(d[|d| - 1])
    && (|d| == 2 <==> d[0] in ["state", "logs", "config"])
  }

  lemma SuffixedIsNotPlain(name: string)
    ensures !PlainName(name + "-wal") && !PlainName(name + "-shm")
  {
    assert (name + "-wal")[|name + "-wal"| - 4..] == "-wal";
    assert (name + "-shm")[|name + "-shm"| - 4..] == "-shm";
  }

  /** The name a region's paths have at the last place of its destination. */
  lemma RegionName(d: Path, q: Path)
    requires d != [] && InRegion(d, q)
    ensures |q| >= |d| && q[..|d| - 1] == d[..|d| - 1]
    ensures q[|d| - 1] in {d[|d| - 1], d[|d| - 1] + "-wal", d[|d| - 1] + "-shm"}
  {
  }

  lemma LastLetter(a: string, suffix: string)
    requires suffix != ""
    ensures (a + suffix)[|a + suffix| - 1] == suffix[|suffix| - 1]
  {
  }

  lemma SuffixesCollide(a: string, b: string, x: string)
    requires PlainName(a) && PlainName(b)
    requires x in {a, a + "-wal", a + "-shm"} && x in {b, b + "-wal", b + "-shm"}
    ensures a == b
  {
    SuffixedIsNotPlain(a);
    SuffixedIsNotPlain(b);
    if x == a + "-wal" && x == b + "-wal" {
      assert a == x[..|x| - 4] == b;
    } else if x == a + "-shm" && x == b + "-shm" {
      assert a == x[..|x| - 4] == b;
    }
    LastLetter(a, "-wal");
    LastLetter(a, "-shm");
    LastLetter(b, "-wal");
    LastLetter(b, "-shm");
  }

  lemma GroupingIsPlain(name: string)
    requires name in ["state", "logs", "config"]
    ensures PlainName(name)
  {
    assert "state"[4] == 'e' && "logs"[3] == 's' && "config"[5] == 'g';
    assert "-wal"[3] == 'l' && "-shm"[3] == 'm';
    PlainByLastLetter(name);
  }

  lemma RegionsApart(c: Path, d: Path, q: Path)
    requires GoodDest(c) && GoodDest(d) && c != d && InRegion(c, q)
    ensures !InRegion(d, q)
  {
    assert c == c[..|c| - 1] + [c[|c| - 1]] && d == d[..|d| - 1] + [d[|d| - 1]];
    if InRegion(d, q) {
      RegionName(c, q);
      RegionName(d, q);
      if |c| == |d| {
        SuffixesCollide(c[|c| - 1], d[|d| - 1], q[|c| - 1]);
      } else {
        var long, short := if |c| == 2 then c else d, if |c| == 2 then d else c;
        GroupingIsPlain(long[0]);
        assert q[..1][0] == long[..1][0];
        SuffixesCollide(long[0], short[0], q[0]);
      }
    }
  }

  ghost predicate DestsApart(entries: seq<Entry>) {
    && (forall i :: 0 <= i < |entries| ==> entries[i].source != [] && GoodDest(entries[i].dest))
    && (forall i, j :: 0 <= i < j < |entries| ==> entries[i].dest != entries[j].dest)
  }

  lemma ApartIsValid(entries: seq<Entry>)
    requires DestsApart(entries)
    ensures ValidPlan(entries)
  {
    hide InRegion, GoodDest;
    forall i | 0 <= i < |entries| ensures entries[i].dest != [] { GoodDestNonempty(entries[i].dest); }
    forall i, j, q | 0 <= i < j < |entries| && InRegion(entries[i].dest, q) ensures !InRegion(entries[j].dest, q) {
      RegionsApart(entries[i].dest, entries[j].dest, q);
    }
  }

  lemma GoodDestNonempty(d: Path)
    requires GoodDest(d)
    ensures d != []
  {
  }

  /** A number that tells the table's destinations apart: the length and first letter of the last name. */
  function Code(d: Path): int
    requires d != [] && d[|d| - 1] != ""
  {
    |d[|d| - 1]| * 1000 + d[|d| - 1][0] as int
  }

  function Codes(): seq<int> { [7116, 12099, 4114, 5102, 8102, 13115, 23097, 21097, 14103, 7102, 20099, 16099, 4108] }

  lemma PlainByLastLetter(name: string)
    requires name != "" && name[|name| - 1] != 'l' && name[|name| - 1] != 'm'
    ensures PlainName(name)
  {
    assert "-wal"[3] == 'l' && "-shm"[3] == 'm';
    assert |name| >= 4 ==> name[|name| - 4..][3] == name[|name| - 1];
  }

  lemma SpecIsGood(i: nat)
    requires i < |CarStateSpecs()|
    ensures var d := CarStateSpecs()[i].dest;
      GoodDest(d) && d[|d| - 1] != "" && Code(d) == Codes()[i] && Codes()[i] != 10099
  {
    SpecShape(i);
    SpecName(i);
    hide *;
    var d := CarStateSpecs()[i].dest;
    PlainByLastLetter(d[|d| - 1]);
    IsGoodDest(d);
  }

  lemma SpecShape(i: nat)
    requires i < |CarStateSpecs()|
    ensures var d := CarStateSpecs()[i].dest;
      (|d| == 1 || |d| == 2) && (|d| == 2 <==> d[0] == "state" || d[0] == "logs" || d[0] == "config")
  {
  }

  lemma SpecName(i: nat)
    requires i < |CarStateSpecs()|
    ensures var d := CarStateSpecs()[i].dest;
      && d != [] && d[|d| - 1] != "" && d[|d| - 1][|d[|d| - 1]| - 1] != 'l' && d[|d| - 1][|d[|d| - 1]| - 1] != 'm'
      && i < |Codes()| && Code(d) == Codes()[i] && Codes()[i] != 10099
  {
  }

  lemma IsGoodDest(d: Path)
    requires (|d| == 1 || |d| == 2) && PlainName(d[|d| - 1])
    requires |d| == 2 <==> d[0] == "state" || d[0] == "logs" || d[0] == "config"
    ensures GoodDest(d)
  {
    NotGrouping(d[0]);
  }

  lemma NotGrouping(name: string)
    ensures name in ["state", "logs", "config"] <==> name == "state" || name == "logs" || name == "config"
  {
  }

  lemma ConfigIsGood()
    ensures GoodDest(CONFIG_DEST) && Code(CONFIG_DEST) == 10099
  {
    var name := "config.yml";
    assert CONFIG_DEST[1] == name && |name| == 10;
    assert name[6..][0] == '.' && "-wal"[0] == '-' && "-shm"[0] == '-';
  }

  lemma CodesDiffer(i: nat, j: nat)
    requires i < j < |Codes()|
    ensures Codes()[i] != Codes()[j]
  {
  }

  lemma {:induction false} SpecEntriesApart(env: Env, car: Path, n: nat, dirty: set<string>)
    requires n <= |CarStateSpecs()|
    ensures var entries := SpecEntries(env, car, CarStateSpecs()[..n], dirty);
      DestsApart(entries) && forall i :: 0 <= i < |entries| ==> exists k :: 0 <= k < n && entries[i].dest == CarStateSpecs()[k].dest
  {
    if n > 0 {
      var m := n - 1;
      var spec := CarStateSpecs()[m];
      SpecEntriesApart(env, car, m, dirty);
      assert CarStateSpecs()[..n][..m] == CarStateSpecs()[..m] && CarStateSpecs()[..n][m] == spec;
      var front := SpecEntries(env, car, CarStateSpecs()[..m], dirty);
      SpecIsGood(m);
      hide GoodDest, Code, SpecEntries;
      forall i | 0 <= i < |front| ensures front[i].dest != spec.dest {
        var k :| 0 <= k < m && front[i].dest == CarStateSpecs()[k].dest;
        SpecIsGood(k);
        CodesDiffer(k, m);
      }
      assert EntryFor(env, car, spec).source != [];
    }
  }

  /** The plan of a reset is valid whatever is dirty. */
  lemma ResetPlanValid(env: Env, car: Path, dirty: set<string>)
    ensures ValidPlan(ResetPlan(env, car, dirty))
  {
    var n := |CarStateSpecs()|;
    SpecEntriesApart(env, car, n, dirty);
    assert CarStateSpecs()[..n] == CarStateSpecs();
    ConfigIsGood();
    var front := SpecEntries(env, car, CarStateSpecs(), dirty);
    hide GoodDest, Code, SpecEntries, ValidPlan;
    forall i | 0 <= i < |front| ensures front[i].dest != CONFIG_DEST {
      var k :| 0 <= k < n && front[i].dest == CarStateSpecs()[k].dest;
      SpecIsGood(k);
    }
    ApartIsValid(ResetPlan(env, car, dirty));
  }

  lemma {:induction false} DirtySpecIsPlanned(env: Env, car: Path, specs: seq<Spec>, dirty: set<string>, k: nat) returns (i: nat)
    requires k < |specs| && specs[k].key in dirty
    ensures i < |SpecEntries(env, car, specs, dirty)| && SpecEntries(env, car, specs, dirty)[i] == EntryFor(env, car, specs[k])
  {
    var n := |specs| - 1;
    if k == n {
      i := |SpecEntries(env, car, specs[..n], dirty)|;
    } else {
      i := DirtySpecIsPlanned(env, car, specs[..n], dirty, k);
    }
  }
}
