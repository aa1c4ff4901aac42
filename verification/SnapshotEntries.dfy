/** The copier's guarantees for a single archive entry, which may be a directory, a file or a link, and for a
    whole plan of them. */
module SnapshotEntries {
  import opened Sequences
  import opened SnapshotCopy
  import opened SnapshotTheorems
  import opened SnapshotPlan

  // ---- Entries ---------------------------------------------------------------------------

  /** The directory an entry's copy starts in, if it is one or an inside link to one. */
  function StartOf(env: Env, src: Path): Option<Path> {
    if IsDir(env, src) then Some(src)
    else if src in env.fs && env.fs[src].Link? && env.fs[src].target.At?
            && Inside(env, env.fs[src].target.path) && IsDir(env, env.fs[src].target.path) then Some(env.fs[src].target.path)
    else None
  }

  ghost predicate EntryReaches(env: Env, src: Path, e: Path) {
    StartOf(env, src).Some? && Reached(env, StartOf(env, src).value, e)
  }

  /** p is an outside link: the entry itself, or one in a directory the entry reaches. */
  ghost predicate EntrySkips(env: Env, src: Path, p: Path) {
    (p == src && OutsideLink(env, src)) || exists e, name :: EntryReaches(env, src, e) && LinkOf(env, e, name, p)
  }

  /** A side file of the entry itself leads out of the root. */
  ghost predicate SourceEscapes(env: Env, src: Path, suffix: string)
    requires src != []
  {
    && IsFile(env, src) && IsDatabase(src[|src| - 1]) && (suffix == "-wal" || suffix == "-shm")
    && RegularFile(env, WithSuffix(src, suffix)).Some? && !Inside(env, RegularFile(env, WithSuffix(src, suffix)).value)
  }

  ghost predicate EntryEscapes(env: Env, src: Path)
    requires src != []
  {
    || (exists suffix :: SourceEscapes(env, src, suffix))
    || exists e, name :: EntryReaches(env, src, e) && EscapingSidecar(env, e, name)
  }

  ghost predicate InsideWrites(env: Env, writes: seq<Write>) {
    forall w :: w in writes ==> IsFile(env, w.source) && Inside(env, w.source)
  }

  lemma EntryStarts(env: Env, src: Path, dest: Path)
    requires src != [] && dest != []
    ensures StartOf(env, src).Some? ==>
      IsDir(env, StartOf(env, src).value) && !OutsideLink(env, src) && !IsFile(env, src)
      && EntryEffect(env, src, dest, {}) == TreeEffect(env, StartOf(env, src).value, dest, {})
    ensures StartOf(env, src).None? ==> EntryEffect(env, src, dest, {}).entered == []
    ensures StartOf(env, src).None? ==> EntryEffect(env, src, dest, {}).skipped == if OutsideLink(env, src) then [src] else []
  {
    hide TreeEffect;
  }

  /** An entry enters exactly the directories reachable from it, and records exactly the outside links in them,
      or itself if it is one. */
  lemma EntryEntersAndSkipsExactly(env: Env, src: Path, dest: Path)
    requires src != [] && dest != [] && !EntryEffect(env, src, dest, {}).raised
    ensures var x := EntryEffect(env, src, dest, {});
      (forall e :: e in x.entered <==> EntryReaches(env, src, e)) && (forall p :: p in x.skipped <==> EntrySkips(env, src, p))
  {
    EntryStarts(env, src, dest);
    var x := EntryEffect(env, src, dest, {});
    hide EntryEffect, TreeEffect, Reached, LinkOf, OutsideLink;
    if StartOf(env, src).Some? {
      EntersAndSkipsExactly(env, StartOf(env, src).value, dest);
      hide StartOf;
      forall p ensures p in x.skipped <==> EntrySkips(env, src, p) {
        if p in x.skipped {
          var e, name :| e in x.entered && LinkOf(env, e, name, p);
          assert EntryReaches(env, src, e);
        }
        if EntrySkips(env, src, p) {
          var e, name :| EntryReaches(env, src, e) && LinkOf(env, e, name, p);
          assert e in x.entered;
        }
      }
    }
  }

  /** An entry inside the root writes only content of regular files inside it, exactly if neither the entry nor a
      database it reaches has a side file that leads out. */
  lemma EntryWritesInsideIff(env: Env, src: Path, dest: Path)
    requires WellFormed(env) && src != [] && dest != [] && Inside(env, src) && !EntryEffect(env, src, dest, {}).raised
    ensures InsideWrites(env, EntryEffect(env, src, dest, {}).writes) <==> !EntryEscapes(env, src)
  {
    EntryStarts(env, src, dest);
    if StartOf(env, src).Some? {
      StartInside(env, src);
      WritesInsideIff(env, StartOf(env, src).value, dest);
      hide WellFormed, EntryEffect, TreeEffect, StartOf, EscapingSidecar, Reached, IsDatabase, WithSuffix;
    } else {
      hide *;
      NothingReached(env, src);
      if EntryEscapes(env, src) {
        var suffix := EscapingSuffix(env, src);
        var w := SourceEscapeWritten(env, src, dest, suffix);
        OneOutside(env, EntryEffect(env, src, dest, {}).writes, w);
      } else {
        forall w | w in EntryEffect(env, src, dest, {}).writes ensures IsFile(env, w.source) && Inside(env, w.source) {
          SourceInside(env, src, dest, w);
        }
        AllInside(env, EntryEffect(env, src, dest, {}).writes);
      }
    }
  }

  lemma StartInside(env: Env, src: Path)
    requires Inside(env, src) && StartOf(env, src).Some?
    ensures Inside(env, StartOf(env, src).value)
  {
  }

  lemma NothingReached(env: Env, src: Path)
    requires StartOf(env, src).None?
    ensures forall e :: !EntryReaches(env, src, e)
  {
  }

  lemma AllInside(env: Env, writes: seq<Write>)
    requires forall w :: w in writes ==> IsFile(env, w.source) && Inside(env, w.source)
    ensures InsideWrites(env, writes)
  {
  }

  lemma OneOutside(env: Env, writes: seq<Write>, w: Write)
    requires w in writes && !Inside(env, w.source)
    ensures !InsideWrites(env, writes)
  {
  }

  lemma EscapingSuffix(env: Env, src: Path) returns (suffix: string)
    requires src != [] && EntryEscapes(env, src) && forall e :: !EntryReaches(env, src, e)
    ensures SourceEscapes(env, src, suffix)
  {
    hide SourceEscapes, EntryReaches;
    suffix :| SourceEscapes(env, src, suffix);
  }

  lemma SourceEscapeWritten(env: Env, src: Path, dest: Path, suffix: string) returns (w: Write)
    requires src != [] && dest != [] && SourceEscapes(env, src, suffix) && !EntryEffect(env, src, dest, {}).raised
    ensures w in EntryEffect(env, src, dest, {}).writes && !Inside(env, w.source)
  {
    hide IsDatabase, WithSuffix;
    var f := RegularFile(env, WithSuffix(src, suffix)).value;
    w := Write(WithSuffix(dest, suffix), f, env.fs[f].content);
    assert w in SidecarEffect(env, src, dest, suffix).writes;
    hide SidecarEffect, CopyFileEffect;
  }

  lemma SourceInside(env: Env, src: Path, dest: Path, w: Write)
    requires src != [] && dest != [] && Inside(env, src) && StartOf(env, src).None? && !EntryEscapes(env, src)
    requires w in EntryEffect(env, src, dest, {}).writes
    ensures IsFile(env, w.source) && Inside(env, w.source)
  {
    hide *;
    EntryWriteFrom(env, src, dest, {}, w);
    if IsFile(env, src) {
      FileSourceInside(env, src, dest, w);
    } else {
      NoStart(env, src);
    }
  }

  lemma NoStart(env: Env, src: Path)
    requires StartOf(env, src).None?
    ensures !IsDir(env, src)
    ensures src in env.fs && env.fs[src].Link? && env.fs[src].target.At? && Inside(env, env.fs[src].target.path) ==>
      !IsDir(env, env.fs[src].target.path)
  {
  }

  lemma FileSourceInside(env: Env, src: Path, dest: Path, w: Write)
    requires src != [] && dest != [] && Inside(env, src) && IsFile(env, src) && !EntryEscapes(env, src)
    requires w in Then(CopyFileEffect(env, src, dest), SidecarsEffect(env, src, dest)).writes
    ensures IsFile(env, w.source) && Inside(env, w.source)
  {
    hide *;
    FileWriteFrom(env, src, dest, w);
    if w != Write(dest, src, env.fs[src].content) {
      var suffix := if w in SidecarEffect(env, src, dest, "-wal").writes then "-wal" else "-shm";
      SidecarSource(env, src, dest, suffix, w);
      NoEscape(env, src, suffix, w.source);
    }
  }

  lemma NoEscape(env: Env, src: Path, suffix: string, f: Path)
    requires src != [] && IsFile(env, src) && IsDatabase(src[|src| - 1]) && (suffix == "-wal" || suffix == "-shm")
    requires RegularFile(env, WithSuffix(src, suffix)) == Some(f) && !EntryEscapes(env, src)
    ensures Inside(env, f)
  {
    hide IsDatabase, WithSuffix, EntryReaches;
    assert !SourceEscapes(env, src, suffix);
  }

  lemma SidecarSource(env: Env, src: Path, dest: Path, suffix: string, w: Write)
    requires src != [] && dest != [] && w in SidecarEffect(env, src, dest, suffix).writes
    ensures RegularFile(env, WithSuffix(src, suffix)) == Some(w.source) && IsFile(env, w.source)
  {
  }

  // ---- Plans ---------------------------------------------------------------------------------

  ghost predicate Proper(entries: seq<Entry>) {
    forall i :: 0 <= i < |entries| ==> entries[i].source != [] && entries[i].dest != []
  }

  ghost function Part(env: Env, e: Entry): Effect
    requires e.source != [] && e.dest != []
  {
    EntryEffect(env, e.source, e.dest, {})
  }

  lemma PlanLast(env: Env, entries: seq<Entry>)
    requires Proper(entries) && entries != []
    ensures PlanEffect(env, entries) == Then(PlanEffect(env, entries[..|entries| - 1]), Part(env, entries[|entries| - 1]))
  {
  }

  lemma {:induction false} PartsRun(env: Env, entries: seq<Entry>, i: nat)
    requires Proper(entries) && i < |entries| && !PlanEffect(env, entries).raised
    ensures !Part(env, entries[i]).raised
  {
    var n := |entries| - 1;
    PlanLast(env, entries);
    hide PlanEffect, Part;
    if i < n { PartsRun(env, entries[..n], i); }
  }

  lemma {:induction false} PlanWrites(env: Env, entries: seq<Entry>, w: Write)
    requires Proper(entries) && !PlanEffect(env, entries).raised
    ensures w in PlanEffect(env, entries).writes <==> exists i :: 0 <= i < |entries| && w in Part(env, entries[i]).writes
  {
    if entries != [] {
      var n := |entries| - 1;
      PlanLast(env, entries);
      hide PlanEffect, Part;
      PlanWrites(env, entries[..n], w);
      if i :| 0 <= i < |entries| && w in Part(env, entries[i]).writes { assert i < n ==> w in Part(env, entries[..n][i]).writes; }
    }
  }

  lemma {:induction false} PlanEnters(env: Env, entries: seq<Entry>, e: Path)
    requires Proper(entries) && !PlanEffect(env, entries).raised
    ensures e in PlanEffect(env, entries).entered <==> exists i :: 0 <= i < |entries| && e in Part(env, entries[i]).entered
  {
    if entries != [] {
      var n := |entries| - 1;
      PlanLast(env, entries);
      hide PlanEffect, Part;
      PlanEnters(env, entries[..n], e);
      if i :| 0 <= i < |entries| && e in Part(env, entries[i]).entered { assert i < n ==> e in Part(env, entries[..n][i]).entered; }
    }
  }

  lemma {:induction false} PlanSkips(env: Env, entries: seq<Entry>, p: Path)
    requires Proper(entries) && !PlanEffect(env, entries).raised
    ensures p in PlanEffect(env, entries).skipped <==> exists i :: 0 <= i < |entries| && p in Part(env, entries[i]).skipped
  {
    if entries != [] {
      var n := |entries| - 1;
      PlanLast(env, entries);
      hide PlanEffect, Part;
      PlanSkips(env, entries[..n], p);
      if i :| 0 <= i < |entries| && p in Part(env, entries[i]).skipped { assert i < n ==> p in Part(env, entries[..n][i]).skipped; }
    }
  }

  /** A plan that runs to its end does what its entries do. */
  lemma PlanParts(env: Env, entries: seq<Entry>)
    requires Proper(entries) && !PlanEffect(env, entries).raised
    ensures var x := PlanEffect(env, entries);
      && (forall i :: 0 <= i < |entries| ==> !Part(env, entries[i]).raised)
      && (forall w :: w in x.writes <==> exists i :: 0 <= i < |entries| && w in Part(env, entries[i]).writes)
      && (forall e :: e in x.entered <==> exists i :: 0 <= i < |entries| && e in Part(env, entries[i]).entered)
      && (forall p :: p in x.skipped <==> exists i :: 0 <= i < |entries| && p in Part(env, entries[i]).skipped)
  {
    hide PlanEffect, Part;
    var x := PlanEffect(env, entries);
    forall i | 0 <= i < |entries| ensures !Part(env, entries[i]).raised { PartsRun(env, entries, i); }
    forall w ensures w in x.writes <==> exists i :: 0 <= i < |entries| && w in Part(env, entries[i]).writes { PlanWrites(env, entries, w); }
    forall e ensures e in x.entered <==> exists i :: 0 <= i < |entries| && e in Part(env, entries[i]).entered { PlanEnters(env, entries, e); }
    forall p ensures p in x.skipped <==> exists i :: 0 <= i < |entries| && p in Part(env, entries[i]).skipped { PlanSkips(env, entries, p); }
  }

  /** A plan enters exactly what its entries reach, and records exactly the outside links among and below them. */
  lemma PlanEntersAndSkipsExactly(env: Env, entries: seq<Entry>)
    requires Proper(entries) && !PlanEffect(env, entries).raised
    ensures var x := PlanEffect(env, entries);
      && (forall e :: e in x.entered <==> exists i :: 0 <= i < |entries| && EntryReaches(env, entries[i].source, e))
      && (forall p :: p in x.skipped <==> exists i :: 0 <= i < |entries| && EntrySkips(env, entries[i].source, p))
  {
    hide PlanEffect, EntryReaches, EntrySkips, EntryEffect;
    PlanParts(env, entries);
    forall i | 0 <= i < |entries|
      ensures forall e :: e in Part(env, entries[i]).entered <==> EntryReaches(env, entries[i].source, e)
      ensures forall p :: p in Part(env, entries[i]).skipped <==> EntrySkips(env, entries[i].source, p)
    {
      EntryEntersAndSkipsExactly(env, entries[i].source, entries[i].dest);
    }
  }

  /** A plan over sources inside the root writes only content of regular files inside it, exactly if none of its
      entries escapes. */
  lemma PlanWritesInsideIff(env: Env, entries: seq<Entry>)
    requires WellFormed(env) && Proper(entries) && !PlanEffect(env, entries).raised
    requires forall i :: 0 <= i < |entries| ==> Inside(env, entries[i].source)
    ensures InsideWrites(env, PlanEffect(env, entries).writes)
      <==> forall i :: 0 <= i < |entries| ==> !EntryEscapes(env, entries[i].source)
  {
    hide PlanEffect, EntryEscapes, EntryEffect, WellFormed;
    PlanParts(env, entries);
    forall i | 0 <= i < |entries|
      ensures InsideWrites(env, Part(env, entries[i]).writes) <==> !EntryEscapes(env, entries[i].source)
    {
      EntryWritesInsideIff(env, entries[i].source, entries[i].dest);
    }
    hide Part;
    if InsideWrites(env, PlanEffect(env, entries).writes) {
      forall i | 0 <= i < |entries| ensures InsideWrites(env, Part(env, entries[i]).writes) {}
    }
  }

  // ---- When a copy fails ---------------------------------------------------------------------------

  /** Everything can be read and no link is a loop. */
  ghost predicate Copyable(env: Env) {
    env.unreadable == {} && forall p :: p in env.fs ==> env.fs[p] != Link(Loop)
  }

  lemma {:induction false} TreeCopies(env: Env, dir: Path, dest: Path, active: set<Path>)
    requires Copyable(env) && IsDir(env, dir) && dest != []
    ensures !TreeEffect(env, dir, dest, active).raised
    decreases Dirs(env) - active, 0, 0
  {
    if dir !in active {
      assert dir in Dirs(env) - active && dir !in Dirs(env) - (active + {dir});
      ChildrenCopy(env, dir, 0, dest, active + {dir});
    }
  }

  lemma {:induction false} ChildrenCopy(env: Env, dir: Path, k: nat, dest: Path, active: set<Path>)
    requires Copyable(env) && IsDir(env, dir) && dest != [] && k <= |env.fs[dir].names|
    ensures !ChildrenEffect(env, dir, k, dest, active).raised
    decreases Dirs(env) - active, 2, |env.fs[dir].names| - k
  {
    if k < |env.fs[dir].names| {
      EntryCopies(env, dir + [env.fs[dir].names[k]], dest + [env.fs[dir].names[k]], active);
      ChildrenCopy(env, dir, k + 1, dest, active);
    }
  }

  lemma {:induction false} EntryCopies(env: Env, src: Path, dest: Path, active: set<Path>)
    requires Copyable(env) && src != [] && dest != []
    ensures !EntryEffect(env, src, dest, active).raised
    decreases Dirs(env) - active, 1, 0
  {
    if IsDir(env, src) {
      TreeCopies(env, src, dest, active);
    } else if StartOf(env, src).Some? {
      TreeCopies(env, StartOf(env, src).value, dest, active);
    }
  }

  /** A plan over files that can all be read, without link loops, runs to its end. */
  lemma {:induction false} PlanCopies(env: Env, entries: seq<Entry>)
    requires Copyable(env) && Proper(entries)
    ensures !PlanEffect(env, entries).raised
  {
    if entries != [] {
      var n := |entries| - 1;
      PlanCopies(env, entries[..n]);
      EntryCopies(env, entries[n].source, entries[n].dest, {});
    }
  }

  // ---- A side file that escapes ------------------------------------------------------------------------

  /** A root `w` with a database whose write-ahead log is a link to a file outside. */
  function EscapingRoot(): Env {
    Env(map[[] := Dir(["out", "w"]), ["out"] := File([7]), ["w"] := Dir(["x.db", "x.db-wal"]),
            ["w", "x.db"] := File([1]), ["w", "x.db-wal"] := Link(At(["out"]))],
        ["w"], {})
  }

  lemma ChildIsListed(env: Env, d: Path, name: string)
    requires IsDir(env, d) && name in env.fs[d].names
    ensures IsListed(env, d + [name])
  {
    assert (d + [name])[..|d|] == d;
  }

  lemma RootIsListed(env: Env)
    ensures IsListed(env, [])
  {
  }

  lemma ChildrenAreThere(env: Env, d: Path)
    requires IsDir(env, d) && forall name :: name in env.fs[d].names ==> d + [name] in env.fs
    ensures ListsOnlyThere(env, d)
  {
  }

  lemma TreeIsWellFormed(env: Env)
    requires forall p :: p in env.fs ==> IsListed(env, p) && (IsDir(env, p) ==> ListsOnlyThere(env, p))
    ensures WellFormed(env)
  {
    hide IsListed, ListsOnlyThere;
  }

  lemma EscapingRootNodes()
    ensures var env := EscapingRoot();
      && env.fs.Keys == {[], ["out"], ["w"], ["w", "x.db"], ["w", "x.db-wal"]} && env.unreadable == {}
      && env.fs[[]] == Dir(["out", "w"]) && env.fs[["out"]] == File([7]) && env.fs[["w"]] == Dir(["x.db", "x.db-wal"])
      && env.fs[["w", "x.db"]] == File([1]) && env.fs[["w", "x.db-wal"]] == Link(At(["out"]))
  {
  }

  lemma EscapingRootIsTree()
    ensures WellFormed(EscapingRoot()) && Copyable(EscapingRoot())
  {
    var env := EscapingRoot();
    EscapingRootNodes();
    hide EscapingRoot, IsListed, ListsOnlyThere, WellFormed;
    var w: Path := ["w"];
    assert w + ["x.db"] == ["w", "x.db"] && w + ["x.db-wal"] == ["w", "x.db-wal"];
    assert [] + ["out"] == ["out"] && [] + ["w"] == w;
    RootIsListed(env);
    ChildIsListed(env, [], "out");
    ChildIsListed(env, [], "w");
    ChildIsListed(env, w, "x.db");
    ChildIsListed(env, w, "x.db-wal");
    ChildrenAreThere(env, []);
    ChildrenAreThere(env, w);
    TreeIsWellFormed(env);
  }

  lemma EscapingNames()
    ensures IsDatabase("x.db") && "x.db" + "-wal" == "x.db-wal" && !(["w"] <= ["out"])
    ensures WithSuffix(["w", "x.db"], "-wal") == ["w", "x.db-wal"]
  {
    assert "x.db"[1..] == ".db";
    assert ["w", "x.db"][..1] == ["w"];
    assert ["out"][0] == "out" && "out"[0] != "w"[0];
  }

  lemma EscapingRootFacts()
    ensures var env := EscapingRoot();
      IsDir(env, ["w"]) && IsFile(env, ["w", "x.db"]) && Inside(env, ["w"]) && Inside(env, ["w", "x.db"])
      && "x.db" in env.fs[["w"]].names && "x.db-wal" in env.fs[["w"]].names
      && RegularFile(env, ["w", "x.db-wal"]) == Some(["out"]) && env.root == ["w"]
  {
  }

  lemma LogEscapes(env: Env, d: Path, base: string, f: Path)
    requires IsDir(env, d) && base in env.fs[d].names && base + "-wal" in env.fs[d].names
    requires IsFile(env, d + [base]) && IsDatabase(base) && WithSuffix(d + [base], "-wal") == d + [base + "-wal"]
    requires RegularFile(env, d + [base + "-wal"]) == Some(f) && f != d + [base + "-wal"] && !Inside(env, f)
    ensures EscapingSidecar(env, d, base + "-wal") && SourceEscapes(env, d + [base], "-wal")
  {
    hide RegularFile, IsDatabase, WithSuffix, Inside;
    assert IsSidecarName(env, d, base + "-wal");
    assert (d + [base])[|d + [base]| - 1] == base;
  }

  lemma EscapingRootEscapes()
    ensures EscapingSidecar(EscapingRoot(), ["w"], "x.db-wal") && SourceEscapes(EscapingRoot(), ["w", "x.db"], "-wal")
    ensures IsDir(EscapingRoot(), ["w"])
  {
    hide *;
    EscapingNames();
    EscapingRootFacts();
    var w: Path := ["w"];
    assert w + ["x.db"] == ["w", "x.db"] && w + ["x.db-wal"] == ["w", "x.db-wal"];
    OutIsOutside();
    LogEscapes(EscapingRoot(), w, "x.db", ["out"]);
  }

  lemma OutIsOutside()
    ensures !Inside(EscapingRoot(), ["out"]) && ["out"] != ["w", "x.db-wal"]
  {
    EscapingNames();
  }

  /** Copied as a directory or as an entry of its own, that database brings the outside file into the snapshot. */
  lemma SideFileEscapes()
    ensures !InsideWrites(EscapingRoot(), TreeEffect(EscapingRoot(), ["w"], ["d"], {}).writes)
    ensures !InsideWrites(EscapingRoot(), EntryEffect(EscapingRoot(), ["w", "x.db"], ["d"], {}).writes)
  {
    hide *;
    var env := EscapingRoot();
    EscapingRootIsTree();
    EscapingRootEscapes();
    TreeCopies(env, ["w"], ["d"], {});
    EntryCopies(env, ["w", "x.db"], ["d"], {});
    ReachesItself(env, ["w"]);
    var v := EscapeIsWritten(env, ["w"], ["d"], ["w"], "x.db-wal");
    OneOutside(env, TreeEffect(env, ["w"], ["d"], {}).writes, v);
    var w := SourceEscapeWritten(env, ["w", "x.db"], ["d"], "-wal");
    OneOutside(env, EntryEffect(env, ["w", "x.db"], ["d"], {}).writes, w);
  }

  lemma ReachesItself(env: Env, d: Path)
    requires IsDir(env, d)
    ensures Reached(env, d, d)
  {
    assert DirAt(env, d, []) == Some(d);
  }
}
