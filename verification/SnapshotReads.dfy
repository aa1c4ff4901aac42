/** Which files the copier reads: exactly when a file is the source of some write of an entry or a plan, links
    and side files included. */
module SnapshotReads {
  import opened Sequences
  import opened SnapshotCopy
  import opened SnapshotTheorems
  import opened SnapshotPlan
  import opened SnapshotEntries

  /** Some name of the directory e brings q: q itself, an inside link to it, or a side file that is it or leads to it. */
  ghost predicate DirReads(env: Env, e: Path, q: Path) {
    IsDir(env, e) && exists name :: name in env.fs[e].names && Reads(env, e, name) == Some(q)
  }

  /** An entry that is no directory reads itself, the inside file it links to, or a side file of its database. */
  ghost predicate SourceReads(env: Env, src: Path, q: Path)
    requires src != []
  {
    || (q == src && IsFile(env, src))
    || (src in env.fs && env.fs[src] == Link(At(q)) && Inside(env, q) && IsFile(env, q))
    || SideFileReads(env, src, "-wal", q) || SideFileReads(env, src, "-shm", q)
  }

  ghost predicate SideFileReads(env: Env, src: Path, suffix: string, q: Path)
    requires src != []
  {
    IsFile(env, src) && IsDatabase(src[|src| - 1]) && RegularFile(env, WithSuffix(src, suffix)) == Some(q)
  }

  ghost predicate EntryReads(env: Env, src: Path, q: Path)
    requires src != []
  {
    SourceReads(env, src, q) || exists e :: EntryReaches(env, src, e) && DirReads(env, e, q)
  }

  ghost predicate HasSource(writes: seq<Write>, q: Path) {
    exists w :: w in writes && w.source == q
  }

  ghost predicate TreeReads(env: Env, dir: Path, q: Path)
    requires IsDir(env, dir)
  {
    exists e :: Reached(env, dir, e) && DirReads(env, e, q)
  }

  // ---- Directories ------------------------------------------------------------------------

  lemma WriteIsRead(env: Env, dir: Path, dest: Path, w: Write)
    requires WellFormed(env) && IsDir(env, dir) && dest != [] && w in TreeEffect(env, dir, dest, {}).writes
    ensures TreeReads(env, dir, w.source)
  {
    hide TreeEffect, WellFormed, Reads, FileAt;
    TreeWritesGood(env, dir, dest, {});
    var rel := w.dest[|dest|..];
    FileAtSplits(env, dir, rel);
    var e := DirAt(env, dir, rel[..|rel| - 1]).value;
    assert Reached(env, dir, e);
    ReadsListed(env, e, rel[|rel| - 1]);
    assert DirReads(env, e, w.source);
  }

  lemma ReadsListed(env: Env, e: Path, name: string)
    requires IsDir(env, e) && Reads(env, e, name).Some?
    ensures name in env.fs[e].names
  {
  }

  /** How a directory reads: directly, or beside a database. */
  lemma ReadsCases(env: Env, e: Path, name: string, q: Path)
    requires IsDir(env, e) && name in env.fs[e].names && Reads(env, e, name) == Some(q)
    ensures RegularFile(env, e + [name]) == Some(q) && IsFile(env, q)
    ensures q == e + [name] || Inside(env, q) || IsSidecarName(env, e, name)
  {
  }

  /** A regular file, or an inside link to one, is copied when it is met. */
  lemma DirectlyWritten(env: Env, p: Path, q: Path, dst: Path, act: set<Path>)
    requires p != [] && dst != [] && RegularFile(env, p) == Some(q) && (q == p || Inside(env, q))
    requires !EntryEffect(env, p, dst, act).raised
    ensures HasSource(EntryEffect(env, p, dst, act).writes, q)
  {
    hide SidecarsEffect, TreeEffect;
    var w := Write(dst, q, env.fs[q].content);
    assert CopyFileEffect(env, q, dst).raised || w in CopyFileEffect(env, q, dst).writes;
    assert w in EntryEffect(env, p, dst, act).writes;
  }

  lemma ReadIsWritten(env: Env, dir: Path, dest: Path, e: Path, name: string, q: Path)
    requires IsDir(env, dir) && dest != [] && !TreeEffect(env, dir, dest, {}).raised
    requires Reached(env, dir, e) && IsDir(env, e) && name in env.fs[e].names && Reads(env, e, name) == Some(q)
    ensures HasSource(TreeEffect(env, dir, dest, {}).writes, q)
  {
    EntersAndSkipsExactly(env, dir, dest);
    ReadsCases(env, e, name, q);
    hide *;
    if q == e + [name] || Inside(env, q) {
      var dst, act := ChildCopied(env, dir, dest, {}, e, name);
      assert e + [name] != [];
      DirectlyWritten(env, e + [name], q, dst, act);
      SourceOfMore(EntryEffect(env, e + [name], dst, act).writes, TreeEffect(env, dir, dest, {}).writes, q);
    } else {
      var base := BaseOf(env, e, name);
      var dst := SidecarsCopied(env, dir, dest, {}, e, base);
      SidecarWritten(env, e, base, name, dst);
      var x := Then(CopyFileEffect(env, e + [base], dst), SidecarsEffect(env, e + [base], dst)).writes;
      IsSource(x, q);
      SourceOfMore(x, TreeEffect(env, dir, dest, {}).writes, q);
    }
  }

  lemma BaseOf(env: Env, e: Path, name: string) returns (base: string)
    requires IsDir(env, e) && IsSidecarName(env, e, name)
    ensures base in env.fs[e].names && IsFile(env, e + [base]) && IsDatabase(base) && (name == base + "-wal" || name == base + "-shm")
  {
    hide IsDatabase;
    base :| base in env.fs[e].names && IsFile(env, e + [base]) && IsDatabase(base) && (name == base + "-wal" || name == base + "-shm");
  }

  lemma IsSource(writes: seq<Write>, q: Path)
    requires exists w :: w in writes && w.source == q
    ensures HasSource(writes, q)
  {
  }

  lemma SourceOfMore(a: seq<Write>, b: seq<Write>, q: Path)
    requires HasSource(a, q) && forall w :: w in a ==> w in b
    ensures HasSource(b, q)
  {
    var w :| w in a && w.source == q;
    assert w in b;
  }

  lemma TreeReadsIff(env: Env, dir: Path, dest: Path, q: Path)
    requires WellFormed(env) && IsDir(env, dir) && dest != [] && !TreeEffect(env, dir, dest, {}).raised
    ensures HasSource(TreeEffect(env, dir, dest, {}).writes, q) <==> TreeReads(env, dir, q)
  {
    var writes := TreeEffect(env, dir, dest, {}).writes;
    hide WellFormed, TreeEffect, Reached, Reads;
    if HasSource(writes, q) {
      var w :| w in writes && w.source == q;
      WriteIsRead(env, dir, dest, w);
    }
    if TreeReads(env, dir, q) {
      var e :| Reached(env, dir, e) && DirReads(env, e, q);
      var name :| name in env.fs[e].names && Reads(env, e, name) == Some(q);
      ReadIsWritten(env, dir, dest, e, name, q);
    }
  }

  // ---- Entries and plans ---------------------------------------------------------------------

  /** A file is the source of a write of an entry exactly if the entry reads it. */
  lemma EntryReadsIff(env: Env, src: Path, dest: Path, q: Path)
    requires WellFormed(env) && src != [] && dest != [] && !EntryEffect(env, src, dest, {}).raised
    ensures HasSource(EntryEffect(env, src, dest, {}).writes, q) <==> EntryReads(env, src, q)
  {
    hide *;
    EntryStarts(env, src, dest);
    if StartOf(env, src).Some? {
      TreeReadsIff(env, StartOf(env, src).value, dest, q);
      StartReads(env, src, q);
    } else {
      NothingReached(env, src);
      SourceReadsIff(env, src, dest, q);
      NoDirReads(env, src, q);
    }
  }

  lemma StartReads(env: Env, src: Path, q: Path)
    requires src != [] && StartOf(env, src).Some?
    ensures IsDir(env, StartOf(env, src).value)
    ensures EntryReads(env, src, q) <==> TreeReads(env, StartOf(env, src).value, q)
  {
    hide DirReads, Reached, RegularFile;
  }

  lemma NoDirReads(env: Env, src: Path, q: Path)
    requires src != [] && forall e :: !EntryReaches(env, src, e)
    ensures EntryReads(env, src, q) <==> SourceReads(env, src, q)
  {
    hide SourceReads, EntryReaches;
  }

  lemma SourceReadsIff(env: Env, src: Path, dest: Path, q: Path)
    requires src != [] && dest != [] && StartOf(env, src).None? && !EntryEffect(env, src, dest, {}).raised
    ensures HasSource(EntryEffect(env, src, dest, {}).writes, q) <==> SourceReads(env, src, q)
  {
    hide *;
    NoStart(env, src);
    if HasSource(EntryEffect(env, src, dest, {}).writes, q) {
      var w := SomeSource(EntryEffect(env, src, dest, {}).writes, q);
      EntryWriteFrom(env, src, dest, {}, w);
      if IsFile(env, src) {
        FileWriteFrom(env, src, dest, w);
        if w != Write(dest, src, env.fs[src].content) {
          var suffix := if w in SidecarEffect(env, src, dest, "-wal").writes then "-wal" else "-shm";
          SidecarSource(env, src, dest, suffix, w);
        }
      }
      SourceReadsCases(env, src, q);
    }
    if SourceReads(env, src, q) {
      SourceReadsCases(env, src, q);
      if RegularFile(env, src) == Some(q) && (q == src || Inside(env, q)) {
        DirectlyWritten(env, src, q, dest, {});
      } else {
        var suffix := if SideFileReads(env, src, "-wal", q) then "-wal" else "-shm";
        SideFileWritten(env, src, dest, suffix, q);
      }
    }
  }

  lemma SomeSource(writes: seq<Write>, q: Path) returns (w: Write)
    requires HasSource(writes, q)
    ensures w in writes && w.source == q
  {
    w :| w in writes && w.source == q;
  }

  lemma SourceReadsCases(env: Env, src: Path, q: Path)
    requires src != []
    ensures SourceReads(env, src, q) <==>
      || (RegularFile(env, src) == Some(q) && (q == src || Inside(env, q)))
      || SideFileReads(env, src, "-wal", q) || SideFileReads(env, src, "-shm", q)
    ensures forall suffix :: SideFileReads(env, src, suffix, q) <==>
      IsFile(env, src) && IsDatabase(src[|src| - 1]) && RegularFile(env, WithSuffix(src, suffix)) == Some(q)
    ensures IsFile(env, src) ==> RegularFile(env, src) == Some(src)
    ensures src in env.fs && env.fs[src].Link? && env.fs[src].target.At? && IsFile(env, env.fs[src].target.path) ==>
      RegularFile(env, src) == Some(env.fs[src].target.path)
  {
    hide IsDatabase, WithSuffix;
  }

  lemma SideFileWritten(env: Env, src: Path, dest: Path, suffix: string, q: Path)
    requires src != [] && dest != [] && (suffix == "-wal" || suffix == "-shm") && SideFileReads(env, src, suffix, q)
    requires !EntryEffect(env, src, dest, {}).raised
    ensures HasSource(EntryEffect(env, src, dest, {}).writes, q)
  {
    hide IsDatabase, WithSuffix;
    var w := Write(WithSuffix(dest, suffix), q, env.fs[q].content);
    assert w in SidecarEffect(env, src, dest, suffix).writes;
    hide SidecarEffect, CopyFileEffect;
    assert w in EntryEffect(env, src, dest, {}).writes;
  }

  ghost predicate PlanReads(env: Env, entries: seq<Entry>, q: Path)
    requires Proper(entries)
  {
    exists i :: 0 <= i < |entries| && EntryReads(env, entries[i].source, q)
  }

  /** A file is the source of a write of a plan exactly if one of its entries reads it. */
  lemma PlanReadsIff(env: Env, entries: seq<Entry>, q: Path)
    requires WellFormed(env) && Proper(entries) && !PlanEffect(env, entries).raised
    ensures HasSource(PlanEffect(env, entries).writes, q) <==> PlanReads(env, entries, q)
  {
    hide WellFormed, PlanEffect, EntryReads, EntryEffect;
    PlanParts(env, entries);
    forall i | 0 <= i < |entries| ensures HasSource(Part(env, entries[i]).writes, q) <==> EntryReads(env, entries[i].source, q) {
      EntryReadsIff(env, entries[i].source, entries[i].dest, q);
    }
    hide Part;
    if HasSource(PlanEffect(env, entries).writes, q) {
      var w :| w in PlanEffect(env, entries).writes && w.source == q;
      var i :| 0 <= i < |entries| && w in Part(env, entries[i]).writes;
      assert HasSource(Part(env, entries[i]).writes, q);
    }
    if PlanReads(env, entries, q) {
      var i :| 0 <= i < |entries| && EntryReads(env, entries[i].source, q);
      var w :| w in Part(env, entries[i]).writes && w.source == q;
      assert w in PlanEffect(env, entries).writes;
    }
  }

  // ---- Reading without links --------------------------------------------------------------------

  ghost predicate IsLink(env: Env, p: Path) { p in env.fs && env.fs[p].Link? }

  /** The entry meets the link p: it is p, p is a side file of it, or p lies in a directory it reaches. */
  ghost predicate Meets(env: Env, src: Path, p: Path)
    requires src != []
  {
    && IsLink(env, p)
    && (p == src || (IsDatabase(src[|src| - 1]) && (p == WithSuffix(src, "-wal") || p == WithSuffix(src, "-shm")))
      || exists e, name :: EntryReaches(env, src, e) && IsDir(env, e) && name in env.fs[e].names && p == e + [name])
  }

  /** A walk that does not end where its names say went through a link on its way. */
  lemma {:induction false} WalkMeetsLink(env: Env, d: Path, rel: Path) returns (e: Path, name: string)
    requires IsDir(env, d) && DirAt(env, d, rel).Some? && DirAt(env, d, rel) != Some(d + rel)
    ensures Reached(env, d, e) && IsDir(env, e) && name in env.fs[e].names && IsLink(env, e + [name])
    decreases |rel|
  {
    assert rel == [] ==> d + rel == d;
    if rel != [] {
      var t := Step(env, d, rel[0]).value;
      assert Reached(env, d, d) by { assert DirAt(env, d, []) == Some(d); }
      if t == d + [rel[0]] {
        assert t + rel[1..] == d + rel;
        e, name := WalkMeetsLink(env, t, rel[1..]);
        ReachedBelow(env, d, rel[0], e);
      } else {
        e, name := d, rel[0];
      }
    }
  }

  /** Whatever an entry reads it is there to save, unless it meets a link. */
  lemma ReadIsSavedOrLinked(env: Env, e: Entry, q: Path)
    requires e.source != [] && e.dest != [] && EntryReads(env, e.source, q)
    ensures (exists target :: Saves(env, e, q, target)) || exists p :: Meets(env, e.source, p)
  {
    hide *;
    EntryReadsCases(env, e.source, q);
    if SourceReads(env, e.source, q) {
      SourceReadSaved(env, e, q);
    } else {
      var d :| EntryReaches(env, e.source, d) && DirReads(env, d, q);
      DirReadSaved(env, e, d, q);
    }
  }

  lemma EntryReadsCases(env: Env, src: Path, q: Path)
    requires src != [] && EntryReads(env, src, q)
    ensures SourceReads(env, src, q) || exists e :: EntryReaches(env, src, e) && DirReads(env, e, q)
  {
    hide SourceReads, EntryReaches, DirReads;
  }

  lemma SourceReadSaved(env: Env, e: Entry, q: Path)
    requires e.source != [] && e.dest != [] && SourceReads(env, e.source, q)
    ensures (exists target :: Saves(env, e, q, target)) || exists p :: Meets(env, e.source, p)
  {
    hide IsDatabase, EntryReaches;
    var src := e.source;
    if q == src && IsFile(env, src) {
      assert Saves(env, e, q, e.dest + q[|src|..]);
    } else if IsLink(env, src) {
      assert Meets(env, src, src);
    } else {
      var suffix := if SideFileReads(env, src, "-wal", q) then "-wal" else "-shm";
      if q == WithSuffix(src, suffix) {
        assert Saves(env, e, q, WithSuffix(e.dest, suffix));
      } else {
        assert Meets(env, src, WithSuffix(src, suffix));
      }
    }
  }

  lemma DirReadSaved(env: Env, e: Entry, d: Path, q: Path)
    requires e.source != [] && e.dest != [] && EntryReaches(env, e.source, d) && DirReads(env, d, q)
    ensures (exists target :: Saves(env, e, q, target)) || exists p :: Meets(env, e.source, p)
  {
    hide IsDatabase, Reads;
    var src := e.source;
    var name :| name in env.fs[d].names && Reads(env, d, name) == Some(q);
    ReadsCases(env, d, name, q);
    var start := StartOf(env, src).value;
    var rel :| DirAt(env, start, rel) == Some(d);
    hide DirAt;
    if start != src {
      assert Meets(env, src, src);
    } else if d != src + rel {
      var f, n := WalkMeetsLink(env, src, rel);
      assert Meets(env, src, f + [n]);
    } else if q == d + [name] {
      assert q == src + (rel + [name]);
      assert Saves(env, e, q, e.dest + q[|src|..]);
    } else {
      assert Meets(env, src, d + [name]);
    }
  }
}
