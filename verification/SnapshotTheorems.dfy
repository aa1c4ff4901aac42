/** What the snapshot copier guarantees on any directory graph, symbolic link cycles included. */
module SnapshotTheorems {
  import opened Sequences
  import opened SnapshotCopy

  /** The path's parent is a real directory that lists it. */
  ghost predicate IsListed(env: Env, p: Path) {
    p != [] ==> IsDir(env, p[..|p| - 1]) && p[|p| - 1] in env.fs[p[..|p| - 1]].names
  }

  ghost predicate ListsOnlyThere(env: Env, p: Path)
    requires IsDir(env, p)
  {
    forall i :: 0 <= i < |env.fs[p].names| ==> p + [env.fs[p].names[i]] in env.fs
  }

  /** The keys are exactly the paths one reaches through listed names of real directories. */
  ghost predicate WellFormed(env: Env) {
    && (forall p {:trigger IsListed(env, p)} :: p in env.fs ==> IsListed(env, p))
    && (forall p {:trigger ListsOnlyThere(env, p)} :: IsDir(env, p) ==> ListsOnlyThere(env, p))
  }

  lemma Listed(env: Env, d: Path, name: string)
    requires WellFormed(env) && d + [name] in env.fs
    ensures IsDir(env, d) && name in env.fs[d].names
  {
    var p := d + [name];
    assert IsListed(env, p);
    assert p[..|p| - 1] == d;
  }

  lemma ListedIsThere(env: Env, d: Path, name: string)
    requires WellFormed(env) && IsDir(env, d) && name in env.fs[d].names
    ensures d + [name] in env.fs
  {
    var i := Position(env.fs[d].names, name);
    assert ListsOnlyThere(env, d);
    assert d + [env.fs[d].names[i]] in env.fs;
  }

  lemma ParentOf(env: Env, p: Path)
    requires WellFormed(env) && p in env.fs && p != []
    ensures IsDir(env, p[..|p| - 1]) && p[|p| - 1] in env.fs[p[..|p| - 1]].names
  {
    assert IsListed(env, p);
  }

  // ---- Walking the graph ------------------------------------------------------------

  /** The directory the copier goes to from d by a name: a real one, or one an inside link leads to. */
  function Step(env: Env, d: Path, name: string): Option<Path>
    requires IsDir(env, d)
  {
    var p := d + [name];
    if name !in env.fs[d].names || p !in env.fs then None
    else
      match env.fs[p]
      case Dir(_) => Some(p)
      case Link(At(t)) => if Inside(env, t) && IsDir(env, t) then Some(t) else None
      case _ => None
  }

  ghost predicate IsSidecarName(env: Env, d: Path, name: string)
    requires IsDir(env, d)
  {
    exists base :: base in env.fs[d].names && IsFile(env, d + [base]) && IsDatabase(base)
      && (name == base + "-wal" || name == base + "-shm")
  }

  /** The regular file whose content a copy puts under a name of directory d. */
  ghost function Reads(env: Env, d: Path, name: string): Option<Path>
    requires IsDir(env, d)
  {
    var f := if name in env.fs[d].names then RegularFile(env, d + [name]) else None;
    if f.Some? && (f.value == d + [name] || Inside(env, f.value) || IsSidecarName(env, d, name)) then f else None
  }

  /** Following names from d: the last one names a file, the others lead through directories. */
  ghost function FileAt(env: Env, d: Path, rel: Path): Option<Path>
    requires IsDir(env, d)
    decreases |rel|
  {
    if rel == [] then None
    else if |rel| == 1 then Reads(env, d, rel[0])
    else if Step(env, d, rel[0]).None? then None
    else FileAt(env, Step(env, d, rel[0]).value, rel[1..])
  }

  ghost function DirAt(env: Env, d: Path, rel: Path): Option<Path>
    requires IsDir(env, d)
    decreases |rel|
  {
    if rel == [] then Some(d)
    else if Step(env, d, rel[0]).None? then None
    else DirAt(env, Step(env, d, rel[0]).value, rel[1..])
  }

  // ---- Every write is a file of the graph, at its place ---------------------------------

  /** w puts at dst/rel the content of the regular file found at rel from d. */
  ghost predicate GoodWrite(env: Env, d: Path, dst: Path, w: Write)
    requires IsDir(env, d)
  {
    && dst <= w.dest && FileAt(env, d, w.dest[|dst|..]) == Some(w.source)
    && IsFile(env, w.source) && w.content == env.fs[w.source].content
  }

  lemma GoodBelow(env: Env, d: Path, dst: Path, name: string, w: Write)
    requires IsDir(env, d) && Step(env, d, name).Some?
    requires GoodWrite(env, Step(env, d, name).value, dst + [name], w)
    ensures GoodWrite(env, d, dst, w)
  {
    var rel := w.dest[|dst + [name]|..];
    assert w.dest == dst + [name] + rel;
    assert w.dest[|dst|..] == [name] + rel;
    assert rel != [];
    assert ([name] + rel)[1..] == rel;
  }

  lemma GoodHere(env: Env, d: Path, dst: Path, name: string, f: Path)
    requires IsDir(env, d) && Reads(env, d, name) == Some(f) && IsFile(env, f)
    ensures GoodWrite(env, d, dst, Write(dst + [name], f, env.fs[f].content))
  {
    assert (dst + [name])[|dst|..] == [name];
  }

  lemma SidecarIsGood(env: Env, d: Path, dst: Path, base: string, suffix: string, w: Write)
    requires WellFormed(env) && IsDir(env, d) && base in env.fs[d].names && IsFile(env, d + [base]) && IsDatabase(base)
    requires suffix == "-wal" || suffix == "-shm"
    requires w in SidecarEffect(env, d + [base], dst + [base], suffix).writes
    ensures GoodWrite(env, d, dst, w)
  {
    hide WellFormed, IsDatabase, EndsWith;
    var name := base + suffix;
    assert WithSuffix(d + [base], suffix) == d + [name] && WithSuffix(dst + [base], suffix) == dst + [name];
    var f := RegularFile(env, d + [name]);
    Listed(env, d, name);
    assert IsSidecarName(env, d, name);
    hide IsSidecarName;
    GoodHere(env, d, dst, name, f.value);
  }

  lemma {:induction false} TreeWritesGood(env: Env, dir: Path, dest: Path, active: set<Path>)
    requires WellFormed(env) && IsDir(env, dir) && dest != []
    ensures forall w :: w in TreeEffect(env, dir, dest, active).writes ==> GoodWrite(env, dir, dest, w)
    decreases Dirs(env) - active, 0, 0
  {
    if dir !in active {
      assert dir in Dirs(env) - active && dir !in Dirs(env) - (active + {dir});
      ChildrenWritesGood(env, dir, 0, dest, active + {dir});
    }
  }

  lemma {:induction false} ChildrenWritesGood(env: Env, dir: Path, k: nat, dest: Path, active: set<Path>)
    requires WellFormed(env) && IsDir(env, dir) && dest != [] && k <= |env.fs[dir].names|
    ensures forall w :: w in ChildrenEffect(env, dir, k, dest, active).writes ==> GoodWrite(env, dir, dest, w)
    decreases Dirs(env) - active, 2, |env.fs[dir].names| - k
  {
    if k < |env.fs[dir].names| {
      EntryWritesGood(env, dir, env.fs[dir].names[k], dest, active);
      ChildrenWritesGood(env, dir, k + 1, dest, active);
      hide GoodWrite, EntryEffect;
    }
  }

  lemma {:induction false} EntryWritesGood(env: Env, d: Path, name: string, dst: Path, active: set<Path>)
    requires WellFormed(env) && IsDir(env, d) && name in env.fs[d].names
    ensures forall w :: w in EntryEffect(env, d + [name], dst + [name], active).writes ==> GoodWrite(env, d, dst, w)
    decreases Dirs(env) - active, 1, 0
  {
    hide *;
    var src, dest := d + [name], dst + [name];
    forall w | w in EntryEffect(env, src, dest, active).writes ensures GoodWrite(env, d, dst, w) {
      EntryWriteFrom(env, src, dest, active, w);
      if IsFile(env, src) {
        FileWriteGood(env, d, name, dst, w);
      } else if IsDir(env, src) {
        StepOrRead(env, d, name, src);
        TreeWritesGood(env, src, dest, active);
        GoodBelow(env, d, dst, name, w);
      } else {
        var t := env.fs[src].target.path;
        StepOrRead(env, d, name, t);
        if IsDir(env, t) {
          TreeWritesGood(env, t, dest, active);
          GoodBelow(env, d, dst, name, w);
        } else {
          GoodHere(env, d, dst, name, t);
        }
      }
    }
  }

  /** Where a write of one entry comes from. */
  lemma EntryWriteFrom(env: Env, src: Path, dest: Path, active: set<Path>, w: Write)
    requires src != [] && dest != [] && w in EntryEffect(env, src, dest, active).writes
    ensures src in env.fs && (IsFile(env, src) || IsDir(env, src) || (env.fs[src].Link? && env.fs[src].target.At?))
    ensures IsFile(env, src) ==>
      env.fs[src].File? && w in Then(CopyFileEffect(env, src, dest), SidecarsEffect(env, src, dest)).writes
    ensures IsDir(env, src) ==> env.fs[src].Dir? && w in TreeEffect(env, src, dest, active).writes
    ensures env.fs[src].Link? && env.fs[src].target.At? ==>
      var t := env.fs[src].target.path;
      && Inside(env, t) && (IsDir(env, t) || IsFile(env, t))
      && (IsDir(env, t) ==> w in TreeEffect(env, t, dest, active).writes)
      && (IsFile(env, t) ==> !IsDir(env, t) && w == Write(dest, t, env.fs[t].content))
  {
    hide TreeEffect, SidecarsEffect;
  }

  lemma StepOrRead(env: Env, d: Path, name: string, t: Path)
    requires IsDir(env, d) && name in env.fs[d].names && d + [name] in env.fs
    requires (env.fs[d + [name]] == Link(At(t)) && Inside(env, t)) || (t == d + [name] && IsDir(env, t))
    ensures IsDir(env, t) ==> Step(env, d, name) == Some(t)
    ensures IsFile(env, t) ==> Reads(env, d, name) == Some(t)
  {
  }

  lemma FileWriteGood(env: Env, d: Path, name: string, dst: Path, w: Write)
    requires WellFormed(env) && IsDir(env, d) && name in env.fs[d].names && IsFile(env, d + [name])
    requires w in Then(CopyFileEffect(env, d + [name], dst + [name]), SidecarsEffect(env, d + [name], dst + [name])).writes
    ensures GoodWrite(env, d, dst, w)
  {
    hide *;
    var src, dest := d + [name], dst + [name];
    assert src[|src| - 1] == name;
    FileWriteFrom(env, src, dest, w);
    if w == Write(dest, src, env.fs[src].content) {
      ReadsReal(env, d, name);
      GoodHere(env, d, dst, name, src);
    } else if w in SidecarEffect(env, src, dest, "-wal").writes {
      SidecarIsGood(env, d, dst, name, "-wal", w);
    } else {
      SidecarIsGood(env, d, dst, name, "-shm", w);
    }
  }

  lemma FileWriteFrom(env: Env, src: Path, dest: Path, w: Write)
    requires src != [] && dest != [] && IsFile(env, src)
    requires w in Then(CopyFileEffect(env, src, dest), SidecarsEffect(env, src, dest)).writes
    ensures IsFile(env, src) && src in env.fs && env.fs[src].File?
    ensures w == Write(dest, src, env.fs[src].content)
      || (IsDatabase(src[|src| - 1])
        && (w in SidecarEffect(env, src, dest, "-wal").writes || w in SidecarEffect(env, src, dest, "-shm").writes))
  {
    hide SidecarEffect, IsDatabase;
  }

  lemma ReadsReal(env: Env, d: Path, name: string)
    requires IsDir(env, d) && name in env.fs[d].names && IsFile(env, d + [name])
    ensures Reads(env, d, name) == Some(d + [name])
  {
  }

  // ---- Every real file is copied ----------------------------------------------------------

  /** The parents of a path are listed, real directories. */
  lemma {:induction false} ParentsAreDirs(env: Env, p: Path, k: nat)
    requires WellFormed(env) && p in env.fs && k < |p|
    ensures IsDir(env, p[..k]) && p[k] in env.fs[p[..k]].names
    decreases |p|
  {
    hide WellFormed;
    var n := |p| - 1;
    ParentOf(env, p);
    if k < n {
      ParentsAreDirs(env, p[..n], k);
      assert p[..n][..k] == p[..k];
    }
  }

  /** No directory on the active stack lies at or below dir. */
  ghost predicate ClearBelow(active: set<Path>, dir: Path) {
    forall a :: a in active ==> !(dir <= a)
  }

  lemma {:induction false} RealFileCopied(env: Env, dir: Path, dest: Path, active: set<Path>, rel: Path)
    requires WellFormed(env) && IsDir(env, dir) && dest != []
    requires rel != [] && IsFile(env, dir + rel) && ClearBelow(active, dir)
    requires !TreeEffect(env, dir, dest, active).raised
    ensures Write(dest + rel, dir + rel, env.fs[dir + rel].content) in TreeEffect(env, dir, dest, active).writes
    decreases |rel|, 1
  {
    hide WellFormed, SidecarsEffect, ChildrenEffect;
    var w := Write(dest + rel, dir + rel, env.fs[dir + rel].content);
    var name := rel[0];
    ParentsAreDirs(env, dir + rel, |dir|);
    assert (dir + rel)[..|dir|] == dir && (dir + rel)[|dir|] == name;
    assert dir !in active;
    var k := Position(env.fs[dir].names, name);
    ChildNotRaised(env, dir, 0, dest, active + {dir}, k);
    EntryHasFile(env, dir, name, dest, active, rel);
    ChildWritten(env, dir, 0, dest, active + {dir}, k, w);
  }

  lemma {:induction false} EntryHasFile(env: Env, dir: Path, name: string, dest: Path, active: set<Path>, rel: Path)
    requires WellFormed(env) && IsDir(env, dir) && dest != []
    requires rel != [] && rel[0] == name && IsFile(env, dir + rel) && ClearBelow(active, dir)
    requires !EntryEffect(env, dir + [name], dest + [name], active + {dir}).raised
    ensures Write(dest + rel, dir + rel, env.fs[dir + rel].content)
            in EntryEffect(env, dir + [name], dest + [name], active + {dir}).writes
    decreases |rel|, 0
  {
    hide WellFormed, SidecarsEffect, TreeEffect;
    var src := dir + [name];
    if |rel| == 1 {
      assert rel == [name];
    } else {
      ParentsAreDirs(env, dir + rel, |dir| + 1);
      assert (dir + rel)[..|dir| + 1] == src;
      assert src + rel[1..] == dir + rel && dest + [name] + rel[1..] == dest + rel;
      assert ClearBelow(active + {dir}, src);
      RealFileCopied(env, src, dest + [name], active + {dir}, rel[1..]);
    }
  }

  lemma {:induction false} ChildNotRaised(env: Env, dir: Path, from: nat, dest: Path, active: set<Path>, k: nat)
    requires IsDir(env, dir) && dest != [] && from <= k < |env.fs[dir].names|
    requires !ChildrenEffect(env, dir, from, dest, active).raised
    ensures !EntryEffect(env, dir + [env.fs[dir].names[k]], dest + [env.fs[dir].names[k]], active).raised
    decreases k - from
  {
    if from < k { ChildNotRaised(env, dir, from + 1, dest, active, k); }
  }

  lemma {:induction false} ChildWritten(env: Env, dir: Path, from: nat, dest: Path, active: set<Path>, k: nat, w: Write)
    requires IsDir(env, dir) && dest != [] && from <= k < |env.fs[dir].names|
    requires !ChildrenEffect(env, dir, from, dest, active).raised
    requires w in EntryEffect(env, dir + [env.fs[dir].names[k]], dest + [env.fs[dir].names[k]], active).writes
    ensures w in ChildrenEffect(env, dir, from, dest, active).writes
    decreases k - from
  {
    if from < k { ChildWritten(env, dir, from + 1, dest, active, k, w); }
  }

  // ---- The directories entered, and the links skipped -----------------------------------------

  ghost predicate StepsInto(env: Env, e: Path, name: string, t: Path) {
    IsDir(env, e) && name in env.fs[e].names && Step(env, e, name) == Some(t)
  }

  /** Every step from an entered directory leads to an entered one or back onto the active stack. */
  ghost predicate Closed(env: Env, entered: seq<Path>, active: set<Path>) {
    forall e, name, t :: e in entered && StepsInto(env, e, name, t) ==> t in entered || t in active
  }

  ghost predicate OutsideLink(env: Env, p: Path) {
    p in env.fs && env.fs[p].Link? && env.fs[p].target.At? && !Inside(env, env.fs[p].target.path)
  }

  ghost predicate LinkOf(env: Env, e: Path, name: string, p: Path) {
    IsDir(env, e) && name in env.fs[e].names && p == e + [name] && OutsideLink(env, p)
  }

  /** The skipped links are exactly the outside links listed in the entered directories. */
  ghost predicate SkipsExactly(env: Env, entered: seq<Path>, skipped: seq<Path>) {
    && (forall p :: p in skipped ==> exists e, name :: e in entered && LinkOf(env, e, name, p))
    && (forall e, name, p :: e in entered && LinkOf(env, e, name, p) ==> p in skipped)
  }

  lemma {:induction false} TreeClosed(env: Env, dir: Path, dest: Path, active: set<Path>)
    requires IsDir(env, dir) && dest != [] && !TreeEffect(env, dir, dest, active).raised
    ensures var x := TreeEffect(env, dir, dest, active);
      (dir in x.entered || dir in active) && Closed(env, x.entered, active) && SkipsExactly(env, x.entered, x.skipped)
    decreases Dirs(env) - active, 0, 0
  {
    if dir !in active {
      assert dir in Dirs(env) - active && dir !in Dirs(env) - (active + {dir});
      var c := ChildrenEffect(env, dir, 0, dest, active + {dir});
      assert TreeEffect(env, dir, dest, active).entered == [dir] + c.entered;
      assert TreeEffect(env, dir, dest, active).skipped == [] + c.skipped;
      hide TreeEffect, ChildrenEffect, EntryEffect;
      ChildrenClosed(env, dir, 0, dest, active + {dir});
      AddDirectory(env, dir, c.entered, c.skipped, active);
    }
  }

  /** What holds of the children from the k-th on. */
  ghost predicate ChildrenDone(env: Env, dir: Path, k: nat, entered: seq<Path>, skipped: seq<Path>, active: set<Path>)
    requires IsDir(env, dir)
  {
    && Closed(env, entered, active)
    && (forall j, t :: k <= j < |env.fs[dir].names| && StepsInto(env, dir, env.fs[dir].names[j], t) ==> t in entered || t in active)
    && (forall p :: p in skipped ==>
      (exists e, name :: e in entered && LinkOf(env, e, name, p))
      || (exists j :: k <= j < |env.fs[dir].names| && LinkOf(env, dir, env.fs[dir].names[j], p)))
    && (forall e, name, p :: e in entered && LinkOf(env, e, name, p) ==> p in skipped)
    && (forall j, p :: k <= j < |env.fs[dir].names| && LinkOf(env, dir, env.fs[dir].names[j], p) ==> p in skipped)
  }

  lemma AddDirectory(env: Env, dir: Path, entered: seq<Path>, skipped: seq<Path>, active: set<Path>)
    requires IsDir(env, dir) && ChildrenDone(env, dir, 0, entered, skipped, active + {dir})
    ensures Closed(env, [dir] + entered, active) && SkipsExactly(env, [dir] + entered, [] + skipped)
  {
    var all := [dir] + entered;
    assert forall e :: e in all <==> e == dir || e in entered;
    forall e, name, t | e in all && StepsInto(env, e, name, t) ensures t in all || t in active {
      if e == dir { var j := Position(env.fs[dir].names, name); }
    }
    forall e, name, p | e in all && LinkOf(env, e, name, p) ensures p in skipped {
      if e == dir { var j := Position(env.fs[dir].names, name); }
    }
    forall p | p in skipped ensures exists e, name :: e in all && LinkOf(env, e, name, p) {
      if e, name :| e in entered && LinkOf(env, e, name, p) {
        assert e in all;
      } else {
        var j :| 0 <= j < |env.fs[dir].names| && LinkOf(env, dir, env.fs[dir].names[j], p);
        assert dir in all;
      }
    }
  }

  /** What one entry of directory d contributes. */
  ghost predicate EntryDone(env: Env, d: Path, name: string, entered: seq<Path>, skipped: seq<Path>, active: set<Path>) {
    && Closed(env, entered, active)
    && (forall t :: StepsInto(env, d, name, t) ==> t in entered || t in active)
    && (forall p :: p in skipped ==> (exists e, n :: e in entered && LinkOf(env, e, n, p)) || LinkOf(env, d, name, p))
    && (forall e, n, p :: e in entered && LinkOf(env, e, n, p) ==> p in skipped)
    && (forall p :: LinkOf(env, d, name, p) ==> p in skipped)
  }

  lemma {:induction false} ChildrenClosed(env: Env, dir: Path, k: nat, dest: Path, active: set<Path>)
    requires IsDir(env, dir) && dest != [] && k <= |env.fs[dir].names|
    requires !ChildrenEffect(env, dir, k, dest, active).raised
    ensures var x := ChildrenEffect(env, dir, k, dest, active);
      ChildrenDone(env, dir, k, x.entered, x.skipped, active)
    decreases Dirs(env) - active, 2, |env.fs[dir].names| - k
  {
    if k < |env.fs[dir].names| {
      var name := env.fs[dir].names[k];
      var a := EntryEffect(env, dir + [name], dest + [name], active);
      var b := ChildrenEffect(env, dir, k + 1, dest, active);
      assert ChildrenEffect(env, dir, k, dest, active) == Then(a, b);
      hide ChildrenEffect, EntryEffect;
      EntryClosed(env, dir, name, dest, active);
      ChildrenClosed(env, dir, k + 1, dest, active);
      JoinDone(env, dir, k, a.entered, a.skipped, b.entered, b.skipped, active);
    }
  }

  lemma JoinDone(env: Env, dir: Path, k: nat, e1: seq<Path>, s1: seq<Path>, e2: seq<Path>, s2: seq<Path>, active: set<Path>)
    requires IsDir(env, dir) && k < |env.fs[dir].names|
    requires EntryDone(env, dir, env.fs[dir].names[k], e1, s1, active)
    requires ChildrenDone(env, dir, k + 1, e2, s2, active)
    ensures ChildrenDone(env, dir, k, e1 + e2, s1 + s2, active)
  {
    hide LinkOf, StepsInto;
    assert forall e :: e in e1 + e2 <==> e in e1 || e in e2;
    assert forall p :: p in s1 + s2 <==> p in s1 || p in s2;
    forall p | p in s1 + s2
      ensures (exists e, name :: e in e1 + e2 && LinkOf(env, e, name, p))
        || (exists j :: k <= j < |env.fs[dir].names| && LinkOf(env, dir, env.fs[dir].names[j], p))
    {
      if p in s1 {
        if e, n :| e in e1 && LinkOf(env, e, n, p) { assert e in e1 + e2; }
      } else {
        if e, n :| e in e2 && LinkOf(env, e, n, p) {
          assert e in e1 + e2;
        } else {
          var j :| k + 1 <= j < |env.fs[dir].names| && LinkOf(env, dir, env.fs[dir].names[j], p);
        }
      }
    }
  }

  lemma {:induction false} EntryClosed(env: Env, d: Path, name: string, dst: Path, active: set<Path>)
    requires IsDir(env, d) && name in env.fs[d].names
    requires !EntryEffect(env, d + [name], dst + [name], active).raised
    ensures var x := EntryEffect(env, d + [name], dst + [name], active);
      EntryDone(env, d, name, x.entered, x.skipped, active)
    decreases Dirs(env) - active, 1, 0
  {
    var src, dest := d + [name], dst + [name];
    if IsDir(env, src) {
      TreeClosed(env, src, dest, active);
    } else if src in env.fs && env.fs[src].Link? && env.fs[src].target.At?
              && Inside(env, env.fs[src].target.path) && IsDir(env, env.fs[src].target.path) {
      TreeClosed(env, env.fs[src].target.path, dest, active);
    }
  }

  /** Entered directories are reached by walking. */
  ghost predicate Reached(env: Env, d: Path, e: Path)
    requires IsDir(env, d)
  {
    exists rel :: DirAt(env, d, rel) == Some(e)
  }

  lemma ReachedBelow(env: Env, d: Path, name: string, e: Path)
    requires IsDir(env, d) && Step(env, d, name).Some? && Reached(env, Step(env, d, name).value, e)
    ensures Reached(env, d, e)
  {
    var rel :| DirAt(env, Step(env, d, name).value, rel) == Some(e);
    assert ([name] + rel)[1..] == rel;
    assert DirAt(env, d, [name] + rel) == Some(e);
  }

  lemma {:induction false} TreeEnters(env: Env, dir: Path, dest: Path, active: set<Path>)
    requires IsDir(env, dir) && dest != []
    ensures forall e :: e in TreeEffect(env, dir, dest, active).entered ==> Reached(env, dir, e)
    decreases Dirs(env) - active, 0, 0
  {
    assert DirAt(env, dir, []) == Some(dir);
    if dir !in active {
      assert dir in Dirs(env) - active && dir !in Dirs(env) - (active + {dir});
      ChildrenEnter(env, dir, 0, dest, active + {dir});
    }
  }

  lemma {:induction false} ChildrenEnter(env: Env, dir: Path, k: nat, dest: Path, active: set<Path>)
    requires IsDir(env, dir) && dest != [] && k <= |env.fs[dir].names|
    ensures forall e :: e in ChildrenEffect(env, dir, k, dest, active).entered ==> Reached(env, dir, e)
    decreases Dirs(env) - active, 2, |env.fs[dir].names| - k
  {
    if k < |env.fs[dir].names| {
      EntryEnters(env, dir, env.fs[dir].names[k], dest, active);
      ChildrenEnter(env, dir, k + 1, dest, active);
      hide Reached, EntryEffect;
    }
  }

  lemma {:induction false} EntryEnters(env: Env, d: Path, name: string, dst: Path, active: set<Path>)
    requires IsDir(env, d) && name in env.fs[d].names
    ensures forall e :: e in EntryEffect(env, d + [name], dst + [name], active).entered ==> Reached(env, d, e)
    decreases Dirs(env) - active, 1, 0
  {
    var src, dest := d + [name], dst + [name];
    var t := Step(env, d, name);
    if t.Some? {
      TreeEnters(env, t.value, dest, active);
      forall e | e in TreeEffect(env, t.value, dest, active).entered ensures Reached(env, d, e) {
        ReachedBelow(env, d, name, e);
      }
    }
  }

  lemma {:induction false} WalkStaysIn(env: Env, d: Path, entered: seq<Path>, rel: Path)
    requires IsDir(env, d) && d in entered && Closed(env, entered, {})
    requires DirAt(env, d, rel).Some?
    ensures DirAt(env, d, rel).value in entered
    decreases |rel|
  {
    if rel != [] {
      var t := Step(env, d, rel[0]).value;
      assert StepsInto(env, d, rel[0], t);
      WalkStaysIn(env, t, entered, rel[1..]);
    }
  }

  /** Despite cycles the copier enters exactly the directories reachable through children and links
      that stay inside the root, and records exactly the links in them that lead outside. */
  lemma EntersAndSkipsExactly(env: Env, dir: Path, dest: Path)
    requires IsDir(env, dir) && dest != [] && !TreeEffect(env, dir, dest, {}).raised
    ensures var x := TreeEffect(env, dir, dest, {});
      (forall e :: e in x.entered <==> Reached(env, dir, e)) && SkipsExactly(env, x.entered, x.skipped)
  {
    var x := TreeEffect(env, dir, dest, {});
    TreeClosed(env, dir, dest, {});
    TreeEnters(env, dir, dest, {});
    forall e | Reached(env, dir, e) ensures e in x.entered {
      var rel :| DirAt(env, dir, rel) == Some(e);
      WalkStaysIn(env, dir, x.entered, rel);
    }
  }

  // ---- Only files inside the root ---------------------------------------------------------------

  /** A side file of a database that is really a link to a file outside the root. */
  ghost predicate EscapingSidecar(env: Env, e: Path, name: string) {
    && IsDir(env, e) && name in env.fs[e].names && IsSidecarName(env, e, name)
    && RegularFile(env, e + [name]).Some?
    && RegularFile(env, e + [name]).value != e + [name] && !Inside(env, RegularFile(env, e + [name]).value)
  }

  lemma {:induction false} FileAtSplits(env: Env, d: Path, rel: Path)
    requires IsDir(env, d) && FileAt(env, d, rel).Some?
    ensures rel != []
    ensures var e := DirAt(env, d, rel[..|rel| - 1]);
      e.Some? && IsDir(env, e.value) && Reads(env, e.value, rel[|rel| - 1]) == FileAt(env, d, rel)
    decreases |rel|
  {
    var n := |rel| - 1;
    if |rel| == 1 {
      assert rel[..n] == [];
    } else {
      FileAtSplits(env, Step(env, d, rel[0]).value, rel[1..]);
      assert rel[..n][1..] == rel[1..][..n - 1] && rel[..n][0] == rel[0];
    }
  }

  lemma {:induction false} WalkStaysInside(env: Env, d: Path, rel: Path)
    requires IsDir(env, d) && Inside(env, d) && DirAt(env, d, rel).Some?
    ensures Inside(env, DirAt(env, d, rel).value) && IsDir(env, DirAt(env, d, rel).value)
    decreases |rel|
  {
    if rel != [] { WalkStaysInside(env, Step(env, d, rel[0]).value, rel[1..]); }
  }

  /** Every child of an entered directory is copied somewhere. */
  lemma {:induction false} ChildCopied(env: Env, dir: Path, dest: Path, active: set<Path>, e: Path, base: string)
    returns (dst: Path, act: set<Path>)
    requires IsDir(env, dir) && dest != [] && !TreeEffect(env, dir, dest, active).raised
    requires e in TreeEffect(env, dir, dest, active).entered
    requires IsDir(env, e) && base in env.fs[e].names
    ensures dst != []
    ensures var x := EntryEffect(env, e + [base], dst, act);
      !x.raised && forall w :: w in x.writes ==> w in TreeEffect(env, dir, dest, active).writes
    decreases Dirs(env) - active, 0, 0
  {
    assert dir !in active;
    assert dir in Dirs(env) - active && dir !in Dirs(env) - (active + {dir});
    var active' := active + {dir};
    hide SidecarsEffect;
    if e == dir {
      var k := Position(env.fs[dir].names, base);
      dst, act := dest + [base], active';
      ChildNotRaised(env, dir, 0, dest, active', k);
      forall w | w in EntryEffect(env, dir + [base], dst, active').writes
        ensures w in ChildrenEffect(env, dir, 0, dest, active').writes
      {
        ChildWritten(env, dir, 0, dest, active', k, w);
      }
    } else {
      var k := ChildThatEntered(env, dir, 0, dest, active', e);
      var name := env.fs[dir].names[k];
      ChildNotRaised(env, dir, 0, dest, active', k);
      var t := if IsDir(env, dir + [name]) then dir + [name] else env.fs[dir + [name]].target.path;
      assert EntryEffect(env, dir + [name], dest + [name], active') == TreeEffect(env, t, dest + [name], active');
      dst, act := ChildCopied(env, t, dest + [name], active', e, base);
      var x := EntryEffect(env, e + [base], dst, act);
      forall w | w in x.writes ensures w in ChildrenEffect(env, dir, 0, dest, active').writes {
        ChildWritten(env, dir, 0, dest, active', k, w);
      }
    }
  }

  /** Every database of an entered directory is copied together with its side files. */
  lemma SidecarsCopied(env: Env, dir: Path, dest: Path, active: set<Path>, e: Path, base: string) returns (dst: Path)
    requires IsDir(env, dir) && dest != [] && !TreeEffect(env, dir, dest, active).raised
    requires e in TreeEffect(env, dir, dest, active).entered
    requires IsDir(env, e) && base in env.fs[e].names && IsFile(env, e + [base])
    ensures dst != []
    ensures var x := Then(CopyFileEffect(env, e + [base], dst), SidecarsEffect(env, e + [base], dst));
      !x.raised && forall w :: w in x.writes ==> w in TreeEffect(env, dir, dest, active).writes
  {
    var act;
    dst, act := ChildCopied(env, dir, dest, active, e, base);
    hide TreeEffect, SidecarsEffect, CopyFileEffect;
  }

  lemma {:induction false} ChildThatEntered(env: Env, dir: Path, from: nat, dest: Path, active: set<Path>, e: Path) returns (k: nat)
    requires IsDir(env, dir) && dest != [] && from <= |env.fs[dir].names|
    requires !ChildrenEffect(env, dir, from, dest, active).raised
    requires e in ChildrenEffect(env, dir, from, dest, active).entered
    ensures from <= k < |env.fs[dir].names|
    ensures e in EntryEffect(env, dir + [env.fs[dir].names[k]], dest + [env.fs[dir].names[k]], active).entered
    decreases |env.fs[dir].names| - from
  {
    if e in EntryEffect(env, dir + [env.fs[dir].names[from]], dest + [env.fs[dir].names[from]], active).entered {
      k := from;
    } else {
      k := ChildThatEntered(env, dir, from + 1, dest, active, e);
    }
  }

  lemma SidecarWritten(env: Env, e: Path, base: string, name: string, dst: Path)
    requires IsDir(env, e) && base in env.fs[e].names && IsFile(env, e + [base]) && IsDatabase(base) && dst != []
    requires name == base + "-wal" || name == base + "-shm"
    requires RegularFile(env, e + [name]).Some?
    requires !Then(CopyFileEffect(env, e + [base], dst), SidecarsEffect(env, e + [base], dst)).raised
    ensures exists w ::
      w in Then(CopyFileEffect(env, e + [base], dst), SidecarsEffect(env, e + [base], dst)).writes
      && w.source == RegularFile(env, e + [name]).value
  {
    var src := e + [base];
    var f := RegularFile(env, e + [name]).value;
    var suffix := if name == base + "-wal" then "-wal" else "-shm";
    assert src[|src| - 1] == base && WithSuffix(src, suffix) == e + [name];
    var w := Write(WithSuffix(dst, suffix), f, env.fs[f].content);
    assert w in SidecarEffect(env, src, dst, suffix).writes;
    hide SidecarEffect, IsDatabase, RegularFile, WithSuffix, CopyFileEffect;
  }

  /** The copier writes only content of regular files inside the root, exactly if no reachable database
      has a side file that is a link leaving the root: side files are copied through links unchecked. */
  lemma WritesInsideIff(env: Env, dir: Path, dest: Path)
    requires WellFormed(env) && IsDir(env, dir) && Inside(env, dir) && dest != []
    requires !TreeEffect(env, dir, dest, {}).raised
    ensures (forall w :: w in TreeEffect(env, dir, dest, {}).writes ==> IsFile(env, w.source) && Inside(env, w.source))
      <==> (forall e, name :: Reached(env, dir, e) ==> !EscapingSidecar(env, e, name))
  {
    var x := TreeEffect(env, dir, dest, {});
    if forall e, name :: Reached(env, dir, e) ==> !EscapingSidecar(env, e, name) {
      forall w | w in x.writes ensures IsFile(env, w.source) && Inside(env, w.source) {
        InsideWithoutEscapes(env, dir, dest, w);
      }
    }
    if e, name :| Reached(env, dir, e) && EscapingSidecar(env, e, name) {
      var w := EscapeIsWritten(env, dir, dest, e, name);
    }
  }

  lemma InsideWithoutEscapes(env: Env, dir: Path, dest: Path, w: Write)
    requires WellFormed(env) && IsDir(env, dir) && Inside(env, dir) && dest != []
    requires w in TreeEffect(env, dir, dest, {}).writes
    requires forall e, name :: Reached(env, dir, e) ==> !EscapingSidecar(env, e, name)
    ensures IsFile(env, w.source) && Inside(env, w.source)
  {
    hide TreeEffect, WellFormed, RegularFile, IsSidecarName;
    TreeWritesGood(env, dir, dest, {});
    var rel := w.dest[|dest|..];
    FileAtSplits(env, dir, rel);
    WalkStaysInside(env, dir, rel[..|rel| - 1]);
    var e := DirAt(env, dir, rel[..|rel| - 1]).value;
    assert Reached(env, dir, e);
    assert !EscapingSidecar(env, e, rel[|rel| - 1]);
  }

  lemma EscapeIsWritten(env: Env, dir: Path, dest: Path, e: Path, name: string) returns (w: Write)
    requires IsDir(env, dir) && dest != [] && !TreeEffect(env, dir, dest, {}).raised
    requires Reached(env, dir, e) && EscapingSidecar(env, e, name)
    ensures w in TreeEffect(env, dir, dest, {}).writes && !Inside(env, w.source)
  {
    EntersAndSkipsExactly(env, dir, dest);
    var base :| base in env.fs[e].names && IsFile(env, e + [base]) && IsDatabase(base)
      && (name == base + "-wal" || name == base + "-shm");
    hide TreeEffect, SidecarsEffect, CopyFileEffect, IsDatabase;
    var dst := SidecarsCopied(env, dir, dest, {}, e, base);
    SidecarWritten(env, e, base, name, dst);
    w :| w in Then(CopyFileEffect(env, e + [base], dst), SidecarsEffect(env, e + [base], dst)).writes
      && w.source == RegularFile(env, e + [name]).value;
  }

  // ---- What the destination holds afterwards -------------------------------------------------------

  lemma {:induction false} AppliedAt(disk: map<Path, Content>, writes: seq<Write>, q: Path, c: Content)
    requires exists w :: w in writes && w.dest == q
    requires forall w :: w in writes && w.dest == q ==> w.content == c
    ensures q in Apply(disk, writes) && Apply(disk, writes)[q] == c
  {
    var n := |writes| - 1;
    assert writes == writes[..n] + [writes[n]];
    if writes[n].dest != q {
      var w :| w in writes && w.dest == q;
      assert w in writes[..n];
      AppliedAt(disk, writes[..n], q, c);
    } else {
      assert writes[n] in writes;
    }
  }

  lemma {:induction false} AppliedElsewhere(disk: map<Path, Content>, writes: seq<Write>, q: Path)
    requires forall w :: w in writes ==> w.dest != q
    ensures q in Apply(disk, writes) <==> q in disk
    ensures q in disk ==> Apply(disk, writes)[q] == disk[q]
  {
    if writes != [] {
      var n := |writes| - 1;
      assert writes[n] in writes;
      assert forall w :: w in writes[..n] ==> w in writes;
      AppliedElsewhere(disk, writes[..n], q);
    }
  }

  /** The destination of one directory copy: every real file of the source is there with its content,
      and whatever else was put there is a file the walk finds at that place. */
  lemma TreeSnapshot(env: Env, dir: Path, dest: Path, disk: map<Path, Content>)
    requires WellFormed(env) && IsDir(env, dir) && dest != [] && !TreeEffect(env, dir, dest, {}).raised
    ensures var out := Apply(disk, TreeEffect(env, dir, dest, {}).writes);
      && (forall rel :: rel != [] && IsFile(env, dir + rel) ==>
        dest + rel in out && out[dest + rel] == env.fs[dir + rel].content)
      && (forall q :: q in out ==>
        (q in disk && out[q] == disk[q])
        || (dest <= q && FileAt(env, dir, q[|dest|..]).Some? && IsFile(env, FileAt(env, dir, q[|dest|..]).value)
            && out[q] == env.fs[FileAt(env, dir, q[|dest|..]).value].content))
  {
    var writes := TreeEffect(env, dir, dest, {}).writes;
    var out := Apply(disk, writes);
    forall rel | rel != [] && IsFile(env, dir + rel)
      ensures dest + rel in out && out[dest + rel] == env.fs[dir + rel].content
    {
      RealFileCopied(env, dir, dest, {}, rel);
      WrittenAsGood(env, dir, dest, disk, Write(dest + rel, dir + rel, env.fs[dir + rel].content));
    }
    forall q | q in out
      ensures (q in disk && out[q] == disk[q])
        || (dest <= q && FileAt(env, dir, q[|dest|..]).Some? && IsFile(env, FileAt(env, dir, q[|dest|..]).value)
            && out[q] == env.fs[FileAt(env, dir, q[|dest|..]).value].content)
    {
      if w :| w in writes && w.dest == q {
        WrittenAsGood(env, dir, dest, disk, w);
      } else {
        AppliedElsewhere(disk, writes, q);
      }
    }
  }

  /** Two writes to one place put the same content there. */
  lemma WrittenAsGood(env: Env, dir: Path, dest: Path, disk: map<Path, Content>, w: Write)
    requires WellFormed(env) && IsDir(env, dir) && dest != []
    requires w in TreeEffect(env, dir, dest, {}).writes
    ensures GoodWrite(env, dir, dest, w)
    ensures var out := Apply(disk, TreeEffect(env, dir, dest, {}).writes); w.dest in out && out[w.dest] == w.content
  {
    TreeWritesGood(env, dir, dest, {});
    hide TreeEffect, FileAt, Apply;
    AppliedAt(disk, TreeEffect(env, dir, dest, {}).writes, w.dest, w.content);
  }

  // ---- Trees without links ---------------------------------------------------------------------------

  ghost predicate LinkFree(env: Env, dir: Path) {
    forall p :: p in env.fs && dir <= p ==> !env.fs[p].Link?
  }

  lemma LinkFreeBelow(env: Env, dir: Path, sub: Path)
    requires LinkFree(env, dir) && dir <= sub
    ensures LinkFree(env, sub)
  {
    forall p | p in env.fs && sub <= p ensures dir <= p {}
  }

  lemma {:induction false} LinkFreeWalk(env: Env, dir: Path, rel: Path)
    requires IsDir(env, dir) && LinkFree(env, dir)
    ensures FileAt(env, dir, rel).Some? ==> FileAt(env, dir, rel).value == dir + rel && IsFile(env, dir + rel) && rel != []
    ensures DirAt(env, dir, rel).Some? ==> DirAt(env, dir, rel).value == dir + rel && IsDir(env, dir + rel)
    decreases |rel|
  {
    if rel == [] {
      assert dir + rel == dir;
    } else {
      assert dir <= dir + [rel[0]];
      if |rel| == 1 { assert rel == [rel[0]]; }
      var t := Step(env, dir, rel[0]);
      if t.Some? {
        assert t.value == dir + [rel[0]];
        LinkFreeBelow(env, dir, t.value);
        LinkFreeWalk(env, t.value, rel[1..]);
        assert t.value + rel[1..] == dir + rel;
      }
    }
  }

  /** A link-free tree is reproduced exactly: the same files with the same content, nothing else, and
      nothing is recorded as skipped. */
  lemma LinkFreeCopyExact(env: Env, dir: Path, dest: Path)
    requires WellFormed(env) && IsDir(env, dir) && LinkFree(env, dir) && dest != []
    requires !TreeEffect(env, dir, dest, {}).raised
    ensures var x := TreeEffect(env, dir, dest, {});
      var out := Apply(map[], x.writes);
      && (forall q :: q in out <==> dest <= q && q != dest && IsFile(env, dir + q[|dest|..]))
      && (forall q :: q in out ==> out[q] == env.fs[dir + q[|dest|..]].content)
      && x.skipped == []
  {
    NothingSkipped(env, dir, dest);
    hide *;
    forall q ensures ExactAt(env, dir, dest, q) {
      CopyExactAt(env, dir, dest, q);
    }
    ExactEverywhere(env, dir, dest);
  }

  ghost predicate ExactAt(env: Env, dir: Path, dest: Path, q: Path)
    requires IsDir(env, dir) && dest != []
  {
    var out := Apply(map[], TreeEffect(env, dir, dest, {}).writes);
    if dest <= q && q != dest && IsFile(env, dir + q[|dest|..]) then
      q in out && out[q] == env.fs[dir + q[|dest|..]].content
    else
      q !in out
  }

  lemma ExactEverywhere(env: Env, dir: Path, dest: Path)
    requires IsDir(env, dir) && dest != [] && forall q :: ExactAt(env, dir, dest, q)
    ensures var out := Apply(map[], TreeEffect(env, dir, dest, {}).writes);
      && (forall q :: q in out <==> dest <= q && q != dest && IsFile(env, dir + q[|dest|..]))
      && (forall q :: q in out ==> out[q] == env.fs[dir + q[|dest|..]].content)
  {
    hide TreeEffect, Apply;
    var out := Apply(map[], TreeEffect(env, dir, dest, {}).writes);
    forall q
      ensures q in out <==> dest <= q && q != dest && IsFile(env, dir + q[|dest|..])
      ensures q in out ==> out[q] == env.fs[dir + q[|dest|..]].content
    {
      assert ExactAt(env, dir, dest, q);
    }
  }

  lemma CopyExactAt(env: Env, dir: Path, dest: Path, q: Path)
    requires WellFormed(env) && IsDir(env, dir) && LinkFree(env, dir) && dest != []
    requires !TreeEffect(env, dir, dest, {}).raised
    ensures ExactAt(env, dir, dest, q)
  {
    hide WellFormed, LinkFree, TreeEffect, Apply, FileAt;
    var writes := TreeEffect(env, dir, dest, {}).writes;
    var rel := if dest <= q then q[|dest|..] else [];
    if dest <= q && q != dest && IsFile(env, dir + rel) {
      assert q == dest + rel;
      RealFileCopied(env, dir, dest, {}, rel);
      WrittenAsGood(env, dir, dest, map[], Write(dest + rel, dir + rel, env.fs[dir + rel].content));
    } else {
      forall w | w in writes ensures w.dest != q {
        WrittenAsGood(env, dir, dest, map[], w);
        LinkFreeWalk(env, dir, w.dest[|dest|..]);
      }
      AppliedElsewhere(map[], writes, q);
    }
  }

  lemma NothingSkipped(env: Env, dir: Path, dest: Path)
    requires IsDir(env, dir) && LinkFree(env, dir) && dest != []
    requires !TreeEffect(env, dir, dest, {}).raised
    ensures TreeEffect(env, dir, dest, {}).skipped == []
  {
    var x := TreeEffect(env, dir, dest, {});
    EntersAndSkipsExactly(env, dir, dest);
    hide TreeEffect;
    if x.skipped != [] {
      var p := x.skipped[0];
      assert p in x.skipped;
      var e, name :| e in x.entered && LinkOf(env, e, name, p);
      var rel :| DirAt(env, dir, rel) == Some(e);
      LinkFreeWalk(env, dir, rel);
    }
  }

  // ---- The directories made for a link-free tree --------------------------------------------------------

  /** q is the copy of a directory at or below dir. */
  predicate MakesAt(env: Env, dir: Path, dest: Path, q: Path) {
    dest <= q && IsDir(env, dir + q[|dest|..])
  }

  /** dir may be on the active stack, nothing below it is. */
  ghost predicate ClearUnder(active: set<Path>, dir: Path) {
    forall a :: a in active && dir <= a ==> a == dir
  }

  ghost predicate ChildMakes(env: Env, dir: Path, j: nat, dest: Path, q: Path)
    requires IsDir(env, dir) && j < |env.fs[dir].names|
  {
    MakesAt(env, dir + [env.fs[dir].names[j]], dest + [env.fs[dir].names[j]], q)
  }

  /** Below a directory lies what lies at or below its children. */
  lemma MakesSplit(env: Env, dir: Path, dest: Path, q: Path)
    requires WellFormed(env) && IsDir(env, dir)
    ensures MakesAt(env, dir, dest, q) <==> q == dest || exists j :: 0 <= j < |env.fs[dir].names| && ChildMakes(env, dir, j, dest, q)
  {
    hide WellFormed;
    var names := env.fs[dir].names;
    if q == dest { assert dir + q[|dest|..] == dir; }
    if MakesAt(env, dir, dest, q) && q != dest {
      var rel := q[|dest|..];
      ParentsAreDirs(env, dir + rel, |dir|);
      assert (dir + rel)[..|dir|] == dir && (dir + rel)[|dir|] == rel[0];
      var j := Position(names, rel[0]);
      assert q[..|dest| + 1] == dest + [names[j]];
      assert dir + [names[j]] + q[|dest| + 1..] == dir + rel;
      assert ChildMakes(env, dir, j, dest, q);
    }
    forall j | 0 <= j < |names| && ChildMakes(env, dir, j, dest, q) ensures MakesAt(env, dir, dest, q) {
      var deeper := dest + [names[j]];
      assert dest <= deeper && dir + [names[j]] + q[|deeper|..] == dir + q[|dest|..];
    }
  }

  lemma OnlyDirsHoldDirs(env: Env, p: Path, dst: Path, q: Path)
    requires WellFormed(env) && MakesAt(env, p, dst, q)
    ensures IsDir(env, p)
  {
    hide WellFormed;
    var rel := q[|dst|..];
    if rel == [] {
      assert p + rel == p;
    } else {
      ParentsAreDirs(env, p + rel, |p|);
      assert (p + rel)[..|p|] == p;
    }
  }

  lemma {:induction false} TreeMakes(env: Env, dir: Path, dest: Path, active: set<Path>, q: Path)
    requires WellFormed(env) && IsDir(env, dir) && LinkFree(env, dir) && dest != [] && ClearBelow(active, dir)
    requires !TreeEffect(env, dir, dest, active).raised
    ensures q in TreeEffect(env, dir, dest, active).made <==> MakesAt(env, dir, dest, q)
    decreases Dirs(env) - active, 0, 0
  {
    assert dir in Dirs(env) - active && dir !in Dirs(env) - (active + {dir});
    assert ClearUnder(active + {dir}, dir);
    hide WellFormed, LinkFree, MakesAt, ChildrenEffect, Dirs, ChildMakes;
    ChildrenMake(env, dir, 0, dest, active + {dir}, q);
    MakesSplit(env, dir, dest, q);
  }

  lemma {:induction false} ChildrenMake(env: Env, dir: Path, k: nat, dest: Path, active: set<Path>, q: Path)
    requires WellFormed(env) && IsDir(env, dir) && LinkFree(env, dir) && dest != [] && ClearUnder(active, dir)
    requires k <= |env.fs[dir].names| && !ChildrenEffect(env, dir, k, dest, active).raised
    ensures q in ChildrenEffect(env, dir, k, dest, active).made <==>
      exists j :: k <= j < |env.fs[dir].names| && ChildMakes(env, dir, j, dest, q)
    decreases Dirs(env) - active, 2, |env.fs[dir].names| - k
  {
    hide WellFormed, LinkFree, EntryEffect, Dirs, ClearUnder, MakesAt;
    if k < |env.fs[dir].names| {
      ListedIsThere(env, dir, env.fs[dir].names[k]);
      EntryMakes(env, dir, k, dest, active, q);
      ChildrenMake(env, dir, k + 1, dest, active, q);
      hide ChildMakes;
      if ChildMakes(env, dir, k, dest, q) { assert k <= k; }
    }
  }

  lemma {:induction false} EntryMakes(env: Env, dir: Path, k: nat, dest: Path, active: set<Path>, q: Path)
    requires WellFormed(env) && IsDir(env, dir) && LinkFree(env, dir) && dest != [] && ClearUnder(active, dir)
    requires k < |env.fs[dir].names| && dir + [env.fs[dir].names[k]] in env.fs
    requires !EntryEffect(env, dir + [env.fs[dir].names[k]], dest + [env.fs[dir].names[k]], active).raised
    ensures q in EntryEffect(env, dir + [env.fs[dir].names[k]], dest + [env.fs[dir].names[k]], active).made
      <==> ChildMakes(env, dir, k, dest, q)
    decreases Dirs(env) - active, 1, 0
  {
    var src, dst := dir + [env.fs[dir].names[k]], dest + [env.fs[dir].names[k]];
    assert dir <= src && dir != src;
    LinkFreeBelow(env, dir, src);
    assert !env.fs[src].Link?;
    EntryMade(env, src, dst, active);
    hide TreeEffect, EntryEffect, WellFormed, LinkFree, MakesAt, Dirs;
    if IsDir(env, src) {
      ClearChild(active, dir, src);
      TreeMakes(env, src, dst, active, q);
    } else if MakesAt(env, src, dst, q) {
      OnlyDirsHoldDirs(env, src, dst, q);
    }
  }

  lemma EntryMade(env: Env, src: Path, dst: Path, active: set<Path>)
    requires src != [] && dst != [] && src in env.fs && !env.fs[src].Link?
    ensures IsDir(env, src) ==> EntryEffect(env, src, dst, active) == TreeEffect(env, src, dst, active)
    ensures !IsDir(env, src) ==> EntryEffect(env, src, dst, active).made == []
  {
    hide TreeEffect;
  }

  lemma ClearChild(active: set<Path>, dir: Path, src: Path)
    requires ClearUnder(active, dir) && dir <= src && dir != src
    ensures ClearBelow(active, src)
  {
    forall a | a in active ensures !(src <= a) { NotBelowItself(dir, src, a); }
  }

  lemma NotBelowItself(dir: Path, src: Path, a: Path)
    requires dir <= src && dir != src && (dir <= a ==> a == dir)
    ensures !(src <= a)
  {
  }

  /** Copying a link-free tree makes exactly its directories, empty ones included. */
  lemma LinkFreeDirsExact(env: Env, dir: Path, dest: Path)
    requires WellFormed(env) && IsDir(env, dir) && LinkFree(env, dir) && dest != []
    requires !TreeEffect(env, dir, dest, {}).raised
    ensures forall q :: q in TreeEffect(env, dir, dest, {}).made <==> dest <= q && IsDir(env, dir + q[|dest|..])
  {
    hide WellFormed, LinkFree, TreeEffect;
    forall q ensures q in TreeEffect(env, dir, dest, {}).made <==> MakesAt(env, dir, dest, q) {
      TreeMakes(env, dir, dest, {}, q);
    }
  }
}
