/** The sweep that follows a prune: every directory below the archive root that holds nothing is removed,
    deepest first, so that directories of empty directories go too. */
module EmptyDirs {
  import opened Sequences

  /** A path is the sequence of its names. */
  type Path = seq<string>

  predicate Below(base: Path, p: Path) { base <= p && p != base }

  function Parent(p: Path): Path
    requires p != []
  {
    p[..|p| - 1]
  }

  predicate DeeperOrSame(a: Path, b: Path) { |a| >= |b| }

  /** Something other than a directory lies below the directory. */
  ghost predicate HoldsFile(files: set<Path>, d: Path) {
    exists f :: f in files && Below(d, f)
  }

  /** What the sweep leaves: the directories that are not below the base, and those that hold a file. */
  ghost function Swept(dirs: set<Path>, files: set<Path>, base: Path): set<Path> {
    set d | d in dirs && (!Below(base, d) || HoldsFile(files, d))
  }

  /** Everything below the base lies in a directory at or below it, and no path is both. */
  ghost predicate IsTree(dirs: set<Path>, files: set<Path>, base: Path) {
    && dirs !! files && base in dirs
    && forall p {:trigger Below(base, p)} :: p in dirs + files && Below(base, p) ==> Parent(p) in dirs
  }

  /** The listing of everything below the base, in whatever order the disk gives it. */
  ghost predicate Lists(listing: seq<Path>, dirs: set<Path>, files: set<Path>, base: Path) {
    forall p :: p in listing <==> p in dirs + files && Below(base, p)
  }

  /** The directories once the first i listed paths have been looked at. */
  ghost predicate SweptUpTo(now: set<Path>, dirs: set<Path>, files: set<Path>, order: seq<Path>, i: nat)
    requires i <= |order|
  {
    forall d :: d in now <==> d in dirs && (d in order[..i] ==> HoldsFile(files, d))
  }

  ghost predicate HasChild(dirs: set<Path>, files: set<Path>, d: Path) {
    exists p :: p in dirs + files && p != [] && Parent(p) == d
  }

  lemma DepthOrder()
    ensures TotalPreorder(DeeperOrSame)
  {
  }

  /** The first step down from d on the way to p. */
  lemma StepDown(dirs: set<Path>, files: set<Path>, base: Path, d: Path, p: Path)
    requires IsTree(dirs, files, base) && base <= d && Below(d, p) && p in dirs + files
    ensures p[..|d| + 1] in dirs + files && Parent(p[..|d| + 1]) == d
    decreases |p|
  {
    var q := Parent(p);
    assert Below(base, p);
    if |p| == |d| + 1 {
      assert p[..|d| + 1] == p && q == d;
    } else {
      assert q[..|d|] == p[..|d|] == d;
      StepDown(dirs, files, base, d, q);
      assert q[..|d| + 1] == p[..|d| + 1];
    }
  }

  lemma HoldsThroughChild(files: set<Path>, d: Path, c: Path)
    requires c != [] && Parent(c) == d && (c in files || HoldsFile(files, c))
    ensures HoldsFile(files, d)
  {
    assert Below(d, c);
    if c !in files {
      var f :| f in files && Below(c, f);
      assert Below(d, f);
    }
  }

  /** When a directory's turn comes, everything deeper has been looked at, so it has a child left exactly
      if it holds a file. */
  lemma EmptyIffNoFile(now: set<Path>, dirs: set<Path>, files: set<Path>, base: Path, order: seq<Path>, i: nat)
    requires IsTree(dirs, files, base) && Lists(order, dirs, files, base) && Sorted(DeeperOrSame, order)
    requires i < |order| && order[i] in dirs && SweptUpTo(now, dirs, files, order, i)
    ensures HasChild(now, files, order[i]) <==> HoldsFile(files, order[i])
  {
    var d := order[i];
    assert d in order;
    if HasChild(now, files, d) {
      var c :| c in now + files && c != [] && Parent(c) == d;
      if c in now { Looked(dirs, files, base, order, i, c); }
      HoldsThroughChild(files, d, c);
    }
    if HoldsFile(files, d) {
      var f :| f in files && Below(d, f);
      StepDown(dirs, files, base, d, f);
      var c := f[..|d| + 1];
      if c in dirs {
        if c == f { assert false; }
        assert Below(c, f);
      }
      assert c in now + files;
    }
  }

  /** A child of the i-th path was looked at before it. */
  lemma Looked(dirs: set<Path>, files: set<Path>, base: Path, order: seq<Path>, i: nat, c: Path)
    requires Lists(order, dirs, files, base) && Sorted(DeeperOrSame, order)
    requires i < |order| && c in dirs && c != [] && Parent(c) == order[i]
    ensures c in order[..i]
  {
    assert order[i] in order;
    assert Below(base, c);
    var j := Position(order, c);
    assert i < j ==> DeeperOrSame(order[i], order[j]);
    assert j < i;
    assert order[..i][j] == c;
  }

  lemma SweepStep(now: set<Path>, dirs: set<Path>, files: set<Path>, base: Path, order: seq<Path>, i: nat)
    requires IsTree(dirs, files, base) && Lists(order, dirs, files, base) && Sorted(DeeperOrSame, order)
    requires i < |order| && SweptUpTo(now, dirs, files, order, i)
    ensures order[i] in files ==> SweptUpTo(now, dirs, files, order, i + 1)
    ensures order[i] in dirs ==> SweptUpTo(if HasChild(now, files, order[i]) then now else now - {order[i]}, dirs, files, order, i + 1)
  {
    var d := order[i];
    assert forall p :: p in order[..i + 1] <==> p in order[..i] || p == d by { assert order[..i + 1] == order[..i] + [d]; }
    if d in dirs {
      EmptyIffNoFile(now, dirs, files, base, order, i);
      hide HasChild, HoldsFile, IsTree, Lists;
    }
  }

  /** The sweep leaves a tree, keeps every file reachable, and a second sweep removes nothing. */
  lemma SweptIsTree(dirs: set<Path>, files: set<Path>, base: Path)
    requires IsTree(dirs, files, base)
    ensures IsTree(Swept(dirs, files, base), files, base)
    ensures Swept(Swept(dirs, files, base), files, base) == Swept(dirs, files, base)
  {
    var left := Swept(dirs, files, base);
    forall p | p in left + files && Below(base, p) ensures Parent(p) in left {
      assert Parent(p) in dirs;
      if Below(base, Parent(p)) { HoldsThroughChild(files, Parent(p), p); }
    }
  }

  class Tree {
    var dirs: set<Path>
    const files: set<Path>

    /** `_prune_empty_dirs`: exactly the directories below the base with no file below them are gone. */
    method PruneEmptyDirs(base: Path, listing: seq<Path>)
      requires IsTree(dirs, files, base) && Lists(listing, dirs, files, base)
      modifies this
      ensures dirs == Swept(old(dirs), files, base)
    {
      var order := SortBy(DeeperOrSame, listing);
      ghost var before := dirs;
      DepthOrder();
      SortSorts(DeeperOrSame, listing);
      SortPermutes(DeeperOrSame, listing);
      hide SortBy, IsTree, HasChild, HoldsFile;
      for i := 0 to |order|
        invariant SweptUpTo(dirs, before, files, order, i)
      {
        SweepStep(dirs, before, files, base, order, i);
        var candidate := order[i];
        assert candidate in order;
        if candidate in files { continue; }
        ghost var now := dirs;
        if candidate in dirs {
          var empty := IsEmpty(candidate);
          if empty { dirs := dirs - {candidate}; }
        } else {
          assert now - {candidate} == now;
        }
      }
      assert order[..|order|] == order;
    }

    /** `next(candidate.iterdir())` raises. */
    method IsEmpty(d: Path) returns (empty: bool)
      ensures empty <==> !HasChild(dirs, files, d)
    {
      var left := dirs + files;
      while left != {}
        invariant forall p :: p in dirs + files && p !in left ==> p == [] || Parent(p) != d
        invariant left <= dirs + files
        decreases |left|
      {
        var p :| p in left;
        if p != [] && Parent(p) == d { return false; }
        left := left - {p};
      }
      return true;
    }
  }
}
