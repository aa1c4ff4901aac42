/** The recursive copier behind worktree snapshots. It walks a directory graph in which symbolic links
    may close cycles, keeping the set of directories on the active stack. */
module SnapshotCopy {
  import opened Sequences

  /** A path is the sequence of its names; keys of the file system are fully resolved. */
  type Path = seq<string>

  type Content = seq<nat>

  /** Where a link resolves to: a resolved path, which may not exist, or an error for a link loop. */
  datatype Resolution = At(path: Path) | Loop

  datatype Node = File(content: Content) | Dir(names: seq<string>) | Link(target: Resolution) | Special

  /** The source tree, the worktree root, and the source files and directories that cannot be read. */
  datatype Env = Env(fs: map<Path, Node>, root: Path, unreadable: set<Path>)

  predicate IsFile(env: Env, p: Path) { p in env.fs && env.fs[p].File? }

  predicate IsDir(env: Env, p: Path) { p in env.fs && env.fs[p].Dir? }

  predicate Inside(env: Env, p: Path) { env.root <= p }

  function Dirs(env: Env): set<Path> {
    set p | p in env.fs && env.fs[p].Dir?
  }

  // ---- SQLite side files ---------------------------------------------------------

  predicate EndsWith(s: string, suffix: string) {
    |suffix| <= |s| && s[|s| - |suffix|..] == suffix
  }

  predicate IsDatabase(name: string) { EndsWith(name, ".sqlite3") || EndsWith(name, ".db") }

  /** The path with its last name extended. */
  function WithSuffix(p: Path, suffix: string): Path
    requires p != []
  {
    p[..|p| - 1] + [p[|p| - 1] + suffix]
  }

  /** The regular file behind p, links followed wherever they lead. */
  function RegularFile(env: Env, p: Path): Option<Path> {
    if p !in env.fs then None
    else
      match env.fs[p]
      case File(_) => Some(p)
      case Link(At(t)) => if IsFile(env, t) then Some(t) else None
      case _ => None
  }

  // ---- What a copy does --------------------------------------------------------------

  /** One file copied: where to, and the regular file whose content went there. */
  datatype Write = Write(dest: Path, source: Path, content: Content)

  /** Everything a copy does, in order, up to where it raises an error, if it does. */
  datatype Effect = Effect(writes: seq<Write>, made: seq<Path>, skipped: seq<Path>, entered: seq<Path>, raised: bool)

  const NOTHING := Effect([], [], [], [], false)
  const FAILURE := Effect([], [], [], [], true)

  function Then(a: Effect, b: Effect): Effect {
    if a.raised then a
    else Effect(a.writes + b.writes, a.made + b.made, a.skipped + b.skipped, a.entered + b.entered, b.raised)
  }

  /** `_copy_file` */
  function CopyFileEffect(env: Env, src: Path, dest: Path): Effect
    requires IsFile(env, src)
  {
    if src in env.unreadable then FAILURE
    else Effect([Write(dest, src, env.fs[src].content)], [], [], [], false)
  }

  function SidecarEffect(env: Env, src: Path, dest: Path, suffix: string): Effect
    requires src != [] && dest != []
  {
    var f := RegularFile(env, WithSuffix(src, suffix));
    if f.None? then NOTHING else CopyFileEffect(env, f.value, WithSuffix(dest, suffix))
  }

  /** `_copy_sqlite_sidecars` */
  function SidecarsEffect(env: Env, src: Path, dest: Path): Effect
    requires src != [] && dest != []
  {
    if !IsDatabase(src[|src| - 1]) then NOTHING
    else Then(SidecarEffect(env, src, dest, "-wal"), SidecarEffect(env, src, dest, "-shm"))
  }

  /** `_copy_tree`, at a directory's resolved path. */
  function TreeEffect(env: Env, dir: Path, dest: Path, active: set<Path>): Effect
    requires IsDir(env, dir) && dest != []
    decreases Dirs(env) - active, 0, 0
  {
    if dir in active then NOTHING
    else
      var inside := Effect([], [dest], [], [dir], dir in env.unreadable);
      assert dir in Dirs(env) - active && dir !in Dirs(env) - (active + {dir});
      Then(inside, ChildrenEffect(env, dir, 0, dest, active + {dir}))
  }

  /** The children from the k-th on, in name order. */
  function ChildrenEffect(env: Env, dir: Path, k: nat, dest: Path, active: set<Path>): Effect
    requires IsDir(env, dir) && dest != [] && k <= |env.fs[dir].names|
    decreases Dirs(env) - active, 2, |env.fs[dir].names| - k
  {
    if k == |env.fs[dir].names| then NOTHING
    else
      var name := env.fs[dir].names[k];
      Then(EntryEffect(env, dir + [name], dest + [name], active), ChildrenEffect(env, dir, k + 1, dest, active))
  }

  /** `_copy_entry` */
  function EntryEffect(env: Env, src: Path, dest: Path, active: set<Path>): Effect
    requires src != [] && dest != []
    decreases Dirs(env) - active, 1, 0
  {
    if src !in env.fs then NOTHING
    else
      match env.fs[src]
      case Link(Loop) => FAILURE
      case Link(At(t)) =>
        if !Inside(env, t) then Effect([], [], [src], [], false)
        else if IsDir(env, t) then TreeEffect(env, t, dest, active)
        else if IsFile(env, t) then CopyFileEffect(env, t, dest)
        else NOTHING
      case Dir(_) => TreeEffect(env, src, dest, active)
      case File(_) => Then(CopyFileEffect(env, src, dest), SidecarsEffect(env, src, dest))
      case Special => NOTHING
  }

  /** The result `_copy_entry` returns when it does not raise. */
  predicate Copies(env: Env, src: Path) {
    src in env.fs &&
    match env.fs[src]
    case Link(At(t)) => Inside(env, t) && (IsDir(env, t) || IsFile(env, t))
    case Link(Loop) => false
    case Special => false
    case _ => true
  }

  // ---- The copier ----------------------------------------------------------------------

  /** The destination after some writes. */
  function Apply(disk: map<Path, Content>, writes: seq<Write>): map<Path, Content> {
    if writes == [] then disk
    else
      var n := |writes| - 1;
      Apply(disk, writes[..n])[writes[n].dest := writes[n].content]
  }

  function TotalBytes(writes: seq<Write>): nat {
    if writes == [] then 0 else TotalBytes(writes[..|writes| - 1]) + |writes[|writes| - 1].content|
  }

  lemma {:induction false} ApplyAppend(disk: map<Path, Content>, a: seq<Write>, b: seq<Write>)
    ensures Apply(disk, a + b) == Apply(Apply(disk, a), b)
    ensures TotalBytes(a + b) == TotalBytes(a) + TotalBytes(b)
  {
    if b == [] {
      assert a + b == a;
    } else {
      var n := |b| - 1;
      assert (a + b)[..|a + b| - 1] == a + b[..n];
      ApplyAppend(disk, a, b[..n]);
    }
  }

  /** The counters and the destination as one value. */
  datatype Progress = Progress(disk: map<Path, Content>, madeDirs: set<Path>, fileCount: nat, totalBytes: nat, skipped: seq<Path>)

  function Performed(p: Progress, e: Effect): Progress {
    Progress(
      Apply(p.disk, e.writes),
      p.madeDirs + (set d | d in e.made),
      p.fileCount + |e.writes|,
      p.totalBytes + TotalBytes(e.writes),
      p.skipped + e.skipped)
  }

  lemma PerformedNothing(p: Progress, raised: bool)
    ensures Performed(p, Effect([], [], [], [], raised)) == p
  {
    assert p.skipped + [] == p.skipped;
    assert (set d: Path | d in []) == {};
  }

  lemma PerformedThen(p: Progress, a: Effect, b: Effect)
    requires !a.raised
    ensures Performed(p, Then(a, b)) == Performed(Performed(p, a), b)
  {
    ApplyAppend(p.disk, a.writes, b.writes);
    assert p.skipped + (a.skipped + b.skipped) == (p.skipped + a.skipped) + b.skipped;
  }

  lemma PerformedSome(p: Progress, w: Write, made: Path, skipped: Path, dir: Path, raised: bool)
    ensures Performed(p, Effect([w], [], [], [], raised)) ==
      p.(disk := p.disk[w.dest := w.content], fileCount := p.fileCount + 1, totalBytes := p.totalBytes + |w.content|)
    ensures Performed(p, Effect([], [made], [], [dir], raised)) == p.(madeDirs := p.madeDirs + {made})
    ensures Performed(p, Effect([], [], [skipped], [], raised)) == p.(skipped := p.skipped + [skipped])
  {
    assert [w][..0] == [] && Apply(p.disk, []) == p.disk && TotalBytes([]) == 0;
    assert (set d | d in [made]) == {made};
    assert (set d: Path | d in []) == {};
    assert p.skipped + [] == p.skipped;
  }

  class Copier {
    const env: Env
    var disk: map<Path, Content>
    var madeDirs: set<Path>
    var fileCount: nat
    var totalBytes: nat
    var skipped: seq<Path>
    var visited: set<Path>

    constructor (env: Env)
      ensures this.env == env && Now() == Progress(map[], {}, 0, 0, []) && visited == {}
    {
      this.env := env;
      disk, madeDirs, fileCount, totalBytes, skipped, visited := map[], {}, 0, 0, [], {};
    }

    function Now(): Progress
      reads this
    {
      Progress(disk, madeDirs, fileCount, totalBytes, skipped)
    }

    method CopyFile(src: Path, dest: Path) returns (raised: bool)
      requires IsFile(env, src)
      modifies this
      ensures Now() == Performed(old(Now()), CopyFileEffect(env, src, dest)) && visited == old(visited)
      ensures raised == CopyFileEffect(env, src, dest).raised
    {
      PerformedNothing(Now(), true);
      var content := env.fs[src].content;
      PerformedSome(Now(), Write(dest, src, content), dest, dest, dest, false);
      if src in env.unreadable { return true; }
      disk := disk[dest := content];
      fileCount := fileCount + 1;
      totalBytes := totalBytes + |content|;
      return false;
    }

    method CopySidecars(src: Path, dest: Path) returns (raised: bool)
      requires src != [] && dest != []
      modifies this
      ensures Now() == Performed(old(Now()), SidecarsEffect(env, src, dest)) && visited == old(visited)
      ensures raised == SidecarsEffect(env, src, dest).raised
    {
      PerformedNothing(Now(), false);
      if !IsDatabase(src[|src| - 1]) { return false; }
      ghost var first, second := SidecarEffect(env, src, dest, "-wal"), SidecarEffect(env, src, dest, "-shm");
      hide Performed, Apply, TotalBytes;
      if !first.raised { PerformedThen(Now(), first, second); }
      var wal := RegularFile(env, WithSuffix(src, "-wal"));
      if wal.Some? {
        raised := CopyFile(wal.value, WithSuffix(dest, "-wal"));
        if raised { return; }
      }
      PerformedNothing(Now(), false);
      var shm := RegularFile(env, WithSuffix(src, "-shm"));
      if shm.Some? {
        raised := CopyFile(shm.value, WithSuffix(dest, "-shm"));
        return;
      }
      return false;
    }

    /** `_copy_tree`: `visited` is what it was, however the call ends. */
    method CopyTree(dir: Path, dest: Path) returns (raised: bool)
      requires IsDir(env, dir) && dest != []
      modifies this
      ensures Now() == Performed(old(Now()), TreeEffect(env, dir, dest, old(visited))) && visited == old(visited)
      ensures raised == TreeEffect(env, dir, dest, old(visited)).raised
      decreases Dirs(env) - visited, 0, 0
    {
      hide Performed, Apply, TotalBytes;
      PerformedNothing(Now(), false);
      if dir in visited { return false; }
      ghost var inside := Effect([], [dest], [], [dir], dir in env.unreadable);
      PerformedSome(Now(), Write(dest, dest, []), dest, dest, dir, dir in env.unreadable);
      ghost var start, active := Now(), visited;
      assert dir in Dirs(env) - visited && dir !in Dirs(env) - (visited + {dir});
      visited := visited + {dir};
      madeDirs := madeDirs + {dest};
      if dir in env.unreadable {
        visited := visited - {dir};
        assert visited == active;
        return true;
      }
      var names := env.fs[dir].names;
      ghost var children := ChildrenEffect(env, dir, 0, dest, visited);
      PerformedThen(start, inside, children);
      raised := CopyChildren(dir, dest);
      visited := visited - {dir};
      assert visited == active;
    }

    /** `for child in sorted(src_dir.iterdir()): _copy_entry(...)` */
    method CopyChildren(dir: Path, dest: Path) returns (raised: bool)
      requires IsDir(env, dir) && dest != []
      modifies this
      ensures Now() == Performed(old(Now()), ChildrenEffect(env, dir, 0, dest, old(visited))) && visited == old(visited)
      ensures raised == ChildrenEffect(env, dir, 0, dest, old(visited)).raised
      decreases Dirs(env) - visited, 2, 0
    {
      hide Performed, Apply, TotalBytes;
      var names := env.fs[dir].names;
      ghost var all := ChildrenEffect(env, dir, 0, dest, visited);
      ghost var start := Now();
      for k := 0 to |names|
        invariant visited == old(visited)
        invariant Performed(start, all) == Performed(Now(), ChildrenEffect(env, dir, k, dest, visited))
        invariant all.raised == ChildrenEffect(env, dir, k, dest, visited).raised
      {
        ghost var first := EntryEffect(env, dir + [names[k]], dest + [names[k]], visited);
        ghost var rest := ChildrenEffect(env, dir, k + 1, dest, visited);
        if !first.raised { PerformedThen(Now(), first, rest); }
        var _, failed := CopyEntry(dir + [names[k]], dest + [names[k]]);
        if failed { return true; }
      }
      PerformedNothing(Now(), false);
      return false;
    }

    /** `_copy_entry` */
    method CopyEntry(src: Path, dest: Path) returns (copied: bool, raised: bool)
      requires src != [] && dest != []
      modifies this
      ensures Now() == Performed(old(Now()), EntryEffect(env, src, dest, old(visited))) && visited == old(visited)
      ensures raised == EntryEffect(env, src, dest, old(visited)).raised
      ensures !raised ==> copied == Copies(env, src)
      decreases Dirs(env) - visited, 1, 0
    {
      hide Performed, Apply, TotalBytes;
      PerformedNothing(Now(), false);
      PerformedNothing(Now(), true);
      if src !in env.fs { return false, false; }
      match env.fs[src] {
        case Link(Loop) => return false, true;
        case Link(At(t)) =>
          if !Inside(env, t) {
            PerformedSome(Now(), Write(src, src, []), src, src, src, false);
            skipped := skipped + [src];
            return false, false;
          }
          if IsDir(env, t) {
            raised := CopyTree(t, dest);
            return true, raised;
          }
          if IsFile(env, t) {
            raised := CopyFile(t, dest);
            return true, raised;
          }
          return false, false;
        case Dir(_) =>
          raised := CopyTree(src, dest);
          return true, raised;
        case File(_) =>
          ghost var first, second := CopyFileEffect(env, src, dest), SidecarsEffect(env, src, dest);
          if !first.raised { PerformedThen(Now(), first, second); }
          raised := CopyFile(src, dest);
          if raised { return true, true; }
          raised := CopySidecars(src, dest);
          return true, raised;
        case Special => return false, false;
      }
    }
  }
}
