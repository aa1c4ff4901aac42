/** Publishing workflow artifacts into an outbox directory without touching what is there. */
module Publish {
  import opened Sequences
  import opened Text

  type Byte = n: nat | n < 256
  type Content = seq<Byte>

  datatype Path = Path(dir: string, name: string)

  /** The regular files on disk. */
  type Files = map<Path, Content>

  const MAX_INDEX := 10000

  // ---- Reserving a name --------------------------------------------------------------

  /** `sanitize_filename` refuses it. */
  predicate BadName(name: string) {
    name in ["", ".", ".."] || '/' in name || '\\' in name
  }

  /** The start of the suffix: the last dot, unless it is the first or the last character. */
  function LastDot(name: string, i: nat): (d: nat)
    requires i <= |name|
    ensures d <= |name|
  {
    if i <= 1 then |name| else if name[i - 1] == '.' then (if i == |name| then |name| else i - 1) else LastDot(name, i - 1)
  }

  function Numbered(name: string, index: nat): string {
    var d := LastDot(name, |name|);
    name[..d] + "-" + Decimal(index) + name[d..]
  }

  lemma NumberedInjective(name: string, i: nat, j: nat)
    requires Numbered(name, i) == Numbered(name, j)
    ensures i == j
  {
    var d := LastDot(name, |name|);
    var a, b := Numbered(name, i), Numbered(name, j);
    assert |Decimal(i)| == |Decimal(j)|;
    assert a[d + 1..d + 1 + |Decimal(i)|] == Decimal(i) && b[d + 1..d + 1 + |Decimal(j)|] == Decimal(j);
    DecimalInjective(i, j);
  }

  function FreeFrom(files: Files, dir: string, name: string, index: nat): Option<Path>
    decreases MAX_INDEX + 1 - index
  {
    if index > MAX_INDEX then None
    else if Path(dir, Numbered(name, index)) !in files then Some(Path(dir, Numbered(name, index)))
    else FreeFrom(files, dir, name, index + 1)
  }

  function Reserve(files: Files, dir: string, name: string): Option<Path> {
    if BadName(name) then None
    else if Path(dir, name) !in files then Some(Path(dir, name))
    else FreeFrom(files, dir, name, 2)
  }

  lemma {:induction false} FreeFromIs(files: Files, dir: string, name: string, index: nat)
    ensures match FreeFrom(files, dir, name, index)
      case Some(p) => p !in files && p.dir == dir
      case None => forall i :: index <= i <= MAX_INDEX ==> Path(dir, Numbered(name, i)) in files
    decreases MAX_INDEX + 1 - index
  {
    if index <= MAX_INDEX && Path(dir, Numbered(name, index)) in files { FreeFromIs(files, dir, name, index + 1); }
  }

  /** A reserved path is free; reserving fails exactly on a bad name or when all ten thousand are taken. */
  lemma ReserveIs(files: Files, dir: string, name: string)
    ensures Reserve(files, dir, name).Some? ==> Reserve(files, dir, name).value !in files && Reserve(files, dir, name).value.dir == dir
    ensures Reserve(files, dir, name).None? <==>
      BadName(name) || (Path(dir, name) in files && forall i :: 2 <= i <= 10000 ==> Path(dir, Numbered(name, i)) in files)
  {
    FreeFromIs(files, dir, name, 2);
    if FreeFrom(files, dir, name, 2).Some? { FreeFromTried(files, dir, name, 2); }
  }

  lemma {:induction false} FreeFromTried(files: Files, dir: string, name: string, index: nat)
    requires FreeFrom(files, dir, name, index).Some?
    ensures exists i: nat :: index <= i <= MAX_INDEX && Path(dir, Numbered(name, i)) !in files
    decreases MAX_INDEX + 1 - index
  {
    if Path(dir, Numbered(name, index)) in files {
      FreeFromTried(files, dir, name, index + 1);
    }
  }

  ghost function Taken(dir: string, name: string, n: nat): set<Path> {
    if n < 2 then {Path(dir, name)} else Taken(dir, name, n - 1) + {Path(dir, Numbered(name, n))}
  }

  lemma {:induction false} TakenCount(dir: string, name: string, n: nat)
    requires n >= 1
    ensures |Taken(dir, name, n)| == n
    ensures forall p :: p in Taken(dir, name, n) ==>
      p == Path(dir, name) || exists i :: 2 <= i <= n && p == Path(dir, Numbered(name, i))
  {
    if n >= 2 {
      TakenCount(dir, name, n - 1);
      var p := Path(dir, Numbered(name, n));
      assert |Numbered(name, n)| > |name|;
      forall i | 2 <= i <= n - 1 ensures Numbered(name, i) != Numbered(name, n) {
        if Numbered(name, i) == Numbered(name, n) { NumberedInjective(name, i, n); }
      }
      assert p !in Taken(dir, name, n - 1);
    }
  }

  /** A directory tree with fewer than ten thousand files always has room. */
  lemma RoomLeft(files: Files, dir: string, name: string)
    requires !BadName(name) && Reserve(files, dir, name).None?
    ensures |files| >= 10000
  {
    ReserveIs(files, dir, name);
    TakenCount(dir, name, MAX_INDEX);
    var taken := Taken(dir, name, MAX_INDEX);
    assert taken <= files.Keys;
    assert files.Keys == taken + (files.Keys - taken);
  }

  // ---- Names --------------------------------------------------------------------------

  /** No name, the two names for directories, and a name with a slash or a backslash are refused. */
  lemma BadNames(name: string)
    ensures BadName(name) <==>
      name == "" || name == "." || name == ".." || exists i :: 0 <= i < |name| && (name[i] as int == 47 || name[i] as int == 92)
  {
    if i :| 0 <= i < |name| && (name[i] as int == 47 || name[i] as int == 92) { assert name[i] == '/' || name[i] == '\\'; }
  }

  lemma {:induction false} LastDotIs(name: string, i: nat, d: nat)
    requires d < i <= |name| && name[d] == '.' && forall j :: d < j < i ==> name[j] != '.'
    ensures LastDot(name, i) == if 0 < d < |name| - 1 then d else |name|
  {
    if d < i - 1 { LastDotIs(name, i - 1, d); }
  }

  lemma {:induction false} NoDot(name: string, i: nat)
    requires i <= |name| && forall j :: 0 <= j < i ==> name[j] != '.'
    ensures LastDot(name, i) == |name|
  {
    if i > 1 { NoDot(name, i - 1); }
  }

  /** The number goes before the last dot and what follows it, unless the dot is at an end of the name. */
  lemma NumberedIs(name: string, d: nat, index: nat)
    requires d < |name| && name[d] == '.' && forall j :: d < j < |name| ==> name[j] != '.'
    ensures 0 < d < |name| - 1 ==> Numbered(name, index) == name[..d] + "-" + Decimal(index) + name[d..]
    ensures d == 0 || d == |name| - 1 ==> Numbered(name, index) == name + "-" + Decimal(index)
  {
    LastDotIs(name, |name|, d);
    hide Decimal, LastDot;
    assert name[..|name|] == name && name[|name|..] == "";
  }

  lemma NumberedPlain(name: string, index: nat)
    requires forall j :: 0 <= j < |name| ==> name[j] != '.'
    ensures Numbered(name, index) == name + "-" + Decimal(index)
  {
    NoDot(name, |name|);
    hide Decimal, LastDot;
    assert name[..|name|] == name && name[|name|..] == "";
  }

  lemma {:induction false} FreeFromLeast(files: Files, dir: string, name: string, index: nat) returns (k: nat)
    requires FreeFrom(files, dir, name, index).Some?
    ensures index <= k <= 10000 && FreeFrom(files, dir, name, index) == Some(Path(dir, Numbered(name, k))) && Path(dir, Numbered(name, k)) !in files
    ensures forall j :: index <= j < k ==> Path(dir, Numbered(name, j)) in files
    decreases 10001 - index
  {
    if Path(dir, Numbered(name, index)) !in files {
      k := index;
    } else {
      k := FreeFromLeast(files, dir, name, index + 1);
    }
  }

  /** The name itself if it is free, else its variant of the least free number from two to ten thousand. */
  lemma ReserveLeast(files: Files, dir: string, name: string) returns (k: nat)
    requires Reserve(files, dir, name).Some?
    ensures Path(dir, name) !in files ==> Reserve(files, dir, name) == Some(Path(dir, name))
    ensures Path(dir, name) in files ==>
      && 2 <= k <= 10000 && Reserve(files, dir, name) == Some(Path(dir, Numbered(name, k)))
      && Path(dir, Numbered(name, k)) !in files && forall j :: 2 <= j < k ==> Path(dir, Numbered(name, j)) in files
  {
    k := 2;
    if Path(dir, name) in files { k := FreeFromLeast(files, dir, name, 2); }
    hide Numbered;
  }

  // ---- Publishing ---------------------------------------------------------------------

  /** The disk and the published paths; the run fails at the first artifact that cannot be published. */
  datatype Outcome = Outcome(files: Files, published: seq<Path>, ok: bool)

  /** Copying a key fails if the key is in `failing`, and may then leave part of a file behind. */
  function PublishOne(files: Files, artifacts: map<string, Path>, dir: string, key: string, failing: map<string, Option<Content>>): Outcome {
    if key !in artifacts || artifacts[key] !in files then Outcome(files, [], false)
    else
      var source := artifacts[key];
      var candidate := Path(dir, source.name);
      if source == candidate then Outcome(files, [candidate], true)
      else
        match if candidate in files then Reserve(files, dir, source.name) else Some(candidate)
        case None => Outcome(files, [], false)
        case Some(destination) =>
          if key !in failing then Outcome(files[destination := files[source]], [destination], true)
          else if failing[key].Some? then Outcome(files[destination := failing[key].value], [], false)
          else Outcome(files, [], false)
  }

  function PublishAll(files: Files, artifacts: map<string, Path>, dir: string, keys: seq<string>, failing: map<string, Option<Content>>): Outcome
    decreases |keys|
  {
    if keys == [] then Outcome(files, [], true)
    else
      var one := PublishOne(files, artifacts, dir, keys[0], failing);
      if !one.ok then one
      else
        var rest := PublishAll(one.files, artifacts, dir, keys[1..], failing);
        Outcome(rest.files, one.published + rest.published, rest.ok)
  }

  /** Nothing that was there is changed. */
  ghost predicate Keeps(before: Files, after: Files) {
    forall p :: p in before ==> p in after && after[p] == before[p]
  }

  ghost predicate OneDone(before: Files, artifacts: map<string, Path>, dir: string, key: string, o: Outcome) {
    && key in artifacts && artifacts[key] in before && |o.published| == 1 && o.published[0].dir == dir
    && o.published[0] in o.files && o.files[o.published[0]] == before[artifacts[key]]
    && o.files.Keys == before.Keys + {o.published[0]}
    && (o.published[0] in before ==> o.published[0] == artifacts[key])
  }

  lemma OneIs(files: Files, artifacts: map<string, Path>, dir: string, key: string, failing: map<string, Option<Content>>)
    ensures var o := PublishOne(files, artifacts, dir, key, failing);
      Keeps(files, o.files) && (o.ok ==> OneDone(files, artifacts, dir, key, o))
  {
    if key in artifacts { ReserveIs(files, dir, artifacts[key].name); }
    hide Reserve;
  }

  /** In the outbox, with the source's content, and new unless it is the source itself. */
  ghost predicate CopyOf(before: Files, after: Files, source: Path, dir: string, path: Path) {
    && path.dir == dir && source in after && path in after && after[path] == after[source]
    && (path in before ==> path == source)
  }

  ghost predicate AllCopied(before: Files, after: Files, artifacts: map<string, Path>, dir: string, keys: seq<string>, published: seq<Path>) {
    && |published| == |keys|
    && forall i :: 0 <= i < |keys| ==> keys[i] in artifacts && CopyOf(before, after, artifacts[keys[i]], dir, published[i])
  }

  /** A path is published a second time only as its own source. */
  ghost predicate Apart(artifacts: map<string, Path>, keys: seq<string>, published: seq<Path>)
    requires |published| == |keys| && forall i :: 0 <= i < |keys| ==> keys[i] in artifacts
  {
    forall i, j :: 0 <= i < j < |keys| && published[i] == published[j] ==> published[j] == artifacts[keys[j]]
  }

  /** What a successful run has published: a copy of every selected artifact, in the outbox, at a path that
      was free unless the artifact already lay there. */
  ghost predicate AllDone(before: Files, artifacts: map<string, Path>, dir: string, keys: seq<string>, o: Outcome) {
    && AllCopied(before, o.files, artifacts, dir, keys, o.published) && Apart(artifacts, keys, o.published)
    && o.files.Keys == before.Keys + set p | p in o.published
  }

  /** Files that were there are kept whatever happens, and a run that succeeds has published everything. */
  lemma {:induction false} PublishedIs(files: Files, artifacts: map<string, Path>, dir: string, keys: seq<string>,
                                       failing: map<string, Option<Content>>)
    ensures var o := PublishAll(files, artifacts, dir, keys, failing);
      Keeps(files, o.files) && (o.ok ==> AllDone(files, artifacts, dir, keys, o))
    decreases |keys|
  {
    if keys != [] {
      var one := PublishOne(files, artifacts, dir, keys[0], failing);
      OneIs(files, artifacts, dir, keys[0], failing);
      if one.ok {
        var rest := PublishAll(one.files, artifacts, dir, keys[1..], failing);
        PublishedIs(one.files, artifacts, dir, keys[1..], failing);
        hide PublishOne, PublishAll;
        if rest.ok { DoneStep(files, one, rest, artifacts, dir, keys); }
      }
    }
  }

  lemma DoneStep(files: Files, one: Outcome, rest: Outcome, artifacts: map<string, Path>, dir: string, keys: seq<string>)
    requires keys != [] && Keeps(files, one.files) && Keeps(one.files, rest.files)
    requires OneDone(files, artifacts, dir, keys[0], one) && AllDone(one.files, artifacts, dir, keys[1..], rest)
    ensures AllDone(files, artifacts, dir, keys, Outcome(rest.files, one.published + rest.published, true))
  {
    hide *;
    OneCopied(files, one, rest.files, artifacts, dir, keys[0]);
    KeysJoin(files, one, rest, artifacts, dir, keys);
    CopiesJoin(files, one.files, rest.files, artifacts, dir, keys, one.published, rest.published);
    ApartJoin(files, one.files, rest.files, artifacts, dir, keys, one.published, rest.published);
    DoneIs(files, artifacts, dir, keys, Outcome(rest.files, one.published + rest.published, true));
  }

  lemma DoneIs(files: Files, artifacts: map<string, Path>, dir: string, keys: seq<string>, o: Outcome)
    requires AllCopied(files, o.files, artifacts, dir, keys, o.published) && Apart(artifacts, keys, o.published)
    requires o.files.Keys == files.Keys + set p | p in o.published
    ensures AllDone(files, artifacts, dir, keys, o)
  {
  }

  lemma OneCopied(files: Files, one: Outcome, after: Files, artifacts: map<string, Path>, dir: string, key: string)
    requires Keeps(files, one.files) && Keeps(one.files, after) && OneDone(files, artifacts, dir, key, one)
    ensures key in artifacts && |one.published| == 1 && CopyOf(files, after, artifacts[key], dir, one.published[0])
    ensures one.files.Keys == files.Keys + {one.published[0]}
  {
  }

  lemma LaterCopied(files: Files, between: Files, after: Files, source: Path, dir: string, path: Path)
    requires Keeps(files, between) && CopyOf(between, after, source, dir, path)
    ensures CopyOf(files, after, source, dir, path)
  {
  }

  lemma CopiesJoin(files: Files, between: Files, after: Files, artifacts: map<string, Path>, dir: string, keys: seq<string>,
                   first: seq<Path>, rest: seq<Path>)
    requires keys != [] && |first| == 1 && keys[0] in artifacts && CopyOf(files, after, artifacts[keys[0]], dir, first[0])
    requires Keeps(files, between) && AllCopied(between, after, artifacts, dir, keys[1..], rest)
    ensures AllCopied(files, after, artifacts, dir, keys, first + rest)
  {
    hide CopyOf, Keeps;
    forall i | 0 <= i < |keys| ensures keys[i] in artifacts && CopyOf(files, after, artifacts[keys[i]], dir, (first + rest)[i]) {
      if i > 0 {
        assert keys[i] == keys[1..][i - 1] && (first + rest)[i] == rest[i - 1];
        LaterCopied(files, between, after, artifacts[keys[i]], dir, rest[i - 1]);
      }
    }
  }

  lemma ApartJoin(files: Files, between: Files, after: Files, artifacts: map<string, Path>, dir: string, keys: seq<string>,
                  first: seq<Path>, rest: seq<Path>)
    requires keys != [] && |first| == 1 && first[0] in between && AllCopied(files, after, artifacts, dir, keys, first + rest)
    requires AllCopied(between, after, artifacts, dir, keys[1..], rest) && Apart(artifacts, keys[1..], rest)
    ensures Apart(artifacts, keys, first + rest)
  {
    var published := first + rest;
    forall i, j | 0 <= i < j < |keys| && published[i] == published[j] ensures published[j] == artifacts[keys[j]] {
      assert keys[j] == keys[1..][j - 1] && published[j] == rest[j - 1];
      if i == 0 {
        assert CopyOf(between, after, artifacts[keys[1..][j - 1]], dir, rest[j - 1]);
      } else {
        assert published[i] == rest[i - 1];
      }
    }
  }

  lemma KeysJoin(files: Files, one: Outcome, rest: Outcome, artifacts: map<string, Path>, dir: string, keys: seq<string>)
    requires keys != [] && |one.published| == 1 && one.files.Keys == files.Keys + {one.published[0]}
    requires AllDone(one.files, artifacts, dir, keys[1..], rest)
    ensures rest.files.Keys == files.Keys + set p | p in one.published + rest.published
    ensures AllCopied(one.files, rest.files, artifacts, dir, keys[1..], rest.published) && Apart(artifacts, keys[1..], rest.published)
    ensures one.published[0] in one.files
  {
    hide AllCopied, Apart;
    var all := one.published + rest.published;
    forall p ensures p in all <==> p == one.published[0] || p in rest.published {
      if p == one.published[0] { assert all[0] == p; }
      if p in rest.published {
        var i := Position(rest.published, p);
        assert all[i + 1] == p;
      }
    }
  }

  /** Artifacts that were all there at the start are published with the content they had then. */
  lemma PublishedContent(files: Files, artifacts: map<string, Path>, dir: string, keys: seq<string>, failing: map<string, Option<Content>>)
    requires forall i :: 0 <= i < |keys| && keys[i] in artifacts ==> artifacts[keys[i]] in files
    requires PublishAll(files, artifacts, dir, keys, failing).ok
    ensures var o := PublishAll(files, artifacts, dir, keys, failing);
      && |o.published| == |keys|
      && forall i :: 0 <= i < |keys| ==>
        keys[i] in artifacts && o.published[i] in o.files && o.files[o.published[i]] == files[artifacts[keys[i]]]
  {
    PublishedIs(files, artifacts, dir, keys, failing);
    hide PublishAll;
  }

  /** The run succeeds when the selected artifacts are known and on disk under ordinary names, no copy
      fails, and there is room. */
  lemma {:induction false} PublishSucceeds(files: Files, artifacts: map<string, Path>, dir: string, keys: seq<string>,
                                           failing: map<string, Option<Content>>)
    requires forall i :: 0 <= i < |keys| ==>
      keys[i] in artifacts && artifacts[keys[i]] in files && !BadName(artifacts[keys[i]].name) && keys[i] !in failing
    requires |files| + |keys| <= 10000
    ensures PublishAll(files, artifacts, dir, keys, failing).ok
    decreases |keys|
  {
    if keys != [] {
      var one := PublishOne(files, artifacts, dir, keys[0], failing);
      OneIs(files, artifacts, dir, keys[0], failing);
      var name := artifacts[keys[0]].name;
      assert Reserve(files, dir, name).Some? by {
        if Reserve(files, dir, name).None? { RoomLeft(files, dir, name); }
      }
      hide Reserve, BadName;
      assert one.ok;
      assert |one.files.Keys| <= |files.Keys| + 1;
      PublishSucceeds(one.files, artifacts, dir, keys[1..], failing);
    }
  }

  /** The outcome of a run that has the given paths published and the given keys to go. */
  function Onward(files: Files, artifacts: map<string, Path>, dir: string, keys: seq<string>, failing: map<string, Option<Content>>,
                  published: seq<Path>): Outcome
  {
    var rest := PublishAll(files, artifacts, dir, keys, failing);
    Outcome(rest.files, published + rest.published, rest.ok)
  }

  lemma OnwardStart(files: Files, artifacts: map<string, Path>, dir: string, keys: seq<string>, failing: map<string, Option<Content>>)
    ensures Onward(files, artifacts, dir, keys[0..], failing, []) == PublishAll(files, artifacts, dir, keys, failing)
  {
    assert keys[0..] == keys;
  }

  lemma OnwardStep(files: Files, artifacts: map<string, Path>, dir: string, keys: seq<string>, i: nat, failing: map<string, Option<Content>>,
                   published: seq<Path>)
    requires i < |keys|
    ensures var one := PublishOne(files, artifacts, dir, keys[i], failing);
      Onward(files, artifacts, dir, keys[i..], failing, published) ==
        if one.ok then Onward(one.files, artifacts, dir, keys[i + 1..], failing, published + one.published)
        else Outcome(one.files, published + one.published, false)
  {
    assert keys[i..][0] == keys[i] && keys[i..][1..] == keys[i + 1..];
    var one := PublishOne(files, artifacts, dir, keys[i], failing);
    var rest := PublishAll(one.files, artifacts, dir, keys[i + 1..], failing);
    hide PublishOne;
    assert published + (one.published + rest.published) == (published + one.published) + rest.published;
  }

  lemma OnwardEnd(files: Files, artifacts: map<string, Path>, dir: string, keys: seq<string>, failing: map<string, Option<Content>>,
                  published: seq<Path>)
    ensures Onward(files, artifacts, dir, keys[|keys|..], failing, published) == Outcome(files, published, true)
  {
  }

  class Disk {
    var files: Files

    /** `reserve_artifact_path`: the path and the number in its name. */
    method ReserveArtifactPath(dir: string, name: string) returns (path: Option<Path>)
      ensures path == Reserve(files, dir, name)
    {
      if BadName(name) { return None; }
      var base := Path(dir, name);
      if base !in files { return Some(base); }
      var index := 2;
      while index <= MAX_INDEX
        invariant 2 <= index <= MAX_INDEX + 1
        invariant FreeFrom(files, dir, name, index) == FreeFrom(files, dir, name, 2)
      {
        var candidate := Path(dir, Numbered(name, index));
        if candidate !in files { return Some(candidate); }
        index := index + 1;
      }
      return None;
    }

    /** `_publish_artifacts` */
    method PublishArtifacts(artifacts: map<string, Path>, dir: string, selected: seq<string>, failing: map<string, Option<Content>>)
      returns (published: seq<Path>, ok: bool)
      modifies this
      ensures Outcome(files, published, ok) == PublishAll(old(files), artifacts, dir, selected, failing)
      ensures Keeps(old(files), files)
      ensures ok ==> AllDone(old(files), artifacts, dir, selected, Outcome(files, published, ok))
    {
      ghost var all := PublishAll(files, artifacts, dir, selected, failing);
      PublishedIs(files, artifacts, dir, selected, failing);
      OnwardStart(files, artifacts, dir, selected, failing);
      published, ok := [], true;
      hide *;
      for i := 0 to |selected|
        invariant ok && Onward(files, artifacts, dir, selected[i..], failing, published) == all
      {
        OnwardStep(files, artifacts, dir, selected, i, failing, published);
        var path := PublishKey(artifacts, dir, selected[i], failing);
        if path.None? { return published, false; }
        published := published + [path.value];
      }
      OnwardEnd(files, artifacts, dir, selected, failing, published);
    }

    /** One turn of the loop. */
    method PublishKey(artifacts: map<string, Path>, dir: string, key: string, failing: map<string, Option<Content>>) returns (path: Option<Path>)
      modifies this
      ensures Outcome(files, if path.Some? then [path.value] else [], path.Some?) == PublishOne(old(files), artifacts, dir, key, failing)
    {
      if key !in artifacts { return None; }
      var source := artifacts[key];
      if source !in files { return None; }
      var candidate := Path(dir, source.name);
      if source == candidate { return Some(candidate); }
      var destination := candidate;
      if destination in files {
        var reserved := ReserveArtifactPath(dir, source.name);
        if reserved.None? { return None; }
        destination := reserved.value;
      }
      hide Reserve;
      if key in failing {
        if failing[key].Some? { files := files[destination := failing[key].value]; }
        return None;
      }
      files := files[destination := files[source]];
      return Some(destination);
    }
  }
}
