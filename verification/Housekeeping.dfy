/** The directory rule of the housekeeping engine: three oldest-first deletion passes over the
    eligible files, in which any single deletion may fail. */
module Housekeeping {
  import opened Sequences

  datatype FileInfo = FileInfo(path: string, size: nat, mtime: real)

  datatype Rule = Rule(maxFiles: Option<int>, maxTotalBytes: Option<int>, maxAgeDays: Option<int>)

  predicate OlderOrSame(a: FileInfo, b: FileInfo) { a.mtime <= b.mtime }

  /** `sorted(files, key=lambda item: item.mtime)`; ties keep their listing order. */
  function ByAge(files: seq<FileInfo>): seq<FileInfo> { SortBy(OlderOrSame, files) }

  function Size(files: seq<FileInfo>): nat {
    if files == [] then 0 else Size(files[..|files| - 1]) + files[|files| - 1].size
  }

  function Paths(files: seq<FileInfo>): set<string> {
    set f | f in files :: f.path
  }

  lemma PathsOf(files: seq<FileInfo>)
    ensures forall f :: f in files ==> f.path in Paths(files)
  {
  }

  ghost predicate DistinctPaths(files: seq<FileInfo>) {
    forall i, j :: 0 <= i < j < |files| ==> files[i].path != files[j].path
  }

  function OldEnough(now: real, minAge: int): FileInfo -> bool {
    (f: FileInfo) => now - f.mtime >= Max(minAge, 0) as real
  }

  function Cutoff(now: real, maxAgeDays: int): real {
    now - (Max(maxAgeDays, 0) * 86400) as real
  }

  /** The files a rule may touch, oldest first. */
  function Candidates(files: seq<FileInfo>, now: real, minAge: int): seq<FileInfo> {
    ByAge(Filter(OldEnough(now, minAge), files))
  }

  // ---- What a rule should delete ---------------------------------------------

  /** With the first k candidates e gone, the rule is satisfied. */
  ghost predicate Meets(files: seq<FileInfo>, e: seq<FileInfo>, rule: Rule, now: real, k: nat)
    requires k <= |e|
  {
    && (rule.maxAgeDays.Some? ==> forall i :: k <= i < |e| ==> e[i].mtime > Cutoff(now, rule.maxAgeDays.value))
    && (rule.maxFiles.Some? ==> |files| - k <= rule.maxFiles.value)
    && (rule.maxTotalBytes.Some? ==> Size(files) - Size(e[..k]) <= rule.maxTotalBytes.value)
  }

  /** The shortest oldest-first prefix whose deletion satisfies the rule, or all candidates. */
  ghost function ShortestFrom(files: seq<FileInfo>, e: seq<FileInfo>, rule: Rule, now: real, k: nat): (r: nat)
    requires k <= |e|
    ensures k <= r <= |e|
    ensures r == |e| || Meets(files, e, rule, now, r)
    ensures forall j :: k <= j < r ==> !Meets(files, e, rule, now, j)
    decreases |e| - k
  {
    if k == |e| || Meets(files, e, rule, now, k) then k else ShortestFrom(files, e, rule, now, k + 1)
  }

  ghost function Doomed(files: seq<FileInfo>, rule: Rule, now: real, minAge: int): seq<FileInfo> {
    var e := Candidates(files, now, minAge);
    e[..ShortestFrom(files, e, rule, now, 0)]
  }

  function NotAmong(paths: set<string>): FileInfo -> bool {
    (f: FileInfo) => f.path !in paths
  }

  function Among(paths: set<string>): FileInfo -> bool {
    (f: FileInfo) => f.path in paths
  }

  // ---- Progress of a run -------------------------------------------------------

  /** Every one of the a oldest candidates has been tried; those outside `stuck` are gone. */
  ghost predicate Progress(e: seq<FileInfo>, a: nat, stuck: set<string>, deleted: set<string>, deletedBytes: nat, errors: nat) {
    && a <= |e|
    && deleted == Paths(e[..a]) - stuck
    && deletedBytes == Size(Filter(NotAmong(stuck), e[..a]))
    && (errors == 0 <==> Paths(e[..a]) !! stuck)
  }

  lemma {:induction false} SizeAppend(a: seq<FileInfo>, b: seq<FileInfo>)
    ensures Size(a + b) == Size(a) + Size(b)
  {
    if b == [] {
      assert a + b == a;
    } else {
      var n := |b| - 1;
      assert (a + b)[..|a + b| - 1] == a + b[..n];
      SizeAppend(a, b[..n]);
    }
  }

  lemma SizeStep(e: seq<FileInfo>, k: nat)
    requires k < |e|
    ensures Size(e[..k + 1]) == Size(e[..k]) + e[k].size
  {
    assert e[..k + 1][..k] == e[..k];
  }

  lemma PathsStep(e: seq<FileInfo>, k: nat)
    requires k < |e|
    ensures Paths(e[..k + 1]) == Paths(e[..k]) + {e[k].path}
  {
    assert e[..k + 1] == e[..k] + [e[k]];
  }

  lemma {:induction false} SizeSplit(p: FileInfo -> bool, s: seq<FileInfo>)
    ensures Size(Filter(p, s)) + Size(Filter(Not(p), s)) == Size(s)
  {
    if s != [] {
      var n := |s| - 1;
      assert s == s[..n] + [s[n]];
      SizeSplit(p, s[..n]);
      FilterAppend(p, s[..n], [s[n]]);
      FilterAppend(Not(p), s[..n], [s[n]]);
      SizeAppend(Filter(p, s[..n]), Filter(p, [s[n]]));
      SizeAppend(Filter(Not(p), s[..n]), Filter(Not(p), [s[n]]));
      assert Size([s[n]]) == s[n].size;
    }
  }

  lemma LaterPath(e: seq<FileInfo>, a: nat, f: FileInfo)
    requires DistinctPaths(e) && a <= |e| && f in e[a..]
    ensures f.path !in Paths(e[..a])
  {
    var j := Position(e[a..], f);
    forall g | g in e[..a] ensures g.path != f.path {
      var i := Position(e[..a], g);
      assert e[i] == g && e[a + j] == f;
    }
  }

  /** What is left to try: the stuck files among the first a candidates, then all later ones. */
  lemma Remaining(e: seq<FileInfo>, a: nat, stuck: set<string>, deleted: set<string>)
    requires DistinctPaths(e) && a <= |e| && deleted == Paths(e[..a]) - stuck
    ensures Filter(NotAmong(deleted), e) == Filter(Among(stuck), e[..a]) + e[a..]
  {
    assert e == e[..a] + e[a..];
    FilterAppend(NotAmong(deleted), e[..a], e[a..]);
    forall f | f in e[..a] ensures NotAmong(deleted)(f) == Among(stuck)(f) {
      assert f.path in Paths(e[..a]);
    }
    FilterSame(NotAmong(deleted), Among(stuck), e[..a]);
    forall f | f in e[a..] ensures NotAmong(deleted)(f) { LaterPath(e, a, f); }
    FilterAll(NotAmong(deleted), e[a..]);
  }

  /** What one call of the deletion helper does to the run's counters. */
  ghost predicate Attempted(f: FileInfo, stuck: set<string>, deleted: set<string>, bytes: nat, errors: nat,
                            deleted': set<string>, bytes': nat, errors': nat)
  {
    if f.path in deleted then deleted' == deleted && bytes' == bytes && errors' == errors
    else if f.path in stuck then deleted' == deleted && bytes' == bytes && errors' == errors + 1
    else deleted' == deleted + {f.path} && bytes' == bytes + f.size && errors' == errors
  }

  lemma FilteredSizeStep(p: FileInfo -> bool, e: seq<FileInfo>, k: nat)
    requires k < |e|
    ensures Size(Filter(p, e[..k + 1])) == Size(Filter(p, e[..k])) + (if p(e[k]) then e[k].size else 0)
  {
    assert e[..k + 1] == e[..k] + [e[k]];
    FilterAppend(p, e[..k], [e[k]]);
    SizeAppend(Filter(p, e[..k]), Filter(p, [e[k]]));
    assert Size([e[k]]) == e[k].size;
  }

  lemma AttemptNext(e: seq<FileInfo>, a: nat, stuck: set<string>, deleted: set<string>, bytes: nat, errors: nat,
                    deleted': set<string>, bytes': nat, errors': nat)
    requires DistinctPaths(e) && a < |e| && Progress(e, a, stuck, deleted, bytes, errors)
    requires Attempted(e[a], stuck, deleted, bytes, errors, deleted', bytes', errors')
    ensures Progress(e, a + 1, stuck, deleted', bytes', errors')
  {
    hide Filter, Size;
    PathsStep(e, a);
    assert e[a].path !in Paths(e[..a]);
    FilteredSizeStep(NotAmong(stuck), e, a);
  }

  lemma AttemptStuck(e: seq<FileInfo>, a: nat, stuck: set<string>, deleted: set<string>, bytes: nat, errors: nat,
                     f: FileInfo, deleted': set<string>, bytes': nat, errors': nat)
    requires Progress(e, a, stuck, deleted, bytes, errors) && f in Filter(Among(stuck), e[..a])
    requires Attempted(f, stuck, deleted, bytes, errors, deleted', bytes', errors')
    ensures Progress(e, a, stuck, deleted', bytes', errors')
  {
    FilterMembers(Among(stuck), e[..a]);
    assert f.path in Paths(e[..a]) && f.path in stuck;
  }

  /** After i tries of a pass that starts with s stuck files, the candidates tried so far. */
  function Reached(a: nat, s: nat, i: nat): nat { if i <= s then a else a + (i - s) }

  /** How many of n files a pass tries that has `extra` too many. */
  function Tries(extra: int, n: nat): (r: nat)
    ensures r <= n
  {
    if extra < 0 then 0 else Min(extra, n)
  }

  lemma ReachedNone(a: nat, s: nat)
    ensures Reached(a, s, 0) == a
  {
  }

  /** The work list of a pass: the stuck files among the first a candidates, then the untried ones. */
  ghost function WorkList(e: seq<FileInfo>, a: nat, stuck: set<string>): seq<FileInfo>
    requires a <= |e|
  {
    Filter(Among(stuck), e[..a]) + e[a..]
  }

  ghost function StuckCount(e: seq<FileInfo>, a: nat, stuck: set<string>): nat
    requires a <= |e|
  {
    |Filter(Among(stuck), e[..a])|
  }

  lemma WorkListSize(e: seq<FileInfo>, a: nat, stuck: set<string>)
    requires a <= |e|
    ensures |WorkList(e, a, stuck)| == StuckCount(e, a, stuck) + |e| - a
  {
  }

  lemma AttemptOnList(e: seq<FileInfo>, a: nat, stuck: set<string>, i: nat, deleted: set<string>, bytes: nat, errors: nat,
                      deleted': set<string>, bytes': nat, errors': nat)
    requires DistinctPaths(e) && a <= |e| && i < |WorkList(e, a, stuck)|
    requires Progress(e, Reached(a, StuckCount(e, a, stuck), i), stuck, deleted, bytes, errors)
    requires Attempted(WorkList(e, a, stuck)[i], stuck, deleted, bytes, errors, deleted', bytes', errors')
    ensures Progress(e, Reached(a, StuckCount(e, a, stuck), i + 1), stuck, deleted', bytes', errors')
  {
    var s := StuckCount(e, a, stuck);
    var f := WorkList(e, a, stuck)[i];
    hide Progress, Attempted, DistinctPaths;
    if i < s {
      assert f == Filter(Among(stuck), e[..a])[i];
      AttemptStuck(e, a, stuck, deleted, bytes, errors, f, deleted', bytes', errors');
    } else {
      assert f == e[a + (i - s)];
      AttemptNext(e, a + (i - s), stuck, deleted, bytes, errors, deleted', bytes', errors');
    }
  }

  class DirectoryRun {
    const dryRun: bool
    /** Files whose removal always fails. */
    const failing: set<string>
    var disk: set<string>
    var deleted: set<string>
    var deletedBytes: nat
    var errors: nat

    constructor (dryRun: bool, failing: set<string>, disk: set<string>)
      ensures this.dryRun == dryRun && this.failing == failing && this.disk == disk
      ensures deleted == {} && deletedBytes == 0 && errors == 0
    {
      this.dryRun, this.failing, this.disk := dryRun, failing, disk;
      deleted, deletedBytes, errors := {}, 0, 0;
    }

    /** The files this run cannot delete: a dry run tries nothing, so nothing fails. */
    function Stuck(): set<string> { if dryRun then {} else failing }

    /** The a oldest candidates have been tried, and the disk has lost what was deleted. */
    ghost predicate At(e: seq<FileInfo>, a: nat, disk0: set<string>)
      reads this
    {
      && Progress(e, a, Stuck(), deleted, deletedBytes, errors)
      && disk == disk0 - (if dryRun then {} else deleted)
    }

    /** `delete_file` */
    method DeleteFile(f: FileInfo)
      modifies this
      ensures Attempted(f, Stuck(), old(deleted), old(deletedBytes), old(errors), deleted, deletedBytes, errors)
      ensures disk == if dryRun then old(disk) else old(disk) - (deleted - old(deleted))
    {
      if f.path in deleted { return; }
      if !dryRun {
        if f.path in failing {
          errors := errors + 1;
          return;
        }
        disk := disk - {f.path};
      }
      deleted := deleted + {f.path};
      deletedBytes := deletedBytes + f.size;
    }

    method TryOnList(f: FileInfo, ghost e: seq<FileInfo>, ghost a: nat, ghost i: nat, ghost disk0: set<string>)
      requires DistinctPaths(e) && a <= |e| && i < |WorkList(e, a, Stuck())| && f == WorkList(e, a, Stuck())[i]
      requires At(e, Reached(a, StuckCount(e, a, Stuck()), i), disk0)
      modifies this
      ensures At(e, Reached(a, StuckCount(e, a, Stuck()), i + 1), disk0)
    {
      DeleteFile(f);
      AttemptOnList(e, a, Stuck(), i, old(deleted), old(deletedBytes), old(errors), deleted, deletedBytes, errors);
      assert old(deleted) <= deleted;
    }

    /** The age pass: every candidate at or before the cutoff, a prefix because e is oldest first. */
    method AgePass(e: seq<FileInfo>, cutoff: real, ghost a: nat)
      requires DistinctPaths(e) && a <= |e|
      requires forall i :: 0 <= i < |e| ==> (e[i].mtime <= cutoff <==> i < a)
      requires deleted == {} && deletedBytes == 0 && errors == 0
      modifies this
      ensures At(e, a, old(disk))
    {
      NothingTried(e, Stuck());
      WorkListOfNothing(e, Stuck());
      AtMeans(e, 0, disk);
      hide WorkList, StuckCount, Progress, At;
      for i := 0 to |e|
        invariant At(e, Min(i, a), old(disk))
      {
        if e[i].mtime <= cutoff {
          TryOnList(e[i], e, 0, i, old(disk));
        }
      }
    }

    /** The count pass: one candidate off the list for each file too many. */
    method CountPass(todo: seq<FileInfo>, toRemove: int, ghost e: seq<FileInfo>, ghost a: nat, ghost disk0: set<string>)
      requires DistinctPaths(e) && a <= |e| && todo == WorkList(e, a, Stuck())
      requires At(e, a, disk0)
      modifies this
      ensures At(e, Reached(a, StuckCount(e, a, Stuck()), Tries(toRemove, |todo|)), disk0)
    {
      hide StuckCount, WorkList;
      var left := toRemove;
      for i := 0 to |todo|
        invariant left == toRemove - i && i <= Max(toRemove, 0)
        invariant At(e, Reached(a, StuckCount(e, a, Stuck()), i), disk0)
      {
        if left <= 0 { break; }
        TryOnList(todo[i], e, a, i, disk0);
        left := left - 1;
      }
    }

    /** The byte pass: candidates off the list until their sizes cover the overage. */
    method BytePass(todo: seq<FileInfo>, overage: int, ghost e: seq<FileInfo>, ghost a: nat, ghost disk0: set<string>)
      returns (ghost m: nat)
      requires DistinctPaths(e) && a <= |e| && todo == WorkList(e, a, Stuck())
      requires At(e, a, disk0)
      modifies this
      ensures m <= |todo| && At(e, Reached(a, StuckCount(e, a, Stuck()), m), disk0)
      ensures m == |todo| || overage <= Size(todo[..m])
      ensures m == 0 || overage > Size(todo[..m - 1])
    {
      hide StuckCount, WorkList;
      var left := overage;
      m := 0;
      for i := 0 to |todo|
        invariant m == i && left == overage - Size(todo[..i])
        invariant At(e, Reached(a, StuckCount(e, a, Stuck()), i), disk0)
        invariant i == 0 || overage > Size(todo[..i - 1])
      {
        if left <= 0 { break; }
        TryOnList(todo[i], e, a, i, disk0);
        SizeStep(todo, i);
        left := left - todo[i].size;
        m := m + 1;
      }
    }

    lemma AtMeans(e: seq<FileInfo>, a: nat, disk0: set<string>)
      ensures At(e, a, disk0) <==>
        && Progress(e, a, Stuck(), deleted, deletedBytes, errors)
        && disk == disk0 - (if dryRun then {} else deleted)
      ensures Progress(e, a, Stuck(), deleted, deletedBytes, errors) <==>
        && a <= |e|
        && deleted == Paths(e[..a]) - Stuck()
        && deletedBytes == Size(Filter(NotAmong(Stuck()), e[..a]))
        && (errors == 0 <==> Paths(e[..a]) !! Stuck())
    {
    }

    /** The recomputed lists agree with what is left of the originals. */
    ghost predicate Lists(files: seq<FileInfo>, eligible: seq<FileInfo>, allFiles: seq<FileInfo>, now: real, minAge: int)
      reads this
    {
      && files == Filter(NotAmong(deleted), allFiles)
      && eligible == Filter(NotAmong(deleted), Filter(OldEnough(now, minAge), allFiles))
    }

    /** `if deleted: files = [...]; eligible = [...]`, the lists having been right for an earlier `deleted`. */
    method Refresh(files: seq<FileInfo>, eligible: seq<FileInfo>, ghost before: set<string>,
                   ghost allFiles: seq<FileInfo>, ghost now: real, ghost minAge: int)
      returns (files': seq<FileInfo>, eligible': seq<FileInfo>)
      requires before <= deleted
      requires files == Filter(NotAmong(before), allFiles)
      requires eligible == Filter(NotAmong(before), Filter(OldEnough(now, minAge), allFiles))
      ensures Lists(files', eligible', allFiles, now, minAge)
    {
      hide Filter;
      files', eligible' := files, eligible;
      if deleted != {} {
        FilterAgain(before, deleted, allFiles);
        FilterAgain(before, deleted, Filter(OldEnough(now, minAge), allFiles));
        files', eligible' := Filter(NotAmong(deleted), files), Filter(NotAmong(deleted), eligible);
      } else {
        assert before == deleted;
      }
    }

    method AgeStep(eligible: seq<FileInfo>, rule: Rule, now: real) returns (ghost a: nat)
      requires DistinctPaths(ByAge(eligible)) && Sorted(OlderOrSame, ByAge(eligible))
      requires deleted == {} && deletedBytes == 0 && errors == 0
      modifies this
      ensures var e := ByAge(eligible);
        a <= |e| && At(e, a, old(disk)) && AgeOk(e, rule, now, a) && (a == 0 || !AgeOk(e, rule, now, a - 1))
    {
      ghost var e := ByAge(eligible);
      a := if rule.maxAgeDays.Some? then AgeCount(e, Cutoff(now, rule.maxAgeDays.value)) else 0;
      hide *;
      AgeDone(e, rule, now, a);
      NothingTried(e, Stuck());
      AtMeans(e, 0, disk);
      if rule.maxAgeDays.Some? {
        AgePass(ByAge(eligible), Cutoff(now, rule.maxAgeDays.value), a);
      }
    }

    method CountStep(files: seq<FileInfo>, eligible: seq<FileInfo>, rule: Rule,
                     ghost allFiles: seq<FileInfo>, ghost e: seq<FileInfo>, ghost a: nat, ghost disk0: set<string>)
      returns (ghost b: nat)
      requires DistinctPaths(e) && a <= |e| && At(e, a, disk0)
      requires ByAge(eligible) == WorkList(e, a, Stuck()) && |files| == |allFiles| - a + StuckCount(e, a, Stuck())
      modifies this
      ensures a <= b <= |e| && At(e, b, disk0)
      ensures (b == |e| || CountOk(allFiles, rule, b)) && (b == a || !CountOk(allFiles, rule, b - 1))
      ensures old(deleted) <= deleted
    {
      hide *;
      AtMeans(e, a, disk0);
      b := a;
      if rule.maxFiles.Some? && |files| > rule.maxFiles.value {
        var toRemove := |files| - rule.maxFiles.value;
        CountPass(ByAge(eligible), toRemove, e, a, disk0);
        b := Reached(a, StuckCount(e, a, Stuck()), Tries(toRemove, |WorkList(e, a, Stuck())|));
      }
      CountDone(allFiles, e, rule, a, b, Stuck(), |files|);
      AtMeans(e, b, disk0);
      PathsGrow(e, a, b, Stuck());
    }

    method ByteStep(files: seq<FileInfo>, eligible: seq<FileInfo>, rule: Rule,
                    ghost allFiles: seq<FileInfo>, ghost e: seq<FileInfo>, ghost a: nat, ghost disk0: set<string>)
      returns (ghost b: nat)
      requires DistinctPaths(e) && a <= |e| && At(e, a, disk0)
      requires ByAge(eligible) == WorkList(e, a, Stuck())
      requires Size(files) == Size(allFiles) - Size(e[..a]) + Size(Filter(Among(Stuck()), e[..a]))
      modifies this
      ensures a <= b <= |e| && At(e, b, disk0)
      ensures (b == |e| || BytesOk(allFiles, e, rule, b)) && (b == a || !BytesOk(allFiles, e, rule, b - 1))
    {
      hide *;
      ghost var m: nat := 0;
      var totalBytes := Size(files);
      ReachedNone(a, StuckCount(e, a, Stuck()));
      if rule.maxTotalBytes.Some? && totalBytes > rule.maxTotalBytes.value {
        m := BytePass(ByAge(eligible), totalBytes - rule.maxTotalBytes.value, e, a, disk0);
      }
      b := Reached(a, StuckCount(e, a, Stuck()), m);
      BytesDone(allFiles, e, rule, a, b, Stuck(), totalBytes, m);
    }

    /** `_apply_directory_rule`: whatever fails, the deleted set is the planned prefix minus the files
        that cannot be deleted, so a dry run predicts a real one exactly. */
    method Apply(allFiles: seq<FileInfo>, rule: Rule, now: real, minAge: int)
      requires DistinctPaths(allFiles)
      requires deleted == {} && deletedBytes == 0 && errors == 0
      modifies this
      ensures deleted == Paths(Doomed(allFiles, rule, now, minAge)) - Stuck()
      ensures deletedBytes == Size(Filter(NotAmong(Stuck()), Doomed(allFiles, rule, now, minAge)))
      ensures errors == 0 <==> Paths(Doomed(allFiles, rule, now, minAge)) !! Stuck()
      ensures disk == if dryRun then old(disk) else old(disk) - deleted
      ensures forall f :: f in allFiles && now - f.mtime >= Max(minAge, 0) as real && TooOld(f, rule, now) ==>
        f.path in deleted || f.path in Stuck()
    {
      var files, eligible := allFiles, Filter(OldEnough(now, minAge), allFiles);
      ghost var e := Candidates(allFiles, now, minAge);
      assert e == ByAge(eligible);
      hide *;
      CandidatesShape(allFiles, now, minAge);
      FilterNothing(allFiles);
      FilterNothing(eligible);
      ghost var a := AgeStep(eligible, rule, now);
      files, eligible := Refresh(files, eligible, {}, allFiles, now, minAge);
      ListsAre(files, eligible, allFiles, now, minAge, a, old(disk));
      ghost var before := deleted;
      ghost var b := CountStep(files, eligible, rule, allFiles, e, a, old(disk));
      files, eligible := Refresh(files, eligible, before, allFiles, now, minAge);
      ListsAre(files, eligible, allFiles, now, minAge, b, old(disk));
      ghost var c := ByteStep(files, eligible, rule, allFiles, e, b, old(disk));
      AllDone(allFiles, rule, now, minAge, a, b, c);
      Finished(e, c, old(disk), Doomed(allFiles, rule, now, minAge));
      DoomedMeetsRule(allFiles, rule, now, minAge);
      PathsOf(Doomed(allFiles, rule, now, minAge));
    }

    lemma Finished(e: seq<FileInfo>, a: nat, disk0: set<string>, doomed: seq<FileInfo>)
      requires a <= |e| && At(e, a, disk0) && doomed == e[..a]
      ensures deleted == Paths(doomed) - Stuck()
      ensures deletedBytes == Size(Filter(NotAmong(Stuck()), doomed))
      ensures errors == 0 <==> Paths(doomed) !! Stuck()
      ensures disk == if dryRun then disk0 else disk0 - deleted
    {
    }

    lemma ListsAre(files: seq<FileInfo>, eligible: seq<FileInfo>, allFiles: seq<FileInfo>, now: real, minAge: int, a: nat, disk0: set<string>)
      requires DistinctPaths(allFiles) && Lists(files, eligible, allFiles, now, minAge)
      requires a <= |Candidates(allFiles, now, minAge)| && At(Candidates(allFiles, now, minAge), a, disk0)
      ensures files == Filter(NotAmong(deleted), allFiles)
      ensures eligible == Filter(NotAmong(deleted), Filter(OldEnough(now, minAge), allFiles))
      ensures var e := Candidates(allFiles, now, minAge);
        && ByAge(eligible) == WorkList(e, a, Stuck())
        && |files| == |allFiles| - a + StuckCount(e, a, Stuck())
        && Size(files) == Size(allFiles) - Size(e[..a]) + Size(Filter(Among(Stuck()), e[..a]))
    {
      Left(allFiles, now, minAge, a, Stuck(), deleted);
    }
  }

  lemma NothingTried(e: seq<FileInfo>, stuck: set<string>)
    ensures Progress(e, 0, stuck, {}, 0, 0)
  {
  }

  lemma WorkListOfNothing(e: seq<FileInfo>, stuck: set<string>)
    ensures WorkList(e, 0, stuck) == e && StuckCount(e, 0, stuck) == 0
  {
  }

  ghost function AgeCount(e: seq<FileInfo>, cutoff: real): nat {
    if e == [] || e[0].mtime > cutoff then 0 else 1 + AgeCount(e[1..], cutoff)
  }

  lemma {:induction false} AgeCountSplits(e: seq<FileInfo>, cutoff: real)
    requires Sorted(OlderOrSame, e)
    ensures AgeCount(e, cutoff) <= |e|
    ensures forall i :: 0 <= i < |e| ==> (e[i].mtime <= cutoff <==> i < AgeCount(e, cutoff))
  {
    if e != [] {
      AgeCountSplits(e[1..], cutoff);
      forall i | 0 <= i < |e| ensures e[i].mtime <= cutoff <==> i < AgeCount(e, cutoff) {
        if i > 0 {
          assert e[i] == e[1..][i - 1];
          assert OlderOrSame(e[0], e[i]);
        }
      }
    }
  }

  lemma {:induction false} FilterDistinct(p: FileInfo -> bool, files: seq<FileInfo>)
    requires DistinctPaths(files)
    ensures DistinctPaths(Filter(p, files))
  {
    if files != [] {
      FilterDistinct(p, files[1..]);
      FilterMembers(p, files[1..]);
      var rest := Filter(p, files[1..]);
      forall j | 0 <= j < |rest| ensures files[0].path != rest[j].path { assert rest[j] in files[1..]; }
    }
  }

  lemma {:induction false} InsertDistinct(f: FileInfo, s: seq<FileInfo>)
    requires DistinctPaths(s) && forall g :: g in s ==> g.path != f.path
    ensures DistinctPaths(Insert(OlderOrSame, f, s))
    ensures forall g :: g in Insert(OlderOrSame, f, s) <==> g == f || g in s
    ensures Size(Insert(OlderOrSame, f, s)) == f.size + Size(s)
  {
    if s == [] || f.mtime <= s[0].mtime {
      SizeAppend([f], s);
      assert Size([f]) == f.size;
    } else {
      InsertDistinct(f, s[1..]);
      var t := Insert(OlderOrSame, f, s[1..]);
      forall j | 0 <= j < |t| ensures s[0].path != t[j].path { assert t[j] == f || t[j] in s[1..]; }
      SizeAppend([s[0]], t);
      SizeAppend([s[0]], s[1..]);
      assert s == [s[0]] + s[1..] && Size([s[0]]) == s[0].size;
    }
  }

  lemma {:induction false} ByAgeFacts(s: seq<FileInfo>)
    requires DistinctPaths(s)
    ensures DistinctPaths(ByAge(s)) && Sorted(OlderOrSame, ByAge(s))
    ensures |ByAge(s)| == |s| && Size(ByAge(s)) == Size(s)
    ensures forall f :: f in ByAge(s) <==> f in s
  {
    SortPermutes(OlderOrSame, s);
    SortSorts(OlderOrSame, s);
    if s != [] {
      ByAgeFacts(s[1..]);
      forall g | g in ByAge(s[1..]) ensures g.path != s[0].path { assert g in s[1..]; }
      InsertDistinct(s[0], ByAge(s[1..]));
      SizeAppend([s[0]], s[1..]);
      assert s == [s[0]] + s[1..] && Size([s[0]]) == s[0].size;
    }
  }

  lemma CandidatesFacts(files: seq<FileInfo>, now: real, minAge: int)
    requires DistinctPaths(files)
    ensures var e := Candidates(files, now, minAge);
      && DistinctPaths(e) && Sorted(OlderOrSame, e)
      && (forall f :: f in e <==> f in files && now - f.mtime >= Max(minAge, 0) as real)
  {
    FilterDistinct(OldEnough(now, minAge), files);
    FilterMembers(OldEnough(now, minAge), files);
    ByAgeFacts(Filter(OldEnough(now, minAge), files));
  }

  lemma CandidatesShape(files: seq<FileInfo>, now: real, minAge: int)
    requires DistinctPaths(files)
    ensures DistinctPaths(Candidates(files, now, minAge)) && Sorted(OlderOrSame, Candidates(files, now, minAge))
  {
    CandidatesFacts(files, now, minAge);
  }

  lemma FilterNothing(s: seq<FileInfo>)
    ensures Filter(NotAmong({}), s) == s
  {
    FilterAll(NotAmong({}), s);
  }

  lemma FilterAgain(d: set<string>, d': set<string>, s: seq<FileInfo>)
    requires d <= d'
    ensures Filter(NotAmong(d'), Filter(NotAmong(d), s)) == Filter(NotAmong(d'), s)
  {
    FilterFilter(NotAmong(d), NotAmong(d'), s);
    FilterSame(And(NotAmong(d), NotAmong(d')), NotAmong(d'), s);
  }

  lemma {:induction false} PathsGrow(e: seq<FileInfo>, a: nat, b: nat, stuck: set<string>)
    requires a <= b <= |e|
    ensures Paths(e[..a]) - stuck <= Paths(e[..b]) - stuck
  {
    assert e[..b] == e[..a] + e[a..b];
  }

  lemma SameCount(files: seq<FileInfo>, now: real, minAge: int, deleted: set<string>)
    requires DistinctPaths(files)
    requires deleted <= Paths(Candidates(files, now, minAge))
    ensures var hit := Filter(Among(deleted), Candidates(files, now, minAge));
      && |Filter(NotAmong(deleted), files)| == |files| - |hit|
      && Size(Filter(NotAmong(deleted), files)) == Size(files) - Size(hit)
  {
    var p := OldEnough(now, minAge);
    CandidatesFacts(files, now, minAge);
    forall f | f in files ensures Among(deleted)(f) == And(p, Among(deleted))(f) {
      if f.path in deleted {
        var g :| g in Candidates(files, now, minAge) && g.path == f.path;
        var i := Position(files, f);
        var j := Position(files, g);
      }
    }
    FilterSame(Among(deleted), And(p, Among(deleted)), files);
    FilterFilter(p, Among(deleted), files);
    OrderIsPreorder();
    FilterSort(OlderOrSame, Among(deleted), Filter(p, files));
    FilterDistinct(p, files);
    FilterDistinct(Among(deleted), Filter(p, files));
    ByAgeFacts(Filter(Among(deleted), Filter(p, files)));
    SizeSplit(Among(deleted), files);
    FilterSplits(Among(deleted), files);
    var both := Filter(Among(deleted), files) + Filter(Not(Among(deleted)), files);
    assert multiset(both) == multiset(files);
    SameLength(both, files);
    FilterSame(Not(Among(deleted)), NotAmong(deleted), files);
  }

  lemma OrderIsPreorder()
    ensures TotalPreorder(OlderOrSame)
  {
  }

  /** What the recomputed lists hold once the first a candidates have been tried. */
  lemma Left(files: seq<FileInfo>, now: real, minAge: int, a: nat, stuck: set<string>, deleted: set<string>)
    requires DistinctPaths(files)
    requires a <= |Candidates(files, now, minAge)| && deleted == Paths(Candidates(files, now, minAge)[..a]) - stuck
    ensures var e := Candidates(files, now, minAge);
      && ByAge(Filter(NotAmong(deleted), Filter(OldEnough(now, minAge), files))) == WorkList(e, a, stuck)
      && |Filter(NotAmong(deleted), files)| == |files| - a + StuckCount(e, a, stuck)
      && Size(Filter(NotAmong(deleted), files)) == Size(files) - Size(e[..a]) + Size(Filter(Among(stuck), e[..a]))
  {
    var e := Candidates(files, now, minAge);
    CandidatesFacts(files, now, minAge);
    OrderIsPreorder();
    FilterSort(OlderOrSame, NotAmong(deleted), Filter(OldEnough(now, minAge), files));
    Remaining(e, a, stuck, deleted);
    assert deleted <= Paths(e);
    SameCount(files, now, minAge, deleted);
    HitAndStuck(e, a, stuck, deleted);
  }

  lemma HitAndStuck(e: seq<FileInfo>, a: nat, stuck: set<string>, deleted: set<string>)
    requires DistinctPaths(e) && a <= |e| && deleted == Paths(e[..a]) - stuck
    ensures |Filter(Among(deleted), e)| == a - StuckCount(e, a, stuck)
    ensures Size(Filter(Among(deleted), e)) == Size(e[..a]) - Size(Filter(Among(stuck), e[..a]))
  {
    var x := Filter(Among(deleted), e);
    var y := Filter(Not(Among(deleted)), e);
    FilterSame(Not(Among(deleted)), NotAmong(deleted), e);
    Remaining(e, a, stuck, deleted);
    SizeSplit(Among(deleted), e);
    FilterSplits(Among(deleted), e);
    assert multiset(x + y) == multiset(e);
    SameLength(x + y, e);
    SizeAppend(Filter(Among(stuck), e[..a]), e[a..]);
    SizeAppend(e[..a], e[a..]);
    assert e == e[..a] + e[a..];
  }

  // ---- Each pass stops at the shortest prefix that meets its own limit ---------------

  ghost predicate AgeOk(e: seq<FileInfo>, rule: Rule, now: real, k: nat) {
    rule.maxAgeDays.Some? ==> forall i :: k <= i < |e| ==> e[i].mtime > Cutoff(now, rule.maxAgeDays.value)
  }

  ghost predicate CountOk(files: seq<FileInfo>, rule: Rule, k: nat) {
    rule.maxFiles.Some? ==> |files| - k <= rule.maxFiles.value
  }

  ghost predicate BytesOk(files: seq<FileInfo>, e: seq<FileInfo>, rule: Rule, k: nat)
    requires k <= |e|
  {
    rule.maxTotalBytes.Some? ==> Size(files) - Size(e[..k]) <= rule.maxTotalBytes.value
  }

  lemma AgeDone(e: seq<FileInfo>, rule: Rule, now: real, a: nat)
    requires Sorted(OlderOrSame, e)
    requires a == if rule.maxAgeDays.Some? then AgeCount(e, Cutoff(now, rule.maxAgeDays.value)) else 0
    ensures a <= |e| && AgeOk(e, rule, now, a) && (a == 0 || !AgeOk(e, rule, now, a - 1))
    ensures rule.maxAgeDays.Some? ==> forall i :: 0 <= i < |e| ==> (e[i].mtime <= Cutoff(now, rule.maxAgeDays.value) <==> i < a)
  {
    if rule.maxAgeDays.Some? {
      AgeCountSplits(e, Cutoff(now, rule.maxAgeDays.value));
      if a > 0 { assert e[a - 1].mtime <= Cutoff(now, rule.maxAgeDays.value); }
    }
  }

  lemma CountDone(files: seq<FileInfo>, e: seq<FileInfo>, rule: Rule, a: nat, b: nat, stuck: set<string>, left: int)
    requires a <= |e| && left == |files| - a + StuckCount(e, a, stuck)
    requires b == if rule.maxFiles.Some? && left > rule.maxFiles.value
      then Reached(a, StuckCount(e, a, stuck), Tries(left - rule.maxFiles.value, |WorkList(e, a, stuck)|))
      else a
    ensures a <= b <= |e| && (b == |e| || CountOk(files, rule, b)) && (b == a || !CountOk(files, rule, b - 1))
  {
    WorkListSize(e, a, stuck);
  }

  lemma {:induction false} SizeGrows(s: seq<FileInfo>, j: nat, k: nat)
    requires j <= k <= |s|
    ensures Size(s[..j]) <= Size(s[..k])
  {
    assert s[..k] == s[..j] + s[j..k];
    SizeAppend(s[..j], s[j..k]);
  }

  lemma SizeOfWork(e: seq<FileInfo>, a: nat, stuck: set<string>, m: nat)
    requires a <= |e| && m <= |WorkList(e, a, stuck)|
    ensures m <= StuckCount(e, a, stuck) ==> Size(WorkList(e, a, stuck)[..m]) <= Size(Filter(Among(stuck), e[..a]))
    ensures m >= StuckCount(e, a, stuck) ==>
      && a + (m - StuckCount(e, a, stuck)) <= |e|
      && Size(WorkList(e, a, stuck)[..m])
         == Size(Filter(Among(stuck), e[..a])) + Size(e[..a + (m - StuckCount(e, a, stuck))]) - Size(e[..a])
  {
    var x := Filter(Among(stuck), e[..a]);
    var w := WorkList(e, a, stuck);
    if m <= |x| {
      assert w[..m] == x[..m] && x == x[..|x|];
      SizeGrows(x, m, |x|);
    }
    if m >= |x| {
      var k := m - |x|;
      assert w[..m] == x + e[a..a + k];
      SizeAppend(x, e[a..a + k]);
      assert e[..a + k] == e[..a] + e[a..a + k];
      SizeAppend(e[..a], e[a..a + k]);
    }
  }

  lemma BytesDone(files: seq<FileInfo>, e: seq<FileInfo>, rule: Rule, a: nat, b: nat, stuck: set<string>, total: int, m: nat)
    requires a <= |e| && total == Size(files) - Size(e[..a]) + Size(Filter(Among(stuck), e[..a]))
    requires m <= |WorkList(e, a, stuck)| && b == Reached(a, StuckCount(e, a, stuck), m)
    requires if rule.maxTotalBytes.Some? && total > rule.maxTotalBytes.value then
      var w := WorkList(e, a, stuck);
      && (m == |w| || total - rule.maxTotalBytes.value <= Size(w[..m]))
      && (m == 0 || total - rule.maxTotalBytes.value > Size(w[..m - 1]))
      else m == 0
    ensures a <= b <= |e| && (b == |e| || BytesOk(files, e, rule, b)) && (b == a || !BytesOk(files, e, rule, b - 1))
  {
    hide WorkList, StuckCount, Size;
    WorkListSize(e, a, stuck);
    SizeOfWork(e, a, stuck, m);
    if m > 0 { SizeOfWork(e, a, stuck, m - 1); }
  }

  lemma AllDone(files: seq<FileInfo>, rule: Rule, now: real, minAge: int, a: nat, b: nat, c: nat)
    requires DistinctPaths(files)
    requires var e := Candidates(files, now, minAge);
      && a <= b <= c <= |e|
      && AgeOk(e, rule, now, a) && (a == 0 || !AgeOk(e, rule, now, a - 1))
      && (b == |e| || CountOk(files, rule, b)) && (b == a || !CountOk(files, rule, b - 1))
      && (c == |e| || BytesOk(files, e, rule, c)) && (c == b || !BytesOk(files, e, rule, c - 1))
    ensures Doomed(files, rule, now, minAge) == Candidates(files, now, minAge)[..c]
  {
    var e := Candidates(files, now, minAge);
    var k := ShortestFrom(files, e, rule, now, 0);
    if c < |e| { assert Meets(files, e, rule, now, c); }
    if k < c && c > b { SizeGrows(e, k, c - 1); }
  }

  /** The planned deletions: only files old enough, none older left behind, no shorter prefix would
      have met the limits, and the limits are met unless every candidate is gone. */
  lemma DoomedIsShortest(files: seq<FileInfo>, rule: Rule, now: real, minAge: int)
    requires DistinctPaths(files)
    ensures var d := Doomed(files, rule, now, minAge);
      && d <= Candidates(files, now, minAge)
      && (forall f :: f in d ==> f in files && now - f.mtime >= Max(minAge, 0) as real)
      && (forall f, g :: f in d && g in files && g !in d && now - g.mtime >= Max(minAge, 0) as real ==> f.mtime <= g.mtime)
    ensures var d, e := Doomed(files, rule, now, minAge), Candidates(files, now, minAge);
      && (d == e || Meets(files, e, rule, now, |d|))
      && forall j :: 0 <= j < |d| ==> !Meets(files, e, rule, now, j)
  {
    var d, e := Doomed(files, rule, now, minAge), Candidates(files, now, minAge);
    CandidatesFacts(files, now, minAge);
    forall f, g | f in d && g in files && g !in d && now - g.mtime >= Max(minAge, 0) as real ensures f.mtime <= g.mtime {
      var i := Position(d, f);
      var j := Position(e, g);
      assert forall k :: 0 <= k < |d| ==> d[k] == e[k] && d[k] in d;
      assert OlderOrSame(e[i], e[j]);
    }
  }

  // ---- What the rule's own numbers say -------------------------------------------------

  lemma SizeOfOne(f: FileInfo)
    ensures Size([]) == 0 && Size([f]) == f.size
  {
  }

  lemma DoomedFacts(files: seq<FileInfo>, rule: Rule, now: real, minAge: int) returns (e: seq<FileInfo>, k: nat)
    requires DistinctPaths(files)
    ensures k <= |e| && Doomed(files, rule, now, minAge) == e[..k] && Sorted(OlderOrSame, e)
    ensures forall f :: f in e <==> f in files && now - f.mtime >= Max(minAge, 0) as real
    ensures k == |e| || Meets(files, e, rule, now, k)
    ensures k == 0 || !Meets(files, e, rule, now, k - 1)
  {
    e := Candidates(files, now, minAge);
    k := ShortestFrom(files, e, rule, now, 0);
    CandidatesFacts(files, now, minAge);
  }

  /** Too old for the rule, a day being 24 hours of 60 minutes of 60 seconds. */
  predicate TooOld(f: FileInfo, rule: Rule, now: real) {
    rule.maxAgeDays.Some? && now - f.mtime >= (Max(rule.maxAgeDays.value, 0) * 24 * 60 * 60) as real
  }

  lemma MeetsInNumbers(files: seq<FileInfo>, e: seq<FileInfo>, rule: Rule, now: real, k: nat)
    requires k <= |e|
    ensures Meets(files, e, rule, now, k) <==>
      && (forall i :: k <= i < |e| ==> !TooOld(e[i], rule, now))
      && (rule.maxFiles.Some? ==> |files| - k <= rule.maxFiles.value)
      && (rule.maxTotalBytes.Some? ==> Size(files) - Size(e[..k]) <= rule.maxTotalBytes.value)
  {
    if rule.maxAgeDays.Some? {
      var d := Max(rule.maxAgeDays.value, 0);
      assert d * 24 * 60 * 60 == d * 86400;
      assert forall i :: k <= i < |e| ==> (TooOld(e[i], rule, now) <==> !(e[i].mtime > Cutoff(now, rule.maxAgeDays.value)));
    }
  }

  /** The planned deletions leave no eligible file that is too old, and bring number and size of the files down to
      the limits unless nothing eligible is left. */
  lemma DoomedMeetsRule(files: seq<FileInfo>, rule: Rule, now: real, minAge: int)
    requires DistinctPaths(files)
    ensures var d := Doomed(files, rule, now, minAge);
      && (forall f :: f in files && now - f.mtime >= Max(minAge, 0) as real && TooOld(f, rule, now) ==> f in d)
      && ((rule.maxFiles.Some? ==> |files| - |d| <= rule.maxFiles.value)
        || forall f :: f in files && now - f.mtime >= Max(minAge, 0) as real ==> f in d)
      && ((rule.maxTotalBytes.Some? ==> Size(files) - Size(d) <= rule.maxTotalBytes.value)
        || forall f :: f in files && now - f.mtime >= Max(minAge, 0) as real ==> f in d)
  {
    var e, k := DoomedFacts(files, rule, now, minAge);
    var d := e[..k];
    MeetsInNumbers(files, e, rule, now, k);
    hide Doomed, Meets, Size, TooOld;
    if k == |e| {
      assert d == e;
    } else {
      forall f | f in e && TooOld(f, rule, now) ensures f in d {
        var i := Position(e, f);
        if i < k { assert e[..k][i] == f; }
      }
    }
  }

  /** Every planned deletion is needed: the file, or one deleted after it, is too old, one too many, or too big for
      what the limit has left. */
  lemma DoomedIsNeeded(files: seq<FileInfo>, rule: Rule, now: real, minAge: int, f: FileInfo) returns (g: FileInfo)
    requires DistinctPaths(files) && f in Doomed(files, rule, now, minAge)
    ensures var d := Doomed(files, rule, now, minAge);
      && g in d && f.mtime <= g.mtime
      && (TooOld(g, rule, now)
        || (rule.maxFiles.Some? && |files| - |d| + 1 > rule.maxFiles.value)
        || (rule.maxTotalBytes.Some? && Size(files) - Size(d) + g.size > rule.maxTotalBytes.value))
  {
    hide *;
    var e, k := DoomedFacts(files, rule, now, minAge);
    g := LastIsNewest(e, k, f);
    LastIsNeeded(files, e, rule, now, k);
  }

  lemma LastIsNewest(e: seq<FileInfo>, k: nat, f: FileInfo) returns (g: FileInfo)
    requires k <= |e| && Sorted(OlderOrSame, e) && f in e[..k]
    ensures k > 0 && g == e[k - 1] && g in e[..k] && f.mtime <= g.mtime && |e[..k]| == k
  {
    var i := Position(e[..k], f);
    g := e[k - 1];
    assert e[..k][k - 1] == g;
    assert i < k - 1 ==> OlderOrSame(e[i], e[k - 1]);
  }

  lemma LastIsNeeded(files: seq<FileInfo>, e: seq<FileInfo>, rule: Rule, now: real, k: nat)
    requires 0 < k <= |e| && Sorted(OlderOrSame, e) && !Meets(files, e, rule, now, k - 1)
    ensures
      || TooOld(e[k - 1], rule, now)
      || (rule.maxFiles.Some? && |files| - k + 1 > rule.maxFiles.value)
      || (rule.maxTotalBytes.Some? && Size(files) - Size(e[..k]) + e[k - 1].size > rule.maxTotalBytes.value)
  {
    hide *;
    MeetsInNumbers(files, e, rule, now, k - 1);
    SizeStep(e, k - 1);
    FirstIsOldest(e, k - 1, rule, now);
  }

  lemma FirstIsOldest(e: seq<FileInfo>, k: nat, rule: Rule, now: real)
    requires k < |e| && Sorted(OlderOrSame, e)
    ensures forall j :: k <= j < |e| && TooOld(e[j], rule, now) ==> TooOld(e[k], rule, now)
  {
    forall j | k <= j < |e| ensures e[k].mtime <= e[j].mtime { assert k < j ==> OlderOrSame(e[k], e[j]); }
  }

  /** Under an age limit alone, exactly the eligible files of that age go. */
  lemma AgeAlone(files: seq<FileInfo>, days: int, now: real, minAge: int, f: FileInfo)
    requires DistinctPaths(files)
    ensures f in Doomed(files, Rule(None, None, Some(days)), now, minAge) <==>
      f in files && now - f.mtime >= Max(minAge, 0) as real && now - f.mtime >= (Max(days, 0) * 24 * 60 * 60) as real
  {
    var rule := Rule(None, None, Some(days));
    var d := Doomed(files, rule, now, minAge);
    DoomedIsShortest(files, rule, now, minAge);
    DoomedMeetsRule(files, rule, now, minAge);
    hide Doomed;
    if f in d {
      var g := DoomedIsNeeded(files, rule, now, minAge, f);
    }
  }
}
