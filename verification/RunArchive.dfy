/** Pruning of the run archive: one level, every run directory an entry. */
module RunArchive {
  import opened Sequences
  import opened Text
  import opened Retention
  import opened RetentionPlanner
  import W = WorktreeRetention

  /** One run directory; `createdAt` is its modification time. With no file below it, it is only directories. */
  datatype Run = Run(name: string, createdAt: int, size: nat, hasFiles: bool)

  datatype Policy = Policy(maxEntries: int, maxAgeDays: int, maxTotalBytes: int)

  function Limits(policy: Policy, now: int): Bounds {
    BoundsOf(policy.maxEntries, policy.maxAgeDays, policy.maxTotalBytes, now)
  }

  function EntryOf(run: Run, preserved: set<string>): Entry {
    Entry(run.name, run.createdAt, run.size, run.name in preserved)
  }

  function EntriesOf(runs: seq<Run>, preserved: set<string>): (r: seq<Entry>)
    ensures |r| == |runs|
  {
    seq(|runs|, i requires 0 <= i < |runs| => EntryOf(runs[i], preserved))
  }

  ghost predicate DistinctNames(runs: seq<Run>) {
    forall i, j :: 0 <= i < j < |runs| ==> runs[i].name != runs[j].name
  }

  /** A listing of the archive root; without files there are no bytes. */
  ghost predicate ValidRuns(runs: seq<Run>) {
    DistinctNames(runs) && forall i :: 0 <= i < |runs| && !runs[i].hasFiles ==> runs[i].size == 0
  }

  function Stays(keys: set<string>): Run -> bool { (run: Run) => run.name in keys }

  function NotRemoved(keys: set<string>): Run -> bool { (run: Run) => run.name !in keys }

  /** What `_prune_empty_dirs` spares. */
  function HoldsFiles(): Run -> bool { (run: Run) => run.hasFiles }

  /** The runs a real prune leaves: if it prunes anything, the sweep takes what holds no file, retained or not. */
  function Left(before: seq<Run>, keys: set<string>, pruned: nat): seq<Run> {
    var stay := Filter(Stays(keys), before);
    if pruned > 0 then Filter(HoldsFiles(), stay) else stay
  }

  /** The summary and the surviving runs a prune must produce. */
  ghost predicate PruneOutcome(before: seq<Run>, after: seq<Run>, summary: W.PruneSummary,
                               policy: Policy, preserved: set<string>, now: int, dryRun: bool)
  {
    var entries := EntriesOf(before, preserved);
    var r := Retain(entries, Limits(policy, now));
    && after == (if dryRun then before else Left(before, W.Keys(r), summary.pruned))
    && summary.kept == |r| && summary.kept + summary.pruned == |entries|
    && summary.bytesAfter == Bytes(r) && summary.bytesBefore == Bytes(entries)
    && |summary.prunedKeys| == summary.pruned && Sorted(LexLe, summary.prunedKeys)
    && (forall k :: k in summary.prunedKeys <==> k in W.Keys(entries) && k !in W.Keys(r))
  }

  lemma EntriesOfDistinct(runs: seq<Run>, preserved: set<string>)
    requires DistinctNames(runs)
    ensures DistinctKeys(EntriesOf(runs, preserved))
  {
  }

  lemma StaysByRemoval(runs: seq<Run>, preserved: set<string>, kept: set<string>, pruned: set<string>)
    requires pruned == W.Keys(EntriesOf(runs, preserved)) - kept
    ensures Filter(NotRemoved(pruned), runs) == Filter(Stays(kept), runs)
  {
    forall run | run in runs ensures NotRemoved(pruned)(run) == Stays(kept)(run) {
      var i := Position(runs, run);
      assert EntriesOf(runs, preserved)[i].key == run.name;
    }
    FilterSame(NotRemoved(pruned), Stays(kept), runs);
  }

  lemma {:induction false} FilterRunsValid(p: Run -> bool, runs: seq<Run>)
    requires ValidRuns(runs)
    ensures ValidRuns(Filter(p, runs))
  {
    if runs != [] {
      assert runs == [runs[0]] + runs[1..];
      FilterRunsValid(p, runs[1..]);
      FilterMembers(p, runs[1..]);
      var rest := Filter(p, runs[1..]);
      forall j | 0 <= j < |rest| ensures runs[0].name != rest[j].name {
        var i := Position(runs[1..], rest[j]);
      }
    }
  }

  lemma OutcomeIs(before: seq<Run>, policy: Policy, preserved: set<string>, now: int, kept: seq<Entry>, pruned: seq<Entry>)
    requires ValidRuns(before)
    requires kept == Retain(EntriesOf(before, preserved), Limits(policy, now))
    requires multiset(kept) + multiset(pruned) == multiset(EntriesOf(before, preserved))
    ensures
      var entries := EntriesOf(before, preserved);
      var summary := W.PruneSummary(|kept|, |pruned|, Bytes(entries), Bytes(kept), W.KeysOf(SortBy(W.KeyLe, pruned)));
      var removed := Filter(NotRemoved(W.Keys(pruned)), before);
      var after := if pruned != [] then Filter(HoldsFiles(), removed) else removed;
      && ValidRuns(after)
      && PruneOutcome(before, before, summary, policy, preserved, now, true)
      && PruneOutcome(before, after, summary, policy, preserved, now, false)
  {
    var entries := EntriesOf(before, preserved);
    hide Filter, SortBy, Retain, EntriesOf, Bytes;
    EntriesOfDistinct(before, preserved);
    W.SplitKeys(entries, kept, pruned);
    StaysByRemoval(before, preserved, W.Keys(kept), W.Keys(pruned));
    FilterRunsValid(NotRemoved(W.Keys(pruned)), before);
    FilterRunsValid(HoldsFiles(), Filter(NotRemoved(W.Keys(pruned)), before));
    W.SortedKeys(pruned);
  }

  class Archive {
    var runs: seq<Run>

    ghost predicate Valid()
      reads this
    {
      ValidRuns(runs)
    }

    /** `prune_run_archive_root` */
    method Prune(policy: Policy, preserved: set<string>, now: int, dryRun: bool) returns (summary: W.PruneSummary)
      requires Valid()
      modifies this
      ensures Valid()
      ensures PruneOutcome(old(runs), runs, summary, policy, preserved, now, dryRun)
    {
      var entries := EntriesOf(runs, preserved);
      hide EntriesOf, PruneOutcome, Filter, SortBy, Bytes, Retain, BoundsOf;
      EntriesOfDistinct(runs, preserved);
      var kept, pruned := ComputePrunedEntries(entries, policy.maxEntries, policy.maxAgeDays, policy.maxTotalBytes, now);
      OutcomeIs(runs, policy, preserved, now, kept, pruned);
      if !dryRun {
        runs := Filter(NotRemoved(W.Keys(pruned)), runs);
        if pruned != [] { runs := Filter(HoldsFiles(), runs); }
      }
      summary := W.PruneSummary(|kept|, |pruned|, Bytes(entries), Bytes(kept), W.KeysOf(SortBy(W.KeyLe, pruned)));
    }
  }

  lemma OutcomeFacts(before: seq<Run>, after: seq<Run>, s: W.PruneSummary, policy: Policy, preserved: set<string>, now: int, dryRun: bool)
    requires PruneOutcome(before, after, s, policy, preserved, now, dryRun)
    ensures var entries := EntriesOf(before, preserved);
      var r := Retain(entries, Limits(policy, now));
      after == (if dryRun then before else Left(before, W.Keys(r), s.pruned)) && s.kept == |r| && s.kept + s.pruned == |entries|
      && s.bytesAfter == Bytes(r) && s.bytesBefore == Bytes(entries)
  {
    hide Retain, EntriesOf, Left, Bytes;
  }

  // ---- What the policy's own numbers say ----------------------------------------------

  function TotalSize(runs: seq<Run>): nat {
    if runs == [] then 0 else runs[0].size + TotalSize(runs[1..])
  }

  lemma {:induction false} EntriesCount(runs: seq<Run>, preserved: set<string>)
    ensures Bytes(EntriesOf(runs, preserved)) == TotalSize(runs)
    ensures |Held(EntriesOf(runs, preserved))| == |Filter((run: Run) => run.name in preserved, runs)|
  {
    if runs != [] {
      EntriesCount(runs[1..], preserved);
      assert EntriesOf(runs, preserved)[0] == EntryOf(runs[0], preserved);
      assert EntriesOf(runs, preserved)[1..] == EntriesOf(runs[1..], preserved);
    }
  }

  /** The run is pruned, or will be, as the summary says. */
  lemma PrunedIff(runs: seq<Run>, after: seq<Run>, s: W.PruneSummary, policy: Policy, preserved: set<string>, now: int, dryRun: bool, run: Run)
    requires ValidRuns(runs) && run in runs && PruneOutcome(runs, after, s, policy, preserved, now, dryRun)
    ensures run.name in s.prunedKeys <==> EntryOf(run, preserved) !in Retain(EntriesOf(runs, preserved), Limits(policy, now))
    ensures EntryOf(run, preserved) in EntriesOf(runs, preserved) && EntryOf(run, preserved).key == run.name
  {
    hide *;
    RunsAreDistinct(runs);
    RetainedByName(runs, run, preserved, Limits(policy, now));
    EntryKeeps(run, preserved);
    PrunedKeysAre(runs, after, s, policy, preserved, now, dryRun, EntryOf(run, preserved));
  }

  /** The count limit yields to preserved runs only, the byte limit to them only, and no other run that stays is
      older than the age limit. The byte counts are those of the runs. */
  lemma PolicyHolds(runs: seq<Run>, after: seq<Run>, s: W.PruneSummary, policy: Policy, preserved: set<string>, now: int, dryRun: bool)
    requires ValidRuns(runs) && PruneOutcome(runs, after, s, policy, preserved, now, dryRun)
    ensures s.kept + s.pruned == |runs| && s.bytesBefore == TotalSize(runs)
    ensures policy.maxEntries >= 0 ==> s.kept <= Max(policy.maxEntries, |Filter((run: Run) => run.name in preserved, runs)|)
    ensures policy.maxTotalBytes >= 0 ==>
      s.bytesAfter <= policy.maxTotalBytes || forall run :: run in runs && run.name !in s.prunedKeys ==> run.name in preserved
    ensures policy.maxAgeDays >= 0 ==>
      forall run :: run in runs && run.name !in s.prunedKeys && run.name !in preserved ==>
        run.createdAt >= now - policy.maxAgeDays * 24 * 60 * 60 * 1_000_000
    ensures forall run :: run in runs && run.name in preserved ==> run.name !in s.prunedKeys
  {
    var entries := EntriesOf(runs, preserved);
    var limits := Limits(policy, now);
    var r := Retain(entries, limits);
    EntriesCount(runs, preserved);
    RetainWithinLimits(entries, limits);
    RetainMembers(entries, limits);
    OutcomeFacts(runs, after, s, policy, preserved, now, dryRun);
    LooseMembers(r);
    hide Retain, Bytes, Held, Loose, EntriesOf, PruneOutcome, Left, TotalSize, Filter;
    forall run | run in runs
      ensures run.name in s.prunedKeys <==> EntryOf(run, preserved) !in r
      ensures EntryOf(run, preserved) in entries
    {
      PrunedIff(runs, after, s, policy, preserved, now, dryRun, run);
    }
    if Loose(r) == [] {
      forall run | run in runs && run.name !in s.prunedKeys ensures run.name in preserved {
        assert EntryOf(run, preserved) !in Loose(r);
      }
    }
  }

  lemma RunsWithinLimits(runs: seq<Run>, policy: Policy, preserved: set<string>, now: int)
    requires policy.maxEntries >= 0 ==> |runs| <= policy.maxEntries
    requires policy.maxAgeDays >= 0 ==>
      forall run :: run in runs && run.name !in preserved ==> run.createdAt >= now - policy.maxAgeDays * 24 * 60 * 60 * 1_000_000
    requires policy.maxTotalBytes >= 0 ==> TotalSize(runs) <= policy.maxTotalBytes
    ensures WithinLimits(EntriesOf(runs, preserved), Limits(policy, now))
  {
    var entries := EntriesOf(runs, preserved);
    var limits := Limits(policy, now);
    EntriesCount(runs, preserved);
    hide Bytes, Held, Loose, TotalSize, Filter;
    forall e | e in entries && !e.preserve && limits.cutoff.Some? ensures e.createdAt >= limits.cutoff.value {
      var i := Position(entries, e);
      assert runs[i] in runs;
    }
  }

  /** Runs that are inside the three limits from the start are all kept; a negative limit is none. */
  lemma WithinPolicyNothingGoes(runs: seq<Run>, after: seq<Run>, s: W.PruneSummary, policy: Policy, preserved: set<string>, now: int, dryRun: bool)
    requires ValidRuns(runs) && PruneOutcome(runs, after, s, policy, preserved, now, dryRun)
    requires policy.maxEntries >= 0 ==> |runs| <= policy.maxEntries
    requires policy.maxAgeDays >= 0 ==>
      forall run :: run in runs && run.name !in preserved ==> run.createdAt >= now - policy.maxAgeDays * 24 * 60 * 60 * 1_000_000
    requires policy.maxTotalBytes >= 0 ==> TotalSize(runs) <= policy.maxTotalBytes
    ensures s.pruned == 0 && after == runs
  {
    hide *;
    var entries := EntriesOf(runs, preserved);
    var limits := Limits(policy, now);
    OutcomeFacts(runs, after, s, policy, preserved, now, dryRun);
    RunsWithinLimits(runs, policy, preserved, now);
    WithinIsRetained(entries, limits);
    SameLength(Retain(entries, limits), entries);
    SameMembers(Retain(entries, limits), entries);
    W.SameKeys(Retain(entries, limits), entries);
    LeftAgain(runs, preserved);
  }

  /** Every run that goes is at or after one that the policy's numbers do not allow: too old, one too many, or too
      big for what the budget has left. */
  lemma PrunedForPolicy(runs: seq<Run>, after: seq<Run>, s: W.PruneSummary, policy: Policy, preserved: set<string>, now: int, dryRun: bool,
                        run: Run) returns (d: Run)
    requires ValidRuns(runs) && PruneOutcome(runs, after, s, policy, preserved, now, dryRun)
    requires run in runs && run.name in s.prunedKeys
    ensures run.name !in preserved && d in runs && d.name !in preserved && d.name in s.prunedKeys
    ensures d == run || d.createdAt > run.createdAt || (d.createdAt == run.createdAt && LexLe(run.name, d.name))
    ensures
      || (policy.maxAgeDays >= 0 && d.createdAt < now - policy.maxAgeDays * 24 * 60 * 60 * 1_000_000)
      || (policy.maxEntries >= 0 && s.kept >= policy.maxEntries)
      || (policy.maxTotalBytes >= 0 && s.bytesAfter + d.size > policy.maxTotalBytes)
  {
    var entries := EntriesOf(runs, preserved);
    var limits := Limits(policy, now);
    PrunedIff(runs, after, s, policy, preserved, now, dryRun, run);
    EntriesOfDistinct(runs, preserved);
    OutcomeFacts(runs, after, s, policy, preserved, now, dryRun);
    var e := DroppedFor(entries, limits, EntryOf(run, preserved));
    var i := Position(entries, e);
    d := runs[i];
    hide Retain, Bytes, PruneOutcome, Left, LexLe;
    PrunedIff(runs, after, s, policy, preserved, now, dryRun, d);
    if e == EntryOf(run, preserved) {
      var j := Position(runs, run);
      assert i == j;
    }
  }

  // ---- Which runs survive ------------------------------------------------------------

  /** A run's key is retained exactly if its entry is. */
  lemma RetainedByName(runs: seq<Run>, run: Run, preserved: set<string>, b: Bounds)
    requires DistinctNames(runs) && run in runs
    ensures var r := Retain(EntriesOf(runs, preserved), b);
      EntryOf(run, preserved) in EntriesOf(runs, preserved) && (run.name in W.Keys(r) <==> EntryOf(run, preserved) in r)
  {
    var entries := EntriesOf(runs, preserved);
    RetainMembers(entries, b);
    hide Retain;
    var j := Position(runs, run);
    assert entries[j] == EntryOf(run, preserved);
    if run.name in W.Keys(Retain(entries, b)) {
      var e :| e in Retain(entries, b) && e.key == run.name;
      var i := Position(entries, e);
      assert runs[i].name == runs[j].name;
    }
  }

  /** The planner gives up none of the runs. */
  ghost predicate AllRetained(runs: seq<Run>, preserved: set<string>, b: Bounds) {
    forall e :: e in EntriesOf(runs, preserved) ==> e in Retain(EntriesOf(runs, preserved), b)
  }

  lemma NothingPrunedIff(runs: seq<Run>, after: seq<Run>, s: W.PruneSummary, policy: Policy, preserved: set<string>, now: int, dryRun: bool)
    requires ValidRuns(runs) && PruneOutcome(runs, after, s, policy, preserved, now, dryRun)
    ensures s.pruned == 0 <==> AllRetained(runs, preserved, Limits(policy, now))
  {
    var entries := EntriesOf(runs, preserved);
    var r := Retain(entries, Limits(policy, now));
    EntriesOfDistinct(runs, preserved);
    RetainKeepsShape(entries, Limits(policy, now));
    RetainMembers(entries, Limits(policy, now));
    OutcomeFacts(runs, after, s, policy, preserved, now, dryRun);
    hide Retain, EntriesOf, PruneOutcome, Left, Bytes;
    if AllRetained(runs, preserved, Limits(policy, now)) {
      FewerMembers(entries, r);
    } else {
      var e :| e in entries && e !in r;
      var i := Position(entries, e);
      OneMissing(entries, r, e);
    }
  }

  lemma OneMissing(entries: seq<Entry>, r: seq<Entry>, e: Entry)
    requires DistinctKeys(r) && e in entries && e !in r && forall d :: d in r ==> d in entries && d.key != e.key
    ensures |r| < |entries|
  {
    assert DistinctKeys([e] + r);
    FewerMembers([e] + r, entries);
  }

  /** Exactly which runs are left: the retained ones that hold a file, or all runs if the planner gives up none;
      in a dry run, all. */
  lemma SurvivesIff(runs: seq<Run>, after: seq<Run>, s: W.PruneSummary, policy: Policy, preserved: set<string>, now: int, dryRun: bool,
                    run: Run)
    requires ValidRuns(runs) && run in runs
    requires PruneOutcome(runs, after, s, policy, preserved, now, dryRun)
    ensures run in after <==>
      dryRun || (EntryOf(run, preserved) in Retain(EntriesOf(runs, preserved), Limits(policy, now))
                 && (run.hasFiles || AllRetained(runs, preserved, Limits(policy, now))))
  {
    hide *;
    OutcomeFacts(runs, after, s, policy, preserved, now, dryRun);
    NothingPrunedIff(runs, after, s, policy, preserved, now, dryRun);
    RunsAreDistinct(runs);
    RetainedByName(runs, run, preserved, Limits(policy, now));
    LeftMembers(runs, W.Keys(Retain(EntriesOf(runs, preserved), Limits(policy, now))), s.pruned, run);
  }

  lemma RunsAreDistinct(runs: seq<Run>)
    requires ValidRuns(runs)
    ensures DistinctNames(runs)
  {
  }

  lemma LeftMembers(runs: seq<Run>, keys: set<string>, pruned: nat, run: Run)
    ensures run in Left(runs, keys, pruned) <==> run in runs && run.name in keys && (run.hasFiles || pruned == 0)
  {
    FilterMembers(Stays(keys), runs);
    FilterMembers(HoldsFiles(), Filter(Stays(keys), runs));
    hide Filter;
  }

  /** A preserved run survives a prune exactly if it holds a file or the planner gives up no run at all. */
  lemma PreservedSurvivesIff(runs: seq<Run>, after: seq<Run>, s: W.PruneSummary, policy: Policy, preserved: set<string>, now: int, run: Run)
    requires ValidRuns(runs) && run in runs && run.name in preserved
    requires PruneOutcome(runs, after, s, policy, preserved, now, false)
    ensures run in after <==> run.hasFiles || AllRetained(runs, preserved, Limits(policy, now))
  {
    hide *;
    SurvivesIff(runs, after, s, policy, preserved, now, false, run);
    RunsAreDistinct(runs);
    RetainedByName(runs, run, preserved, Limits(policy, now));
    EntryKeeps(run, preserved);
    RetainMembers(EntriesOf(runs, preserved), Limits(policy, now));
  }

  /** The reported keys are those of the entries that are not retained. */
  lemma PrunedKeysAre(runs: seq<Run>, after: seq<Run>, s: W.PruneSummary, policy: Policy, preserved: set<string>, now: int, dryRun: bool, e: Entry)
    requires PruneOutcome(runs, after, s, policy, preserved, now, dryRun) && e in EntriesOf(runs, preserved)
    ensures e.key in s.prunedKeys <==> e.key !in W.Keys(Retain(EntriesOf(runs, preserved), Limits(policy, now)))
  {
    hide Retain, EntriesOf, Left, Bytes;
  }

  lemma EntryKeeps(run: Run, preserved: set<string>)
    ensures EntryOf(run, preserved).preserve == (run.name in preserved) && EntryOf(run, preserved).key == run.name
  {
  }

  /** A preserved run without files is lost when another one is pruned: with no room, nothing is left of the two. */
  lemma EmptyPreservedRunIsLost(after: seq<Run>, s: W.PruneSummary)
    requires PruneOutcome([Run("a", 0, 0, false), Run("b", 0, 1, true)], after, s, Policy(0, 0, 0), {"a"}, 0, false)
    ensures s.pruned == 1 && after == []
  {
  }

  // ---- Pruning again -----------------------------------------------------------------

  lemma {:induction false} EntriesOfStaying(runs: seq<Run>, preserved: set<string>, keys: set<string>)
    ensures EntriesOf(Filter(Stays(keys), runs), preserved) == Filter(W.HasKeyIn(keys), EntriesOf(runs, preserved))
  {
    if runs != [] {
      EntriesOfStaying(runs[1..], preserved, keys);
      assert EntriesOf(runs, preserved)[0] == EntryOf(runs[0], preserved);
      assert EntriesOf(runs, preserved)[1..] == EntriesOf(runs[1..], preserved);
      var rest := Filter(Stays(keys), runs[1..]);
      assert EntriesOf([runs[0]] + rest, preserved) == [EntryOf(runs[0], preserved)] + EntriesOf(rest, preserved);
    }
  }

  lemma RetainSplits(entries: seq<Entry>, b: Bounds)
    requires DistinctKeys(entries)
    ensures var r := Retain(entries, b); multiset(Filter(W.HasKeyIn(W.Keys(r)), entries)) == multiset(r)
  {
    var r := Retain(entries, b);
    RetainMembers(entries, b);
    RetainKeepsShape(entries, b);
    hide Retain, Filter;
    forall e ensures multiset(r)[e] <= multiset(entries)[e] {
      DistinctOnce(r, e);
      if e in r { assert e in multiset(r) && e in multiset(entries); }
    }
    W.Subtract(multiset(r), multiset(entries), entries, r);
  }

  /** The names of the runs that are left. */
  function LeftKeys(before: seq<Run>, keys: set<string>, pruned: nat): set<string> {
    set run | run in before && run.name in keys && (run.hasFiles || pruned == 0) :: run.name
  }

  lemma LeftByName(before: seq<Run>, keys: set<string>, pruned: nat)
    requires DistinctNames(before)
    ensures Left(before, keys, pruned) == Filter(Stays(LeftKeys(before, keys, pruned)), before)
  {
    var stay, left := Stays(keys), Stays(LeftKeys(before, keys, pruned));
    forall run | run in before ensures left(run) == (stay(run) && (run.hasFiles || pruned == 0)) {
      if run.name in LeftKeys(before, keys, pruned) {
        var other :| other in before && other.name in keys && (other.hasFiles || pruned == 0) && other.name == run.name;
        var i := Position(before, run);
        var j := Position(before, other);
        assert i == j;
      }
    }
    if pruned > 0 {
      FilterFilter(stay, HoldsFiles(), before);
      FilterSame(And(stay, HoldsFiles()), left, before);
    } else {
      FilterSame(stay, left, before);
    }
  }

  /** The entries found after a prune are a part of the retained ones, which misses no bytes. */
  lemma LeftEntries(before: seq<Run>, preserved: set<string>, b: Bounds, pruned: nat)
    requires ValidRuns(before)
    ensures var entries := EntriesOf(before, preserved);
      var r := Retain(entries, b);
      var part := Filter(W.HasKeyIn(LeftKeys(before, W.Keys(r), pruned)), r);
      multiset(EntriesOf(Left(before, W.Keys(r), pruned), preserved)) == multiset(part) && Bytes(part) == Bytes(r)
  {
    var entries := EntriesOf(before, preserved);
    var r := Retain(entries, b);
    var keys, left := W.Keys(r), LeftKeys(before, W.Keys(r), pruned);
    var p, q := W.HasKeyIn(keys), W.HasKeyIn(left);
    EntriesOfDistinct(before, preserved);
    LeftByName(before, keys, pruned);
    EntriesOfStaying(before, preserved, left);
    RetainSplits(entries, b);
    FilterOfPermutation(q, Filter(p, entries), r);
    FilterFilter(p, q, entries);
    FilterSame(And(p, q), q, entries);
    RetainMembers(entries, b);
    FilterSmaller(q, r);
    hide Retain, Filter;
    forall e | e in r && !q(e) ensures e.size == 0 {
      var i := Position(entries, e);
      assert before[i].name in keys;
    }
  }

  /** The same runs found again; a sweep inside a run renews its time. */
  ghost predicate Renewed(runs: seq<Run>, found: seq<Run>) {
    |runs| == |found| && forall i :: 0 <= i < |runs| ==>
      found[i].name == runs[i].name && found[i].size == runs[i].size && found[i].hasFiles == runs[i].hasFiles
      && found[i].createdAt >= runs[i].createdAt
  }

  lemma RenewedEntries(runs: seq<Run>, found: seq<Run>, preserved: set<string>)
    requires Renewed(runs, found)
    ensures Renews(EntriesOf(runs, preserved), EntriesOf(found, preserved))
  {
  }

  /** Retaining what a prune left keeps all of it, renewed or not. */
  lemma RetainedAgain(before: seq<Run>, found: seq<Run>, preserved: set<string>, b: Bounds, pruned: nat)
    requires ValidRuns(before) && Renewed(Left(before, W.Keys(Retain(EntriesOf(before, preserved), b)), pruned), found)
    ensures var again := EntriesOf(found, preserved);
      var r := Retain(again, b);
      |r| == |again| && W.Keys(r) == W.Keys(again) && Bytes(r) == Bytes(again) == Bytes(Retain(EntriesOf(before, preserved), b))
  {
    var r := Retain(EntriesOf(before, preserved), b);
    var q := W.HasKeyIn(LeftKeys(before, W.Keys(r), pruned));
    var left, again := EntriesOf(Left(before, W.Keys(r), pruned), preserved), EntriesOf(found, preserved);
    hide *;
    LeftEntries(before, preserved, b, pruned);
    PartIsWithin(EntriesOf(before, preserved), b, q);
    WithinOfPermutation(Filter(q, r), left, b);
    BytesOfPermutation(Filter(q, r), left);
    RenewedEntries(Left(before, W.Keys(r), pruned), found, preserved);
    RenewedIsWithin(left, again, b);
    RenewedSums(left, again);
    WithinIsRetained(again, b);
    SameLength(Retain(again, b), again);
    BytesOfPermutation(Retain(again, b), again);
    SameMembers(Retain(again, b), again);
    W.SameKeys(Retain(again, b), again);
  }

  lemma LeftAgain(runs: seq<Run>, preserved: set<string>)
    ensures Left(runs, W.Keys(EntriesOf(runs, preserved)), 0) == runs
  {
    forall run | run in runs ensures run.name in W.Keys(EntriesOf(runs, preserved)) {
      var i := Position(runs, run);
      assert EntriesOf(runs, preserved)[i].key == run.name;
    }
    FilterAll(Stays(W.Keys(EntriesOf(runs, preserved))), runs);
  }

  /** What a prune left behind, pruned again at the same clock, loses nothing more, even where the sweep renewed
      the times of the runs that are left. */
  lemma SecondPruneRemovesNothing(before: seq<Run>, after: seq<Run>, found: seq<Run>, again: seq<Run>, s: W.PruneSummary, t: W.PruneSummary,
                                  policy: Policy, preserved: set<string>, now: int)
    requires ValidRuns(before)
    requires PruneOutcome(before, after, s, policy, preserved, now, false)
    requires Renewed(after, found) && PruneOutcome(found, again, t, policy, preserved, now, false)
    ensures again == found && t.pruned == 0 && t.bytesBefore == t.bytesAfter == s.bytesAfter
  {
    hide *;
    OutcomeFacts(before, after, s, policy, preserved, now, false);
    OutcomeFacts(found, again, t, policy, preserved, now, false);
    RetainedAgain(before, found, preserved, Limits(policy, now), s.pruned);
    LeftAgain(found, preserved);
  }

  /** What survives a later clock or tighter limits survives the looser prune too, sweeps included. */
  lemma PrunesNest(runs: seq<Run>, loose: seq<Run>, tight: seq<Run>, s: W.PruneSummary, t: W.PruneSummary,
                   p: Policy, q: Policy, preserved: set<string>, now: int, later: int, run: Run)
    requires ValidRuns(runs) && Tighter(Limits(p, now), Limits(q, later))
    requires PruneOutcome(runs, loose, s, p, preserved, now, false) && PruneOutcome(runs, tight, t, q, preserved, later, false)
    requires run in tight
    ensures run in loose && run in runs && t.pruned >= s.pruned
  {
    hide *;
    var entries := EntriesOf(runs, preserved);
    OutcomeFacts(runs, loose, s, p, preserved, now, false);
    OutcomeFacts(runs, tight, t, q, preserved, later, false);
    LeftMembers(runs, W.Keys(Retain(entries, Limits(q, later))), t.pruned, run);
    RunsAreDistinct(runs);
    EntriesOfDistinct(runs, preserved);
    RetainMonotone(entries, Limits(p, now), Limits(q, later));
    RetainKeepsShape(entries, Limits(p, now));
    RetainKeepsShape(entries, Limits(q, later));
    FewerMembers(Retain(entries, Limits(q, later)), Retain(entries, Limits(p, now)));
    SurvivesIff(runs, loose, s, p, preserved, now, false, run);
    SurvivesIff(runs, tight, t, q, preserved, later, false, run);
    NothingPrunedIff(runs, loose, s, p, preserved, now, false);
    NothingPrunedIff(runs, tight, t, q, preserved, later, false);
  }

  lemma FewerMembers(a: seq<Entry>, b: seq<Entry>)
    requires DistinctKeys(a) && forall e :: e in a ==> e in b
    ensures |a| <= |b|
  {
    forall e ensures multiset(a)[e] <= multiset(b)[e] {
      DistinctOnce(a, e);
      if e in a { assert e in multiset(b); }
    }
    assert multiset(a) <= multiset(b);
    assert multiset(b) == multiset(a) + (multiset(b) - multiset(a));
    assert |multiset(a)| == |a| && |multiset(b)| == |b|;
  }
}
