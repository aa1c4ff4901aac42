/** Pruning of the worktree archive: limits per worktree first, then one byte budget over all. */
module WorktreeRetention {
  import opened Sequences
  import opened Text
  import opened Retention
  import opened RetentionPlanner

  /** `key.partition("/")[0]` */
  function WorktreeOf(key: string): string {
    if key == [] || key[0] == '/' then [] else [key[0]] + WorktreeOf(key[1..])
  }

  function InWorktree(w: string): Entry -> bool {
    (e: Entry) => WorktreeOf(e.key) == w
  }

  function Group(entries: seq<Entry>, w: string): seq<Entry> {
    Filter(InWorktree(w), entries)
  }

  /** The groups' keys in the order their first entries come, as in a Python dict. */
  function Ids(entries: seq<Entry>): seq<string> {
    if entries == [] then []
    else
      var n := |entries| - 1;
      var w := WorktreeOf(entries[n].key);
      var ids := Ids(entries[..n]);
      if w in ids then ids else ids + [w]
  }

  function SortedIds(entries: seq<Entry>): seq<string> {
    SortBy(LexLe, Ids(entries))
  }

  /** The groups of the given ids, one after the other. */
  ghost function Gather(entries: seq<Entry>, ids: seq<string>): seq<Entry> {
    if ids == [] then []
    else Gather(entries, ids[..|ids| - 1]) + Group(entries, ids[|ids| - 1])
  }

  /** What the per-worktree limits leave, worktree after worktree. */
  ghost function PerWorktree(entries: seq<Entry>, ids: seq<string>, b: Bounds): seq<Entry> {
    if ids == [] then []
    else PerWorktree(entries, ids[..|ids| - 1], b) + Retain(Group(entries, ids[|ids| - 1]), b)
  }

  datatype Policy = Policy(maxSnapshotsPerRepo: int, maxAgeDays: int, maxTotalBytes: int)

  function LocalBounds(policy: Policy, now: int): Bounds {
    BoundsOf(policy.maxSnapshotsPerRepo, policy.maxAgeDays, -1, now)
  }

  function GlobalBounds(policy: Policy): Bounds {
    BoundsOf(-1, -1, policy.maxTotalBytes, 0)
  }

  ghost function Locally(entries: seq<Entry>, policy: Policy, now: int): seq<Entry> {
    PerWorktree(entries, SortedIds(entries), LocalBounds(policy, now))
  }

  ghost function RetainTwoLevel(entries: seq<Entry>, policy: Policy, now: int): seq<Entry> {
    var local := Locally(entries, policy, now);
    if policy.maxTotalBytes >= 0 then Retain(local, GlobalBounds(policy)) else local
  }

  // ---- Groups -----------------------------------------------------------------

  ghost predicate NoRepeats(ids: seq<string>) {
    forall i, j :: 0 <= i < j < |ids| ==> ids[i] != ids[j]
  }

  ghost predicate Covers(ids: seq<string>, entries: seq<Entry>) {
    forall e :: e in entries ==> WorktreeOf(e.key) in ids
  }

  lemma {:induction false} IdsFacts(entries: seq<Entry>)
    ensures NoRepeats(Ids(entries)) && Covers(Ids(entries), entries)
  {
    if entries != [] {
      var n := |entries| - 1;
      IdsFacts(entries[..n]);
      assert entries == entries[..n] + [entries[n]];
    }
  }

  lemma SortedIdsFacts(entries: seq<Entry>)
    ensures NoRepeats(SortedIds(entries)) && Covers(SortedIds(entries), entries)
  {
    IdsFacts(entries);
    SortPermutes(LexLe, Ids(entries));
    NoRepeatsPermuted(Ids(entries), SortedIds(entries));
  }

  lemma {:induction false} NoRepeatsOnce(s: seq<string>, x: string)
    requires NoRepeats(s)
    ensures multiset(s)[x] <= 1
  {
    if s != [] {
      MultisetTail(s);
      NoRepeatsOnce(s[1..], x);
      assert s[0] !in s[1..];
    }
  }

  lemma NoRepeatsPermuted(a: seq<string>, b: seq<string>)
    requires NoRepeats(a) && multiset(a) == multiset(b)
    ensures NoRepeats(b)
  {
    forall i, j | 0 <= i < j < |b| ensures b[i] != b[j] {
      NoRepeatsOnce(a, b[i]);
      assert b == b[..j] + b[j..];
      assert b[..j][i] in multiset(b[..j]) && b[j..][0] in multiset(b[j..]);
    }
  }

  lemma GroupMembers(entries: seq<Entry>, w: string)
    ensures forall e :: e in Group(entries, w) <==> e in entries && WorktreeOf(e.key) == w
  {
    FilterMembers(InWorktree(w), entries);
  }

  lemma GroupWithout(entries: seq<Entry>, v: string, w: string)
    requires v != w
    ensures Group(Filter(Not(InWorktree(w)), entries), v) == Group(entries, v)
  {
    FilterFilter(Not(InWorktree(w)), InWorktree(v), entries);
    FilterSame(And(Not(InWorktree(w)), InWorktree(v)), InWorktree(v), entries);
  }

  lemma {:induction false} GatherWithout(entries: seq<Entry>, ids: seq<string>, w: string)
    requires w !in ids
    ensures Gather(Filter(Not(InWorktree(w)), entries), ids) == Gather(entries, ids)
  {
    if ids != [] {
      GatherWithout(entries, ids[..|ids| - 1], w);
      GroupWithout(entries, ids[|ids| - 1], w);
    }
  }

  /** Grouping loses and duplicates nothing. */
  lemma {:induction false} GatherPermutes(entries: seq<Entry>, ids: seq<string>)
    requires NoRepeats(ids) && Covers(ids, entries)
    ensures multiset(Gather(entries, ids)) == multiset(entries)
    decreases |ids|
  {
    if ids == [] {
      NoMembers(entries);
    } else {
      var w := ids[|ids| - 1];
      var front := ids[..|ids| - 1];
      var others := Filter(Not(InWorktree(w)), entries);
      FilterMembers(Not(InWorktree(w)), entries);
      assert w !in front && ids == front + [w];
      GatherPermutes(others, front);
      GatherWithout(entries, front, w);
      FilterSplits(InWorktree(w), entries);
      assert Gather(entries, ids) == Gather(entries, front) + Group(entries, w);
    }
  }

  lemma {:induction false} GroupOfPerWorktree(entries: seq<Entry>, ids: seq<string>, b: Bounds, w: string)
    requires NoRepeats(ids)
    ensures Group(PerWorktree(entries, ids, b), w) == if w in ids then Retain(Group(entries, w), b) else []
  {
    if ids != [] {
      var v := ids[|ids| - 1];
      var front := ids[..|ids| - 1];
      assert ids == front + [v] && v !in front;
      GroupOfPerWorktree(entries, front, b, w);
      FilterAppend(InWorktree(w), PerWorktree(entries, front, b), Retain(Group(entries, v), b));
      RetainMembers(Group(entries, v), b);
      GroupMembers(entries, v);
      if v == w {
        FilterAll(InWorktree(w), Retain(Group(entries, v), b));
      } else {
        FilterNone(InWorktree(w), Retain(Group(entries, v), b));
      }
    }
  }

  lemma {:induction false} GroupOfKeepFirst(s: seq<Entry>, k: nat, w: string) returns (j: nat)
    ensures Group(KeepFirst(s, k), w) == KeepFirst(Group(s, w), j)
    ensures j <= |Loose(Group(s, w))|
  {
    if s == [] {
      j := 0;
    } else if s[0].preserve {
      j := GroupOfKeepFirst(s[1..], k, w);
    } else if k > 0 {
      j := GroupOfKeepFirst(s[1..], k - 1, w);
      if InWorktree(w)(s[0]) { j := j + 1; }
    } else {
      j := GroupOfKeepFirst(s[1..], 0, w);
      NothingFirst(s[1..], w);
      j := 0;
    }
  }

  lemma {:induction false} NothingFirst(s: seq<Entry>, w: string)
    ensures Group(KeepFirst(s, 0), w) == KeepFirst(Group(s, w), 0)
  {
    if s != [] { NothingFirst(s[1..], w); }
  }

  // ---- What two-level pruning guarantees -----------------------------------------

  lemma GroupOfLocal(entries: seq<Entry>, policy: Policy, now: int, w: string)
    ensures Group(Locally(entries, policy, now), w) == Retain(Group(entries, w), LocalBounds(policy, now))
  {
    var ids := SortedIds(entries);
    SortedIdsFacts(entries);
    GroupOfPerWorktree(entries, ids, LocalBounds(policy, now), w);
    if w !in ids {
      GroupMembers(entries, w);
      NoMembers(Group(entries, w));
    }
  }

  /** In each worktree the survivors are a newest-first prefix of what its own limits leave, plus the
      preserved snapshots. */
  lemma GroupRetained(entries: seq<Entry>, policy: Policy, now: int, w: string) returns (k: nat)
    ensures Group(RetainTwoLevel(entries, policy, now), w)
            == KeepFirst(Retain(Group(entries, w), LocalBounds(policy, now)), k)
  {
    var local := Locally(entries, policy, now);
    var t := Retain(Group(entries, w), LocalBounds(policy, now));
    GroupOfLocal(entries, policy, now, w);
    RetainMembers(Group(entries, w), LocalBounds(policy, now));
    if policy.maxTotalBytes < 0 {
      k := |Loose(t)|;
      KeepFirstAll(t, k);
    } else {
      var s := NewestFirst(local);
      EntryOrders();
      FilterSort(NewerOrSame, InWorktree(w), local);
      SortOfSorted(NewerOrSame, t);
      k := GroupOfKeepFirst(s, LongestFit(s, GlobalBounds(policy), |Loose(s)|), w);
    }
  }

  /** Nothing is invented and every preserved snapshot survives both levels. */
  lemma TwoLevelMembers(entries: seq<Entry>, policy: Policy, now: int)
    ensures forall e :: e in RetainTwoLevel(entries, policy, now) ==> e in entries
    ensures forall e :: e in entries && e.preserve ==> e in RetainTwoLevel(entries, policy, now)
  {
    var r := RetainTwoLevel(entries, policy, now);
    var b := LocalBounds(policy, now);
    hide *;
    forall e ensures (e in r ==> e in entries) && (e in entries && e.preserve ==> e in r) {
      var w := WorktreeOf(e.key);
      var k := GroupRetained(entries, policy, now, w);
      var t := Retain(Group(entries, w), b);
      GroupMembers(entries, w);
      GroupMembers(r, w);
      RetainMembers(Group(entries, w), b);
      KeepFirstHolds(t, k);
      KeepFirstParts(t, k);
    }
  }

  /** Each worktree ends with at most its limit of snapshots, or only with preserved ones beyond it,
      and with no loose snapshot older than the cutoff, whatever the byte stage did. */
  lemma TwoLevelPerWorktree(entries: seq<Entry>, policy: Policy, now: int, w: string)
    ensures policy.maxSnapshotsPerRepo >= 0 ==>
      |Group(RetainTwoLevel(entries, policy, now), w)| <= Max(policy.maxSnapshotsPerRepo, |Held(Group(entries, w))|)
    ensures policy.maxAgeDays >= 0 ==>
      forall e :: e in RetainTwoLevel(entries, policy, now) && WorktreeOf(e.key) == w && !e.preserve ==>
        e.createdAt >= now - policy.maxAgeDays * DAY
  {
    var r := RetainTwoLevel(entries, policy, now);
    var b := LocalBounds(policy, now);
    var t := Retain(Group(entries, w), b);
    var k := GroupRetained(entries, policy, now, w);
    hide Group, RetainTwoLevel, Retain, KeepFirst, Loose, Held;
    RetainWithinLimits(Group(entries, w), b);
    KeepFirstParts(t, k);
    CountSplit(t);
    GroupMembers(r, w);
  }

  /** The archive fits the byte budget, or nothing but preserved snapshots is left. */
  lemma TwoLevelBytes(entries: seq<Entry>, policy: Policy, now: int)
    requires policy.maxTotalBytes >= 0
    ensures
      var r := RetainTwoLevel(entries, policy, now);
      Bytes(r) <= policy.maxTotalBytes || Loose(r) == []
  {
    RetainWithinLimits(Locally(entries, policy, now), GlobalBounds(policy));
  }

  lemma {:induction false} PerWorktreeUnchanged(entries: seq<Entry>, ids: seq<string>, b: Bounds)
    requires forall w :: w in ids ==> Retain(Group(entries, w), b) == Group(entries, w)
    ensures PerWorktree(entries, ids, b) == Gather(entries, ids)
  {
    if ids != [] {
      var n := |ids| - 1;
      assert ids[n] in ids;
      assert forall w :: w in ids[..n] ==> w in ids;
      PerWorktreeUnchanged(entries, ids[..n], b);
    }
  }

  /** Pruning again at the same clock removes nothing. */
  lemma TwoLevelIdempotent(entries: seq<Entry>, policy: Policy, now: int)
    requires DistinctKeys(entries)
    ensures
      var r := RetainTwoLevel(entries, policy, now);
      multiset(RetainTwoLevel(r, policy, now)) == multiset(r)
  {
    var r := RetainTwoLevel(entries, policy, now);
    var b := LocalBounds(policy, now);
    var ids := SortedIds(r);
    forall w | w in ids ensures Retain(Group(r, w), b) == Group(r, w) {
      var k := GroupRetained(entries, policy, now, w);
      RetainOfPrefix(Group(entries, w), b, k);
    }
    SortedIdsFacts(r);
    PerWorktreeUnchanged(r, ids, b);
    GatherPermutes(r, ids);
    if policy.maxTotalBytes >= 0 {
      TwoLevelDistinct(entries, policy, now);
      DistinctByPermutation(r, Locally(r, policy, now));
      NewestFirstOfPermutation(r, Locally(r, policy, now));
      RetainIdempotent(Locally(entries, policy, now), GlobalBounds(policy));
    }
  }

  lemma {:induction false} PerWorktreeDistinct(entries: seq<Entry>, ids: seq<string>, b: Bounds)
    requires DistinctKeys(entries) && NoRepeats(ids)
    ensures DistinctKeys(PerWorktree(entries, ids, b))
    ensures forall e :: e in PerWorktree(entries, ids, b) ==> WorktreeOf(e.key) in ids
  {
    if ids != [] {
      var w := ids[|ids| - 1];
      var front := ids[..|ids| - 1];
      assert ids == front + [w] && w !in front;
      PerWorktreeDistinct(entries, front, b);
      FilterDistinct(InWorktree(w), entries);
      RetainKeepsShape(Group(entries, w), b);
      RetainMembers(Group(entries, w), b);
      GroupMembers(entries, w);
      JoinDistinct(PerWorktree(entries, front, b), Retain(Group(entries, w), b));
    }
  }

  lemma JoinDistinct(x: seq<Entry>, y: seq<Entry>)
    requires DistinctKeys(x) && DistinctKeys(y)
    requires forall d, e :: d in x && e in y ==> d.key != e.key
    ensures DistinctKeys(x + y)
  {
  }

  lemma TwoLevelDistinct(entries: seq<Entry>, policy: Policy, now: int)
    requires DistinctKeys(entries)
    ensures DistinctKeys(RetainTwoLevel(entries, policy, now))
    ensures DistinctKeys(Locally(entries, policy, now))
  {
    SortedIdsFacts(entries);
    PerWorktreeDistinct(entries, SortedIds(entries), LocalBounds(policy, now));
    if policy.maxTotalBytes >= 0 { RetainKeepsShape(Locally(entries, policy, now), GlobalBounds(policy)); }
  }

  // ---- The archive on disk ---------------------------------------------------------

  /** One snapshot directory; `createdAt` is the META timestamp, or the mtime if that is unusable. With no
      file at or below it, it is only directories. */
  datatype Snapshot = Snapshot(worktree: string, name: string, hasMeta: bool, createdAt: int, size: nat, hasFiles: bool)

  datatype PruneSummary = PruneSummary(kept: nat, pruned: nat, bytesBefore: nat, bytesAfter: nat, prunedKeys: seq<string>)

  function KeyOf(d: Snapshot): string { d.worktree + "/" + d.name }

  function EntryOf(d: Snapshot, preserved: set<string>): Entry {
    Entry(KeyOf(d), d.createdAt, d.size, KeyOf(d) in preserved)
  }

  /** The entries the scan collects: a directory without META.json is not one. */
  function EntriesOf(dirs: seq<Snapshot>, preserved: set<string>): seq<Entry> {
    if dirs == [] then []
    else
      var n := |dirs| - 1;
      EntriesOf(dirs[..n], preserved) + (if dirs[n].hasMeta then [EntryOf(dirs[n], preserved)] else [])
  }

  ghost predicate ValidDirs(dirs: seq<Snapshot>) {
    && (forall i :: 0 <= i < |dirs| ==> '/' !in dirs[i].worktree && '/' !in dirs[i].name)
    && (forall i, j :: 0 <= i < j < |dirs| ==> dirs[i].worktree != dirs[j].worktree || dirs[i].name != dirs[j].name)
    && (forall i :: 0 <= i < |dirs| && dirs[i].hasMeta ==> dirs[i].hasFiles)
  }

  lemma {:induction false} WorktreeOfJoin(w: string, rest: string)
    requires '/' !in w
    ensures WorktreeOf(w + "/" + rest) == w
  {
    if w == [] {
      assert w + "/" + rest == "/" + rest;
    } else {
      assert (w + "/" + rest)[1..] == w[1..] + "/" + rest;
      WorktreeOfJoin(w[1..], rest);
    }
  }

  lemma KeyDetermines(a: Snapshot, b: Snapshot)
    requires '/' !in a.worktree && '/' !in b.worktree && KeyOf(a) == KeyOf(b)
    ensures a.worktree == b.worktree && a.name == b.name
  {
    WorktreeOfJoin(a.worktree, a.name);
    WorktreeOfJoin(b.worktree, b.name);
    var n := |a.worktree| + 1;
    assert KeyOf(a)[n..] == a.name && KeyOf(b)[n..] == b.name;
  }

  lemma {:induction false} EntriesOfMembers(dirs: seq<Snapshot>, preserved: set<string>)
    ensures forall e :: e in EntriesOf(dirs, preserved) ==> exists i :: 0 <= i < |dirs| && dirs[i].hasMeta && e == EntryOf(dirs[i], preserved)
    ensures forall i :: 0 <= i < |dirs| && dirs[i].hasMeta ==> EntryOf(dirs[i], preserved) in EntriesOf(dirs, preserved)
  {
    if dirs != [] {
      var n := |dirs| - 1;
      EntriesOfMembers(dirs[..n], preserved);
      forall e | e in EntriesOf(dirs, preserved)
        ensures exists i :: 0 <= i < |dirs| && dirs[i].hasMeta && e == EntryOf(dirs[i], preserved)
      {
        if e in EntriesOf(dirs[..n], preserved) {
          var i :| 0 <= i < n && dirs[..n][i].hasMeta && e == EntryOf(dirs[..n][i], preserved);
          assert dirs[i].hasMeta && e == EntryOf(dirs[i], preserved);
        } else {
          assert dirs[n].hasMeta && e == EntryOf(dirs[n], preserved);
        }
      }
      forall i | 0 <= i < |dirs| && dirs[i].hasMeta ensures EntryOf(dirs[i], preserved) in EntriesOf(dirs, preserved) {
        if i < n { assert dirs[..n][i] == dirs[i]; }
      }
    }
  }

  /** The keys the scan builds from directory names are distinct. */
  lemma {:induction false} EntriesOfDistinct(dirs: seq<Snapshot>, preserved: set<string>)
    requires ValidDirs(dirs)
    ensures DistinctKeys(EntriesOf(dirs, preserved))
  {
    if dirs != [] {
      var n := |dirs| - 1;
      EntriesOfDistinct(dirs[..n], preserved);
      if dirs[n].hasMeta {
        EntriesOfMembers(dirs[..n], preserved);
        forall e | e in EntriesOf(dirs[..n], preserved) ensures e.key != KeyOf(dirs[n]) {
          var i :| 0 <= i < n && dirs[..n][i].hasMeta && e == EntryOf(dirs[..n][i], preserved);
          assert dirs[..n][i] == dirs[i];
          if KeyOf(dirs[i]) == KeyOf(dirs[n]) { KeyDetermines(dirs[i], dirs[n]); }
        }
        JoinDistinct(EntriesOf(dirs[..n], preserved), [EntryOf(dirs[n], preserved)]);
      }
    }
  }

  /** A directory the prune leaves alone: incomplete, or its key is retained. */
  function Stays(keys: set<string>): Snapshot -> bool {
    (d: Snapshot) => !d.hasMeta || KeyOf(d) in keys
  }

  function Keys(entries: seq<Entry>): set<string> {
    set e | e in entries :: e.key
  }

  function HasKeyIn(keys: set<string>): Entry -> bool {
    (e: Entry) => e.key in keys
  }

  lemma EntriesOfAppend(dirs: seq<Snapshot>, d: Snapshot, preserved: set<string>)
    ensures EntriesOf(dirs + [d], preserved) == EntriesOf(dirs, preserved) + (if d.hasMeta then [EntryOf(d, preserved)] else [])
  {
    assert (dirs + [d])[..|dirs|] == dirs;
  }

  lemma {:induction false} EntriesOfStaying(dirs: seq<Snapshot>, preserved: set<string>, keys: set<string>)
    ensures EntriesOf(Filter(Stays(keys), dirs), preserved) == Filter(HasKeyIn(keys), EntriesOf(dirs, preserved))
  {
    if dirs != [] {
      var n := |dirs| - 1;
      var d := dirs[n];
      var x := if d.hasMeta then [EntryOf(d, preserved)] else [];
      var y := if Stays(keys)(d) then [d] else [];
      assert Filter(Stays(keys), [d]) == y;
      assert EntriesOf(y, preserved) == Filter(HasKeyIn(keys), x) by {
        if d.hasMeta { assert HasKeyIn(keys)(EntryOf(d, preserved)) == (KeyOf(d) in keys); }
        EntriesOfAppend([], d, preserved);
        assert [] + [d] == [d];
      }
      hide *;
      EntriesOfStaying(dirs[..n], preserved, keys);
      assert dirs == dirs[..n] + [d];
      EntriesOfAppend(dirs[..n], d, preserved);
      FilterAppend(HasKeyIn(keys), EntriesOf(dirs[..n], preserved), x);
      FilterAppend(Stays(keys), dirs[..n], [d]);
      EntriesOfJoin(Filter(Stays(keys), dirs[..n]), y, preserved);
    }
  }

  lemma EntriesOfJoin(front: seq<Snapshot>, back: seq<Snapshot>, preserved: set<string>)
    requires |back| <= 1
    ensures EntriesOf(front + back, preserved) == EntriesOf(front, preserved) + EntriesOf(back, preserved)
  {
    if back == [] {
      assert front + back == front;
    } else {
      assert back == [back[0]] && [] + [back[0]] == back;
      EntriesOfAppend(front, back[0], preserved);
      EntriesOfAppend([], back[0], preserved);
    }
  }

  // ---- The same archive in another order ---------------------------------------------

  lemma {:induction false} IdsMembers(entries: seq<Entry>)
    ensures forall w :: w in Ids(entries) ==> exists e :: e in entries && WorktreeOf(e.key) == w
  {
    if entries != [] {
      var n := |entries| - 1;
      IdsMembers(entries[..n]);
      assert entries[n] in entries;
      forall w | w in Ids(entries) ensures exists e :: e in entries && WorktreeOf(e.key) == w {
        if w in Ids(entries[..n]) {
          var e :| e in entries[..n] && WorktreeOf(e.key) == w;
          assert e in entries;
        }
      }
    }
  }

  lemma {:induction false} SameSetPermutes(a: seq<string>, b: seq<string>)
    requires NoRepeats(a) && NoRepeats(b)
    requires forall w :: w in a <==> w in b
    ensures multiset(a) == multiset(b)
  {
    forall w ensures multiset(a)[w] == multiset(b)[w] {
      NoRepeatsOnce(a, w);
      NoRepeatsOnce(b, w);
      assert w in a <==> w in multiset(a);
      assert w in b <==> w in multiset(b);
    }
  }

  lemma SortedIdsOfPermutation(a: seq<Entry>, b: seq<Entry>)
    requires multiset(a) == multiset(b)
    ensures SortedIds(a) == SortedIds(b)
  {
    SameMembers(a, b);
    IdsFacts(a);
    IdsFacts(b);
    IdsMembers(a);
    IdsMembers(b);
    SameSetPermutes(Ids(a), Ids(b));
    LexIsOrder();
    SortSorts(LexLe, Ids(a));
    SortSorts(LexLe, Ids(b));
    SortPermutes(LexLe, Ids(a));
    SortPermutes(LexLe, Ids(b));
    SortedUnique(LexLe, SortedIds(a), SortedIds(b));
  }

  lemma {:induction false} PerWorktreeOfPermutation(x: seq<Entry>, y: seq<Entry>, ids: seq<string>, b: Bounds)
    requires DistinctKeys(x) && multiset(x) == multiset(y)
    ensures PerWorktree(x, ids, b) == PerWorktree(y, ids, b)
  {
    if ids != [] {
      var w := ids[|ids| - 1];
      PerWorktreeOfPermutation(x, y, ids[..|ids| - 1], b);
      FilterOfPermutation(InWorktree(w), x, y);
      FilterDistinct(InWorktree(w), x);
      NewestFirstOfPermutation(Group(x, w), Group(y, w));
    }
  }

  /** The order in which the disk lists the snapshots does not matter. */
  lemma TwoLevelOfPermutation(x: seq<Entry>, y: seq<Entry>, policy: Policy, now: int)
    requires DistinctKeys(x) && multiset(x) == multiset(y)
    ensures RetainTwoLevel(x, policy, now) == RetainTwoLevel(y, policy, now)
  {
    SortedIdsOfPermutation(x, y);
    PerWorktreeOfPermutation(x, y, SortedIds(x), LocalBounds(policy, now));
  }

  // ---- The pruning method --------------------------------------------------------------

  lemma GroupStep(entries: seq<Entry>, i: nat, v: string)
    requires i < |entries|
    ensures Group(entries[..i + 1], v) ==
      Group(entries[..i], v) + (if WorktreeOf(entries[i].key) == v then [entries[i]] else [])
  {
    assert entries[..i + 1] == entries[..i] + [entries[i]];
    FilterAppend(InWorktree(v), entries[..i], [entries[i]]);
  }

  /** `grouped.setdefault(worktree_id, []).append(entry)` over all entries; `ids` is the dict's order. */
  method GroupByWorktree(entries: seq<Entry>) returns (grouped: map<string, seq<Entry>>, ids: seq<string>)
    ensures ids == Ids(entries)
    ensures forall v :: v in grouped <==> v in ids
    ensures forall v :: v in grouped ==> grouped[v] == Group(entries, v)
  {
    grouped, ids := map[], [];
    for i := 0 to |entries|
      invariant ids == Ids(entries[..i])
      invariant forall v :: v in grouped <==> v in ids
      invariant forall v :: v in grouped ==> grouped[v] == Group(entries[..i], v)
      invariant forall v :: v !in grouped ==> Group(entries[..i], v) == []
    {
      var w := WorktreeOf(entries[i].key);
      assert entries[..i + 1][..i] == entries[..i] && entries[..i + 1][i] == entries[i];
      forall v ensures Group(entries[..i + 1], v) ==
        Group(entries[..i], v) + (if WorktreeOf(entries[i].key) == v then [entries[i]] else [])
      {
        GroupStep(entries, i, v);
      }
      if w !in grouped {
        grouped := grouped[w := []];
        ids := ids + [w];
      }
      grouped := grouped[w := grouped[w] + [entries[i]]];
    }
    assert entries[..|entries|] == entries;
  }

  lemma PerWorktreeStep(entries: seq<Entry>, ids: seq<string>, j: nat, b: Bounds)
    requires j < |ids|
    ensures PerWorktree(entries, ids[..j + 1], b) == PerWorktree(entries, ids[..j], b) + Retain(Group(entries, ids[j]), b)
    ensures Gather(entries, ids[..j + 1]) == Gather(entries, ids[..j]) + Group(entries, ids[j])
  {
    assert ids[..j + 1][..j] == ids[..j];
  }

  lemma AppendConserves(kept: seq<Entry>, pruned: seq<Entry>, whole: seq<Entry>, k: seq<Entry>, p: seq<Entry>, w: seq<Entry>)
    requires multiset(kept) + multiset(pruned) == multiset(whole)
    requires multiset(k) + multiset(p) == multiset(w)
    ensures multiset(kept + k) + multiset(pruned + p) == multiset(whole + w)
  {
  }

  /** Both levels of `prune_worktree_archive_root`, on the scanned entries. */
  method PlanTwoLevel(entries: seq<Entry>, policy: Policy, now: int) returns (kept: seq<Entry>, pruned: seq<Entry>)
    requires DistinctKeys(entries)
    ensures kept == RetainTwoLevel(entries, policy, now)
    ensures multiset(kept) + multiset(pruned) == multiset(entries)
  {
    var grouped, order := GroupByWorktree(entries);
    var ids := SortBy(LexLe, order);
    ghost var b := LocalBounds(policy, now);
    assert ids == SortedIds(entries) && b == BoundsOf(policy.maxSnapshotsPerRepo, policy.maxAgeDays, -1, now);
    ghost var local := Locally(entries, policy, now);
    assert local == PerWorktree(entries, ids, b);
    assert RetainTwoLevel(entries, policy, now) ==
      if policy.maxTotalBytes >= 0 then Retain(local, BoundsOf(-1, -1, policy.maxTotalBytes, now)) else local;
    assert PerWorktree(entries, [], b) == [] && Gather(entries, []) == [];
    hide *;
    SortPermutes(LexLe, order);
    SortedIdsFacts(entries);
    kept, pruned := [], [];
    assert ids[..0] == [];
    for j := 0 to |ids|
      invariant kept == PerWorktree(entries, ids[..j], b)
      invariant multiset(kept) + multiset(pruned) == multiset(Gather(entries, ids[..j]))
    {
      assert ids[j] in order;
      FilterDistinct(InWorktree(ids[j]), entries);
      GroupIs(entries, ids[j]);
      var k, p := ComputePrunedEntries(grouped[ids[j]], policy.maxSnapshotsPerRepo, policy.maxAgeDays, -1, now);
      PerWorktreeStep(entries, ids, j, b);
      AppendConserves(kept, pruned, Gather(entries, ids[..j]), k, p, grouped[ids[j]]);
      kept := kept + k;
      pruned := pruned + p;
    }
    assert ids[..|ids|] == ids;
    GatherPermutes(entries, ids);
    if policy.maxTotalBytes >= 0 {
      TwoLevelDistinct(entries, policy, now);
      var k, p := ComputePrunedEntries(kept, -1, -1, policy.maxTotalBytes, now);
      Accumulate(local, k, p, pruned, entries);
      kept, pruned := k, pruned + p;
    }
  }

  lemma GroupIs(entries: seq<Entry>, w: string)
    ensures Group(entries, w) == Filter(InWorktree(w), entries)
  {
  }

  predicate KeyLe(a: Entry, b: Entry) { LexLe(a.key, b.key) }

  function KeysOf(s: seq<Entry>): seq<string> {
    seq(|s|, i requires 0 <= i < |s| => s[i].key)
  }

  /** `_remove_tree` on each pruned entry's directory. */
  function NotRemoved(keys: set<string>): Snapshot -> bool {
    (d: Snapshot) => !(d.hasMeta && KeyOf(d) in keys)
  }

  /** What `_prune_empty_dirs` spares. */
  function HoldsFiles(): Snapshot -> bool {
    (d: Snapshot) => d.hasFiles
  }

  /** The snapshot directories a real prune leaves: the unretained ones are removed, then the sweep takes
      what holds no file. Without entries it returns before both. */
  function Left(before: seq<Snapshot>, entries: seq<Entry>, keys: set<string>): seq<Snapshot> {
    if entries == [] then before else Filter(HoldsFiles(), Filter(Stays(keys), before))
  }

  lemma NothingToPrune(dirs: seq<Snapshot>, preserved: set<string>, policy: Policy, now: int)
    requires EntriesOf(dirs, preserved) == []
    ensures PruneOutcome(dirs, dirs, PruneSummary(0, 0, 0, 0, []), policy, preserved, now, true)
    ensures PruneOutcome(dirs, dirs, PruneSummary(0, 0, 0, 0, []), policy, preserved, now, false)
  {
    RetainNothing(policy, now);
    assert Keys([]) == {};
    hide RetainTwoLevel, Filter, EntriesOf;
  }

  lemma RetainNothing(policy: Policy, now: int)
    ensures RetainTwoLevel([], policy, now) == []
  {
    var r := RetainTwoLevel([], policy, now);
    TwoLevelMembers([], policy, now);
    NoMembers(r);
  }

  lemma SplitKeys(entries: seq<Entry>, kept: seq<Entry>, pruned: seq<Entry>)
    requires DistinctKeys(entries) && multiset(kept) + multiset(pruned) == multiset(entries)
    ensures |kept| + |pruned| == |entries| && Bytes(kept) + Bytes(pruned) == Bytes(entries)
    ensures Keys(pruned) == Keys(entries) - Keys(kept)
  {
    var all := kept + pruned;
    assert multiset(all) == multiset(entries);
    SameLength(all, entries);
    SameMembers(all, entries);
    BytesOfPermutation(all, entries);
    BytesAppend(kept, pruned);
    DistinctByPermutation(entries, all);
    forall d, e | d in kept && e in pruned ensures d.key != e.key {
      var i := Position(kept, d);
      var j := Position(pruned, e);
      assert all[i] == d && all[|kept| + j] == e;
    }
    assert forall e :: e in entries <==> e in kept || e in pruned;
  }

  lemma {:induction false} FilterDirsValid(p: Snapshot -> bool, dirs: seq<Snapshot>)
    requires ValidDirs(dirs)
    ensures ValidDirs(Filter(p, dirs))
  {
    if dirs != [] {
      assert dirs == [dirs[0]] + dirs[1..];
      assert ValidDirs(dirs[1..]);
      FilterDirsValid(p, dirs[1..]);
      FilterMembers(p, dirs[1..]);
      var rest := Filter(p, dirs[1..]);
      forall j | 0 <= j < |rest| ensures dirs[0].worktree != rest[j].worktree || dirs[0].name != rest[j].name {
        var i := Position(dirs[1..], rest[j]);
      }
    }
  }

  lemma StaysByRemoval(dirs: seq<Snapshot>, preserved: set<string>, kept: set<string>, pruned: set<string>)
    requires pruned == Keys(EntriesOf(dirs, preserved)) - kept
    ensures Filter(NotRemoved(pruned), dirs) == Filter(Stays(kept), dirs)
  {
    EntriesOfMembers(dirs, preserved);
    forall d | d in dirs ensures NotRemoved(pruned)(d) == Stays(kept)(d) {
      var i := Position(dirs, d);
      if d.hasMeta { assert EntryOf(dirs[i], preserved).key in Keys(EntriesOf(dirs, preserved)); }
    }
    FilterSame(NotRemoved(pruned), Stays(kept), dirs);
  }

  lemma SortedKeys(s: seq<Entry>)
    ensures var keys := KeysOf(SortBy(KeyLe, s));
      |keys| == |s| && Sorted(LexLe, keys) && forall k :: k in keys <==> k in Keys(s)
  {
    LexIsOrder();
    SortPermutes(KeyLe, s);
    SortSorts(KeyLe, s);
    var t := SortBy(KeyLe, s);
    forall k ensures k in KeysOf(t) <==> k in Keys(s) {
      if k in KeysOf(t) {
        var i := Position(KeysOf(t), k);
        assert t[i] in s;
      }
      if k in Keys(s) {
        var e :| e in s && e.key == k;
        var i := Position(t, e);
        assert KeysOf(t)[i] == k;
      }
    }
  }

  /** The summary and the surviving directories a prune must produce. */
  ghost predicate PruneOutcome(before: seq<Snapshot>, after: seq<Snapshot>, summary: PruneSummary,
                               policy: Policy, preserved: set<string>, now: int, dryRun: bool)
  {
    var entries := EntriesOf(before, preserved);
    var r := RetainTwoLevel(entries, policy, now);
    && after == (if dryRun then before else Left(before, entries, Keys(r)))
    && summary.kept == |r| && summary.kept + summary.pruned == |entries|
    && summary.bytesAfter == Bytes(r) && summary.bytesBefore == Bytes(entries)
    && |summary.prunedKeys| == summary.pruned && Sorted(LexLe, summary.prunedKeys)
    && (forall k :: k in summary.prunedKeys <==> k in Keys(entries) && k !in Keys(r))
  }

  lemma OutcomeIs(before: seq<Snapshot>, policy: Policy, preserved: set<string>, now: int, kept: seq<Entry>, pruned: seq<Entry>)
    requires ValidDirs(before) && EntriesOf(before, preserved) != []
    requires kept == RetainTwoLevel(EntriesOf(before, preserved), policy, now)
    requires multiset(kept) + multiset(pruned) == multiset(EntriesOf(before, preserved))
    ensures
      var entries := EntriesOf(before, preserved);
      var summary := PruneSummary(|kept|, |pruned|, Bytes(entries), Bytes(kept), KeysOf(SortBy(KeyLe, pruned)));
      var after := Filter(HoldsFiles(), Filter(NotRemoved(Keys(pruned)), before));
      && ValidDirs(after)
      && PruneOutcome(before, before, summary, policy, preserved, now, true)
      && PruneOutcome(before, after, summary, policy, preserved, now, false)
  {
    var entries := EntriesOf(before, preserved);
    hide Filter, SortBy, RetainTwoLevel, EntriesOf, Bytes;
    EntriesOfDistinct(before, preserved);
    SplitKeys(entries, kept, pruned);
    StaysByRemoval(before, preserved, Keys(kept), Keys(pruned));
    FilterDirsValid(NotRemoved(Keys(pruned)), before);
    FilterDirsValid(HoldsFiles(), Filter(NotRemoved(Keys(pruned)), before));
    SortedKeys(pruned);
  }

  class WorktreeArchive {
    var snapshots: seq<Snapshot>

    ghost predicate Valid()
      reads this
    {
      ValidDirs(snapshots)
    }

    /** `prune_worktree_archive_root` */
    method Prune(policy: Policy, preserved: set<string>, now: int, dryRun: bool) returns (summary: PruneSummary)
      requires Valid()
      modifies this
      ensures Valid()
      ensures PruneOutcome(old(snapshots), snapshots, summary, policy, preserved, now, dryRun)
    {
      var entries := EntriesOf(snapshots, preserved);
      hide EntriesOf, PruneOutcome, Filter, SortBy, KeysOf, Keys, Bytes;
      if entries == [] {
        NothingToPrune(snapshots, preserved, policy, now);
        return PruneSummary(0, 0, 0, 0, []);
      }
      EntriesOfDistinct(snapshots, preserved);
      var kept, pruned := PlanTwoLevel(entries, policy, now);
      OutcomeIs(snapshots, policy, preserved, now, kept, pruned);
      if !dryRun {
        snapshots := Filter(NotRemoved(Keys(pruned)), snapshots);
        snapshots := Filter(HoldsFiles(), snapshots);
      }
      summary := PruneSummary(|kept|, |pruned|, Bytes(entries), Bytes(kept), KeysOf(SortBy(KeyLe, pruned)));
    }
  }

  /** Exactly which snapshot directories are left: a complete one if it is retained, an incomplete one if it
      holds a file or the archive has no complete one at all; in a dry run, all. */
  lemma SurvivesIff(before: seq<Snapshot>, after: seq<Snapshot>, s: PruneSummary, policy: Policy, preserved: set<string>, now: int,
                    dryRun: bool, d: Snapshot)
    requires ValidDirs(before) && d in before
    requires PruneOutcome(before, after, s, policy, preserved, now, dryRun)
    ensures var entries := EntriesOf(before, preserved);
      d in after <==>
        dryRun || (if d.hasMeta then KeyOf(d) in Keys(RetainTwoLevel(entries, policy, now)) else d.hasFiles || entries == [])
  {
    var entries := EntriesOf(before, preserved);
    var keys := Keys(RetainTwoLevel(entries, policy, now));
    EntriesOfMembers(before, preserved);
    var i := Position(before, d);
    FilterMembers(Stays(keys), before);
    FilterMembers(HoldsFiles(), Filter(Stays(keys), before));
    hide RetainTwoLevel, Filter, EntriesOf;
  }

  /** An empty snapshot directory is lost to a prune that prunes no entry. */
  lemma EmptyDirectoryIsLost(after: seq<Snapshot>, s: PruneSummary)
    requires PruneOutcome([Snapshot("w", "empty", false, 0, 0, false), Snapshot("w", "full", true, 0, 1, true)], after, s,
                          Policy(0, 0, 0), {"w/full"}, 0, false)
    ensures s.pruned == 0 && Snapshot("w", "empty", false, 0, 0, false) !in after
  {
    hide *;
    var e, f := Snapshot("w", "empty", false, 0, 0, false), Snapshot("w", "full", true, 0, 1, true);
    var entries := EntriesOf([e, f], {"w/full"});
    var kept := EntryOf(f, {"w/full"});
    assert [] + [e] == [e] && [e] + [f] == [e, f];
    EntriesOfNothing({"w/full"});
    EntriesOfAppend([], e, {"w/full"});
    EntriesOfAppend([e], f, {"w/full"});
    FullIsPreserved();
    TwoLevelMembers(entries, Policy(0, 0, 0), 0);
    OutcomeFacts([e, f], after, s, Policy(0, 0, 0), {"w/full"}, 0);
    PairIsValid(e, f);
    EntriesOfDistinct([e, f], {"w/full"});
    SurvivesIff([e, f], after, s, Policy(0, 0, 0), {"w/full"}, 0, false, e);
    assert kept in entries && kept in RetainTwoLevel(entries, Policy(0, 0, 0), 0);
  }

  lemma EntriesOfNothing(preserved: set<string>)
    ensures EntriesOf([], preserved) == []
  {
  }

  lemma FullIsPreserved()
    ensures EntryOf(Snapshot("w", "full", true, 0, 1, true), {"w/full"}).preserve
  {
    assert "w" + "/" + "full" == "w/full";
  }

  lemma PairIsValid(e: Snapshot, f: Snapshot)
    requires e == Snapshot("w", "empty", false, 0, 0, false) && f == Snapshot("w", "full", true, 0, 1, true)
    ensures ValidDirs([e, f])
  {
    assert "empty"[0] != "full"[0];
  }

  lemma {:induction false} EntriesOfSwept(dirs: seq<Snapshot>, preserved: set<string>)
    requires forall i :: 0 <= i < |dirs| && dirs[i].hasMeta ==> dirs[i].hasFiles
    ensures EntriesOf(Filter(HoldsFiles(), dirs), preserved) == EntriesOf(dirs, preserved)
  {
    if dirs != [] {
      var n := |dirs| - 1;
      var d := dirs[n];
      var y := if d.hasFiles then [d] else [];
      EntriesOfSwept(dirs[..n], preserved);
      assert Filter(HoldsFiles(), [d]) == y by { assert [d][1..] == []; }
      assert dirs == dirs[..n] + [d];
      FilterAppend(HoldsFiles(), dirs[..n], [d]);
      EntriesOfAppend(dirs[..n], d, preserved);
      EntriesOfJoin(Filter(HoldsFiles(), dirs[..n]), y, preserved);
      EntriesOfAppend([], d, preserved);
      assert [] + [d] == [d];
      hide Filter;
    }
  }

  /** The entries found after a prune are those that were retained. */
  lemma LeftEntries(before: seq<Snapshot>, keys: set<string>, preserved: set<string>)
    requires ValidDirs(before)
    ensures EntriesOf(Left(before, EntriesOf(before, preserved), keys), preserved) == Filter(HasKeyIn(keys), EntriesOf(before, preserved))
    ensures ValidDirs(Left(before, EntriesOf(before, preserved), keys))
  {
    EntriesOfStaying(before, preserved, keys);
    FilterDirsValid(Stays(keys), before);
    EntriesOfSwept(Filter(Stays(keys), before), preserved);
    FilterDirsValid(HoldsFiles(), Filter(Stays(keys), before));
  }

  // ---- Pruning again, with times that may have grown -------------------------------------------------

  /** Neither level has anything to give up. */
  ghost predicate WithinBoth(entries: seq<Entry>, policy: Policy, now: int) {
    && (forall w :: WithinLimits(Group(entries, w), LocalBounds(policy, now)))
    && (policy.maxTotalBytes >= 0 ==> WithinLimits(entries, GlobalBounds(policy)))
  }

  lemma {:induction false} LocallyWhole(entries: seq<Entry>, ids: seq<string>, b: Bounds)
    requires forall w :: WithinLimits(Group(entries, w), b)
    ensures multiset(PerWorktree(entries, ids, b)) == multiset(Gather(entries, ids))
  {
    if ids != [] {
      var n := |ids| - 1;
      LocallyWhole(entries, ids[..n], b);
      WithinIsRetained(Group(entries, ids[n]), b);
      hide Retain, Group, WithinLimits;
    }
  }

  lemma WithinBothIsRetained(entries: seq<Entry>, policy: Policy, now: int)
    requires WithinBoth(entries, policy, now)
    ensures multiset(RetainTwoLevel(entries, policy, now)) == multiset(entries)
  {
    var local := Locally(entries, policy, now);
    SortedIdsFacts(entries);
    hide WithinLimits, Group, SortedIds, NoRepeats, Covers, Retain, LocalBounds, GlobalBounds;
    LocallyWhole(entries, SortedIds(entries), LocalBounds(policy, now));
    GatherPermutes(entries, SortedIds(entries));
    if policy.maxTotalBytes >= 0 {
      WithinOfPermutation(entries, local, GlobalBounds(policy));
      WithinIsRetained(local, GlobalBounds(policy));
    }
  }

  function Everything(): Entry -> bool { (e: Entry) => true }

  lemma FixedIsWithin(x: seq<Entry>, entries: seq<Entry>, b: Bounds)
    requires Retain(entries, b) == x
    ensures WithinLimits(x, b)
  {
    PartIsWithin(entries, b, Everything());
    FilterAll(Everything(), x);
  }

  lemma RetainedIsWithin(entries: seq<Entry>, policy: Policy, now: int)
    ensures WithinBoth(RetainTwoLevel(entries, policy, now), policy, now)
  {
    var r := RetainTwoLevel(entries, policy, now);
    var b := LocalBounds(policy, now);
    hide WithinLimits, Group, Retain, LocalBounds, GlobalBounds, Locally;
    forall w ensures WithinLimits(Group(r, w), b) {
      var k := GroupRetained(entries, policy, now, w);
      RetainOfPrefix(Group(entries, w), b, k);
      FixedIsWithin(Group(r, w), Group(r, w), b);
    }
    if policy.maxTotalBytes >= 0 { FixedIsWithin(r, Locally(entries, policy, now), GlobalBounds(policy)); }
  }

  lemma WithinBothOfPermutation(x: seq<Entry>, y: seq<Entry>, policy: Policy, now: int)
    requires WithinBoth(x, policy, now) && multiset(x) == multiset(y)
    ensures WithinBoth(y, policy, now)
  {
    hide WithinLimits, LocalBounds, GlobalBounds, Filter;
    forall w ensures WithinLimits(Group(y, w), LocalBounds(policy, now)) {
      FilterOfPermutation(InWorktree(w), x, y);
      WithinOfPermutation(Group(x, w), Group(y, w), LocalBounds(policy, now));
    }
    if policy.maxTotalBytes >= 0 { WithinOfPermutation(x, y, GlobalBounds(policy)); }
  }

  lemma {:induction false} GroupRenews(x: seq<Entry>, y: seq<Entry>, w: string)
    requires Renews(x, y)
    ensures Renews(Group(x, w), Group(y, w))
  {
    if x != [] { GroupRenews(x[1..], y[1..], w); }
  }

  lemma WithinBothRenewed(x: seq<Entry>, y: seq<Entry>, policy: Policy, now: int)
    requires WithinBoth(x, policy, now) && Renews(x, y)
    ensures WithinBoth(y, policy, now)
  {
    hide WithinLimits, LocalBounds, GlobalBounds, Group, Renews;
    forall w ensures WithinLimits(Group(y, w), LocalBounds(policy, now)) {
      GroupRenews(x, y, w);
      RenewedIsWithin(Group(x, w), Group(y, w), LocalBounds(policy, now));
    }
    if policy.maxTotalBytes >= 0 { RenewedIsWithin(x, y, GlobalBounds(policy)); }
  }

  /** The same directories found again; a sweep inside one renews its time, which counts where META has none. */
  ghost predicate Renewed(dirs: seq<Snapshot>, found: seq<Snapshot>) {
    |dirs| == |found| && forall i :: 0 <= i < |dirs| ==>
      found[i].createdAt >= dirs[i].createdAt && found[i] == dirs[i].(createdAt := found[i].createdAt)
  }

  lemma {:induction false} RenewedEntries(dirs: seq<Snapshot>, found: seq<Snapshot>, preserved: set<string>)
    requires Renewed(dirs, found)
    ensures Renews(EntriesOf(dirs, preserved), EntriesOf(found, preserved))
  {
    if dirs != [] {
      var n := |dirs| - 1;
      RenewedEntries(dirs[..n], found[..n], preserved);
    }
  }

  /** Retaining what was retained keeps all of it, renewed or not. */
  lemma RetainedAgain(entries: seq<Entry>, left: seq<Entry>, again: seq<Entry>, policy: Policy, now: int)
    requires DistinctKeys(entries) && left == Filter(HasKeyIn(Keys(RetainTwoLevel(entries, policy, now))), entries)
    requires Renews(left, again)
    ensures var r := RetainTwoLevel(again, policy, now);
      |r| == |again| && Keys(r) == Keys(again) && Bytes(r) == Bytes(again) == Bytes(RetainTwoLevel(entries, policy, now))
  {
    var r := RetainTwoLevel(entries, policy, now);
    hide *;
    RetainSplits(entries, policy, now);
    RetainedIsWithin(entries, policy, now);
    WithinBothOfPermutation(r, left, policy, now);
    WithinBothRenewed(left, again, policy, now);
    WithinBothIsRetained(again, policy, now);
    RenewedSums(left, again);
    BytesOfPermutation(r, left);
    BytesOfPermutation(RetainTwoLevel(again, policy, now), again);
    SameLength(RetainTwoLevel(again, policy, now), again);
    SameMembers(RetainTwoLevel(again, policy, now), again);
    SameKeys(RetainTwoLevel(again, policy, now), again);
  }

  lemma SameKeys(a: seq<Entry>, b: seq<Entry>)
    requires forall e :: e in a <==> e in b
    ensures Keys(a) == Keys(b)
  {
  }

  /** What is left loses nothing to a prune that retains all its entries. */
  lemma LeftWhole(before: seq<Snapshot>, keys: set<string>, found: seq<Snapshot>, preserved: set<string>)
    requires ValidDirs(before) && Renewed(Left(before, EntriesOf(before, preserved), keys), found)
    ensures Left(found, EntriesOf(found, preserved), Keys(EntriesOf(found, preserved))) == found
  {
    var after := Left(before, EntriesOf(before, preserved), keys);
    RenewedEntries(after, found, preserved);
    FilterMembers(Stays(keys), before);
    FilterMembers(HoldsFiles(), Filter(Stays(keys), before));
    LeftEntries(before, keys, preserved);
    EntriesOfMembers(found, preserved);
    var again := EntriesOf(found, preserved);
    hide Filter, EntriesOf;
    if again != [] {
      forall d | d in found ensures Stays(Keys(again))(d) && HoldsFiles()(d) {
        var i := Position(found, d);
        assert after[i] in after;
        if d.hasMeta { assert EntryOf(found[i], preserved) in again; }
        if EntriesOf(before, preserved) == [] { FilterOfNone(HasKeyIn(keys)); }
      }
      FilterAll(Stays(Keys(again)), found);
      FilterAll(HoldsFiles(), found);
    }
  }

  lemma FilterOfNone(p: Entry -> bool)
    ensures Filter(p, []) == []
  {
  }

  /** What a prune left behind, pruned again at the same clock, loses nothing more, even where the sweep renewed
      the times of the directories that are left. */
  lemma SecondPruneRemovesNothing(before: seq<Snapshot>, after: seq<Snapshot>, found: seq<Snapshot>, again: seq<Snapshot>,
                                  s: PruneSummary, t: PruneSummary, policy: Policy, preserved: set<string>, now: int)
    requires ValidDirs(before)
    requires PruneOutcome(before, after, s, policy, preserved, now, false)
    requires Renewed(after, found) && PruneOutcome(found, again, t, policy, preserved, now, false)
    ensures again == found && t.pruned == 0 && t.bytesBefore == t.bytesAfter == s.bytesAfter
  {
    hide *;
    var entries := EntriesOf(before, preserved);
    var keys := Keys(RetainTwoLevel(entries, policy, now));
    EntriesOfDistinct(before, preserved);
    OutcomeFacts(before, after, s, policy, preserved, now);
    OutcomeFacts(found, again, t, policy, preserved, now);
    LeftEntries(before, keys, preserved);
    RenewedEntries(after, found, preserved);
    RetainedAgain(entries, EntriesOf(after, preserved), EntriesOf(found, preserved), policy, now);
    LeftWhole(before, keys, found, preserved);
  }

  lemma OutcomeFacts(before: seq<Snapshot>, after: seq<Snapshot>, s: PruneSummary, policy: Policy, preserved: set<string>, now: int)
    requires PruneOutcome(before, after, s, policy, preserved, now, false)
    ensures var entries := EntriesOf(before, preserved);
      var r := RetainTwoLevel(entries, policy, now);
      after == Left(before, entries, Keys(r)) && s.kept == |r| && s.kept + s.pruned == |entries|
      && s.bytesAfter == Bytes(r) && s.bytesBefore == Bytes(entries)
  {
    hide RetainTwoLevel, EntriesOf, Left, Bytes, Keys;
  }

  lemma RetainSplits(entries: seq<Entry>, policy: Policy, now: int)
    requires DistinctKeys(entries)
    ensures var r := RetainTwoLevel(entries, policy, now);
      multiset(Filter(HasKeyIn(Keys(r)), entries)) == multiset(r)
  {
    var r := RetainTwoLevel(entries, policy, now);
    TwoLevelMembers(entries, policy, now);
    TwoLevelDistinct(entries, policy, now);
    forall e ensures multiset(r)[e] <= multiset(entries)[e] {
      DistinctOnce(r, e);
      if e in r { assert e in multiset(r) && e in multiset(entries); }
    }
    Subtract(multiset(r), multiset(entries), entries, r);
  }

  lemma Subtract(a: multiset<Entry>, b: multiset<Entry>, entries: seq<Entry>, r: seq<Entry>)
    requires DistinctKeys(entries) && a == multiset(r) && b == multiset(entries)
    requires forall e :: a[e] <= b[e]
    ensures multiset(Filter(HasKeyIn(Keys(r)), entries)) == multiset(r)
  {
    var f := Filter(HasKeyIn(Keys(r)), entries);
    forall e ensures multiset(f)[e] == a[e] {
      CountIn(HasKeyIn(Keys(r)), entries, e);
      DistinctOnce(entries, e);
      if b[e] == 1 && e.key in Keys(r) {
        var d :| d in r && d.key == e.key;
        assert d in a && d in b && e in b;
        var i := Position(entries, d);
        var j := Position(entries, e);
        assert d == e;
      }
      if e in a { assert e in r; }
    }
  }

  // ---- What the policy's own numbers say ----------------------------------------------

  function TotalSize(dirs: seq<Snapshot>): nat {
    if dirs == [] then 0 else TotalSize(dirs[..|dirs| - 1]) + if dirs[|dirs| - 1].hasMeta then dirs[|dirs| - 1].size else 0
  }

  /** The complete snapshots of a worktree with keys in, or not in, a set. */
  function SnapshotsOf(w: string, keys: set<string>, within: bool): Snapshot -> bool {
    (d: Snapshot) => d.hasMeta && d.worktree == w && (d.worktree + "/" + d.name in keys <==> within)
  }

  lemma {:induction false} CountDirs(p: Snapshot -> bool, q: Entry -> bool, dirs: seq<Snapshot>, preserved: set<string>)
    requires forall d :: d in dirs ==> (p(d) <==> d.hasMeta && q(EntryOf(d, preserved)))
    ensures |Filter(p, dirs)| == |Filter(q, EntriesOf(dirs, preserved))|
  {
    if dirs != [] {
      var n := |dirs| - 1;
      var d := dirs[n];
      assert dirs == dirs[..n] + [d] && forall e :: e in dirs[..n] ==> e in dirs;
      CountDirs(p, q, dirs[..n], preserved);
      FilterAppend(p, dirs[..n], [d]);
      var last := if d.hasMeta then [EntryOf(d, preserved)] else [];
      FilterAppend(q, EntriesOf(dirs[..n], preserved), last);
      assert [d][1..] == [] && (last != [] ==> last[1..] == []);
    }
  }

  lemma {:induction false} SizesOf(dirs: seq<Snapshot>, preserved: set<string>)
    ensures Bytes(EntriesOf(dirs, preserved)) == TotalSize(dirs)
  {
    if dirs != [] {
      var n := |dirs| - 1;
      SizesOf(dirs[..n], preserved);
      assert EntriesOf(dirs[..n], preserved) + [] == EntriesOf(dirs[..n], preserved);
      if dirs[n].hasMeta {
        BytesAppend(EntriesOf(dirs[..n], preserved), [EntryOf(dirs[n], preserved)]);
        BytesOfOne(EntryOf(dirs[n], preserved));
      }
    }
  }

  lemma KeyIs(d: Snapshot)
    requires '/' !in d.worktree
    ensures KeyOf(d) == d.worktree + "/" + d.name && WorktreeOf(KeyOf(d)) == d.worktree
  {
    WorktreeOfJoin(d.worktree, d.name);
    assert d.worktree + "/" + d.name == d.worktree + ("/" + d.name);
  }

  function KeyInGroup(w: string, keys: set<string>): Entry -> bool {
    (e: Entry) => WorktreeOf(e.key) == w && e.key in keys
  }

  lemma SamePlace(before: seq<Snapshot>, d: Snapshot, preserved: set<string>, keys: set<string>, w: string)
    requires ValidDirs(before) && d in before
    ensures SnapshotsOf(w, keys, true)(d) <==> d.hasMeta && KeyInGroup(w, keys)(EntryOf(d, preserved))
    ensures SnapshotsOf(w, preserved, true)(d) <==> d.hasMeta && And(InWorktree(w), IsHeld)(EntryOf(d, preserved))
  {
    var i := Position(before, d);
    KeyIs(d);
    var e := EntryOf(d, preserved);
    hide WorktreeOf;
    assert And(InWorktree(w), IsHeld)(e) <==> InWorktree(w)(e) && IsHeld(e);
    assert WorktreeOf(e.key) == d.worktree && e.key == d.worktree + "/" + d.name;
  }

  /** How many snapshots of a worktree a prune keeps, and how many of it are preserved. */
  lemma GroupCounts(before: seq<Snapshot>, preserved: set<string>, keys: set<string>, w: string)
    requires ValidDirs(before)
    ensures var entries := EntriesOf(before, preserved);
      && |Filter(SnapshotsOf(w, keys, true), before)| == |Filter(KeyInGroup(w, keys), entries)|
      && |Filter(SnapshotsOf(w, preserved, true), before)| == |Held(Group(entries, w))|
  {
    var entries := EntriesOf(before, preserved);
    assert Held(Group(entries, w)) == Filter(IsHeld, Filter(InWorktree(w), entries));
    hide *;
    forall d | d in before
      ensures SnapshotsOf(w, keys, true)(d) <==> d.hasMeta && KeyInGroup(w, keys)(EntryOf(d, preserved))
      ensures SnapshotsOf(w, preserved, true)(d) <==> d.hasMeta && And(InWorktree(w), IsHeld)(EntryOf(d, preserved))
    {
      SamePlace(before, d, preserved, keys, w);
    }
    CountDirs(SnapshotsOf(w, keys, true), KeyInGroup(w, keys), before, preserved);
    CountDirs(SnapshotsOf(w, preserved, true), And(InWorktree(w), IsHeld), before, preserved);
    FilterFilter(InWorktree(w), IsHeld, entries);
  }

  lemma KeptInGroup(entries: seq<Entry>, policy: Policy, now: int, w: string)
    requires DistinctKeys(entries)
    ensures var r := RetainTwoLevel(entries, policy, now); |Filter(KeyInGroup(w, Keys(r)), entries)| == |Group(r, w)|
  {
    var r := RetainTwoLevel(entries, policy, now);
    var p := HasKeyIn(Keys(r));
    hide RetainTwoLevel, Filter;
    RetainSplits(entries, policy, now);
    FilterFilter(p, InWorktree(w), entries);
    FilterSame(And(p, InWorktree(w)), KeyInGroup(w, Keys(r)), entries);
    FilterOfPermutation(InWorktree(w), Filter(p, entries), r);
    SameLength(Filter(InWorktree(w), Filter(p, entries)), Group(r, w));
  }

  lemma PrunedKeysAre(before: seq<Snapshot>, after: seq<Snapshot>, s: PruneSummary, policy: Policy, preserved: set<string>, now: int,
                      dryRun: bool, d: Snapshot)
    requires ValidDirs(before) && d in before && d.hasMeta && PruneOutcome(before, after, s, policy, preserved, now, dryRun)
    ensures var r := RetainTwoLevel(EntriesOf(before, preserved), policy, now);
      && (KeyOf(d) in s.prunedKeys <==> KeyOf(d) !in Keys(r)) && (KeyOf(d) !in s.prunedKeys <==> EntryOf(d, preserved) in r)
      && EntryOf(d, preserved) in EntriesOf(before, preserved) && KeyOf(d) == d.worktree + "/" + d.name && WorktreeOf(KeyOf(d)) == d.worktree
  {
    var entries := EntriesOf(before, preserved);
    var r := RetainTwoLevel(entries, policy, now);
    EntriesOfMembers(before, preserved);
    EntriesOfDistinct(before, preserved);
    TwoLevelMembers(entries, policy, now);
    var i := Position(before, d);
    KeyIs(d);
    hide RetainTwoLevel, EntriesOf, Left, Bytes;
    assert EntryOf(before[i], preserved) in entries;
    if KeyOf(d) in Keys(r) {
      var e :| e in r && e.key == KeyOf(d);
      var j := Position(entries, e);
      var k := Position(entries, EntryOf(d, preserved));
      assert j == k;
    }
  }

  /** Per worktree the count limit yields to preserved snapshots only, the byte limit to them only, and no other
      snapshot that stays is older than the age limit. */
  lemma PolicyHolds(before: seq<Snapshot>, after: seq<Snapshot>, s: PruneSummary, policy: Policy, preserved: set<string>, now: int, dryRun: bool)
    requires ValidDirs(before) && PruneOutcome(before, after, s, policy, preserved, now, dryRun)
    ensures s.bytesBefore == TotalSize(before)
    ensures policy.maxSnapshotsPerRepo >= 0 ==> forall w ::
      |Filter(SnapshotsOf(w, set k | k in s.prunedKeys, false), before)|
        <= Max(policy.maxSnapshotsPerRepo, |Filter(SnapshotsOf(w, preserved, true), before)|)
    ensures policy.maxAgeDays >= 0 ==>
      forall d :: d in before && d.hasMeta && d.worktree + "/" + d.name !in s.prunedKeys && d.worktree + "/" + d.name !in preserved ==>
        d.createdAt >= now - policy.maxAgeDays * 24 * 60 * 60 * 1_000_000
    ensures policy.maxTotalBytes >= 0 && s.bytesAfter > policy.maxTotalBytes ==>
      forall d :: d in before && d.hasMeta && d.worktree + "/" + d.name !in s.prunedKeys ==> d.worktree + "/" + d.name in preserved
    ensures forall d :: d in before && d.hasMeta && d.worktree + "/" + d.name in preserved ==> d.worktree + "/" + d.name !in s.prunedKeys
  {
    var entries := EntriesOf(before, preserved);
    var r := RetainTwoLevel(entries, policy, now);
    SizesOf(before, preserved);
    SummaryFacts(before, after, s, policy, preserved, now, dryRun);
    TwoLevelMembers(entries, policy, now);
    if policy.maxTotalBytes >= 0 { TwoLevelBytes(entries, policy, now); }
    LooseMembers(r);
    hide RetainTwoLevel, EntriesOf, PruneOutcome, Bytes, Loose, TotalSize, Filter, Keys;
    forall d | d in before && d.hasMeta
      ensures d.worktree + "/" + d.name !in s.prunedKeys <==> EntryOf(d, preserved) in r
      ensures EntryOf(d, preserved) in entries && (EntryOf(d, preserved).preserve <==> d.worktree + "/" + d.name in preserved)
      ensures WorktreeOf(EntryOf(d, preserved).key) == d.worktree
    {
      PrunedKeysAre(before, after, s, policy, preserved, now, dryRun, d);
    }
    forall w | policy.maxSnapshotsPerRepo >= 0
      ensures |Filter(SnapshotsOf(w, set k | k in s.prunedKeys, false), before)|
        <= Max(policy.maxSnapshotsPerRepo, |Filter(SnapshotsOf(w, preserved, true), before)|)
    {
      CountHolds(before, after, s, policy, preserved, now, dryRun, w);
    }
    forall d | d in before && d.hasMeta && policy.maxAgeDays >= 0
        && d.worktree + "/" + d.name !in s.prunedKeys && d.worktree + "/" + d.name !in preserved
      ensures d.createdAt >= now - policy.maxAgeDays * 24 * 60 * 60 * 1_000_000
    {
      TwoLevelPerWorktree(entries, policy, now, d.worktree);
      assert EntryOf(d, preserved) in r;
    }
    if Loose(r) == [] {
      forall d | d in before && d.hasMeta && d.worktree + "/" + d.name !in s.prunedKeys ensures d.worktree + "/" + d.name in preserved {
        assert EntryOf(d, preserved) !in Loose(r);
      }
    }
  }

  lemma SummaryFacts(before: seq<Snapshot>, after: seq<Snapshot>, s: PruneSummary, policy: Policy, preserved: set<string>, now: int, dryRun: bool)
    requires PruneOutcome(before, after, s, policy, preserved, now, dryRun)
    ensures var entries := EntriesOf(before, preserved);
      var r := RetainTwoLevel(entries, policy, now);
      after == (if dryRun then before else Left(before, entries, Keys(r))) && s.kept == |r| && s.kept + s.pruned == |entries|
      && s.bytesAfter == Bytes(r) && s.bytesBefore == Bytes(entries)
  {
    hide RetainTwoLevel, EntriesOf, Left, Bytes, Keys;
  }

  lemma CountHolds(before: seq<Snapshot>, after: seq<Snapshot>, s: PruneSummary, policy: Policy, preserved: set<string>, now: int, dryRun: bool,
                   w: string)
    requires ValidDirs(before) && PruneOutcome(before, after, s, policy, preserved, now, dryRun) && policy.maxSnapshotsPerRepo >= 0
    ensures |Filter(SnapshotsOf(w, set k | k in s.prunedKeys, false), before)|
      <= Max(policy.maxSnapshotsPerRepo, |Filter(SnapshotsOf(w, preserved, true), before)|)
  {
    var entries := EntriesOf(before, preserved);
    var keys := Keys(RetainTwoLevel(entries, policy, now));
    hide RetainTwoLevel, EntriesOf, PruneOutcome, Filter, Keys, Held, Group;
    forall d | d in before ensures SnapshotsOf(w, set k | k in s.prunedKeys, false)(d) == SnapshotsOf(w, keys, true)(d) {
      if d.hasMeta { PrunedKeysAre(before, after, s, policy, preserved, now, dryRun, d); }
    }
    FilterSame(SnapshotsOf(w, set k | k in s.prunedKeys, false), SnapshotsOf(w, keys, true), before);
    EntriesOfDistinct(before, preserved);
    GroupCounts(before, preserved, keys, w);
    KeptInGroup(entries, policy, now, w);
    TwoLevelPerWorktree(entries, policy, now, w);
  }

  lemma DirsWithinLimits(before: seq<Snapshot>, policy: Policy, preserved: set<string>, now: int)
    requires ValidDirs(before)
    requires policy.maxSnapshotsPerRepo >= 0 ==> forall w :: |Filter(SnapshotsOf(w, {}, false), before)| <= policy.maxSnapshotsPerRepo
    requires policy.maxAgeDays >= 0 ==> forall d :: d in before && d.hasMeta && d.worktree + "/" + d.name !in preserved ==>
      d.createdAt >= now - policy.maxAgeDays * 24 * 60 * 60 * 1_000_000
    requires policy.maxTotalBytes >= 0 ==> TotalSize(before) <= policy.maxTotalBytes
    ensures WithinBoth(EntriesOf(before, preserved), policy, now)
  {
    var entries := EntriesOf(before, preserved);
    SizesOf(before, preserved);
    EntriesOfMembers(before, preserved);
    hide Bytes, Held, Loose, TotalSize, EntriesOf, Filter;
    forall d | d in before ensures KeyOf(d) == d.worktree + "/" + d.name && WorktreeOf(KeyOf(d)) == d.worktree {
      var i := Position(before, d);
      KeyIs(d);
    }
    forall e | e in entries && !e.preserve && policy.maxAgeDays >= 0
      ensures e.createdAt >= now - policy.maxAgeDays * 24 * 60 * 60 * 1_000_000
    {
      var i :| 0 <= i < |before| && before[i].hasMeta && e == EntryOf(before[i], preserved);
      assert before[i] in before;
    }
    forall w ensures WithinLimits(Group(entries, w), LocalBounds(policy, now)) {
      GroupMembers(entries, w);
      CountDirs(SnapshotsOf(w, {}, false), InWorktree(w), before, preserved);
    }
  }

  /** Snapshots that are inside the limits from the start are all kept; a negative limit is none. */
  lemma WithinPolicyNothingGoes(before: seq<Snapshot>, after: seq<Snapshot>, s: PruneSummary, policy: Policy, preserved: set<string>, now: int,
                                dryRun: bool)
    requires ValidDirs(before) && PruneOutcome(before, after, s, policy, preserved, now, dryRun)
    requires policy.maxSnapshotsPerRepo >= 0 ==> forall w :: |Filter(SnapshotsOf(w, {}, false), before)| <= policy.maxSnapshotsPerRepo
    requires policy.maxAgeDays >= 0 ==> forall d :: d in before && d.hasMeta && d.worktree + "/" + d.name !in preserved ==>
      d.createdAt >= now - policy.maxAgeDays * 24 * 60 * 60 * 1_000_000
    requires policy.maxTotalBytes >= 0 ==> TotalSize(before) <= policy.maxTotalBytes
    ensures s.pruned == 0 && s.bytesAfter == s.bytesBefore
  {
    var entries := EntriesOf(before, preserved);
    hide *;
    SummaryFacts(before, after, s, policy, preserved, now, dryRun);
    DirsWithinLimits(before, policy, preserved, now);
    WithinBothIsRetained(entries, policy, now);
    SameLength(RetainTwoLevel(entries, policy, now), entries);
    BytesOfPermutation(RetainTwoLevel(entries, policy, now), entries);
  }
}
