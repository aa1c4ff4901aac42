/** The loops of the archive retention planner, proved to compute the closed form `Retain`. */
module RetentionPlanner {
  import opened Sequences
  import opened Retention

  function InAge(cutoff: int): Entry -> bool {
    (e: Entry) => e.preserve || e.createdAt >= cutoff
  }

  /** `next((c for c in reversed(kept) if not c.preserve), None)` */
  function LastLoose(s: seq<Entry>): Option<Entry> {
    if s == [] then None
    else if !s[|s| - 1].preserve then Some(s[|s| - 1])
    else LastLoose(s[..|s| - 1])
  }

  /** `list.remove` */
  function RemoveFirst(s: seq<Entry>, e: Entry): seq<Entry>
    requires e in s
  {
    if s[0] == e then s[1..] else [s[0]] + RemoveFirst(s[1..], e)
  }

  lemma {:induction false} RemoveFirstMultiset(s: seq<Entry>, e: Entry)
    requires e in s
    ensures multiset(RemoveFirst(s, e)) + multiset{e} == multiset(s)
  {
    assert s == [s[0]] + s[1..];
    if s[0] != e { RemoveFirstMultiset(s[1..], e); }
  }

  lemma {:induction false} RemoveFirstBytes(s: seq<Entry>, e: Entry)
    requires e in s
    ensures Bytes(RemoveFirst(s, e)) + e.size == Bytes(s)
  {
    if s[0] != e { RemoveFirstBytes(s[1..], e); }
  }

  lemma {:induction false} LastLooseIs(s: seq<Entry>)
    ensures LastLoose(s) == if Loose(s) == [] then None else Some(Loose(s)[|Loose(s)| - 1])
  {
    if s != [] {
      var n := |s| - 1;
      assert s == s[..n] + [s[n]];
      FilterAppend(IsLoose, s[..n], [s[n]]);
      LastLooseIs(s[..n]);
    }
  }

  lemma RemoveFirstCons(x: Entry, t: seq<Entry>, e: Entry)
    requires e in t && x != e
    ensures RemoveFirst([x] + t, e) == [x] + RemoveFirst(t, e)
  {
    assert ([x] + t)[1..] == t;
  }

  /** Removing the last kept loose entry gives up exactly one place of the prefix. */
  lemma {:induction false} EvictOldest(s: seq<Entry>, c: nat)
    requires DistinctKeys(s) && 0 < c <= |Loose(s)|
    ensures Loose(s)[c - 1] in KeepFirst(s, c)
    ensures RemoveFirst(KeepFirst(s, c), Loose(s)[c - 1]) == KeepFirst(s, c - 1)
  {
    var e := Loose(s)[c - 1];
    LooseMembers(s[1..]);
    if s[0].preserve {
      EvictOldest(s[1..], c);
      RemoveFirstCons(s[0], KeepFirst(s[1..], c), e);
    } else if c == 1 {
      assert KeepFirst(s, c)[1..] == KeepFirst(s[1..], 0);
    } else {
      EvictOldest(s[1..], c - 1);
      assert e == Loose(s[1..])[c - 2] && e in s[1..];
      RemoveFirstCons(s[0], KeepFirst(s[1..], c - 1), e);
    }
  }

  /** s is newest first and its first a loose entries, and no others, are at or after the cutoff. */
  ghost predicate AgeSplit(s: seq<Entry>, cutoff: int, a: nat) {
    && a <= |Loose(s)|
    && (forall i :: 0 <= i < a ==> Loose(s)[i].createdAt >= cutoff)
    && (forall i :: a <= i < |Loose(s)| ==> Loose(s)[i].createdAt < cutoff)
  }

  lemma LooseAllOld(s: seq<Entry>, cutoff: int)
    requires Sorted(NewerOrSame, s) && s != [] && s[0].createdAt < cutoff
    ensures AgeSplit(s, cutoff, 0)
  {
    forall i | 0 <= i < |Loose(s)| ensures Loose(s)[i].createdAt < cutoff {
      FilterMembers(IsLoose, s);
      assert Loose(s)[i] in s;
      var j :| 0 <= j < |s| && s[j] == Loose(s)[i];
      assert j == 0 || NewerOrSame(s[0], s[j]);
    }
  }

  lemma {:induction false} AgeSplits(s: seq<Entry>, cutoff: int) returns (a: nat)
    requires Sorted(NewerOrSame, s)
    ensures AgeSplit(s, cutoff, a)
  {
    if s == [] {
      a := 0;
    } else if !s[0].preserve && s[0].createdAt < cutoff {
      LooseAllOld(s, cutoff);
      a := 0;
    } else {
      a := AgeSplits(s[1..], cutoff);
      if !s[0].preserve { a := a + 1; }
    }
  }

  lemma {:induction false} AgeIsPrefix(s: seq<Entry>, cutoff: int, a: nat)
    requires AgeSplit(s, cutoff, a)
    ensures Filter(InAge(cutoff), s) == KeepFirst(s, a)
  {
    if s == [] {
    } else if s[0].preserve {
      AgeIsPrefix(s[1..], cutoff, a);
    } else {
      assert Loose(s)[0] == s[0] && Loose(s)[1..] == Loose(s[1..]);
      forall i | 0 <= i < |Loose(s[1..])| ensures Loose(s[1..])[i] == Loose(s)[i + 1] {}
      AgeIsPrefix(s[1..], cutoff, Max(a - 1, 0));
    }
  }

  lemma AgeStageIsRetain(s: seq<Entry>, cutoff: int)
    requires Sorted(NewerOrSame, s)
    ensures Filter(InAge(cutoff), s) == Retain(s, Bounds(None, Some(cutoff), None))
  {
    var a := AgeSplits(s, cutoff);
    AgeIsPrefix(s, cutoff, a);
    SortOfSorted(NewerOrSame, s);
    if a < |Loose(s)| { assert Loose(s)[a].createdAt < cutoff; }
    LongestFitIs(s, Bounds(None, Some(cutoff), None), a);
  }

  lemma AgeStep(p: seq<Entry>, e: Entry, cutoff: int, kept: seq<Entry>, pruned: seq<Entry>)
    requires kept == Filter(InAge(cutoff), p) && multiset(kept) + multiset(pruned) == multiset(p)
    ensures !e.preserve && e.createdAt < cutoff ==>
      kept == Filter(InAge(cutoff), p + [e]) && multiset(kept) + multiset(pruned + [e]) == multiset(p + [e])
    ensures e.preserve || e.createdAt >= cutoff ==>
      kept + [e] == Filter(InAge(cutoff), p + [e]) && multiset(kept + [e]) + multiset(pruned) == multiset(p + [e])
  {
    FilterAppend(InAge(cutoff), p, [e]);
  }

  method AgeStage(s: seq<Entry>, cutoff: int) returns (kept: seq<Entry>, pruned: seq<Entry>)
    ensures kept == Filter(InAge(cutoff), s)
    ensures multiset(kept) + multiset(pruned) == multiset(s)
  {
    kept, pruned := [], [];
    for i := 0 to |s|
      invariant kept == Filter(InAge(cutoff), s[..i])
      invariant multiset(kept) + multiset(pruned) == multiset(s[..i])
    {
      hide *;
      assert s[..i + 1] == s[..i] + [s[i]];
      AgeStep(s[..i], s[i], cutoff, kept, pruned);
      if !s[i].preserve && s[i].createdAt < cutoff {
        pruned := pruned + [s[i]];
        continue;
      }
      kept := kept + [s[i]];
    }
    assert s[..|s|] == s;
  }

  /** Loose entries the count limit leaves: the preserved ones are counted first. */
  function CountLimit(n: nat, held: nat, maxKeep: nat): int {
    Max(Min(maxKeep, n), held) - held
  }

  /** No entry of `whole` is lost or duplicated between kept and pruned. */
  ghost predicate Conserved(kept: seq<Entry>, pruned: seq<Entry>, whole: seq<Entry>) {
    multiset(kept) + multiset(pruned) == multiset(whole)
  }

  lemma KeepConserves(kept: seq<Entry>, pruned: seq<Entry>, whole: seq<Entry>, e: Entry)
    requires Conserved(kept, pruned, whole)
    ensures Conserved(kept + [e], pruned, whole + [e])
  {
  }

  lemma PruneConserves(kept: seq<Entry>, pruned: seq<Entry>, whole: seq<Entry>, e: Entry)
    requires Conserved(kept, pruned, whole)
    ensures Conserved(kept, pruned + [e], whole + [e])
  {
  }

  lemma EvictConserves(kept: seq<Entry>, pruned: seq<Entry>, whole: seq<Entry>, x: Entry)
    requires Conserved(kept, pruned, whole) && x in kept
    ensures Conserved(RemoveFirst(kept, x), pruned + [x], whole)
  {
    RemoveFirstMultiset(kept, x);
    assert multiset(pruned + [x]) == multiset(pruned) + multiset{x};
  }

  lemma ConservedIs(kept: seq<Entry>, pruned: seq<Entry>, whole: seq<Entry>)
    ensures Conserved(kept, pruned, whole) == (multiset(kept) + multiset(pruned) == multiset(whole))
  {
  }

  /** The state of the count loop after the entries in p: c loose ones kept, by the count limit. */
  ghost predicate Counted(p: seq<Entry>, maxKeep: nat, c: nat, kept: seq<Entry>) {
    && c == CountLimit(|p|, |Held(p)|, maxKeep)
    && c <= |Loose(p)|
    && kept == KeepFirst(p, c)
  }

  lemma CountedSize(p: seq<Entry>, maxKeep: nat, c: nat, kept: seq<Entry>)
    requires Counted(p, maxKeep, c, kept)
    ensures c == |Loose(kept)|
    ensures |kept| == Max(Min(maxKeep, |p|), |Held(p)|)
    ensures Held(kept) == Held(p) && Loose(kept) == Loose(p)[..c] && Loose(kept) <= Loose(p)
  {
    KeepFirstParts(p, c);
  }

  lemma CountStart(maxKeep: nat)
    ensures Counted([], maxKeep, 0, [])
    ensures Conserved([], [], [])
  {
  }

  lemma PartsAppend(p: seq<Entry>, e: Entry)
    ensures Loose(p + [e]) == if e.preserve then Loose(p) else Loose(p) + [e]
    ensures Held(p + [e]) == if e.preserve then Held(p) + [e] else Held(p)
  {
    FilterAppend(IsLoose, p, [e]);
    FilterAppend(IsHeld, p, [e]);
  }

  lemma CountRoom(p: seq<Entry>, e: Entry, maxKeep: nat, c: nat, kept: seq<Entry>) returns (c': nat)
    requires Counted(p, maxKeep, c, kept) && |kept| < maxKeep
    ensures Counted(p + [e], maxKeep, c', kept + [e])
  {
    c' := |Loose(p + [e])|;
    CountedSize(p, maxKeep, c, kept);
    CountSplit(p);
    CountSplit(p + [e]);
    PartsAppend(p, e);
    KeepFirstAll(p, c);
    KeepFirstAll(p + [e], c');
  }

  lemma CountFull(p: seq<Entry>, e: Entry, maxKeep: nat, c: nat, kept: seq<Entry>)
    requires Counted(p, maxKeep, c, kept) && |kept| >= maxKeep && !e.preserve
    ensures Counted(p + [e], maxKeep, c, kept)
  {
    CountedSize(p, maxKeep, c, kept);
    PartsAppend(p, e);
    KeepFirstAppend(p, [e], c);
  }

  lemma EvictAfterHeld(p: seq<Entry>, e: Entry, c: nat)
    requires e.preserve && c <= |Loose(p)| && DistinctKeys(p + [e])
    ensures KeepFirst(p, c) + [e] == KeepFirst(p + [e], c)
    ensures c == 0 ==> LastLoose(KeepFirst(p + [e], c)) == None
    ensures c > 0 ==>
      var x := LastLoose(KeepFirst(p + [e], c));
      x.Some? && x.value in KeepFirst(p + [e], c) && RemoveFirst(KeepFirst(p + [e], c), x.value) == KeepFirst(p + [e], c - 1)
  {
    PartsAppend(p, e);
    KeepFirstAppend(p, [e], c);
    KeepFirstParts(p + [e], c);
    LastLooseIs(KeepFirst(p + [e], c));
    if c > 0 { EvictOldest(p + [e], c); }
  }

  lemma CountEvict(p: seq<Entry>, e: Entry, maxKeep: nat, c: nat, kept: seq<Entry>)
    requires Counted(p, maxKeep, c, kept) && |kept| >= maxKeep && e.preserve
    requires DistinctKeys(p + [e])
    ensures LastLoose(kept + [e]).Some? <==> c > 0
    ensures c == 0 ==> Counted(p + [e], maxKeep, 0, kept + [e])
    ensures c > 0 ==>
      var x := LastLoose(kept + [e]).value;
      x in kept + [e] && Counted(p + [e], maxKeep, c - 1, RemoveFirst(kept + [e], x))
  {
    CountedSize(p, maxKeep, c, kept);
    EvictAfterHeld(p, e, c);
    assert |Loose(p + [e])| == |Loose(p)| && |Held(p + [e])| == |Held(p)| + 1 by { PartsAppend(p, e); }
  }

  lemma CountStageIsRetain(s: seq<Entry>, maxKeep: nat, c: nat, kept: seq<Entry>)
    requires Counted(s, maxKeep, c, kept) && Sorted(NewerOrSame, s)
    ensures kept == Retain(s, Bounds(Some(maxKeep), None, None))
  {
    CountSplit(s);
    SortOfSorted(NewerOrSame, s);
    LongestFitIs(s, Bounds(Some(maxKeep), None, None), c);
  }

  method CountStage(s: seq<Entry>, maxKeep: nat) returns (kept: seq<Entry>, pruned: seq<Entry>)
    requires DistinctKeys(s)
    ensures |kept| == Max(Min(maxKeep, |s|), |Held(s)|)
    ensures Held(kept) == Held(s) && Loose(kept) <= Loose(s)
    ensures Counted(s, maxKeep, |Loose(kept)|, kept)
    ensures multiset(kept) + multiset(pruned) == multiset(s)
  {
    hide *;
    CountStart(maxKeep);
    assert s[..0] == [];
    kept, pruned := [], [];
    ghost var c: nat := 0;
    for i := 0 to |s|
      invariant Counted(s[..i], maxKeep, c, kept)
      invariant Conserved(kept, pruned, s[..i])
    {
      var e := s[i];
      assert s[..i + 1] == s[..i] + [e];
      if |kept| < maxKeep {
        c := CountRoom(s[..i], e, maxKeep, c, kept);
        KeepConserves(kept, pruned, s[..i], e);
        kept := kept + [e];
        continue;
      }
      if !e.preserve {
        CountFull(s[..i], e, maxKeep, c, kept);
        PruneConserves(kept, pruned, s[..i], e);
        pruned := pruned + [e];
        continue;
      }
      PrefixDistinct(s, i);
      CountEvict(s[..i], e, maxKeep, c, kept);
      KeepConserves(kept, pruned, s[..i], e);
      kept := kept + [e];
      var candidate := LastLoose(kept);
      if candidate.Some? {
        EvictConserves(kept, pruned, s[..i + 1], candidate.value);
        kept := RemoveFirst(kept, candidate.value);
        pruned := pruned + [candidate.value];
        c := c - 1;
      }
    }
    assert s[..|s|] == s;
    CountedSize(s, maxKeep, c, kept);
    ConservedIs(kept, pruned, s);
  }

  lemma PrefixDistinct(s: seq<Entry>, i: nat)
    requires i < |s| && DistinctKeys(s)
    ensures DistinctKeys(s[..i] + [s[i]])
  {
  }

  lemma OldestFirstReverses(s: seq<Entry>)
    requires Sorted(NewerOrSame, s) && DistinctKeys(s)
    ensures |OldestFirst(s)| == |s|
    ensures forall i :: 0 <= i < |s| ==> OldestFirst(s)[i] == s[|s| - 1 - i]
  {
    EntryOrders();
    SortPermutes(OlderOrSame, s);
    SortSorts(OlderOrSame, s);
    var r := seq(|s|, i requires 0 <= i < |s| => s[|s| - 1 - i]);
    ReversePermutes(s, r);
    forall x, y | x in OldestFirst(s) && y in OldestFirst(s) && OlderOrSame(x, y) && OlderOrSame(y, x) ensures x == y {
      assert x in s && y in s && x.key == y.key;
    }
    SortedUnique(OlderOrSame, OldestFirst(s), r);
  }

  lemma {:induction false} ReversePermutes(s: seq<Entry>, r: seq<Entry>)
    requires |r| == |s| && forall i :: 0 <= i < |s| ==> r[i] == s[|s| - 1 - i]
    ensures multiset(r) == multiset(s)
  {
    if s != [] {
      var n := |s| - 1;
      ReversePermutes(s[1..], r[..n]);
      assert s == [s[0]] + s[1..];
      assert r == r[..n] + [s[0]];
    }
  }

  /** How many of the m newest entries of s are loose. */
  ghost function LooseUpTo(s: seq<Entry>, m: nat): nat
    requires m <= |s|
  {
    if m == 0 then 0 else LooseUpTo(s, m - 1) + (if s[m - 1].preserve then 0 else 1)
  }

  lemma {:induction false} LooseUpToIs(s: seq<Entry>, m: nat)
    requires m <= |s|
    ensures LooseUpTo(s, m) == |Loose(s[..m])|
    ensures Loose(s[..m]) <= Loose(s)
  {
    if m == 0 {
      assert s[..0] == [];
    } else {
      LooseUpToIs(s, m - 1);
      assert s[..m] == s[..m - 1] + [s[m - 1]];
      PartsAppend(s[..m - 1], s[m - 1]);
      assert s == s[..m] + s[m..];
      FilterAppend(IsLoose, s[..m], s[m..]);
    }
  }

  /** The state of the byte loop when only the m newest entries of s are still to be looked at: k
      loose ones are kept, and no longer prefix is inside the limit. */
  ghost predicate Trimmed(s: seq<Entry>, m: nat, limit: nat, k: nat, kept: seq<Entry>, keptBytes: int, pruned: seq<Entry>) {
    && m <= |s| && k == LooseUpTo(s, m) && k <= |Loose(s)|
    && kept == KeepFirst(s, k) && keptBytes == Bytes(kept)
    && (k < |Loose(s)| ==> Bytes(KeepFirst(s, k + 1)) > limit)
    && Conserved(kept, pruned, s)
  }

  lemma LooseAt(s: seq<Entry>, m: nat)
    requires m < |s| && !s[m].preserve
    ensures LooseUpTo(s, m) < |Loose(s)| && Loose(s)[LooseUpTo(s, m)] == s[m]
  {
    hide *;
    LooseUpToIs(s, m);
    LooseUpToIs(s, m + 1);
    assert s[..m + 1] == s[..m] + [s[m]];
    PartsAppend(s[..m], s[m]);
  }

  lemma TrimHeld(s: seq<Entry>, m: nat, limit: nat, k: nat, kept: seq<Entry>, keptBytes: int, pruned: seq<Entry>, e: Entry)
    requires m < |s| && Trimmed(s, m + 1, limit, k, kept, keptBytes, pruned)
    requires e == s[m] && e.preserve
    ensures Trimmed(s, m, limit, k, kept, keptBytes, pruned)
  {
  }

  lemma TrimLoose(s: seq<Entry>, m: nat, limit: nat, k: nat, kept: seq<Entry>, keptBytes: int, pruned: seq<Entry>, e: Entry)
    requires m < |s| && Trimmed(s, m + 1, limit, k, kept, keptBytes, pruned)
    requires DistinctKeys(s) && keptBytes > limit && e == s[m] && !e.preserve
    ensures k > 0 && e in kept
    ensures Trimmed(s, m, limit, k - 1, RemoveFirst(kept, e), keptBytes - e.size, pruned + [e])
  {
    LooseAt(s, m);
    EvictOldest(s, k);
    RemoveFirstMultiset(kept, e);
    RemoveFirstBytes(kept, e);
    EvictConserves(kept, pruned, s, e);
  }

  lemma TrimStart(s: seq<Entry>, limit: nat)
    ensures Trimmed(s, |s|, limit, |Loose(s)|, s, Bytes(s), [])
  {
    KeepFirstAll(s, |Loose(s)|);
    LooseUpToIs(s, |s|);
    assert s[..|s|] == s;
  }

  /** What the byte loop leaves: the longest fitting prefix. */
  ghost predicate FitsBudget(s: seq<Entry>, limit: nat, k: nat, kept: seq<Entry>) {
    && k <= |Loose(s)| && kept == KeepFirst(s, k)
    && (k == 0 || Bytes(kept) <= limit)
    && (k < |Loose(s)| ==> Bytes(KeepFirst(s, k + 1)) > limit)
  }

  lemma TrimEnd(s: seq<Entry>, m: nat, limit: nat, k: nat, kept: seq<Entry>, keptBytes: int, pruned: seq<Entry>)
    requires Trimmed(s, m, limit, k, kept, keptBytes, pruned)
    requires m == 0 || keptBytes <= limit
    ensures FitsBudget(s, limit, k, kept)
    ensures multiset(kept) + multiset(pruned) == multiset(s)
  {
  }

  /** `order` is s from its oldest entry on. */
  method ByteLoop(s: seq<Entry>, order: seq<Entry>, maxTotalBytes: nat) returns (kept: seq<Entry>, pruned: seq<Entry>, ghost k: nat)
    requires DistinctKeys(s)
    requires |order| == |s| && forall i :: 0 <= i < |s| ==> order[i] == s[|s| - 1 - i]
    ensures FitsBudget(s, maxTotalBytes, k, kept)
    ensures multiset(kept) + multiset(pruned) == multiset(s)
  {
    hide *;
    kept, pruned := s, [];
    var keptBytes: int := Bytes(s);
    k := |Loose(s)|;
    TrimStart(s, maxTotalBytes);
    ghost var m := |s|;
    for i := 0 to |order|
      invariant m == |s| - i
      invariant Trimmed(s, m, maxTotalBytes, k, kept, keptBytes, pruned)
    {
      if keptBytes <= maxTotalBytes { break; }
      m := m - 1;
      var e := order[i];
      if e.preserve {
        TrimHeld(s, m, maxTotalBytes, k, kept, keptBytes, pruned, e);
        continue;
      }
      TrimLoose(s, m, maxTotalBytes, k, kept, keptBytes, pruned, e);
      kept := RemoveFirst(kept, e);
      pruned := pruned + [e];
      keptBytes := keptBytes - e.size;
      k := k - 1;
    }
    TrimEnd(s, m, maxTotalBytes, k, kept, keptBytes, pruned);
  }

  method ByteStage(s: seq<Entry>, maxTotalBytes: nat) returns (kept: seq<Entry>, pruned: seq<Entry>)
    requires Sorted(NewerOrSame, s) && DistinctKeys(s)
    ensures kept == Retain(s, Bounds(None, None, Some(maxTotalBytes)))
    ensures multiset(kept) + multiset(pruned) == multiset(s)
  {
    hide *;
    OldestFirstReverses(s);
    ghost var k;
    kept, pruned, k := ByteLoop(s, OldestFirst(s), maxTotalBytes);
    ByteStageIsRetain(s, maxTotalBytes, k, kept);
  }

  lemma ByteStageIsRetain(s: seq<Entry>, maxTotalBytes: nat, k: nat, kept: seq<Entry>)
    requires Sorted(NewerOrSame, s) && FitsBudget(s, maxTotalBytes, k, kept)
    ensures kept == Retain(s, Bounds(None, None, Some(maxTotalBytes)))
  {
    SortOfSorted(NewerOrSame, s);
    LongestFitIs(s, Bounds(None, None, Some(maxTotalBytes)), k);
  }

  /** `_compute_pruned_entries`: the three stages compute the closed form. */
  method ComputePrunedEntries(entries: seq<Entry>, maxKeep: int, maxAgeDays: int, maxTotalBytes: int, now: int)
    returns (kept: seq<Entry>, pruned: seq<Entry>)
    requires DistinctKeys(entries)
    ensures kept == Retain(entries, BoundsOf(maxKeep, maxAgeDays, maxTotalBytes, now))
    ensures multiset(kept) + multiset(pruned) == multiset(entries)
  {
    ghost var b := BoundsOf(maxKeep, maxAgeDays, maxTotalBytes, now);
    if entries == [] { return [], []; }
    var s := NewestFirst(entries);
    var cutoff := now - maxAgeDays * DAY;
    ghost var age, count, bytes := OnlyAge(b), OnlyCount(b), OnlyBytes(b);
    assert age == if maxAgeDays >= 0 then Bounds(None, Some(cutoff), None) else Bounds(None, None, None);
    assert count == if maxKeep >= 0 then Bounds(Some(maxKeep), None, None) else Bounds(None, None, None);
    assert bytes == if maxTotalBytes >= 0 then Bounds(None, None, Some(maxTotalBytes)) else Bounds(None, None, None);
    StageOrderIrrelevant(s, b);
    hide *;
    NewestFirstFacts(entries);
    RetainSorted(entries, b);
    kept, pruned := s, [];
    RetainUnbounded(s);
    if maxAgeDays >= 0 {
      AgeStageIsRetain(s, cutoff);
      kept, pruned := AgeStage(s, cutoff);
    }
    ghost var t := kept;
    assert t == Retain(s, age);
    RetainKeepsShape(s, age);
    RetainUnbounded(t);
    if maxKeep >= 0 {
      var lost;
      kept, lost := CountStage(kept, maxKeep);
      CountStageIsRetain(t, maxKeep, |Loose(kept)|, kept);
      Accumulate(t, kept, lost, pruned, s);
      pruned := pruned + lost;
    }
    ghost var u := kept;
    assert u == Retain(t, count);
    RetainKeepsShape(t, count);
    RetainUnbounded(u);
    if maxTotalBytes >= 0 {
      var lost;
      kept, lost := ByteStage(kept, maxTotalBytes);
      Accumulate(u, kept, lost, pruned, s);
      pruned := pruned + lost;
    }
    assert kept == Retain(u, bytes);
  }

  lemma Accumulate(stage: seq<Entry>, kept: seq<Entry>, lost: seq<Entry>, pruned: seq<Entry>, whole: seq<Entry>)
    requires multiset(kept) + multiset(lost) == multiset(stage)
    requires multiset(stage) + multiset(pruned) == multiset(whole)
    ensures multiset(kept) + multiset(pruned + lost) == multiset(whole)
  {
  }
}
