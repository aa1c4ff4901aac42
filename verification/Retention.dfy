/** Archive retention: which entries an age, count and byte limit leave standing, as one closed form. */
module Retention {
  import opened Sequences
  import opened Text

  /** One day of the clock, which counts microseconds. */
  const DAY: int := 86_400_000_000

  datatype Entry = Entry(key: string, createdAt: int, size: nat, preserve: bool)

  /** Limits with "negative means off" already resolved and the age turned into a cutoff. */
  datatype Bounds = Bounds(keep: Option<int>, cutoff: Option<int>, bytes: Option<int>)

  function BoundsOf(maxKeep: int, maxAgeDays: int, maxTotalBytes: int, now: int): Bounds {
    Bounds(
      if maxKeep >= 0 then Some(maxKeep) else None,
      if maxAgeDays >= 0 then Some(now - maxAgeDays * DAY) else None,
      if maxTotalBytes >= 0 then Some(maxTotalBytes) else None)
  }

  ghost predicate DistinctKeys(s: seq<Entry>) {
    forall i, j :: 0 <= i < j < |s| ==> s[i].key != s[j].key
  }

  // ---- The order of entries --------------------------------------------------

  predicate NewerOrSame(a: Entry, b: Entry) {
    a.createdAt > b.createdAt || (a.createdAt == b.createdAt && LexLe(b.key, a.key))
  }

  predicate OlderOrSame(a: Entry, b: Entry) {
    NewerOrSame(b, a)
  }

  function NewestFirst(s: seq<Entry>): seq<Entry> { SortBy(NewerOrSame, s) }

  function OldestFirst(s: seq<Entry>): seq<Entry> { SortBy(OlderOrSame, s) }

  lemma EntryOrders()
    ensures TotalPreorder(NewerOrSame) && TotalPreorder(OlderOrSame)
    ensures forall a, b :: NewerOrSame(a, b) && NewerOrSame(b, a) && a.key == b.key ==> a.createdAt == b.createdAt
    ensures forall a, b :: NewerOrSame(a, b) && NewerOrSame(b, a) ==> a.key == b.key
  {
    LexIsOrder();
  }

  // ---- Preserved and loose entries -------------------------------------------

  predicate IsLoose(e: Entry) { !e.preserve }

  predicate IsHeld(e: Entry) { e.preserve }

  function Loose(s: seq<Entry>): seq<Entry> { Filter(IsLoose, s) }

  function Held(s: seq<Entry>): seq<Entry> { Filter(IsHeld, s) }

  function Bytes(s: seq<Entry>): nat {
    if s == [] then 0 else s[0].size + Bytes(s[1..])
  }

  /** Every preserved entry and the first k loose ones, in place. */
  function KeepFirst(s: seq<Entry>, k: nat): seq<Entry> {
    if s == [] then []
    else if s[0].preserve then [s[0]] + KeepFirst(s[1..], k)
    else if k > 0 then [s[0]] + KeepFirst(s[1..], k - 1)
    else KeepFirst(s[1..], 0)
  }

  /** Keeping the first k loose entries of s respects every limit that is on. */
  ghost predicate Fits(s: seq<Entry>, k: nat, b: Bounds)
    requires k <= |Loose(s)|
  {
    && (b.cutoff.Some? ==> forall i :: 0 <= i < k ==> Loose(s)[i].createdAt >= b.cutoff.value)
    && (b.keep.Some? ==> k + |Held(s)| <= b.keep.value)
    && (b.bytes.Some? ==> Bytes(KeepFirst(s, k)) <= b.bytes.value)
  }

  /** The longest prefix of the loose entries that fits, and none if no prefix does. */
  ghost function LongestFit(s: seq<Entry>, b: Bounds, limit: nat): (k: nat)
    requires limit <= |Loose(s)|
    ensures k <= limit
    ensures k == 0 || Fits(s, k, b)
    ensures forall j :: k < j <= limit ==> !Fits(s, j, b)
  {
    if limit == 0 || Fits(s, limit, b) then limit else LongestFit(s, b, limit - 1)
  }

  /** The closed form: all preserved entries plus the longest newest-first prefix of the others
      that is inside every limit. */
  ghost function Retain(entries: seq<Entry>, b: Bounds): seq<Entry> {
    var s := NewestFirst(entries);
    KeepFirst(s, LongestFit(s, b, |Loose(s)|))
  }

  // ---- Facts about KeepFirst --------------------------------------------------

  lemma {:induction false} BytesAppend(a: seq<Entry>, b: seq<Entry>)
    ensures Bytes(a + b) == Bytes(a) + Bytes(b)
  {
    if a == [] {
      assert a + b == b;
    } else {
      BytesAppend(a[1..], b);
      assert (a + b)[1..] == a[1..] + b;
    }
  }

  lemma TakeOut(s: seq<Entry>, e: Entry) returns (rest: seq<Entry>)
    requires e in s
    ensures |rest| == |s| - 1
    ensures multiset(rest) == multiset(s) - multiset{e}
    ensures Bytes(s) == e.size + Bytes(rest)
  {
    var i := Position(s, e);
    rest := s[..i] + s[i + 1..];
    MultisetWithout(s, i);
    assert s == s[..i] + ([e] + s[i + 1..]);
    BytesAppend(s[..i], [e] + s[i + 1..]);
    BytesAppend(s[..i], s[i + 1..]);
    assert ([e] + s[i + 1..])[1..] == s[i + 1..];
  }

  lemma {:induction false} BytesOfPermutation(a: seq<Entry>, b: seq<Entry>)
    requires multiset(a) == multiset(b)
    ensures Bytes(a) == Bytes(b)
    decreases |a|
  {
    SameLength(a, b);
    if a != [] {
      hide *;
      SameMembers(a, b);
      var x := TakeOut(a, a[0]);
      var y := TakeOut(b, a[0]);
      BytesOfPermutation(x, y);
    }
  }

  lemma {:induction false} CountSplit(s: seq<Entry>)
    ensures |Loose(s)| + |Held(s)| == |s|
  {
    if s != [] { CountSplit(s[1..]); }
  }

  lemma {:induction false} KeepFirstParts(s: seq<Entry>, k: nat)
    ensures Loose(KeepFirst(s, k)) == Loose(s)[..Min(k, |Loose(s)|)]
    ensures Held(KeepFirst(s, k)) == Held(s)
    ensures |KeepFirst(s, k)| == Min(k, |Loose(s)|) + |Held(s)|
    ensures forall e :: e in KeepFirst(s, k) ==> e in s
  {
    if s != [] { KeepFirstParts(s[1..], if !s[0].preserve && k > 0 then k - 1 else k); }
  }

  lemma KeepFirstCons(x: Entry, t: seq<Entry>, k: nat)
    ensures KeepFirst([x] + t, k) ==
      if x.preserve then [x] + KeepFirst(t, k) else if k > 0 then [x] + KeepFirst(t, k - 1) else KeepFirst(t, 0)
  {
    assert ([x] + t)[1..] == t;
  }

  lemma {:induction false} KeepFirstTwice(s: seq<Entry>, j: nat, k: nat)
    ensures KeepFirst(KeepFirst(s, j), k) == KeepFirst(s, Min(j, k))
  {
    if s == [] {
    } else if s[0].preserve {
      KeepFirstTwice(s[1..], j, k);
      KeepFirstCons(s[0], KeepFirst(s[1..], j), k);
    } else if j > 0 {
      KeepFirstTwice(s[1..], j - 1, if k > 0 then k - 1 else 0);
      KeepFirstCons(s[0], KeepFirst(s[1..], j - 1), k);
    } else {
      KeepFirstTwice(s[1..], 0, k);
    }
  }

  lemma {:induction false} KeepFirstAll(s: seq<Entry>, k: nat)
    requires |Loose(s)| <= k
    ensures KeepFirst(s, k) == s
  {
    if s == [] {
    } else if s[0].preserve {
      KeepFirstAll(s[1..], k);
    } else {
      KeepFirstAll(s[1..], k - 1);
    }
  }

  lemma {:induction false} KeepFirstAppend(a: seq<Entry>, b: seq<Entry>, k: nat)
    ensures KeepFirst(a + b, k) == KeepFirst(a, k) + KeepFirst(b, Max(k - |Loose(a)|, 0))
  {
    if a == [] {
      assert a + b == b;
    } else {
      assert (a + b)[1..] == a[1..] + b;
      KeepFirstAppend(a[1..], b, if !a[0].preserve && k > 0 then k - 1 else k);
    }
  }

  lemma {:induction false} KeepFirstSorted(s: seq<Entry>, k: nat)
    requires Sorted(NewerOrSame, s)
    ensures Sorted(NewerOrSame, KeepFirst(s, k))
  {
    if s != [] {
      var k' := if !s[0].preserve && k > 0 then k - 1 else k;
      KeepFirstSorted(s[1..], k');
      KeepFirstParts(s[1..], k');
      var rest := KeepFirst(s[1..], k');
      forall j | 0 <= j < |rest| ensures NewerOrSame(s[0], rest[j]) { assert rest[j] in s[1..]; }
    }
  }

  lemma {:induction false} KeepFirstDistinct(s: seq<Entry>, k: nat)
    requires DistinctKeys(s)
    ensures DistinctKeys(KeepFirst(s, k))
  {
    if s != [] {
      var k' := if !s[0].preserve && k > 0 then k - 1 else k;
      KeepFirstDistinct(s[1..], k');
      KeepFirstParts(s[1..], k');
      var rest := KeepFirst(s[1..], k');
      forall j | 0 <= j < |rest| ensures s[0].key != rest[j].key { assert rest[j] in s[1..]; }
    }
  }

  lemma {:induction false} KeepFirstBytesGrow(s: seq<Entry>, j: nat, k: nat)
    requires j <= k
    ensures Bytes(KeepFirst(s, j)) <= Bytes(KeepFirst(s, k))
  {
    if s == [] {
    } else if s[0].preserve {
      KeepFirstBytesGrow(s[1..], j, k);
    } else if j > 0 {
      KeepFirstBytesGrow(s[1..], j - 1, k - 1);
    } else {
      KeepFirstBytesGrow(s[1..], 0, if k > 0 then k - 1 else 0);
    }
  }

  lemma FitsShorter(s: seq<Entry>, j: nat, k: nat, b: Bounds)
    requires j <= k <= |Loose(s)| && Fits(s, k, b)
    ensures Fits(s, j, b)
  {
    KeepFirstBytesGrow(s, j, k);
  }

  /** Whether a prefix fits does not depend on the loose entries after it. */
  lemma FitsInPrefix(s: seq<Entry>, m: nat, k: nat, b: Bounds)
    requires k <= m <= |Loose(s)|
    ensures |Loose(KeepFirst(s, m))| == m
    ensures Fits(KeepFirst(s, m), k, b) == Fits(s, k, b)
  {
    KeepFirstParts(s, m);
    KeepFirstTwice(s, m, k);
    assert forall i :: 0 <= i < k ==> Loose(KeepFirst(s, m))[i] == Loose(s)[i];
  }

  lemma LongestFitIs(s: seq<Entry>, b: Bounds, k: nat)
    requires k <= |Loose(s)|
    requires k == 0 || Fits(s, k, b)
    requires k == |Loose(s)| || !Fits(s, k + 1, b)
    ensures LongestFit(s, b, |Loose(s)|) == k
  {
    var m := LongestFit(s, b, |Loose(s)|);
    if m > k { FitsShorter(s, k + 1, m, b); }
  }

  lemma NewestFirstFacts(s: seq<Entry>)
    ensures Sorted(NewerOrSame, NewestFirst(s))
    ensures multiset(NewestFirst(s)) == multiset(s) && |NewestFirst(s)| == |s|
    ensures forall e :: e in NewestFirst(s) <==> e in s
    ensures DistinctKeys(s) ==> DistinctKeys(NewestFirst(s))
  {
    EntryOrders();
    SortSorts(NewerOrSame, s);
    SortPermutes(NewerOrSame, s);
    if DistinctKeys(s) { DistinctByPermutation(s, NewestFirst(s)); }
  }

  lemma {:induction false} DistinctOnce(s: seq<Entry>, e: Entry)
    requires DistinctKeys(s)
    ensures multiset(s)[e] <= 1
  {
    if s != [] {
      assert s == [s[0]] + s[1..];
      DistinctOnce(s[1..], e);
      assert s[0] !in s[1..];
    }
  }

  lemma RepeatedTwice(s: seq<Entry>, i: nat, j: nat)
    requires i < j < |s| && s[i] == s[j]
    ensures multiset(s)[s[i]] >= 2
  {
    assert s == s[..j] + s[j..];
    assert s[..j][i] in multiset(s[..j]) && s[j..][0] in multiset(s[j..]);
  }

  lemma DistinctByPermutation(a: seq<Entry>, b: seq<Entry>)
    requires DistinctKeys(a) && multiset(a) == multiset(b)
    ensures DistinctKeys(b)
  {
    SameMembers(a, b);
    forall i, j | 0 <= i < j < |b| ensures b[i].key != b[j].key {
      assert b[i] in a && b[j] in a;
      if b[i] == b[j] {
        RepeatedTwice(b, i, j);
        DistinctOnce(a, b[i]);
      }
    }
  }

  // ---- What the closed form guarantees ---------------------------------------

  /** The limits in force when both a and b are. */
  function Both(a: Bounds, b: Bounds): Bounds {
    Bounds(
      if a.keep.None? then b.keep else if b.keep.None? then a.keep else Some(Min(a.keep.value, b.keep.value)),
      if a.cutoff.None? then b.cutoff else if b.cutoff.None? then a.cutoff else Some(Max(a.cutoff.value, b.cutoff.value)),
      if a.bytes.None? then b.bytes else if b.bytes.None? then a.bytes else Some(Min(a.bytes.value, b.bytes.value)))
  }

  lemma FitsBoth(s: seq<Entry>, k: nat, a: Bounds, b: Bounds)
    requires k <= |Loose(s)|
    ensures Fits(s, k, Both(a, b)) == (Fits(s, k, a) && Fits(s, k, b))
  {
  }

  /** Pruning in two steps is pruning once under both sets of limits. Stage order, idempotence and
      monotonicity are all instances. */
  lemma RetainTwice(entries: seq<Entry>, a: Bounds, b: Bounds)
    ensures Retain(Retain(entries, a), b) == Retain(entries, Both(a, b))
  {
    var s := NewestFirst(entries);
    NewestFirstFacts(entries);
    var n := |Loose(s)|;
    var m := LongestFit(s, a, n);
    var t := KeepFirst(s, m);
    KeepFirstSorted(s, m);
    SortOfSorted(NewerOrSame, t);
    KeepFirstParts(s, m);
    var k := LongestFit(t, b, m);
    KeepFirstTwice(s, m, k);
    if k > 0 {
      FitsInPrefix(s, m, k, b);
      FitsShorter(s, k, m, a);
      FitsBoth(s, k, a, b);
    }
    if k < n {
      FitsBoth(s, k + 1, a, b);
      if k < m { FitsInPrefix(s, m, k + 1, b); }
    }
    LongestFitIs(s, Both(a, b), k);
  }

  /** Running the same prune again removes nothing. */
  lemma RetainIdempotent(entries: seq<Entry>, b: Bounds)
    ensures Retain(Retain(entries, b), b) == Retain(entries, b)
  {
    RetainTwice(entries, b, b);
    assert Both(b, b) == b;
  }

  function OnlyAge(b: Bounds): Bounds { Bounds(None, b.cutoff, None) }

  function OnlyCount(b: Bounds): Bounds { Bounds(b.keep, None, None) }

  function OnlyBytes(b: Bounds): Bounds { Bounds(None, None, b.bytes) }

  /** The three stages may run in any order. */
  lemma StageOrderIrrelevant(entries: seq<Entry>, b: Bounds)
    ensures Retain(Retain(Retain(entries, OnlyAge(b)), OnlyCount(b)), OnlyBytes(b)) == Retain(entries, b)
    ensures Retain(Retain(Retain(entries, OnlyAge(b)), OnlyBytes(b)), OnlyCount(b)) == Retain(entries, b)
    ensures Retain(Retain(Retain(entries, OnlyCount(b)), OnlyAge(b)), OnlyBytes(b)) == Retain(entries, b)
    ensures Retain(Retain(Retain(entries, OnlyCount(b)), OnlyBytes(b)), OnlyAge(b)) == Retain(entries, b)
    ensures Retain(Retain(Retain(entries, OnlyBytes(b)), OnlyAge(b)), OnlyCount(b)) == Retain(entries, b)
    ensures Retain(Retain(Retain(entries, OnlyBytes(b)), OnlyCount(b)), OnlyAge(b)) == Retain(entries, b)
  {
    var x, y, z := OnlyAge(b), OnlyCount(b), OnlyBytes(b);
    RetainTwice(entries, x, y); RetainTwice(entries, Both(x, y), z);
    RetainTwice(entries, x, z); RetainTwice(entries, Both(x, z), y);
    RetainTwice(entries, y, x); RetainTwice(entries, Both(y, x), z);
    RetainTwice(entries, y, z); RetainTwice(entries, Both(y, z), x);
    RetainTwice(entries, z, x); RetainTwice(entries, Both(z, x), y);
    RetainTwice(entries, z, y); RetainTwice(entries, Both(z, y), x);
  }

  /** b is at least as strict as a on every limit; a later clock makes a stricter cutoff. */
  predicate Tighter(a: Bounds, b: Bounds) {
    && (a.keep.Some? ==> b.keep.Some? && b.keep.value <= a.keep.value)
    && (a.cutoff.Some? ==> b.cutoff.Some? && b.cutoff.value >= a.cutoff.value)
    && (a.bytes.Some? ==> b.bytes.Some? && b.bytes.value <= a.bytes.value)
  }

  /** A later clock or a tighter limit never keeps an entry the looser run pruned. */
  lemma RetainMonotone(entries: seq<Entry>, a: Bounds, b: Bounds)
    requires Tighter(a, b)
    ensures forall e :: e in Retain(entries, b) ==> e in Retain(entries, a)
  {
    assert Both(a, b) == b;
    RetainTwice(entries, a, b);
    var s := NewestFirst(Retain(entries, a));
    NewestFirstFacts(Retain(entries, a));
    KeepFirstParts(s, LongestFit(s, b, |Loose(s)|));
  }

  lemma LaterClockIsTighter(maxKeep: int, maxAgeDays: int, maxTotalBytes: int, now: int, later: int)
    requires now <= later
    ensures Tighter(BoundsOf(maxKeep, maxAgeDays, maxTotalBytes, now), BoundsOf(maxKeep, maxAgeDays, maxTotalBytes, later))
  {
  }

  lemma {:induction false} LooseMembers(s: seq<Entry>)
    ensures forall e :: e in Loose(s) <==> e in s && !e.preserve
    ensures forall e :: e in Held(s) <==> e in s && e.preserve
  {
    FilterMembers(IsLoose, s);
    FilterMembers(IsHeld, s);
  }

  /** Preserved entries survive and nothing is invented. */
  lemma RetainMembers(entries: seq<Entry>, b: Bounds)
    ensures forall e :: e in Retain(entries, b) ==> e in entries
    ensures forall e :: e in entries && e.preserve ==> e in Retain(entries, b)
    ensures Sorted(NewerOrSame, Retain(entries, b))
  {
    var s := NewestFirst(entries);
    var k := LongestFit(s, b, |Loose(s)|);
    var r := KeepFirst(s, k);
    assert r == Retain(entries, b);
    hide *;
    NewestFirstFacts(entries);
    KeepFirstParts(s, k);
    KeepFirstSorted(s, k);
    LooseMembers(s);
    LooseMembers(r);
  }

  lemma HeldOfNewestFirst(entries: seq<Entry>)
    ensures |Held(NewestFirst(entries))| == |Held(entries)|
  {
    EntryOrders();
    FilterSort(NewerOrSame, IsHeld, entries);
    SortPermutes(NewerOrSame, Held(entries));
  }

  /** Each limit is met as far as the preserved entries allow. */
  lemma RetainWithinLimits(entries: seq<Entry>, b: Bounds)
    ensures b.cutoff.Some? ==> forall e :: e in Retain(entries, b) && !e.preserve ==> e.createdAt >= b.cutoff.value
    ensures b.keep.Some? ==> |Retain(entries, b)| <= Max(b.keep.value, |Held(entries)|)
    ensures b.bytes.Some? ==> Bytes(Retain(entries, b)) <= b.bytes.value || Loose(Retain(entries, b)) == []
  {
    var s := NewestFirst(entries);
    var k := LongestFit(s, b, |Loose(s)|);
    var r := KeepFirst(s, k);
    assert r == Retain(entries, b);
    hide Loose, Held, KeepFirst, LongestFit, NewestFirst, Retain, Bytes;
    HeldOfNewestFirst(entries);
    KeepFirstParts(s, k);
    if b.cutoff.Some? {
      LooseMembers(r);
      forall e | e in r && !e.preserve ensures e.createdAt >= b.cutoff.value {
        var i :| 0 <= i < |Loose(r)| && Loose(r)[i] == e;
        assert Loose(s)[i] == e;
      }
    }
  }

  lemma KeepFirstHolds(s: seq<Entry>, k: nat)
    ensures forall e :: e in s && e.preserve ==> e in KeepFirst(s, k)
  {
    KeepFirstParts(s, k);
    LooseMembers(s);
    LooseMembers(KeepFirst(s, k));
  }

  /** Any shorter prefix of a retained list is retained whole by the same limits. */
  lemma RetainOfPrefix(entries: seq<Entry>, b: Bounds, k: nat)
    ensures Retain(KeepFirst(Retain(entries, b), k), b) == KeepFirst(Retain(entries, b), k)
  {
    var s := NewestFirst(entries);
    var m := LongestFit(s, b, |Loose(s)|);
    var j := Min(m, k);
    NewestFirstFacts(entries);
    KeepFirstTwice(s, m, k);
    var t := KeepFirst(s, j);
    assert t == KeepFirst(Retain(entries, b), k);
    KeepFirstSorted(s, j);
    SortOfSorted(NewerOrSame, t);
    FitsInPrefix(s, j, j, b);
    if j > 0 { FitsShorter(s, j, m, b); }
    LongestFitIs(t, b, j);
    KeepFirstAll(t, j);
  }

  lemma NewestFirstOfPermutation(a: seq<Entry>, b: seq<Entry>)
    requires DistinctKeys(a) && multiset(a) == multiset(b)
    ensures NewestFirst(a) == NewestFirst(b)
  {
    EntryOrders();
    NewestFirstFacts(a);
    NewestFirstFacts(b);
    var s := NewestFirst(a);
    forall x, y | x in s && y in s && NewerOrSame(x, y) && NewerOrSame(y, x) ensures x == y {
      assert x.key == y.key;
      var i := Position(s, x);
      var j := Position(s, y);
    }
    SortedUnique(NewerOrSame, s, NewestFirst(b));
  }

  lemma RetainSorted(entries: seq<Entry>, b: Bounds)
    ensures Retain(NewestFirst(entries), b) == Retain(entries, b)
  {
    NewestFirstFacts(entries);
    SortOfSorted(NewerOrSame, NewestFirst(entries));
  }

  lemma RetainKeepsShape(s: seq<Entry>, b: Bounds)
    requires DistinctKeys(s)
    ensures Sorted(NewerOrSame, Retain(s, b)) && DistinctKeys(Retain(s, b))
  {
    NewestFirstFacts(s);
    KeepFirstSorted(NewestFirst(s), LongestFit(NewestFirst(s), b, |Loose(NewestFirst(s))|));
    KeepFirstDistinct(NewestFirst(s), LongestFit(NewestFirst(s), b, |Loose(NewestFirst(s))|));
  }

  lemma RetainUnbounded(s: seq<Entry>)
    requires Sorted(NewerOrSame, s)
    ensures Retain(s, Bounds(None, None, None)) == s
  {
    SortOfSorted(NewerOrSame, s);
    KeepFirstAll(s, |Loose(s)|);
    LongestFitIs(s, Bounds(None, None, None), |Loose(s)|);
  }

  lemma {:induction false} FilterSmaller(p: Entry -> bool, s: seq<Entry>)
    ensures |Filter(p, s)| <= |s| && Bytes(Filter(p, s)) <= Bytes(s)
    ensures (forall e :: e in s && !p(e) ==> e.size == 0) ==> Bytes(Filter(p, s)) == Bytes(s)
  {
    if s != [] { FilterSmaller(p, s[1..]); }
  }

  lemma {:induction false} FilterSorted(p: Entry -> bool, s: seq<Entry>)
    requires Sorted(NewerOrSame, s)
    ensures Sorted(NewerOrSame, Filter(p, s))
  {
    if s != [] {
      FilterSorted(p, s[1..]);
      FilterMembers(p, s[1..]);
      hide NewerOrSame;
      var rest := Filter(p, s[1..]);
      forall j | 0 <= j < |rest| ensures NewerOrSame(s[0], rest[j]) {
        var i := Position(s[1..], rest[j]);
      }
    }
  }

  /** Any part of a retained list is retained whole by the same limits. */
  lemma RetainOfPart(entries: seq<Entry>, b: Bounds, p: Entry -> bool)
    ensures Retain(Filter(p, Retain(entries, b)), b) == Filter(p, Retain(entries, b))
  {
    var r := Retain(entries, b);
    var f := Filter(p, r);
    RetainMembers(entries, b);
    RetainWithinLimits(entries, b);
    HeldKept(entries, b);
    FilterSorted(p, r);
    FilterSmaller(p, r);
    FilterMembers(p, r);
    hide Filter, Retain;
    PartFits(r, f, b);
    WholeRetained(f, b);
  }

  lemma HeldKept(entries: seq<Entry>, b: Bounds)
    ensures |Held(Retain(entries, b))| == |Held(entries)|
  {
    var s := NewestFirst(entries);
    HeldOfNewestFirst(entries);
    KeepFirstParts(s, LongestFit(s, b, |Loose(s)|));
  }

  lemma PartFits(r: seq<Entry>, f: seq<Entry>, b: Bounds)
    requires |f| <= |r| && Bytes(f) <= Bytes(r) && forall e :: e in f ==> e in r
    requires b.cutoff.Some? ==> forall e :: e in r && !e.preserve ==> e.createdAt >= b.cutoff.value
    requires b.keep.Some? ==> |r| <= Max(b.keep.value, |Held(r)|)
    requires b.bytes.Some? ==> Bytes(r) <= b.bytes.value || Loose(r) == []
    ensures Loose(f) == [] || Fits(f, |Loose(f)|, b)
  {
    LooseMembers(f);
    LooseMembers(r);
    CountSplit(f);
    CountSplit(r);
    KeepFirstAll(f, |Loose(f)|);
    hide Bytes, Held, KeepFirst;
    if Loose(f) != [] {
      assert Loose(f)[0] in r && !Loose(f)[0].preserve;
      assert Loose(f)[0] in Loose(r);
      hide Loose;
      forall i | 0 <= i < |Loose(f)| && b.cutoff.Some? ensures Loose(f)[i].createdAt >= b.cutoff.value {
        assert Loose(f)[i] in Loose(f);
      }
    }
  }

  lemma WholeRetained(f: seq<Entry>, b: Bounds)
    requires Sorted(NewerOrSame, f) && (Loose(f) == [] || Fits(f, |Loose(f)|, b))
    ensures Retain(f, b) == f
  {
    SortOfSorted(NewerOrSame, f);
    KeepFirstAll(f, |Loose(f)|);
    hide Loose, KeepFirst, Fits;
    if Loose(f) != [] { LongestFitIs(f, b, |Loose(f)|); }
  }

  // ---- Filtering in another order ------------------------------------------------------------

  lemma {:induction false} CountIn(p: Entry -> bool, s: seq<Entry>, e: Entry)
    ensures multiset(Filter(p, s))[e] == if p(e) then multiset(s)[e] else 0
  {
    if s != [] {
      FilterTail(p, s);
      CountIn(p, s[1..], e);
      hide *;
      CountCons(s[0], s[1..], e);
      CountCons(s[0], Filter(p, s[1..]), e);
      assert s == [s[0]] + s[1..];
    }
  }

  lemma FilterTail(p: Entry -> bool, s: seq<Entry>)
    requires s != []
    ensures Filter(p, s) == if p(s[0]) then [s[0]] + Filter(p, s[1..]) else Filter(p, s[1..])
  {
  }

  lemma CountCons(x: Entry, s: seq<Entry>, e: Entry)
    ensures multiset([x] + s)[e] == multiset(s)[e] + if x == e then 1 else 0
  {
  }

  lemma {:induction false} FilterOfPermutation(p: Entry -> bool, a: seq<Entry>, b: seq<Entry>)
    requires multiset(a) == multiset(b)
    ensures multiset(Filter(p, a)) == multiset(Filter(p, b))
  {
    forall e ensures multiset(Filter(p, a))[e] == multiset(Filter(p, b))[e] {
      CountIn(p, a, e);
      CountIn(p, b, e);
    }
  }

  // ---- Filtering keeps keys distinct ----------------------------------------------------------

  lemma {:induction false} FilterDistinct(p: Entry -> bool, s: seq<Entry>)
    requires DistinctKeys(s)
    ensures DistinctKeys(Filter(p, s))
  {
    if s != [] {
      FilterDistinct(p, s[1..]);
      FilterMembers(p, s[1..]);
      var rest := Filter(p, s[1..]);
      forall j | 0 <= j < |rest| ensures s[0].key != rest[j].key { assert rest[j] in s[1..]; }
    }
  }

  // ---- Why an entry is given up ---------------------------------------------------------------

  lemma BytesOfOne(e: Entry)
    ensures Bytes([]) == 0 && Bytes([e]) == e.size
  {
  }

  lemma {:induction false} KeepFirstNext(s: seq<Entry>, k: nat)
    requires k < |Loose(s)|
    ensures Bytes(KeepFirst(s, k + 1)) == Bytes(KeepFirst(s, k)) + Loose(s)[k].size
  {
    if s[0].preserve {
      KeepFirstNext(s[1..], k);
    } else if k > 0 {
      KeepFirstNext(s[1..], k - 1);
    }
  }

  /** Entries come newest first, and at the same time by descending keys. */
  ghost predicate Newer(x: Entry, y: Entry) {
    x.createdAt > y.createdAt || (x.createdAt == y.createdAt && LexLe(y.key, x.key))
  }

  /** Where the retained prefix of the loose entries ends. */
  lemma LoosePrefix(entries: seq<Entry>, b: Bounds) returns (s: seq<Entry>, k: nat)
    requires DistinctKeys(entries)
    ensures forall e :: e in s <==> e in entries && !e.preserve
    ensures forall i, j :: 0 <= i < j < |s| ==> Newer(s[i], s[j])
    ensures k <= |s| && forall i :: 0 <= i < |s| ==> (s[i] in Retain(entries, b) <==> i < k)
    ensures k < |s| ==>
      || (b.cutoff.Some? && s[k].createdAt < b.cutoff.value)
      || (b.keep.Some? && |Retain(entries, b)| >= b.keep.value)
      || (b.bytes.Some? && Bytes(Retain(entries, b)) + s[k].size > b.bytes.value)
  {
    var all := NewestFirst(entries);
    NewestFirstFacts(entries);
    FilterSorted(IsLoose, all);
    FilterDistinct(IsLoose, all);
    LooseMembers(all);
    s := Loose(all);
    k := LongestFit(all, b, |s|);
    var r := KeepFirst(all, k);
    KeepFirstParts(all, k);
    LooseMembers(r);
    CountSplit(all);
    assert Retain(entries, b) == r && Loose(r) == s[..k];
    forall i | 0 <= i < |s| ensures s[i] in r <==> i < k {
      if i < k { assert s[..k][i] == s[i]; }
      if s[i] in r {
        assert s[i] in Loose(r);
        var j := Position(s[..k], s[i]);
        assert s[j].key == s[i].key;
      }
    }
    if k < |s| {
      KeepFirstNext(all, k);
      assert !Fits(all, k + 1, b);
    }
  }

  /** Every entry that goes is at or after one that goes because of a limit: too old, or one too many, or too big
      for what the budget has left. */
  lemma DroppedFor(entries: seq<Entry>, b: Bounds, e: Entry) returns (d: Entry)
    requires DistinctKeys(entries) && e in entries && e !in Retain(entries, b)
    ensures !e.preserve && d in entries && !d.preserve && d !in Retain(entries, b)
    ensures d == e || d.createdAt > e.createdAt || (d.createdAt == e.createdAt && LexLe(e.key, d.key))
    ensures
      || (b.cutoff.Some? && d.createdAt < b.cutoff.value)
      || (b.keep.Some? && |Retain(entries, b)| >= b.keep.value)
      || (b.bytes.Some? && Bytes(Retain(entries, b)) + d.size > b.bytes.value)
  {
    RetainMembers(entries, b);
    var s, k := LoosePrefix(entries, b);
    hide Retain, Bytes, LexLe;
    var i := Position(s, e);
    d := s[k];
  }

  /** No unpreserved entry is kept that is older than one that goes. */
  lemma KeptAreNewer(entries: seq<Entry>, b: Bounds, x: Entry, y: Entry)
    requires DistinctKeys(entries) && x in Retain(entries, b) && !x.preserve && y in entries && y !in Retain(entries, b)
    ensures x.createdAt > y.createdAt || (x.createdAt == y.createdAt && LexLe(y.key, x.key))
  {
    RetainMembers(entries, b);
    var s, k := LoosePrefix(entries, b);
    hide Retain, Bytes, LexLe;
    var i := Position(s, x);
    var j := Position(s, y);
  }

  // ---- Lists that are inside their limits -----------------------------------------------------

  /** Nothing has to go: the limits hold, as far as entries that are not preserved are concerned. */
  ghost predicate WithinLimits(f: seq<Entry>, b: Bounds) {
    && (b.cutoff.Some? ==> forall e :: e in f && !e.preserve ==> e.createdAt >= b.cutoff.value)
    && (b.keep.Some? ==> |f| <= Max(b.keep.value, |Held(f)|))
    && (b.bytes.Some? ==> Bytes(f) <= b.bytes.value || Loose(f) == [])
  }

  /** What is inside its limits is kept whole, in whatever order it comes. */
  lemma WithinIsRetained(f: seq<Entry>, b: Bounds)
    requires WithinLimits(f, b)
    ensures multiset(Retain(f, b)) == multiset(f)
  {
    var s := NewestFirst(f);
    NewestFirstFacts(f);
    WithinOfPermutation(f, s, b);
    LooseMembers(s);
    RetainSorted(f, b);
    PartFits(s, s, b);
    WholeRetained(s, b);
  }

  lemma WithinOfPermutation(f: seq<Entry>, g: seq<Entry>, b: Bounds)
    requires WithinLimits(f, b) && multiset(f) == multiset(g)
    ensures WithinLimits(g, b)
  {
    SameMembers(f, g);
    SameLength(f, g);
    BytesOfPermutation(f, g);
    CountsOfPermutation(f, g);
    LooseMembers(f);
    LooseMembers(g);
    hide Bytes, Held, Loose;
  }

  lemma CountsOfPermutation(f: seq<Entry>, g: seq<Entry>)
    requires multiset(f) == multiset(g)
    ensures |Held(f)| == |Held(g)| && |Loose(f)| == |Loose(g)|
  {
    FilterOfPermutation(IsHeld, f, g);
    FilterOfPermutation(IsLoose, f, g);
    SameLength(Held(f), Held(g));
    SameLength(Loose(f), Loose(g));
  }

  /** A retained list is inside its limits, and so is every part of it. */
  lemma PartIsWithin(entries: seq<Entry>, b: Bounds, p: Entry -> bool)
    ensures WithinLimits(Filter(p, Retain(entries, b)), b)
  {
    var r := Retain(entries, b);
    var f := Filter(p, r);
    RetainMembers(entries, b);
    RetainWithinLimits(entries, b);
    HeldKept(entries, b);
    FilterSmaller(p, r);
    FilterMembers(p, r);
    LooseMembers(f);
    LooseMembers(r);
    CountSplit(f);
    CountSplit(r);
    hide Filter, Retain, Bytes, Held, Loose;
    if Loose(f) != [] { assert Loose(f)[0] in Loose(r); }
  }

  /** The same entries, some of them with a later time. */
  ghost predicate Renews(f: seq<Entry>, g: seq<Entry>) {
    |f| == |g| && forall i :: 0 <= i < |f| ==>
      g[i].key == f[i].key && g[i].size == f[i].size && g[i].preserve == f[i].preserve && g[i].createdAt >= f[i].createdAt
  }

  lemma {:induction false} RenewedSums(f: seq<Entry>, g: seq<Entry>)
    requires Renews(f, g)
    ensures Bytes(f) == Bytes(g) && |Held(f)| == |Held(g)| && |Loose(f)| == |Loose(g)|
  {
    if f != [] { RenewedSums(f[1..], g[1..]); }
  }

  lemma RenewedIsWithin(f: seq<Entry>, g: seq<Entry>, b: Bounds)
    requires WithinLimits(f, b) && Renews(f, g)
    ensures WithinLimits(g, b)
  {
    RenewedSums(f, g);
    hide Bytes, Held, Loose;
    forall e | e in g && !e.preserve && b.cutoff.Some? ensures e.createdAt >= b.cutoff.value {
      var i := Position(g, e);
      assert f[i] in f;
    }
  }
}
