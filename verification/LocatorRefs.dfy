/** Collecting locator references from an accessibility snapshot and a page's HTML: a walk that stops early
    at a bound and drops repetitions on the way. */
module LocatorRefs {
  import opened Sequences
  import opened Text

  /** A snapshot value: a node whose role, name and children are there only if they have the right type, or
      a value that is no node. */
  datatype Snapshot = Node(role: Option<string>, name: Option<string>, children: seq<Snapshot>) | Other

  /** The payloads; the text key the source compares by is different for different payloads. */
  datatype Ref = RoleRef(role: string, name: Option<string>) | TextRef(text: string) | TestIdRef(testId: string) | LabelRef(ariaLabel: string)

  // ---- Everything there is to emit -----------------------------------------------------

  function Shown(s: Option<string>): Option<string> {
    if s.Some? && Strip(s.value) != "" then Some(Strip(s.value)) else None
  }

  function NodeRefs(node: Snapshot): seq<Ref>
    requires node.Node?
  {
    (if Shown(node.role).Some? then [RoleRef(Shown(node.role).value, Shown(node.name))] else [])
      + (if Shown(node.name).Some? then [TextRef(Shown(node.name).value)] else [])
  }

  /** Every reference of a snapshot, each node before its children. */
  function Emission(node: Snapshot): seq<Ref> {
    if node.Other? then [] else NodeRefs(node) + ChildrenEmission(node, 0)
  }

  function ChildrenEmission(node: Snapshot, i: nat): seq<Ref>
    requires node.Node? && i <= |node.children|
    decreases node, |node.children| - i
  {
    if i == |node.children| then [] else Emission(node.children[i]) + ChildrenEmission(node, i + 1)
  }

  function TestIds(matches: seq<string>): seq<Ref> {
    if matches == [] then []
    else (if Strip(matches[0]) != "" then [TestIdRef(Strip(matches[0]))] else []) + TestIds(matches[1..])
  }

  function Labels(matches: seq<string>): seq<Ref> {
    if matches == [] then []
    else (if Strip(matches[0]) != "" then [LabelRef(Strip(matches[0]))] else []) + Labels(matches[1..])
  }

  // ---- First occurrences ------------------------------------------------------------------

  /** The elements in the order of their first occurrence. */
  function Dedup<T(==)>(s: seq<T>): seq<T> {
    if s == [] then []
    else
      var front, x := s[..|s| - 1], s[|s| - 1];
      Dedup(front) + (if x in front then [] else [x])
  }

  function Take<T>(s: seq<T>, n: int): seq<T> {
    if n <= 0 then [] else if n < |s| then s[..n] else s
  }

  lemma {:induction false} DedupMembers<T>(s: seq<T>)
    ensures forall x :: x in Dedup(s) <==> x in s
  {
    if s != [] {
      var front, x := s[..|s| - 1], s[|s| - 1];
      DedupMembers(front);
      assert s == front + [x];
    }
  }

  lemma DedupStep<T>(s: seq<T>, x: T)
    ensures Dedup(s + [x]) == Dedup(s) + (if x in s then [] else [x])
  {
    assert (s + [x])[..|s|] == s;
  }

  /** Later emissions only add to the end. */
  lemma {:induction false} DedupGrows<T>(s: seq<T>, t: seq<T>)
    ensures Dedup(s) <= Dedup(s + t)
  {
    if t == [] {
      assert s + t == s;
    } else {
      var front, x := t[..|t| - 1], t[|t| - 1];
      DedupGrows(s, front);
      assert s + t == (s + front) + [x];
      DedupStep(s + front, x);
    }
  }

  /** The position of the first occurrence. */
  function First<T(==)>(s: seq<T>, x: T): (i: nat)
    requires x in s
    ensures i < |s| && s[i] == x && forall k :: 0 <= k < i ==> s[k] != x
  {
    if s[0] == x then 0 else 1 + First(s[1..], x)
  }

  lemma FirstStays<T>(s: seq<T>, t: seq<T>, x: T)
    requires x in s
    ensures First(s + t, x) == First(s, x)
  {
    var i := First(s, x);
    assert (s + t)[i] == x && forall k :: 0 <= k < i ==> (s + t)[k] == s[k];
  }

  lemma FirstNew<T>(s: seq<T>, x: T)
    requires x !in s
    ensures First(s + [x], x) == |s|
  {
    assert (s + [x])[|s|] == x && forall k :: 0 <= k < |s| ==> (s + [x])[k] == s[k];
  }

  /** In the order of the first occurrences, so without repetitions. */
  ghost predicate InFirstOrder<T>(s: seq<T>, d: seq<T>) {
    && (forall i :: 0 <= i < |d| ==> d[i] in s)
    && forall i, j :: 0 <= i < j < |d| ==> First(s, d[i]) < First(s, d[j])
  }

  /** Nothing lost, nothing added, and the order is that of the first occurrences. */
  lemma {:induction false} DedupIs<T>(s: seq<T>)
    ensures forall x :: x in Dedup(s) <==> x in s
    ensures InFirstOrder(s, Dedup(s))
  {
    DedupMembers(s);
    if s != [] {
      var front, x := s[..|s| - 1], s[|s| - 1];
      DedupIs(front);
      assert s == front + [x];
      hide Dedup;
      DedupStep(front, x);
      OrderStep(front, x, Dedup(front));
    }
  }

  lemma OrderStep<T>(front: seq<T>, x: T, d: seq<T>)
    requires InFirstOrder(front, d)
    ensures InFirstOrder(front + [x], d) && (x !in front ==> InFirstOrder(front + [x], d + [x]))
  {
    forall i | 0 <= i < |d| ensures d[i] in front + [x] && First(front + [x], d[i]) == First(front, d[i]) {
      FirstStays(front, [x], d[i]);
    }
    assert x in front + [x];
    if x !in front { FirstNew(front, x); }
  }

  lemma EmissionShape(node: Snapshot)
    ensures Emission(node) == if node.Other? then [] else NodeRefs(node) + ChildrenEmission(node, 0)
  {
  }

  lemma ChildrenShape(node: Snapshot, i: nat)
    requires node.Node? && i < |node.children|
    ensures ChildrenEmission(node, i) == Emission(node.children[i]) + ChildrenEmission(node, i + 1)
  {
    hide Emission;
  }

  lemma ChildrenEnd(node: Snapshot, before: seq<Ref>)
    requires node.Node?
    ensures before + ChildrenEmission(node, |node.children|) == before
  {
  }

  /** The references of one node, added one by one. */
  lemma RefsShape(node: Snapshot, before: seq<Ref>)
    requires node.Node?
    ensures before + NodeRefs(node) ==
      var withRole := if Shown(node.role).Some? then before + [RoleRef(Shown(node.role).value, Shown(node.name))] else before;
      if Shown(node.name).Some? then withRole + [TextRef(Shown(node.name).value)] else withRole
  {
    hide Shown;
  }

  lemma Associate(a: seq<Ref>, b: seq<Ref>, c: seq<Ref>)
    ensures a + (b + c) == (a + b) + c
  {
  }

  // ---- The bounded walk ---------------------------------------------------------------------

  class RefCollector {
    const maxRefs: int
    var refs: seq<Ref>
    var seen: set<Ref>
    /** Everything the walk has passed, or skipped because the bound was reached. */
    ghost var emitted: seq<Ref>

    ghost predicate Valid()
      reads this
    {
      refs == Take(Dedup(emitted), maxRefs) && seen == set r | r in refs
    }

    constructor (maxRefs: int)
      ensures Valid() && emitted == [] && this.maxRefs == maxRefs
    {
      this.maxRefs, refs, seen, emitted := maxRefs, [], {}, [];
    }

    /** `add_ref` */
    method AddRef(payload: Ref)
      requires Valid()
      modifies this
      ensures Valid() && emitted == old(emitted) + [payload]
    {
      DedupStep(emitted, payload);
      DedupMembers(emitted);
      emitted := emitted + [payload];
      if |refs| >= maxRefs { return; }
      if payload in seen { return; }
      seen := seen + {payload};
      refs := refs + [payload];
    }

    /** At the bound nothing that follows matters. */
    ghost method Skip(rest: seq<Ref>)
      requires Valid() && |refs| >= maxRefs
      modifies `emitted
      ensures Valid() && emitted == old(emitted) + rest
    {
      DedupGrows(emitted, rest);
      emitted := emitted + rest;
    }

    /** `walk_snapshot` */
    method WalkSnapshot(node: Snapshot)
      requires Valid()
      modifies this
      ensures Valid() && emitted == old(emitted) + Emission(node)
      decreases node
    {
      hide *;
      EmissionShape(node);
      ghost var before := emitted;
      if node.Other? || |refs| >= maxRefs {
        if node.Other? { assert before + [] == before; } else { Skip(Emission(node)); }
        return;
      }
      var name := Shown(node.name);
      if Shown(node.role).Some? { AddRef(RoleRef(Shown(node.role).value, name)); }
      if name.Some? { AddRef(TextRef(name.value)); }
      RefsShape(node, before);
      Associate(before, NodeRefs(node), ChildrenEmission(node, 0));
      for i := 0 to |node.children|
        invariant Valid()
        invariant emitted + ChildrenEmission(node, i) == before + Emission(node)
      {
        ChildrenShape(node, i);
        Associate(emitted, Emission(node.children[i]), ChildrenEmission(node, i + 1));
        WalkSnapshot(node.children[i]);
      }
      ChildrenEnd(node, emitted);
    }

    method AddTestIds(matches: seq<string>)
      requires Valid()
      modifies this
      ensures Valid() && emitted == old(emitted) + TestIds(matches)
    {
      ghost var before := emitted;
      for i := 0 to |matches|
        invariant Valid() && emitted + TestIds(matches[i..]) == before + TestIds(matches)
      {
        assert matches[i..][0] == matches[i] && matches[i..][1..] == matches[i + 1..];
        var value := Strip(matches[i]);
        if value != "" { AddRef(TestIdRef(value)); }
      }
    }

    method AddLabels(matches: seq<string>)
      requires Valid()
      modifies this
      ensures Valid() && emitted == old(emitted) + Labels(matches)
    {
      ghost var before := emitted;
      for i := 0 to |matches|
        invariant Valid() && emitted + Labels(matches[i..]) == before + Labels(matches)
      {
        assert matches[i..][0] == matches[i] && matches[i..][1..] == matches[i + 1..];
        var value := Strip(matches[i]);
        if value != "" { AddRef(LabelRef(value)); }
      }
    }
  }

  /** `extract_locator_refs`, with the two patterns' matches in the HTML given: the early exits and the
      running duplicate check amount to the first maxRefs distinct references of the whole emission. */
  method ExtractLocatorRefs(snapshot: Snapshot, testIds: seq<string>, labels: seq<string>, maxRefs: int) returns (refs: seq<Ref>)
    ensures refs == Take(Dedup(Emission(snapshot) + TestIds(testIds) + Labels(labels)), maxRefs)
  {
    var collector := new RefCollector(maxRefs);
    collector.WalkSnapshot(snapshot);
    collector.AddTestIds(testIds);
    collector.AddLabels(labels);
    assert [] + Emission(snapshot) == Emission(snapshot);
    return collector.refs;
  }

  /** A larger bound only adds to the end, and a bound no smaller than the emission drops repetitions only. */
  lemma BoundsNest(emission: seq<Ref>, m: int, n: int)
    requires m <= n
    ensures Take(Dedup(emission), m) <= Take(Dedup(emission), n)
    ensures n >= |emission| ==> forall r :: r in emission <==> r in Take(Dedup(emission), n)
  {
    DedupMembers(emission);
    DedupShorter(emission);
  }

  lemma {:induction false} DedupShorter<T>(s: seq<T>)
    ensures |Dedup(s)| <= |s|
  {
    if s != [] { DedupShorter(s[..|s| - 1]); }
  }

  // ---- What there is to emit, piece by piece ------------------------------------------------

  /** Text that is there and not blank is shown without the blanks around it. */
  lemma ShownIs(s: string)
    ensures Shown(None) == None
    ensures (forall i :: 0 <= i < |s| ==> IsSpace(s[i])) ==> Shown(Some(s)) == None
    ensures (exists i :: 0 <= i < |s| && !IsSpace(s[i])) ==> Shown(Some(s)) == Some(Strip(s)) && Strip(s) != ""
  {
    StripBlank(s);
    hide Strip, IsSpace;
  }

  /** A node gives its role with its name, and its name as text, each only if it is shown. */
  lemma NodeGives(node: Snapshot)
    requires node.Node?
    ensures var role, name := Shown(node.role), Shown(node.name);
      && (role == None && name == None ==> NodeRefs(node) == [])
      && (role.Some? && name == None ==> NodeRefs(node) == [RoleRef(role.value, None)])
      && (role == None && name.Some? ==> NodeRefs(node) == [TextRef(name.value)])
      && (role.Some? && name.Some? ==> NodeRefs(node) == [RoleRef(role.value, name), TextRef(name.value)])
  {
    hide Shown;
  }

  lemma {:induction false} ChildrenFrom(node: Snapshot, other: Snapshot, i: nat, j: nat)
    requires node.Node? && other.Node? && i <= |node.children| && j <= |other.children| && node.children[i..] == other.children[j..]
    ensures ChildrenEmission(node, i) == ChildrenEmission(other, j)
    decreases |node.children| - i
  {
    if i < |node.children| {
      assert node.children[i] == node.children[i..][0] == other.children[j..][0] == other.children[j];
      assert node.children[i + 1..] == node.children[i..][1..] && other.children[j + 1..] == other.children[j..][1..];
      ChildrenFrom(node, other, i + 1, j + 1);
      hide Emission;
    }
  }

  /** What is no node emits nothing; a node comes before its children, and they come one after the other. */
  lemma EmissionIs(role: Option<string>, name: Option<string>, child: Snapshot, rest: seq<Snapshot>)
    ensures Emission(Other) == [] && Emission(Node(None, None, [])) == []
    ensures Emission(Node(role, name, rest)) == NodeRefs(Node(role, name, rest)) + Emission(Node(None, None, rest))
    ensures Emission(Node(None, None, [child] + rest)) == Emission(child) + Emission(Node(None, None, rest))
  {
    var plain := Node(None, None, rest);
    var longer := Node(None, None, [child] + rest);
    assert NodeRefs(plain) == [] && NodeRefs(longer) == [];
    ChildrenFrom(Node(role, name, rest), plain, 0, 0);
    assert longer.children[1..] == rest[0..];
    ChildrenFrom(longer, plain, 1, 0);
    hide NodeRefs;
    EmissionShape(Node(role, name, rest));
    EmissionShape(plain);
    EmissionShape(longer);
    ChildrenShape(longer, 0);
    assert [] + ChildrenEmission(plain, 0) == ChildrenEmission(plain, 0);
    assert [] + ChildrenEmission(longer, 0) == ChildrenEmission(longer, 0);
  }

  /** Each match that is not blank gives one reference of its kind, in order. */
  lemma MatchesGive(m: string, rest: seq<string>)
    ensures TestIds([]) == [] && Labels([]) == []
    ensures Strip(m) == "" ==> TestIds([m] + rest) == TestIds(rest) && Labels([m] + rest) == Labels(rest)
    ensures Strip(m) != "" ==> TestIds([m] + rest) == [TestIdRef(Strip(m))] + TestIds(rest)
    ensures Strip(m) != "" ==> Labels([m] + rest) == [LabelRef(Strip(m))] + Labels(rest)
  {
    assert ([m] + rest)[1..] == rest;
    hide Strip;
  }

  /** The bound lets through its number of references, or all if there are fewer. */
  lemma TakeIs(s: seq<Ref>, n: int)
    ensures |Take(s, n)| == Min(|s|, Max(n, 0)) && Take(s, n) <= s
  {
  }
}
