/** The structural comparison of JSON documents behind the drift checks. The report is kept as data (a place
    and what changed there) instead of text lines. */
module StructuralDiff {
  import opened Text

  /** JSON values as Python's equality sees them: a boolean is the number one or zero. */
  datatype Json = Null | Number(value: real) | Text(text: string) | List(items: seq<Json>) | Object(fields: map<string, Json>)

  datatype Step = Key(key: string) | Index(index: nat)
  datatype What = AddedKeys(keys: set<string>) | RemovedKeys(keys: set<string>) | LengthChanged(before: nat, after: nat) | ValueChanged
  datatype Difference = Difference(path: seq<Step>, what: What)

  predicate IsContainer(j: Json) { j.List? || j.Object? }

  // ---- Keys in order ----------------------------------------------------------------

  ghost predicate IsLeast(k: string, keys: set<string>) {
    k in keys && forall x :: x in keys ==> LexLe(k, x)
  }

  lemma {:induction false} LeastExists(keys: set<string>)
    requires keys != {}
    ensures exists k :: IsLeast(k, keys)
    decreases |keys|
  {
    var k :| k in keys;
    if keys == {k} {
      LexTotal(k, k);
      assert IsLeast(k, keys);
    } else {
      assert keys == (keys - {k}) + {k};
      LeastExists(keys - {k});
      var l :| IsLeast(l, keys - {k});
      LexTotal(k, l);
      LexTotal(k, k);
      if LexLe(l, k) {
        assert IsLeast(l, keys);
      } else {
        forall x | x in keys ensures LexLe(k, x) {
          if x != k { LexTransitive(k, l, x); }
        }
        assert IsLeast(k, keys);
      }
    }
  }

  ghost function Least(keys: set<string>): (k: string)
    requires keys != {}
    ensures IsLeast(k, keys)
  {
    LeastExists(keys);
    var k :| IsLeast(k, keys);
    k
  }

  lemma LeastIs(k: string, keys: set<string>)
    requires IsLeast(k, keys)
    ensures k == Least(keys)
  {
    LexAntisymmetric(k, Least(keys));
  }

  /** `sorted` on a set of keys. */
  ghost function InOrder(keys: set<string>): seq<string>
    decreases |keys|
  {
    if keys == {} then [] else [Least(keys)] + InOrder(keys - {Least(keys)})
  }

  // ---- The report --------------------------------------------------------------------

  function AddedPart(path: seq<Step>, e: map<string, Json>, a: map<string, Json>): seq<Difference> {
    if a.Keys - e.Keys == {} then [] else [Difference(path, AddedKeys(a.Keys - e.Keys))]
  }

  function RemovedPart(path: seq<Step>, e: map<string, Json>, a: map<string, Json>): seq<Difference> {
    if e.Keys - a.Keys == {} then [] else [Difference(path, RemovedKeys(e.Keys - a.Keys))]
  }

  /** What is reported for a place with an expected and an actual value. */
  ghost function Diff(path: seq<Step>, e: Json, a: Json): seq<Difference>
    decreases e
  {
    if e.Object? && a.Object? then
      AddedPart(path, e.fields, a.fields) + RemovedPart(path, e.fields, a.fields)
        + DiffKeys(path, e, a, InOrder(e.fields.Keys * a.fields.Keys))
    else if e.List? && a.List? then
      if |e.items| != |a.items| then [Difference(path, LengthChanged(|e.items|, |a.items|))] else DiffItems(path, e, a, 0)
    else [Difference(path, ValueChanged)]
  }

  ghost function DiffKeys(path: seq<Step>, e: Json, a: Json, keys: seq<string>): seq<Difference>
    requires e.Object? && a.Object?
    decreases e, |keys|
  {
    if keys == [] then []
    else
      var k := keys[0];
      (if k in e.fields && k in a.fields && e.fields[k] != a.fields[k] then Diff(path + [Key(k)], e.fields[k], a.fields[k]) else [])
        + DiffKeys(path, e, a, keys[1..])
  }

  ghost function DiffItems(path: seq<Step>, e: Json, a: Json, i: nat): seq<Difference>
    requires e.List? && a.List? && |e.items| == |a.items| && i <= |e.items|
    decreases e, |e.items| - i
  {
    if i == |e.items| then []
    else
      (if e.items[i] != a.items[i] then Diff(path + [Index(i)], e.items[i], a.items[i]) else [])
        + DiffItems(path, e, a, i + 1)
  }

  // ---- The comparison -----------------------------------------------------------------

  /** `compare_nested_data` */
  method CompareNestedData(path: seq<Step>, e: Json, a: Json) returns (differences: seq<Difference>)
    ensures differences == Diff(path, e, a)
    decreases e
  {
    hide *;
    differences := [];
    DiffShape(path, e, a);
    if e.Object? && a.Object? {
      var added, removed := a.fields.Keys - e.fields.Keys, e.fields.Keys - a.fields.Keys;
      if added != {} { differences := differences + [Difference(path, AddedKeys(added))]; }
      if removed != {} { differences := differences + [Difference(path, RemovedKeys(removed))]; }
      var rest := e.fields.Keys * a.fields.Keys;
      while rest != {}
        invariant rest <= e.fields.Keys * a.fields.Keys
        invariant differences + DiffKeys(path, e, a, InOrder(rest)) == Diff(path, e, a)
        decreases |rest|
      {
        SomeLeast(rest);
        var key :| key in rest && forall x :: x in rest ==> LexLe(key, x);
        KeysStep(path, e, a, rest, key);
        ghost var before := differences;
        if e.fields[key] != a.fields[key] {
          var child := CompareNestedData(path + [Key(key)], e.fields[key], a.fields[key]);
          differences := differences + child;
          Regroup(before, child, DiffKeys(path, e, a, InOrder(rest - {key})));
        }
        rest := rest - {key};
      }
      Nothing(path, e, a, differences);
      return;
    }
    if e.List? && a.List? {
      if |e.items| != |a.items| { return [Difference(path, LengthChanged(|e.items|, |a.items|))]; }
      for i := 0 to |e.items|
        invariant differences + DiffItems(path, e, a, i) == Diff(path, e, a)
      {
        ItemsStep(path, e, a, i);
        if e.items[i] == a.items[i] { continue; }
        var child := CompareNestedData(path + [Index(i)], e.items[i], a.items[i]);
        Regroup(differences, child, DiffItems(path, e, a, i + 1));
        differences := differences + child;
      }
      ItemsEnd(path, e, a, differences);
      return;
    }
    return [Difference(path, ValueChanged)];
  }

  /** What is reported for the place itself, before what lies below it. */
  lemma DiffShape(path: seq<Step>, e: Json, a: Json)
    ensures e.Object? && a.Object? ==>
      var added, removed := a.fields.Keys - e.fields.Keys, e.fields.Keys - a.fields.Keys;
      Diff(path, e, a) == (if added != {} then [Difference(path, AddedKeys(added))] else [])
        + (if removed != {} then [Difference(path, RemovedKeys(removed))] else [])
        + DiffKeys(path, e, a, InOrder(e.fields.Keys * a.fields.Keys))
    ensures e.List? && a.List? ==>
      Diff(path, e, a) == if |e.items| == |a.items| then [] + DiffItems(path, e, a, 0)
                          else [Difference(path, LengthChanged(|e.items|, |a.items|))]
    ensures !(e.Object? && a.Object?) && !(e.List? && a.List?) ==> Diff(path, e, a) == [Difference(path, ValueChanged)]
  {
    hide DiffKeys, DiffItems, InOrder;
    if e.List? && a.List? && |e.items| == |a.items| { assert [] + DiffItems(path, e, a, 0) == DiffItems(path, e, a, 0); }
  }

  lemma SomeLeast(keys: set<string>)
    requires keys != {}
    ensures exists k :: k in keys && forall x :: x in keys ==> LexLe(k, x)
  {
    LeastExists(keys);
    var k :| IsLeast(k, keys);
  }

  lemma ItemsStep(path: seq<Step>, e: Json, a: Json, i: nat)
    requires e.List? && a.List? && |e.items| == |a.items| && i < |e.items|
    ensures DiffItems(path, e, a, i) ==
      (if e.items[i] != a.items[i] then Diff(path + [Index(i)], e.items[i], a.items[i]) else [])
        + DiffItems(path, e, a, i + 1)
  {
    hide Diff;
  }

  lemma ItemsEnd(path: seq<Step>, e: Json, a: Json, ds: seq<Difference>)
    requires e.List? && a.List? && |e.items| == |a.items|
    ensures ds + DiffItems(path, e, a, |e.items|) == ds
  {
  }

  lemma Regroup(a: seq<Difference>, b: seq<Difference>, c: seq<Difference>)
    ensures a + (b + c) == (a + b) + c
  {
  }

  lemma Nothing(path: seq<Step>, e: Json, a: Json, ds: seq<Difference>)
    requires e.Object? && a.Object?
    ensures ds + DiffKeys(path, e, a, InOrder({})) == ds
  {
  }

  lemma KeysStep(path: seq<Step>, e: Json, a: Json, rest: set<string>, key: string)
    requires e.Object? && a.Object? && rest <= e.fields.Keys * a.fields.Keys
    requires key in rest && forall x :: x in rest ==> LexLe(key, x)
    ensures DiffKeys(path, e, a, InOrder(rest)) ==
      (if e.fields[key] != a.fields[key] then Diff(path + [Key(key)], e.fields[key], a.fields[key]) else [])
        + DiffKeys(path, e, a, InOrder(rest - {key}))
  {
    LeastIs(key, rest);
    var keys := InOrder(rest);
    assert keys == [key] + InOrder(rest - {key}) && keys[0] == key && keys[1..] == InOrder(rest - {key});
  }

  lemma {:induction false} InOrderMembers(keys: set<string>)
    ensures forall k :: k in InOrder(keys) <==> k in keys
    ensures forall i, j :: 0 <= i < j < |InOrder(keys)| ==> InOrder(keys)[i] != InOrder(keys)[j]
    decreases |keys|
  {
    if keys != {} {
      var l := Least(keys);
      var rest := InOrder(keys - {l});
      InOrderMembers(keys - {l});
      assert InOrder(keys) == [l] + rest;
      forall i, j | 0 <= i < j < |InOrder(keys)| ensures InOrder(keys)[i] != InOrder(keys)[j] {
        assert InOrder(keys)[j] == rest[j - 1] && rest[j - 1] in rest;
        assert i > 0 ==> InOrder(keys)[i] == rest[i - 1];
      }
      assert forall k :: k in InOrder(keys) <==> k == l || k in rest;
    }
  }

  /** Keys come in ascending order. */
  lemma {:induction false} InOrderSorted(keys: set<string>)
    ensures forall i, j :: 0 <= i < j < |InOrder(keys)| ==> LexLe(InOrder(keys)[i], InOrder(keys)[j])
    decreases |keys|
  {
    if keys != {} {
      var l := Least(keys);
      var rest := InOrder(keys - {l});
      InOrderSorted(keys - {l});
      InOrderMembers(keys - {l});
      assert InOrder(keys) == [l] + rest;
      hide LexLe, InOrder;
      forall i, j | 0 <= i < j < |[l] + rest| ensures LexLe(([l] + rest)[i], ([l] + rest)[j]) {
        if i == 0 { assert rest[j - 1] in rest; }
      }
    }
  }

  // ---- When the report is empty ---------------------------------------------------------

  /** Two values get an empty report exactly if they are equal containers; so unequal values are always
      reported, and equal ones only when a scalar is compared at the top. */
  lemma {:induction false} EmptyIff(path: seq<Step>, e: Json, a: Json)
    ensures Diff(path, e, a) == [] <==> e == a && IsContainer(e)
    decreases e
  {
    if e.Object? && a.Object? {
      var common := e.fields.Keys * a.fields.Keys;
      InOrderMembers(common);
      KeysEmptyIff(path, e, a, InOrder(common));
      SameObject(e, a);
    } else if e.List? && a.List? && |e.items| == |a.items| {
      ItemsEmptyIff(path, e, a, 0);
    }
  }

  /** Two equal scalars at the top are reported as changed. */
  lemma EqualScalarsAreReported()
    ensures Diff([], Number(1.0), Number(1.0)) == [Difference([], ValueChanged)]
  {
    EmptyIff([], Number(1.0), Number(1.0));
  }

  lemma SameObject(e: Json, a: Json)
    requires e.Object? && a.Object?
    ensures e == a <==>
      a.fields.Keys - e.fields.Keys == {} && e.fields.Keys - a.fields.Keys == {}
      && forall k :: k in e.fields && k in a.fields ==> e.fields[k] == a.fields[k]
  {
    if a.fields.Keys - e.fields.Keys == {} && e.fields.Keys - a.fields.Keys == {} {
      assert forall k :: k in e.fields <==> k in a.fields;
      assert e.fields.Keys == a.fields.Keys;
      if forall k :: k in e.fields && k in a.fields ==> e.fields[k] == a.fields[k] { assert e.fields == a.fields; }
    }
  }

  lemma {:induction false} KeysEmptyIff(path: seq<Step>, e: Json, a: Json, keys: seq<string>)
    requires e.Object? && a.Object?
    ensures DiffKeys(path, e, a, keys) == [] <==>
      forall k :: k in keys && k in e.fields && k in a.fields ==> e.fields[k] == a.fields[k]
    decreases e, |keys|
  {
    if keys != [] {
      var k := keys[0];
      KeysEmptyIff(path, e, a, keys[1..]);
      if k in e.fields && k in a.fields { EmptyIff(path + [Key(k)], e.fields[k], a.fields[k]); }
      assert forall x :: x in keys <==> x == k || x in keys[1..];
      hide Diff;
    }
  }

  lemma {:induction false} ItemsEmptyIff(path: seq<Step>, e: Json, a: Json, i: nat)
    requires e.List? && a.List? && |e.items| == |a.items| && i <= |e.items|
    ensures DiffItems(path, e, a, i) == [] <==> e.items[i..] == a.items[i..]
    decreases e, |e.items| - i
  {
    if i < |e.items| {
      ItemsEmptyIff(path, e, a, i + 1);
      EmptyIff(path + [Index(i)], e.items[i], a.items[i]);
      hide Diff;
      assert e.items[i..] == [e.items[i]] + e.items[i + 1..] && a.items[i..] == [a.items[i]] + a.items[i + 1..];
    }
  }

  // ---- Every line of the report is true -----------------------------------------------------

  /** What a line says holds at its place, and the values on the way there differ. */
  ghost predicate Holds(e: Json, a: Json, path: seq<Step>, what: What) {
    if path == [] then
      match what
      case AddedKeys(keys) => e.Object? && a.Object? && keys == a.fields.Keys - e.fields.Keys && keys != {}
      case RemovedKeys(keys) => e.Object? && a.Object? && keys == e.fields.Keys - a.fields.Keys && keys != {}
      case LengthChanged(before, after) => e.List? && a.List? && before == |e.items| != |a.items| == after
      case ValueChanged => !(e.Object? && a.Object?) && !(e.List? && a.List?)
    else
      match path[0]
      case Key(k) =>
        && e.Object? && a.Object? && k in e.fields && k in a.fields
        && e.fields[k] != a.fields[k] && Holds(e.fields[k], a.fields[k], path[1..], what)
      case Index(i) =>
        && e.List? && a.List? && |e.items| == |a.items| && i < |e.items|
        && e.items[i] != a.items[i] && Holds(e.items[i], a.items[i], path[1..], what)
  }

  ghost predicate TrueAt(path: seq<Step>, e: Json, a: Json, d: Difference) {
    path <= d.path && Holds(e, a, d.path[|path|..], d.what)
  }

  /** Every line names a place both values have and says what differs there. */
  lemma {:induction false} ReportIsTrue(path: seq<Step>, e: Json, a: Json, d: Difference)
    requires d in Diff(path, e, a)
    ensures TrueAt(path, e, a, d)
    decreases e
  {
    if e.Object? && a.Object? {
      var keys := InOrder(e.fields.Keys * a.fields.Keys);
      if d in DiffKeys(path, e, a, keys) { KeysTrue(path, e, a, keys, d); }
    } else if e.List? && a.List? && |e.items| == |a.items| {
      ItemsTrue(path, e, a, 0, d);
    }
  }

  lemma {:induction false} KeysTrue(path: seq<Step>, e: Json, a: Json, keys: seq<string>, d: Difference)
    requires e.Object? && a.Object? && d in DiffKeys(path, e, a, keys)
    ensures TrueAt(path, e, a, d)
    decreases e, |keys|
  {
    hide *;
    FirstKeyOrLater(path, e, a, keys, d);
    var k := keys[0];
    if d in DiffKeys(path, e, a, keys[1..]) {
      KeysTrue(path, e, a, keys[1..], d);
    } else {
      ReportIsTrue(path + [Key(k)], e.fields[k], a.fields[k], d);
      TrueBelowKey(path, k, e, a, d);
    }
  }

  lemma FirstKeyOrLater(path: seq<Step>, e: Json, a: Json, keys: seq<string>, d: Difference)
    requires e.Object? && a.Object? && d in DiffKeys(path, e, a, keys)
    ensures keys != []
    ensures d in DiffKeys(path, e, a, keys[1..]) || (keys[0] in e.fields && keys[0] in a.fields
      && e.fields[keys[0]] != a.fields[keys[0]] && d in Diff(path + [Key(keys[0])], e.fields[keys[0]], a.fields[keys[0]]))
  {
    hide Diff;
  }

  lemma TrueBelowKey(path: seq<Step>, k: string, e: Json, a: Json, d: Difference)
    requires e.Object? && a.Object? && k in e.fields && k in a.fields && e.fields[k] != a.fields[k]
    requires TrueAt(path + [Key(k)], e.fields[k], a.fields[k], d)
    ensures TrueAt(path, e, a, d)
  {
    BelowStep(path, Key(k), d.path);
  }

  lemma {:induction false} ItemsTrue(path: seq<Step>, e: Json, a: Json, i: nat, d: Difference)
    requires e.List? && a.List? && |e.items| == |a.items| && i <= |e.items| && d in DiffItems(path, e, a, i)
    ensures TrueAt(path, e, a, d)
    decreases e, |e.items| - i
  {
    hide *;
    FirstItemOrLater(path, e, a, i, d);
    if d in DiffItems(path, e, a, i + 1) {
      ItemsTrue(path, e, a, i + 1, d);
    } else {
      ReportIsTrue(path + [Index(i)], e.items[i], a.items[i], d);
      TrueBelowItem(path, i, e, a, d);
    }
  }

  lemma FirstItemOrLater(path: seq<Step>, e: Json, a: Json, i: nat, d: Difference)
    requires e.List? && a.List? && |e.items| == |a.items| && i <= |e.items| && d in DiffItems(path, e, a, i)
    ensures i < |e.items|
    ensures d in DiffItems(path, e, a, i + 1)
      || (e.items[i] != a.items[i] && d in Diff(path + [Index(i)], e.items[i], a.items[i]))
  {
    hide Diff;
  }

  lemma TrueBelowItem(path: seq<Step>, i: nat, e: Json, a: Json, d: Difference)
    requires e.List? && a.List? && |e.items| == |a.items| && i < |e.items| && e.items[i] != a.items[i]
    requires TrueAt(path + [Index(i)], e.items[i], a.items[i], d)
    ensures TrueAt(path, e, a, d)
  {
    BelowStep(path, Index(i), d.path);
  }

  lemma BelowStep(path: seq<Step>, step: Step, p: seq<Step>)
    requires path + [step] <= p
    ensures path <= p && p[|path|..] != [] && p[|path|..][0] == step && p[|path|..][1..] == p[|path + [step]|..]
  {
    assert (path + [step])[|path|] == step;
    assert path == (path + [step])[..|path|];
  }

  // ---- The report is complete ----------------------------------------------------------------

  function Picked(keys: set<string>, a: map<string, Json>): map<string, Json> {
    map k | k in keys && k in a :: a[k]
  }

  /** Correcting one place: keys are added, with their actual values, or removed, or the value is replaced. */
  function Take(e: Json, a: Json, what: What): Json {
    if e.Object? && a.Object? && what.AddedKeys? then
      Object(e.fields + Picked(what.keys, a.fields))
    else if e.Object? && a.Object? && what.RemovedKeys? then Object(e.fields - what.keys)
    else a
  }

  function Patch(e: Json, a: Json, path: seq<Step>, what: What): Json {
    if path == [] then Take(e, a, what)
    else
      match path[0]
      case Key(k) =>
        if e.Object? && a.Object? && k in e.fields && k in a.fields
        then Object(e.fields[k := Patch(e.fields[k], a.fields[k], path[1..], what)]) else e
      case Index(i) =>
        if e.List? && a.List? && i < |e.items| && i < |a.items|
        then List(e.items[i := Patch(e.items[i], a.items[i], path[1..], what)]) else e
  }

  /** Corrects the reported places of e one after another; the places are read from step n on. */
  function Rebuild(e: Json, a: Json, ds: seq<Difference>, n: nat): Json
    decreases |ds|
  {
    if ds == [] then e
    else Rebuild(if n <= |ds[0].path| then Patch(e, a, ds[0].path[n..], ds[0].what) else e, a, ds[1..], n)
  }

  lemma {:induction false} RebuildAppend(e: Json, a: Json, x: seq<Difference>, y: seq<Difference>, n: nat)
    ensures Rebuild(e, a, x + y, n) == Rebuild(Rebuild(e, a, x, n), a, y, n)
    decreases |x|
  {
    if x == [] {
      assert x + y == y;
    } else {
      assert (x + y)[1..] == x[1..] + y && (x + y)[0] == x[0];
      RebuildAppend(if n <= |x[0].path| then Patch(e, a, x[0].path[n..], x[0].what) else e, a, x[1..], y, n);
    }
  }

  ghost predicate AllBelow(path: seq<Step>, ds: seq<Difference>) {
    forall d :: d in ds ==> path <= d.path
  }

  lemma DiffBelow(path: seq<Step>, e: Json, a: Json)
    ensures AllBelow(path, Diff(path, e, a))
  {
    forall d | d in Diff(path, e, a) ensures path <= d.path { ReportIsTrue(path, e, a, d); }
  }

  /** Corrections below one key only change the value of that key. */
  lemma {:induction false} RebuildKey(path: seq<Step>, k: string, f: map<string, Json>, a: Json, ds: seq<Difference>)
    requires a.Object? && k in f && k in a.fields && AllBelow(path + [Key(k)], ds)
    ensures Rebuild(Object(f), a, ds, |path|) == Object(f[k := Rebuild(f[k], a.fields[k], ds, |path| + 1)])
    decreases |ds|
  {
    if ds == [] {
      assert f[k := f[k]] == f;
    } else {
      var d := ds[0];
      BelowStep(path, Key(k), d.path);
      var v := Patch(f[k], a.fields[k], d.path[|path| + 1..], d.what);
      assert Patch(Object(f), a, d.path[|path|..], d.what) == Object(f[k := v]);
      RebuildKey(path, k, f[k := v], a, ds[1..]);
      var w := Rebuild(v, a.fields[k], ds[1..], |path| + 1);
      assert f[k := v][k := w] == f[k := w];
    }
  }

  lemma {:induction false} RebuildItem(path: seq<Step>, i: nat, s: seq<Json>, a: Json, ds: seq<Difference>)
    requires a.List? && i < |s| && i < |a.items| && AllBelow(path + [Index(i)], ds)
    ensures Rebuild(List(s), a, ds, |path|) == List(s[i := Rebuild(s[i], a.items[i], ds, |path| + 1)])
    decreases |ds|
  {
    if ds == [] {
      assert s[i := s[i]] == s;
    } else {
      var d := ds[0];
      BelowStep(path, Index(i), d.path);
      var v := Patch(s[i], a.items[i], d.path[|path| + 1..], d.what);
      assert Patch(List(s), a, d.path[|path|..], d.what) == List(s[i := v]);
      RebuildItem(path, i, s[i := v], a, ds[1..]);
      var w := Rebuild(v, a.items[i], ds[1..], |path| + 1);
      assert s[i := v][i := w] == s[i := w];
    }
  }

  ghost function Updated(f: map<string, Json>, keys: seq<string>, a: map<string, Json>): map<string, Json> {
    map k | k in f :: if k in keys && k in a then a[k] else f[k]
  }

  lemma {:induction false} RebuildKeys(path: seq<Step>, e: Json, a: Json, keys: seq<string>, f: map<string, Json>)
    requires e.Object? && a.Object?
    requires forall k :: k in keys ==> k in e.fields && k in a.fields && k in f && f[k] == e.fields[k]
    requires forall i, j :: 0 <= i < j < |keys| ==> keys[i] != keys[j]
    ensures Rebuild(Object(f), a, DiffKeys(path, e, a, keys), |path|) == Object(Updated(f, keys, a.fields))
    decreases e, |keys|
  {
    if keys == [] {
      assert Updated(f, keys, a.fields) == f;
    } else {
      var k, rest := keys[0], keys[1..];
      assert k in keys && k !in rest;
      var x := if e.fields[k] != a.fields[k] then Diff(path + [Key(k)], e.fields[k], a.fields[k]) else [];
      var g := f[k := a.fields[k]];
      assert Rebuild(Object(f), a, x, |path|) == Object(g) by {
        if e.fields[k] != a.fields[k] {
          DiffBelow(path + [Key(k)], e.fields[k], a.fields[k]);
          RebuildKey(path, k, f, a, x);
          RebuildIsActual(path + [Key(k)], e.fields[k], a.fields[k]);
        } else {
          assert g == f;
        }
      }
      assert DiffKeys(path, e, a, keys) == x + DiffKeys(path, e, a, rest);
      RebuildAppend(Object(f), a, x, DiffKeys(path, e, a, rest), |path|);
      RebuildKeys(path, e, a, rest, g);
      assert Updated(g, rest, a.fields) == Updated(f, keys, a.fields);
    }
  }

  lemma {:induction false} RebuildItems(path: seq<Step>, e: Json, a: Json, i: nat, s: seq<Json>)
    requires e.List? && a.List? && |e.items| == |a.items| == |s| && i <= |s|
    requires s == a.items[..i] + e.items[i..]
    ensures Rebuild(List(s), a, DiffItems(path, e, a, i), |path|) == a
    decreases e, |s| - i
  {
    if i == |s| {
      assert s == a.items;
    } else {
      var x := if e.items[i] != a.items[i] then Diff(path + [Index(i)], e.items[i], a.items[i]) else [];
      var t := a.items[..i + 1] + e.items[i + 1..];
      assert s[i] == e.items[i] && t == s[i := a.items[i]];
      assert Rebuild(List(s), a, x, |path|) == List(t) by {
        if e.items[i] != a.items[i] {
          DiffBelow(path + [Index(i)], e.items[i], a.items[i]);
          RebuildItem(path, i, s, a, x);
          RebuildIsActual(path + [Index(i)], e.items[i], a.items[i]);
        }
      }
      RebuildAppend(List(s), a, x, DiffItems(path, e, a, i + 1), |path|);
      RebuildItems(path, e, a, i + 1, t);
    }
  }

  /** Correcting the expected value exactly at the reported places, with the actual sub-values, gives the
      actual value: no difference is left out of the report. */
  lemma {:induction false} RebuildIsActual(path: seq<Step>, e: Json, a: Json)
    ensures Rebuild(e, a, Diff(path, e, a), |path|) == a
    decreases e
  {
    if e.Object? && a.Object? {
      var keys := InOrder(e.fields.Keys * a.fields.Keys);
      InOrderMembers(e.fields.Keys * a.fields.Keys);
      RebuildKeys(path, e, a, keys, Aligned(e.fields, a.fields));
      RebuildObject(path, e, a);
    } else if e.List? && a.List? && |e.items| == |a.items| {
      assert e.items == a.items[..0] + e.items[0..];
      RebuildItems(path, e, a, 0, e.items);
    } else {
      var d := Diff(path, e, a)[0];
      assert Diff(path, e, a)[1..] == [] && d.path[|path|..] == [];
    }
  }

  /** The expected fields, with the keys of the actual ones. */
  function Aligned(e: map<string, Json>, a: map<string, Json>): map<string, Json> {
    map k | k in a :: if k in e then e[k] else a[k]
  }

  lemma RebuildObject(path: seq<Step>, e: Json, a: Json)
    requires e.Object? && a.Object?
    requires var keys, f := InOrder(e.fields.Keys * a.fields.Keys), Aligned(e.fields, a.fields);
      Rebuild(Object(f), a, DiffKeys(path, e, a, keys), |path|) == Object(Updated(f, keys, a.fields))
    ensures Rebuild(e, a, Diff(path, e, a), |path|) == a
  {
    hide *;
    var common := e.fields.Keys * a.fields.Keys;
    var added, removed := AddedPart(path, e.fields, a.fields), RemovedPart(path, e.fields, a.fields);
    ObjectDiff(path, e, a);
    RebuildAppend(e, a, added + removed, DiffKeys(path, e, a, InOrder(common)), |path|);
    RebuildAppend(e, a, added, removed, |path|);
    RebuildAdded(path, e, a);
    RebuildRemoved(path, e, a);
    InOrderMembers(common);
    AllUpdated(e.fields, a.fields, InOrder(common));
  }

  lemma ObjectDiff(path: seq<Step>, e: Json, a: Json)
    requires e.Object? && a.Object?
    ensures Diff(path, e, a) == AddedPart(path, e.fields, a.fields) + RemovedPart(path, e.fields, a.fields)
      + DiffKeys(path, e, a, InOrder(e.fields.Keys * a.fields.Keys))
  {
    hide AddedPart, RemovedPart, InOrder, DiffKeys;
  }

  lemma AllUpdated(e: map<string, Json>, a: map<string, Json>, keys: seq<string>)
    requires forall k :: k in keys <==> k in e.Keys * a.Keys
    ensures Updated(Aligned(e, a), keys, a) == a
  {
  }

  ghost function WithAdded(e: map<string, Json>, a: map<string, Json>): map<string, Json> {
    map k | k in e.Keys + a.Keys :: if k in e then e[k] else a[k]
  }

  lemma RebuildAdded(path: seq<Step>, e: Json, a: Json)
    requires e.Object? && a.Object?
    ensures Rebuild(e, a, AddedPart(path, e.fields, a.fields), |path|) == Object(WithAdded(e.fields, a.fields))
  {
    var keys := a.fields.Keys - e.fields.Keys;
    MergeAdded(e.fields, a.fields);
    hide Picked, WithAdded, Rebuild;
    RebuildOne(path, e, a, AddedKeys(keys));
    RebuildNone(e, a, |path|);
  }

  lemma RebuildNone(e: Json, a: Json, n: nat)
    ensures Rebuild(e, a, [], n) == e
  {
  }

  lemma MergeAdded(e: map<string, Json>, a: map<string, Json>)
    ensures e + Picked(a.Keys - e.Keys, a) == WithAdded(e, a)
    ensures a.Keys - e.Keys == {} ==> WithAdded(e, a) == e
  {
  }

  lemma RebuildOne(path: seq<Step>, e: Json, a: Json, what: What)
    ensures Rebuild(e, a, [Difference(path, what)], |path|) == Take(e, a, what)
  {
    assert path[|path|..] == [];
    hide Take;
  }

  lemma RebuildRemoved(path: seq<Step>, e: Json, a: Json)
    requires e.Object? && a.Object?
    ensures Rebuild(Object(WithAdded(e.fields, a.fields)), a, RemovedPart(path, e.fields, a.fields), |path|)
      == Object(Aligned(e.fields, a.fields))
  {
    var keys := e.fields.Keys - a.fields.Keys;
    var g := WithAdded(e.fields, a.fields);
    assert g - keys == Aligned(e.fields, a.fields);
    if keys == {} {
      assert g == Aligned(e.fields, a.fields);
    } else {
      hide WithAdded, Aligned;
      RebuildOne(path, Object(g), a, RemovedKeys(keys));
    }
  }
}
