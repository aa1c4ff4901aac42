/** The frontmatter parser reads back exactly what was printed, and when it does not. */
module FrontmatterRoundTrip {
  import opened Text
  import opened Frontmatter
  import opened FrontmatterPrinter

  // ---- Reading back -----------------------------------------------------------------

  ghost predicate Fresh(entries: Entries, data: Entries) {
    forall i :: 0 <= i < |entries| ==> !HasKey(data, entries[i].key)
  }

  lemma {:induction false} PutFresh(data: Entries, key: string, v: Value)
    requires !HasKey(data, key)
    ensures Put(data, key, v) == data + [Field(key, v)]
  {
    if data != [] {
      assert data[0].key != key;
      forall i | 0 <= i < |data[1..]| ensures data[1..][i].key != key { assert data[1..][i] == data[i + 1]; }
      PutFresh(data[1..], key, v);
    }
  }

  lemma FreshStep(entries: Entries, data: Entries, w: Value)
    requires entries != [] && Fresh(entries, data) && !HasKey(entries[1..], entries[0].key)
    ensures Fresh(entries[1..], data + [Field(entries[0].key, w)])
  {
    var longer := data + [Field(entries[0].key, w)];
    forall i | 0 <= i < |entries[1..]| ensures !HasKey(longer, entries[1..][i].key) {
      var key := entries[1..][i].key;
      assert key == entries[i + 1].key;
      forall j | 0 <= j < |longer| ensures longer[j].key != key { assert j < |data| ==> longer[j] == data[j]; }
    }
  }

  // One step of the mapping parser, and one of the list parser, on a known line.

  lemma MapFromScalar(line: string, rest: seq<string>, data: Entries, key: string, v: Value)
    requires GoodLine(line) && !IsSpace(FirstChar(line)) && ':' in line
    requires IndexOf(line, ':') == |key| && line[..|key|] == key && key != "" && Trimmed(key)
    requires Strip(line[|key| + 1..]) != "" && ParseScalar(Strip(line[|key| + 1..])) == Ok(v)
    ensures MapFrom([line] + rest, data) == MapFrom(rest, Put(data, key, v))
  {
    StripTrimmed(key);
    assert ([line] + rest)[1..] == rest;
    hide Put, Strip, ParseScalar, IndexOf;
  }

  lemma MapFromBlock(line: string, below: seq<string>, block: seq<string>, rest: seq<string>, data: Entries, key: string)
    requires GoodLine(line) && !IsSpace(FirstChar(line)) && ':' in line
    requires IndexOf(line, ':') == |key| && line[..|key|] == key && key != "" && Trimmed(key)
    requires Strip(line[|key| + 1..]) == "" && TakeBlock(below) == (block, rest)
    ensures MapFrom([line] + below, data) ==
      if ParseBlock(block).Ok? then MapFrom(rest, Put(data, key, ParseBlock(block).value)) else Err(ParseBlock(block).error)
  {
    StripTrimmed(key);
    assert ([line] + below)[1..] == below;
    hide Put, Strip, ParseScalar, IndexOf, TakeBlock, ParseBlock;
  }

  lemma ListFromScalar(line: string, below: seq<string>, rest: seq<string>, values: seq<Value>, v: Value)
    requires GoodLine(line) && StartsWith(line, "- ") && ':' !in Strip(line[2..])
    requires TakeBlock(below) == ([], rest) && ParseScalar(Strip(line[2..])) == Ok(v)
    ensures ListFrom([line] + below, values) == ListFrom(rest, values + [v])
  {
    DashLine(line);
    assert ([line] + below)[1..] == below;
    hide Strip, ParseScalar, TakeBlock;
  }

  lemma ListFromMap(line: string, below: seq<string>, children: seq<string>, rest: seq<string>, values: seq<Value>)
    requires GoodLine(line) && StartsWith(line, "- ") && ':' in Strip(line[2..])
    requires TakeBlock(below) == (children, rest)
    ensures var r := ParseMapping(JoinLines([Strip(line[2..])] + children));
      ListFrom([line] + below, values) == if r.Ok? then ListFrom(rest, values + [Map(r.value)]) else Err(r.error)
  {
    DashLine(line);
    assert ([line] + below)[1..] == below;
    hide Strip, ParseScalar, TakeBlock, ParseMapping;
  }

  lemma DashLine(line: string)
    requires StartsWith(line, "- ")
    ensures LStrip(line) == line
  {
    assert line[..2][0] == '-';
  }

  // ---- What the parser reads, value by value ---------------------------------------------

  /** The lines printed under a key that has no scalar value. */
  ghost function Body(v: Value): seq<string>
    requires !IsScalar(v)
  {
    if v.Null? then [] else if v.Map? then PrintMap(v.entries) else PrintList(v.items)
  }

  /** What the printed form of a value under a key is read as. */
  ghost function Reread(v: Value): Result<Value> {
    if IsScalar(v) then Ok(v) else ParseBlock(Body(v))
  }

  ghost function RereadItem(v: Value): Result<Value> {
    if v.Map? then
      var entries :- ParseMapping(JoinLines(PrintMap(v.entries)));
      Ok(Map(entries))
    else Ok(v)
  }

  ghost function RereadMap(entries: Entries): (r: Result<Entries>)
    ensures r.Ok? ==> |r.value| == |entries| && forall i :: 0 <= i < |entries| ==> r.value[i].key == entries[i].key
  {
    if entries == [] then Ok([])
    else
      var v :- Reread(entries[0].value);
      var rest :- RereadMap(entries[1..]);
      Ok([Field(entries[0].key, v)] + rest)
  }

  ghost function RereadList(items: seq<Value>): Result<seq<Value>> {
    if items == [] then Ok([])
    else
      var v :- RereadItem(items[0]);
      var rest :- RereadList(items[1..]);
      Ok([v] + rest)
  }

  ghost function Prepend<T>(front: seq<T>, r: Result<seq<T>>): Result<seq<T>> {
    if r.Ok? then Ok(front + r.value) else r
  }

  lemma PrependTwice<T>(a: seq<T>, b: seq<T>, r: Result<seq<T>>)
    ensures Prepend(a + b, r) == Prepend(a, Prepend(b, r))
  {
    if r.Ok? { assert a + b + r.value == a + (b + r.value); }
  }

  lemma ScalarEntryRead(key: string, v: Value, rest: seq<string>, data: Entries)
    requires GoodKey(key) && IsScalar(v) && PrintableField(v)
    ensures MapFrom(PrintEntry(key, v) + rest, data) == MapFrom(rest, Put(data, key, v))
  {
    var p := PrintScalar(v);
    var line := key + ":" + (" " + p);
    assert key + ": " + p == line;
    assert PrintEntry(key, v) == [line];
    ScalarShape(v);
    KeyLine(key, " " + p);
    StripAfterSpace(p);
    ScalarReadBack(v);
    MapFromScalar(line, rest, data, key, v);
  }

  lemma BodyLines(v: Value)
    requires PrintableField(v) && !IsScalar(v)
    ensures GoodLines(Body(v)) && Flush(Body(v)) && (v.Null? <==> Body(v) == [])
    ensures v.Map? ==> Trimmed(Body(v)[0]) && StartsWith(Body(v)[0], "- ") == StartsWith(v.entries[0].key, "- ")
    ensures v.List? ==> StartsWith(Body(v)[0], "- ")
  {
    match v {
      case Null =>
      case Map(entries) => MapLines(entries);
      case List(items) => ListLines(items);
    }
  }

  lemma BlockEntryRead(key: string, v: Value, rest: seq<string>, data: Entries)
    requires GoodKey(key) && !IsScalar(v) && PrintableField(v) && Flush(rest)
    ensures MapFrom(PrintEntry(key, v) + rest, data) ==
      if Reread(v).Ok? then MapFrom(rest, Put(data, key, Reread(v).value)) else Err(Reread(v).error)
  {
    var line := key + ":" + "";
    var below := Indent(Body(v)) + rest;
    assert key + ":" == line;
    assert PrintEntry(key, v) + rest == [line] + below;
    assert Reread(v) == ParseBlock(Body(v));
    KeyLine(key, "");
    assert GoodLine(line) && !IsSpace(FirstChar(line)) && Trimmed(key) && key != "" && Strip("") == "";
    hide *;
    BodyLines(v);
    TakeBlockIndent(Body(v), rest);
    MapFromBlock(line, below, Body(v), rest, data, key);
  }

  /** One printed entry is read as one assignment, of whatever its block is read as. */
  lemma EntryRead(key: string, v: Value, rest: seq<string>, data: Entries)
    requires GoodKey(key) && PrintableField(v) && Flush(rest)
    ensures MapFrom(PrintEntry(key, v) + rest, data) ==
      if Reread(v).Ok? then MapFrom(rest, Put(data, key, Reread(v).value)) else Err(Reread(v).error)
  {
    if IsScalar(v) {
      assert Reread(v) == Ok(v);
      hide *;
      ScalarEntryRead(key, v, rest, data);
    } else {
      hide *;
      BlockEntryRead(key, v, rest, data);
    }
  }

  lemma PrintMapStep(entries: Entries)
    requires entries != [] && PrintableMap(entries)
    ensures PrintMap(entries) == PrintEntry(entries[0].key, entries[0].value) + PrintMap(entries[1..])
    ensures GoodKey(entries[0].key) && !HasKey(entries[1..], entries[0].key)
    ensures PrintableField(entries[0].value) && PrintableMap(entries[1..])
    ensures Flush(PrintMap(entries[1..]))
  {
    MapLines(entries[1..]);
  }

  lemma RereadMapStep(entries: Entries, data: Entries)
    requires entries != []
    ensures var w := Reread(entries[0].value);
      Prepend(data, RereadMap(entries)) ==
        if w.Ok? then Prepend(data + [Field(entries[0].key, w.value)], RereadMap(entries[1..])) else Err(w.error)
  {
    var w := Reread(entries[0].value);
    if w.Ok? {
      PrependTwice(data, [Field(entries[0].key, w.value)], RereadMap(entries[1..]));
    }
  }

  lemma MapFromNothing(data: Entries)
    ensures PrintMap([]) == [] && MapFrom([], data) == Prepend(data, RereadMap([]))
  {
    assert data + [] == data;
  }

  lemma FirstIsFresh(entries: Entries, data: Entries)
    requires entries != [] && Fresh(entries, data)
    ensures !HasKey(data, entries[0].key)
  {
  }

  /** The mapping parser reads a printed mapping entry by entry. */
  lemma {:induction false} MapReads(entries: Entries, data: Entries)
    requires PrintableMap(entries) && Fresh(entries, data)
    ensures MapFrom(PrintMap(entries), data) == Prepend(data, RereadMap(entries))
    decreases |entries|
  {
    hide *;
    if entries == [] {
      MapFromNothing(data);
    } else {
      var key, v := entries[0].key, entries[0].value;
      PrintMapStep(entries);
      FirstIsFresh(entries, data);
      EntryRead(key, v, PrintMap(entries[1..]), data);
      RereadMapStep(entries, data);
      if Reread(v).Ok? {
        var w := Reread(v).value;
        PutFresh(data, key, w);
        FreshStep(entries, data, w);
        MapReads(entries[1..], data + [Field(key, w)]);
      }
    }
  }

  lemma ScalarItemRead(v: Value, rest: seq<string>, values: seq<Value>)
    requires PrintableItem(v) && IsScalar(v) && Flush(rest)
    ensures ListFrom(PrintItem(v) + rest, values) == ListFrom(rest, values + [v])
  {
    var p := PrintScalar(v);
    var line := "- " + p;
    assert PrintItem(v) == [line] && line[2..] == p;
    ScalarShape(v);
    ScalarReadBack(v);
    StripTrimmed(p);
    NotBlank(line, 0);
    TakeBlockIndent([], rest);
    assert Indent([]) + rest == rest;
    hide *;
    ListFromScalar(line, rest, rest, values, v);
  }

  lemma MapItemShape(entries: Entries, rest: seq<string>)
    requires entries != [] && PrintableMap(entries)
    ensures var body := PrintMap(entries);
      && body != [] && GoodLines(body) && Trimmed(body[0]) && ':' in body[0]
      && PrintItem(Map(entries)) + rest == ["- " + body[0]] + (Indent(body[1..]) + rest)
  {
    MapLines(entries);
    hide Trimmed, PrintMap, GoodLine;
  }

  lemma DashedLine(line: string)
    ensures ("- " + line)[2..] == line && StartsWith("- " + line, "- ")
    ensures NoBreaks(line) ==> GoodLine("- " + line)
  {
    NotBlank("- " + line, 0);
  }

  lemma GoodParts(lines: seq<string>)
    requires GoodLines(lines) && lines != []
    ensures GoodLine(lines[0]) && NoBreaks(lines[0]) && GoodLines(lines[1..]) && [lines[0]] + lines[1..] == lines
  {
  }

  lemma MapItemRead(entries: Entries, rest: seq<string>, values: seq<Value>)
    requires entries != [] && PrintableMap(entries) && Flush(rest)
    ensures var r := ParseMapping(JoinLines(PrintMap(entries)));
      ListFrom(PrintItem(Map(entries)) + rest, values) == if r.Ok? then ListFrom(rest, values + [Map(r.value)]) else Err(r.error)
  {
    hide *;
    var body := PrintMap(entries);
    MapItemShape(entries, rest);
    GoodParts(body);
    DashedLine(body[0]);
    StripTrimmed(body[0]);
    TakeBlockIndent(body[1..], rest);
    ListFromMap("- " + body[0], Indent(body[1..]) + rest, body[1..], rest, values);
  }

  lemma ItemRead(v: Value, rest: seq<string>, values: seq<Value>)
    requires PrintableItem(v) && Flush(rest)
    ensures ListFrom(PrintItem(v) + rest, values) ==
      if RereadItem(v).Ok? then ListFrom(rest, values + [RereadItem(v).value]) else Err(RereadItem(v).error)
  {
    if IsScalar(v) {
      hide ListFrom;
      ScalarItemRead(v, rest, values);
    } else {
      hide ListFrom, ParseMapping, PrintMap;
      MapItemRead(v.entries, rest, values);
    }
  }

  lemma PrintListStep(items: seq<Value>)
    requires items != [] && PrintableList(items)
    ensures PrintList(items) == PrintItem(items[0]) + PrintList(items[1..])
    ensures PrintableItem(items[0]) && PrintableList(items[1..]) && Flush(PrintList(items[1..]))
  {
    ListLines(items[1..]);
  }

  lemma RereadListStep(items: seq<Value>, values: seq<Value>)
    requires items != []
    ensures var w := RereadItem(items[0]);
      Prepend(values, RereadList(items)) ==
        if w.Ok? then Prepend(values + [w.value], RereadList(items[1..])) else Err(w.error)
  {
    var w := RereadItem(items[0]);
    if w.Ok? { PrependTwice(values, [w.value], RereadList(items[1..])); }
  }

  lemma ListFromNothing(values: seq<Value>)
    ensures PrintList([]) == [] && ListFrom([], values) == Prepend(values, RereadList([]))
  {
    assert values + [] == values;
  }

  /** The list parser reads a printed list item by item. */
  lemma {:induction false} ListReads(items: seq<Value>, values: seq<Value>)
    requires PrintableList(items)
    ensures ListFrom(PrintList(items), values) == Prepend(values, RereadList(items))
    decreases |items|
  {
    hide *;
    if items == [] {
      ListFromNothing(values);
    } else {
      PrintListStep(items);
      ItemRead(items[0], PrintList(items[1..]), values);
      RereadListStep(items, values);
      if RereadItem(items[0]).Ok? {
        ListReads(items[1..], values + [RereadItem(items[0]).value]);
      }
    }
  }

  // ---- When what is read is what was printed ---------------------------------------------

  lemma PrependNothing<T>(r: Result<seq<T>>)
    ensures Prepend([], r) == r
  {
    if r.Ok? { assert [] + r.value == r.value; }
  }

  lemma MappingRead(entries: Entries)
    requires PrintableMap(entries)
    ensures ParseMapping(JoinLines(PrintMap(entries))) == RereadMap(entries)
  {
    MapLines(entries);
    ReadAsLines(PrintMap(entries));
    assert Fresh(entries, []);
    hide MapFrom, RereadMap;
    MapReads(entries, []);
    PrependNothing(RereadMap(entries));
  }

  lemma MapBlockRead(entries: Entries)
    requires entries != [] && PrintableMap(entries)
    ensures StartsWith(entries[0].key, "- ") ==> Reread(Map(entries)) != Ok(Map(entries))
    ensures !StartsWith(entries[0].key, "- ") ==>
      Reread(Map(entries)) == if RereadMap(entries).Ok? then Ok(Map(RereadMap(entries).value)) else Err(RereadMap(entries).error)
  {
    var block := PrintMap(entries);
    BodyLines(Map(entries));
    StripTrimmed(block[0]);
    MappingRead(entries);
    hide PrintMap, ParseMapping, RereadMap, ListFrom;
    assert Reread(Map(entries)) == ParseBlock(block);
  }

  lemma ListBlockRead(items: seq<Value>)
    requires items != [] && PrintableList(items)
    ensures Reread(List(items)) == if RereadList(items).Ok? then Ok(List(RereadList(items).value)) else Err(RereadList(items).error)
  {
    var block := PrintList(items);
    BodyLines(List(items));
    DashLine(block[0]);
    ListReads(items, []);
    PrependNothing(RereadList(items));
    hide PrintList, ParseMapping, RereadList, ListFrom;
    assert Reread(List(items)) == ParseBlock(block);
  }

  lemma {:induction false} FieldIff(v: Value)
    requires PrintableField(v)
    ensures Reread(v) == Ok(v) <==> DashFreeField(v)
    decreases v, 1
  {
    match v {
      case Map(entries) =>
        MapBlockRead(entries);
        MapIff(entries);
        hide Reread, RereadMap, DashFreeMap;
      case List(items) =>
        ListBlockRead(items);
        ListIff(items);
        hide Reread, RereadList, DashFreeList;
      case _ =>
    }
  }

  lemma {:induction false} MapIff(entries: Entries)
    requires PrintableMap(entries)
    ensures RereadMap(entries) == Ok(entries) <==> DashFreeMap(entries)
    decreases entries, 0
  {
    if entries != [] {
      FieldIff(entries[0].value);
      MapIff(entries[1..]);
      hide Reread, DashFreeField;
      assert entries == [entries[0]] + entries[1..];
      if RereadMap(entries) == Ok(entries) {
        var rest := RereadMap(entries[1..]).value;
        assert entries[1..] == ([Field(entries[0].key, Reread(entries[0].value).value)] + rest)[1..] == rest;
      }
    }
  }

  lemma {:induction false} ListIff(items: seq<Value>)
    requires PrintableList(items)
    ensures RereadList(items) == Ok(items) <==> DashFreeList(items)
    decreases items, 0
  {
    if items != [] {
      ItemIff(items[0]);
      ListIff(items[1..]);
      hide RereadItem, DashFreeItem;
      assert items == [items[0]] + items[1..];
      if RereadList(items) == Ok(items) {
        var rest := RereadList(items[1..]).value;
        assert items[1..] == ([RereadItem(items[0]).value] + rest)[1..] == rest;
      }
    }
  }

  lemma {:induction false} ItemIff(v: Value)
    requires PrintableItem(v)
    ensures RereadItem(v) == Ok(v) <==> DashFreeItem(v)
    decreases v, 1
  {
    if v.Map? {
      MappingRead(v.entries);
      MapIff(v.entries);
      hide RereadMap, DashFreeMap, ParseMapping;
    }
  }

  /** Parsing what was printed gives back the same mapping, keys in the same order, exactly when no
      nested mapping's block looks like a list. */
  lemma RoundTrip(entries: Entries)
    requires PrintableMap(entries)
    ensures ParseMapping(JoinLines(PrintMap(entries))) == Ok(entries) <==> DashFreeMap(entries)
  {
    MappingRead(entries);
    MapIff(entries);
  }

  function Dashed(): Entries { [Field("- x", Num(1))] }

  function Plain(): seq<Value> { [Map([Field("x", Num(1))])] }

  /** A mapping from a dashed key and a list of one mapping print the same line. */
  lemma DashedLooksLikeList()
    ensures Body(Map(Dashed())) == Body(List(Plain())) && PrintableList(Plain()) && DashFreeList(Plain())
  {
    var x := [Field("x", Num(1))];
    assert Dashed()[1..] == [] && Plain()[1..] == [] && x[1..] == [];
    var one := PrintScalar(Num(1));
    assert PrintEntry("- x", Num(1)) == ["- x" + ": " + one] && PrintEntry("x", Num(1)) == ["x" + ": " + one];
    assert PrintMap(Dashed()) == ["- x" + ": " + one] && PrintMap(x) == ["x" + ": " + one];
    assert "- " + ("x" + ": " + one) == "- x" + ": " + one;
    assert GoodKey("x");
  }

  lemma DashedIsPrintable()
    ensures PrintableMap(Dashed()) && GoodKey("k")
  {
    assert Dashed()[1..] == [];
    assert GoodKey("- x") && GoodKey("k");
  }

  /** The smallest mapping that does not survive: its inner mapping comes back as a list of one mapping. */
  lemma DashedKeyIsReadAsList()
    ensures var m := [Field("k", Map(Dashed()))];
      PrintableMap(m) && ParseMapping(JoinLines(PrintMap(m))) == Ok([Field("k", List([Map([Field("x", Num(1))])]))])
  {
    var m := [Field("k", Map(Dashed()))];
    assert m[1..] == [];
    DashedIsPrintable();
    MappingRead(m);
    PlainReadsBack();
    OneField("k", Map(Dashed()));
    hide *;
  }

  lemma PlainReadsBack()
    ensures Reread(Map(Dashed())) == Ok(List([Map([Field("x", Num(1))])]))
  {
    DashedLooksLikeList();
    FieldIff(List(Plain()));
    assert DashFreeField(List(Plain()));
    hide Body, ParseBlock, DashFreeList;
  }

  lemma OneField(key: string, v: Value)
    ensures RereadMap([Field(key, v)]) == if Reread(v).Ok? then Ok([Field(key, Reread(v).value)]) else Err(Reread(v).error)
  {
    assert [Field(key, v)][1..] == [] && RereadMap([]) == Ok([]);
    hide Reread;
    if Reread(v).Ok? { assert [Field(key, Reread(v).value)] + [] == [Field(key, Reread(v).value)]; }
  }
}
