/** A printer for the values the portable frontmatter format can hold, and the shape of what it prints.
    The printer belongs to the specification. */
module FrontmatterPrinter {
  import opened Text
  import opened Frontmatter

  // ---- Printing -----------------------------------------------------------------

  function EscapeChar(c: char): string {
    if c == '\n' then "\\n" else if c == '"' then "\\\"" else if c == '\\' then "\\\\" else [c]
  }

  function Escape(s: string): string {
    if s == [] then [] else EscapeChar(s[0]) + Escape(s[1..])
  }

  predicate IsScalar(v: Value) { v.Str? || v.Bool? || v.Num? }

  function PrintScalar(v: Value): string
    requires IsScalar(v)
  {
    match v
    case Str(s) => "\"" + Escape(s) + "\""
    case Bool(b) => if b then "true" else "false"
    case Num(n) => Decimal(n)
  }

  function Indent(lines: seq<string>): (r: seq<string>)
    ensures |r| == |lines|
  {
    if lines == [] then [] else ["  " + lines[0]] + Indent(lines[1..])
  }

  function PrintMap(entries: Entries): (r: seq<string>)
    ensures entries != [] ==> r != []
    decreases entries, 0
  {
    if entries == [] then [] else PrintEntry(entries[0].key, entries[0].value) + PrintMap(entries[1..])
  }

  function PrintEntry(key: string, v: Value): (r: seq<string>)
    ensures r != []
    decreases v, 1
  {
    match v
    case Null => [key + ":"]
    case Map(entries) => [key + ":"] + Indent(PrintMap(entries))
    case List(items) => [key + ":"] + Indent(PrintList(items))
    case _ => [key + ": " + PrintScalar(v)]
  }

  function PrintList(items: seq<Value>): seq<string>
    decreases items, 0
  {
    if items == [] then [] else PrintItem(items[0]) + PrintList(items[1..])
  }

  /** A mapping starts on the line of its dash. */
  function PrintItem(v: Value): seq<string>
    decreases v, 1
  {
    match v
    case Map(entries) =>
      var lines := PrintMap(entries);
      if lines == [] then [] else ["- " + lines[0]] + Indent(lines[1..])
    case List(_) => []
    case Null => []
    case _ => ["- " + PrintScalar(v)]
  }

  // ---- What can be printed --------------------------------------------------------

  ghost predicate GoodKey(key: string) {
    key != "" && Trimmed(key) && ':' !in key && NoBreaks(key)
  }

  /** A line break other than the newline has no escape, and would split the line. */
  ghost predicate GoodString(s: string) {
    forall i :: 0 <= i < |s| ==> IsBreak(s[i]) ==> s[i] == '\n'
  }

  ghost predicate HasKey(entries: Entries, key: string) {
    exists i :: 0 <= i < |entries| && entries[i].key == key
  }

  ghost predicate PrintableMap(entries: Entries)
    decreases entries, 0
  {
    entries != [] ==>
      && GoodKey(entries[0].key) && !HasKey(entries[1..], entries[0].key)
      && PrintableField(entries[0].value) && PrintableMap(entries[1..])
  }

  /** A value under a key; an empty mapping or list has no printed form there. */
  ghost predicate PrintableField(v: Value)
    decreases v, 1
  {
    match v
    case Str(s) => GoodString(s)
    case Map(entries) => entries != [] && PrintableMap(entries)
    case List(items) => items != [] && PrintableList(items)
    case _ => true
  }

  ghost predicate PrintableList(items: seq<Value>)
    decreases items, 0
  {
    items != [] ==> PrintableItem(items[0]) && PrintableList(items[1..])
  }

  /** A list item. Any colon in it means a mapping, and a list cannot directly hold a list or a null. */
  ghost predicate PrintableItem(v: Value)
    decreases v, 1
  {
    match v
    case Str(s) => GoodString(s) && ':' !in s
    case Map(entries) => entries != [] && PrintableMap(entries)
    case List(_) => false
    case Null => false
    case _ => true
  }

  /** No mapping under a key has a first key that starts with "- ": its block would look like a list.
      A mapping that is a list item is not affected. */
  ghost predicate DashFreeMap(entries: Entries)
    decreases entries, 0
  {
    entries != [] ==> DashFreeField(entries[0].value) && DashFreeMap(entries[1..])
  }

  ghost predicate DashFreeField(v: Value)
    decreases v, 1
  {
    match v
    case Map(entries) => entries != [] && !StartsWith(entries[0].key, "- ") && DashFreeMap(entries)
    case List(items) => DashFreeList(items)
    case _ => true
  }

  ghost predicate DashFreeList(items: seq<Value>)
    decreases items, 0
  {
    items != [] ==> DashFreeItem(items[0]) && DashFreeList(items[1..])
  }

  ghost predicate DashFreeItem(v: Value)
    decreases v, 1
  {
    v.Map? ==> DashFreeMap(v.entries)
  }

  // ---- Scalars read back ------------------------------------------------------------

  lemma {:induction false} UnescapeEscape(s: string)
    ensures Unescape(Escape(s)) == s
  {
    if s != [] {
      var t := Escape(s[1..]);
      UnescapeEscape(s[1..]);
      if s[0] == '\n' {
        UnescapePair('n', t);
        assert "\\n" == ['\\', 'n'];
      } else if s[0] == '"' {
        UnescapePair('"', t);
        assert "\\\"" == ['\\', '"'];
      } else if s[0] == '\\' {
        UnescapePair('\\', t);
        assert "\\\\" == ['\\', '\\'];
      } else {
        UnescapePlain(s[0], t);
      }
    }
  }

  lemma {:induction false} EscapeIsClean(s: string)
    requires GoodString(s)
    ensures NoBreaks(Escape(s))
    ensures ':' !in s ==> ':' !in Escape(s)
  {
    if s != [] { EscapeIsClean(s[1..]); }
  }

  lemma DigitsAreCharacters(s: string)
    requires AllDigits(s)
    ensures NoBreaks(s) && Trimmed(s) && ':' !in s && !IsQuoted(s)
    ensures Lower(s) != "true" && Lower(s) != "false"
  {
    assert IsDigit(s[0]) && IsDigit(s[|s| - 1]);
    assert Lower(s)[0] == LowerChar(s[0]);
    assert "true"[0] == 't' && "false"[0] == 'f';
  }

  lemma ScalarShape(v: Value)
    requires IsScalar(v) && (v.Str? ==> GoodString(v.s))
    ensures var p := PrintScalar(v);
      && p != "" && Trimmed(p) && NoBreaks(p)
      && (!v.Str? || ':' !in v.s ==> ':' !in p)
  {
    match v {
      case Str(s) => EscapeIsClean(s);
      case Bool(b) =>
      case Num(n) => DigitsAreCharacters(Decimal(n));
    }
  }

  lemma ScalarReadBack(v: Value)
    requires IsScalar(v) && (v.Str? ==> GoodString(v.s))
    ensures ParseScalar(PrintScalar(v)) == Ok(v)
  {
    var p := PrintScalar(v);
    ScalarShape(v);
    StripTrimmed(p);
    match v {
      case Str(s) =>
        assert p[1..|p| - 1] == Escape(s);
        UnescapeEscape(s);
      case Bool(b) =>
        assert Lower("true") == "true" && Lower("false") == "false";
        assert "false"[0] != "true"[0];
      case Num(n) =>
        DigitsAreCharacters(p);
        DecimalRoundTrip(n);
    }
  }

  // ---- The shape of printed lines -----------------------------------------------------

  /** Not blank and in one piece. */
  ghost predicate GoodLine(line: string) {
    NoBreaks(line) && !IsBlank(line)
  }

  ghost predicate GoodLines(lines: seq<string>) {
    forall i :: 0 <= i < |lines| ==> GoodLine(lines[i])
  }

  /** The first line, if any, is not indented: it ends a block and starts an entry or an item. */
  ghost predicate Flush(lines: seq<string>) {
    lines != [] ==> lines[0] != "" && !IsSpace(lines[0][0])
  }

  lemma NotBlank(line: string, i: nat)
    requires i < |line| && !IsSpace(line[i])
    ensures !IsBlank(line)
  {
    StripBlank(line);
  }

  lemma {:induction false} IndentGood(lines: seq<string>)
    requires GoodLines(lines)
    ensures GoodLines(Indent(lines))
  {
    if lines != [] {
      var l := lines[0];
      StripBlank(l);
      var i :| 0 <= i < |l| && !IsSpace(l[i]);
      assert ("  " + l)[i + 2] == l[i];
      NotBlank("  " + l, i + 2);
      IndentGood(lines[1..]);
    }
  }

  lemma JoinGood(a: seq<string>, b: seq<string>)
    requires GoodLines(a) && GoodLines(b)
    ensures GoodLines(a + b)
  {
  }

  lemma KeyLine(key: string, tail: string)
    requires GoodKey(key) && NoBreaks(tail)
    ensures var line := key + ":" + tail;
      GoodLine(line) && !IsSpace(line[0]) && IndexOf(line, ':') == |key| && line[..|key|] == key && line[|key| + 1..] == tail
    ensures StartsWith(key + ":" + tail, "- ") == StartsWith(key, "- ")
  {
    var line := key + ":" + tail;
    assert line[0] == key[0];
    NotBlank(line, 0);
    var i := IndexOf(line, ':');
    assert line[|key|] == ':' && line[..|key|] == key && ':' in line;
    assert i == |key| by { assert forall k :: 0 <= k < |key| ==> line[k] == key[k]; }
    assert |key| == 1 ==> line[..2][1] == ':' && "- "[1] == ' ';
    if |key| >= 2 { assert key[..2] == line[..2]; }
  }

  lemma {:induction false} EntryLines(key: string, v: Value)
    requires GoodKey(key) && PrintableField(v)
    ensures GoodLines(PrintEntry(key, v)) && Flush(PrintEntry(key, v))
    ensures Trimmed(PrintEntry(key, v)[0]) && ':' in PrintEntry(key, v)[0]
    ensures StartsWith(PrintEntry(key, v)[0], "- ") == StartsWith(key, "- ")
    decreases v, 1
  {
    if IsScalar(v) {
      var p := PrintScalar(v);
      ScalarShape(v);
      KeyLine(key, " " + p);
      assert key + ": " + p == key + ":" + (" " + p);
    } else {
      KeyLine(key, "");
      assert key + ":" + "" == key + ":";
      match v {
        case Null =>
        case Map(entries) =>
          MapLines(entries);
          IndentGood(PrintMap(entries));
        case List(items) =>
          ListLines(items);
          IndentGood(PrintList(items));
      }
    }
  }

  lemma {:induction false} MapLines(entries: Entries)
    requires PrintableMap(entries)
    ensures GoodLines(PrintMap(entries)) && Flush(PrintMap(entries))
    ensures entries != [] ==> Trimmed(PrintMap(entries)[0]) && ':' in PrintMap(entries)[0]
    ensures entries != [] ==> StartsWith(PrintMap(entries)[0], "- ") == StartsWith(entries[0].key, "- ")
    decreases entries, 0
  {
    if entries != [] {
      EntryLines(entries[0].key, entries[0].value);
      MapLines(entries[1..]);
      JoinGood(PrintEntry(entries[0].key, entries[0].value), PrintMap(entries[1..]));
    }
  }

  lemma {:induction false} ItemLines(v: Value)
    requires PrintableItem(v)
    ensures PrintItem(v) != [] && GoodLines(PrintItem(v)) && StartsWith(PrintItem(v)[0], "- ")
    decreases v, 1
  {
    if IsScalar(v) {
      ScalarShape(v);
      NotBlank("- " + PrintScalar(v), 0);
    } else {
      var lines := PrintMap(v.entries);
      MapLines(v.entries);
      NotBlank("- " + lines[0], 0);
      assert GoodLines(lines[1..]);
      IndentGood(lines[1..]);
      JoinGood(["- " + lines[0]], Indent(lines[1..]));
    }
  }

  lemma {:induction false} ListLines(items: seq<Value>)
    requires PrintableList(items)
    ensures GoodLines(PrintList(items)) && Flush(PrintList(items))
    ensures items != [] ==> PrintList(items) != [] && StartsWith(PrintList(items)[0], "- ")
    decreases items, 0
  {
    if items != [] {
      ItemLines(items[0]);
      ListLines(items[1..]);
      JoinGood(PrintItem(items[0]), PrintList(items[1..]));
      assert PrintItem(items[0])[0][..2][0] == '-';
    }
  }

  lemma TakeBlockStep(line: string, rest: seq<string>)
    requires GoodLine(line)
    ensures TakeBlock(["  " + line] + rest) == ([line] + TakeBlock(rest).0, TakeBlock(rest).1)
  {
    var l := "  " + line;
    StripBlank(line);
    var i :| 0 <= i < |line| && !IsSpace(line[i]);
    assert l[i + 2] == line[i];
    NotBlank(l, i + 2);
    assert l[..2] == "  " && l[2..] == line;
    assert ([l] + rest)[1..] == rest;
  }

  lemma TakeBlockStops(rest: seq<string>)
    requires Flush(rest)
    ensures TakeBlock(rest) == ([], rest)
  {
    if rest != [] {
      NotBlank(rest[0], 0);
      assert |rest[0]| >= 2 ==> rest[0][..2][0] == rest[0][0];
    }
  }

  /** The block collector undoes the indentation and stops at the next flush line. */
  lemma {:induction false} TakeBlockIndent(lines: seq<string>, rest: seq<string>)
    requires GoodLines(lines) && Flush(rest)
    ensures TakeBlock(Indent(lines) + rest) == (lines, rest)
  {
    if lines == [] {
      assert Indent(lines) + rest == rest;
      TakeBlockStops(rest);
    } else {
      assert GoodLine(lines[0]) && Indent(lines) + rest == ["  " + lines[0]] + (Indent(lines[1..]) + rest);
      assert [lines[0]] + lines[1..] == lines;
      assert GoodLines(lines[1..]);
      hide *;
      TakeBlockIndent(lines[1..], rest);
      TakeBlockStep(lines[0], Indent(lines[1..]) + rest);
    }
  }

  lemma ReadAsLines(lines: seq<string>)
    requires GoodLines(lines)
    ensures SplitLines(JoinLines(lines)) == lines
  {
    forall i | 0 <= i < |lines| ensures lines[i] != [] && NoBreaks(lines[i]) {
      assert GoodLine(lines[i]);
    }
    SplitJoin(lines);
  }
}
