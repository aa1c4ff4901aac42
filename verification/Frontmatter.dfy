/** The portable ticket frontmatter parser: a small YAML subset with nested mappings and lists, and a
    printer that it inverts. */
module Frontmatter {
  import opened Text

  /** A mapping keeps its keys in insertion order, as a Python dict does. */
  datatype Value =
    | Str(s: string)
    | Bool(b: bool)
    | Num(n: nat)
    | Null
    | Map(entries: seq<Field>)
    | List(items: seq<Value>)

  datatype Field = Field(key: string, value: Value)

  datatype ParseError =
    | UnexpectedIndentation
    | ExpectedKeyValue
    | MissingKey
    | UnsupportedColon
    | MixedListIndentation
    | NestedBlockWithoutKey

  datatype Result<+T> = Ok(value: T) | Err(error: ParseError) {
    predicate IsFailure() { Err? }

    function PropagateFailure<U>(): Result<U>
      requires Err?
    {
      Err(error)
    }

    function Extract(): T
      requires Ok?
    {
      value
    }
  }

  type Entries = seq<Field>

  // ---- Scalars -----------------------------------------------------------------

  function Unescape(inner: string): string {
    if inner == [] then []
    else if inner[0] != '\\' then [inner[0]] + Unescape(inner[1..])
    else if |inner| == 1 then "\\"
    else if inner[1] == 'n' then "\n" + Unescape(inner[2..])
    else if inner[1] == '"' then "\"" + Unescape(inner[2..])
    else if inner[1] == '\\' then "\\" + Unescape(inner[2..])
    else "\\" + [inner[1]] + Unescape(inner[2..])
  }

  lemma UnescapePlain(c: char, t: string)
    requires c != '\\'
    ensures Unescape([c] + t) == [c] + Unescape(t)
  {
    assert ([c] + t)[1..] == t;
  }

  /** What an escape sequence stands for; an unknown one stands for itself. */
  function Decoded(c: char): string {
    if c == 'n' then "\n" else if c == '"' then "\"" else if c == '\\' then "\\" else "\\" + [c]
  }

  lemma UnescapePair(c: char, t: string)
    ensures Unescape(['\\', c] + t) == Decoded(c) + Unescape(t)
  {
    assert (['\\', c] + t)[2..] == t;
  }

  /** `_unescape_double_quoted_yaml_scalar` */
  method UnescapeScalar(inner: string) returns (out: string)
    ensures out == Unescape(inner)
  {
    out := [];
    var i := 0;
    while i < |inner|
      invariant 0 <= i <= |inner|
      invariant out + Unescape(inner[i..]) == Unescape(inner)
    {
      hide *;
      var ch := inner[i];
      assert inner[i..] == [ch] + inner[i + 1..];
      if ch != '\\' {
        UnescapePlain(ch, inner[i + 1..]);
        Reassociate(out, [ch], Unescape(inner[i + 1..]));
        out := out + [ch];
        i := i + 1;
        continue;
      }
      if i + 1 >= |inner| {
        LoneBackslash();
        assert inner[i..] == "\\";
        out := out + "\\";
        return;
      }
      var next := inner[i + 1];
      assert inner[i..] == ['\\', next] + inner[i + 2..];
      UnescapePair(next, inner[i + 2..]);
      DecodedCases(next);
      Reassociate(out, Decoded(next), Unescape(inner[i + 2..]));
      ghost var extended := out + Decoded(next);
      if next == 'n' {
        out := out + "\n";
      } else if next == '"' {
        out := out + "\"";
      } else if next == '\\' {
        out := out + "\\";
      } else {
        out := out + ("\\" + [next]);
      }
      assert out == extended;
      i := i + 2;
    }
  }

  lemma Reassociate(a: string, b: string, c: string)
    ensures a + (b + c) == (a + b) + c
  {
  }

  lemma LoneBackslash()
    ensures Unescape("\\") == "\\"
  {
  }

  lemma DecodedCases(c: char)
    ensures Decoded(c) == if c == 'n' then "\n" else if c == '"' then "\"" else if c == '\\' then "\\" else "\\" + [c]
  {
  }

  predicate HasColonSpace(s: string) {
    |s| >= 2 && (s[..2] == ": " || HasColonSpace(s[1..]))
  }

  predicate IsQuoted(s: string) {
    |s| >= 2 && s[0] == '"' && s[|s| - 1] == '"'
  }

  /** `_parse_scalar` */
  function ParseScalar(raw: string): Result<Value> {
    var value := Strip(raw);
    if value == "" then Ok(Str(""))
    else if IsQuoted(value) then Ok(Str(Unescape(value[1..|value| - 1])))
    else if Lower(value) == "true" then Ok(Bool(true))
    else if Lower(value) == "false" then Ok(Bool(false))
    else if AllDigits(value) then Ok(Num(FromDecimal(value)))
    else if HasColonSpace(value) || value[|value| - 1] == ':' then Err(UnsupportedColon)
    else Ok(Str(value))
  }

  // ---- Mappings and lists ---------------------------------------------------------

  predicate IsBlank(line: string) { Strip(line) == "" }

  /** `data[key] = value` on a Python dict. */
  function Put(data: Entries, key: string, value: Value): Entries {
    if data == [] then [Field(key, value)]
    else if data[0].key == key then [Field(key, value)] + data[1..]
    else [data[0]] + Put(data[1..], key, value)
  }

  /** The indented lines that follow, without their two spaces, and the lines after them; blank lines
      are dropped on the way. */
  function TakeBlock(lines: seq<string>): (r: (seq<string>, seq<string>))
    ensures Weight(r.0) + Weight(r.1) <= Weight(lines)
  {
    if lines == [] then ([], [])
    else if IsBlank(lines[0]) then TakeBlock(lines[1..])
    else if !StartsWith(lines[0], "  ") then ([], lines)
    else
      var (block, rest) := TakeBlock(lines[1..]);
      ([lines[0][2..]] + block, rest)
  }

  predicate IsListBlock(block: seq<string>)
    requires block != []
  {
    StartsWith(LStrip(block[0]), "- ")
  }

  /** `_parse_simple_yaml_mapping` */
  function ParseMapping(text: string): Result<Entries>
    decreases |text| + 1, 1
  {
    SplitWeight(text);
    MapFrom(SplitLines(text), [])
  }

  /** The mapping parser from some line on, with the keys read so far. */
  function MapFrom(lines: seq<string>, data: Entries): Result<Entries>
    decreases Weight(lines), 0
  {
    if lines == [] then Ok(data)
    else
      var line := lines[0];
      if IsBlank(line) then MapFrom(lines[1..], data)
      else if IsSpace(FirstChar(line)) then Err(UnexpectedIndentation)
      else if ':' !in line then Err(ExpectedKeyValue)
      else
        var i := IndexOf(line, ':');
        var key := Strip(line[..i]);
        var value := Strip(line[i + 1..]);
        if key == "" then Err(MissingKey)
        else if value != "" then
          var v :- ParseScalar(value);
          MapFrom(lines[1..], Put(data, key, v))
        else
          var (block, rest) := TakeBlock(lines[1..]);
          var v :- ParseBlock(block);
          MapFrom(rest, Put(data, key, v))
  }

  /** The value of a key with nothing after its colon. */
  function ParseBlock(block: seq<string>): Result<Value>
    decreases Weight(block), 2
  {
    if block == [] then Ok(Null)
    else if IsListBlock(block) then
      var items :- ListFrom(block, []);
      Ok(List(items))
    else
      JoinWeight(block);
      var entries :- ParseMapping(JoinLines(block));
      Ok(Map(entries))
  }

  /** `_parse_simple_yaml_list`, from some line on, with the items read so far. */
  function ListFrom(lines: seq<string>, values: seq<Value>): Result<seq<Value>>
    decreases Weight(lines), 0
  {
    if lines == [] then Ok(values)
    else
      var line := lines[0];
      if IsBlank(line) then ListFrom(lines[1..], values)
      else if LStrip(line) != line || !StartsWith(line, "- ") then Err(MixedListIndentation)
      else
        var item := Strip(line[2..]);
        var (children, rest) := TakeBlock(lines[1..]);
        if ':' in item then
          JoinWeight([item] + children);
          assert Weight([item] + children) < Weight(lines) by { assert ([item] + children)[1..] == children; }
          var entries :- ParseMapping(JoinLines([item] + children));
          ListFrom(rest, values + [Map(entries)])
        else if children == [] then
          var v :- ParseScalar(item);
          ListFrom(rest, values + [v])
        else Err(NestedBlockWithoutKey)
  }

  /** The first character of a line that is not blank. */
  function FirstChar(line: string): char
    requires !IsBlank(line)
  {
    line[0]
  }

  // ---- The loops -------------------------------------------------------------------

  lemma IndentedLine(line: string)
    requires StartsWith(line, "  ")
    ensures |line| >= 2
  {
  }

  lemma TakeBlockEnd(lines: seq<string>)
    ensures TakeBlock(lines[|lines|..]) == ([], [])
  {
  }

  /** What one line adds to the block. */
  lemma TakeBlockAt(lines: seq<string>, i: nat)
    requires i < |lines|
    ensures TakeBlock(lines[i..]) ==
      if IsBlank(lines[i]) then TakeBlock(lines[i + 1..])
      else if !StartsWith(lines[i], "  ") then ([], lines[i..])
      else ([lines[i][2..]] + TakeBlock(lines[i + 1..]).0, TakeBlock(lines[i + 1..]).1)
  {
    assert lines[i..][0] == lines[i] && lines[i..][1..] == lines[i + 1..];
  }

  /** The inner loop both parsers share: collect the indented lines from idx on. */
  method CollectBlock(lines: seq<string>, start: nat) returns (block: seq<string>, idx: nat)
    requires start <= |lines|
    ensures start <= idx <= |lines|
    ensures TakeBlock(lines[start..]) == (block, lines[idx..])
  {
    hide *;
    block, idx := [], start;
    while idx < |lines|
      invariant start <= idx <= |lines|
      invariant TakeBlock(lines[start..]).0 == block + TakeBlock(lines[idx..]).0
      invariant TakeBlock(lines[start..]).1 == TakeBlock(lines[idx..]).1
    {
      var child := lines[idx];
      TakeBlockAt(lines, idx);
      if IsBlank(child) {
        idx := idx + 1;
        continue;
      }
      if !StartsWith(child, "  ") {
        assert block + [] == block;
        return;
      }
      IndentedLine(child);
      block := block + [child[2..]];
      idx := idx + 1;
    }
    TakeBlockEnd(lines);
    assert block + [] == block && lines[idx..] == [];
  }

  method ParseSimpleYamlMapping(text: string) returns (result: Result<Entries>)
    ensures result == ParseMapping(text)
    decreases |text| + 1, 1
  {
    var data: Entries := [];
    var lines := SplitLines(text);
    SplitWeight(text);
    var idx := 0;
    assert lines[0..] == lines;
    while idx < |lines|
      invariant 0 <= idx <= |lines|
      invariant MapFrom(lines[idx..], data) == MapFrom(lines, [])
      invariant Weight(lines[idx..]) <= |text| + 1
    {
      var line := lines[idx];
      assert lines[idx..][0] == line && lines[idx..][1..] == lines[idx + 1..];
      if IsBlank(line) {
        idx := idx + 1;
        continue;
      }
      if IsSpace(line[0]) { return Err(UnexpectedIndentation); }
      if ':' !in line { return Err(ExpectedKeyValue); }
      var i := IndexOf(line, ':');
      var key := Strip(line[..i]);
      if key == "" { return Err(MissingKey); }
      var value := Strip(line[i + 1..]);
      if value != "" {
        var v :- ParseScalar(value);
        data := Put(data, key, v);
        idx := idx + 1;
        continue;
      }
      var block, next := CollectBlock(lines, idx + 1);
      idx := next;
      if block == [] {
        data := Put(data, key, Null);
        continue;
      }
      if IsListBlock(block) {
        var items :- ParseSimpleYamlList(block);
        data := Put(data, key, List(items));
        continue;
      }
      JoinWeight(block);
      var entries :- ParseSimpleYamlMapping(JoinLines(block));
      data := Put(data, key, Map(entries));
    }
    assert lines[idx..] == [];
    return Ok(data);
  }

  method ParseSimpleYamlList(lines: seq<string>) returns (result: Result<seq<Value>>)
    ensures result == ListFrom(lines, [])
    decreases Weight(lines), 0
  {
    var values: seq<Value> := [];
    var idx := 0;
    assert lines[0..] == lines;
    while idx < |lines|
      invariant 0 <= idx <= |lines|
      invariant ListFrom(lines[idx..], values) == ListFrom(lines, [])
      invariant Weight(lines[idx..]) <= Weight(lines)
    {
      var line := lines[idx];
      assert lines[idx..][0] == line && lines[idx..][1..] == lines[idx + 1..];
      if IsBlank(line) {
        idx := idx + 1;
        continue;
      }
      if LStrip(line) != line || !StartsWith(line, "- ") { return Err(MixedListIndentation); }
      var item := Strip(line[2..]);
      var children, next := CollectBlock(lines, idx + 1);
      if ':' in item {
        JoinWeight([item] + children);
        assert Weight([item] + children) < Weight(lines[idx..]) by { assert ([item] + children)[1..] == children; }
        var entries :- ParseSimpleYamlMapping(JoinLines([item] + children));
        values := values + [Map(entries)];
        idx := next;
        continue;
      }
      idx := next;
      if children == [] {
        var v :- ParseScalar(item);
        values := values + [v];
        continue;
      }
      return Err(NestedBlockWithoutKey);
    }
    assert lines[idx..] == [];
    return Ok(values);
  }
}
