/** What the parser makes of lines that were not printed: plain scalars, repeated keys, blank lines, and each error. */
module FrontmatterPlain {
  import opened Text
  import opened Frontmatter
  import opened FrontmatterPrinter
  import opened FrontmatterRoundTrip

  // ---- Scalars ---------------------------------------------------------------------------

  lemma {:induction false} ColonSpaceIs(s: string)
    ensures HasColonSpace(s) <==> exists i :: 0 <= i && i + 1 < |s| && s[i] == ':' && s[i + 1] == ' '
  {
    if |s| >= 2 {
      ColonSpaceIs(s[1..]);
      assert s[..2] == ": " <==> s[0] == ':' && s[1] == ' ';
      if i :| 0 <= i && i + 1 < |s[1..]| && s[1..][i] == ':' && s[1..][i + 1] == ' ' { assert s[i + 1] == ':' && s[i + 2] == ' '; }
      if i :| 0 <= i && i + 1 < |s| && s[i] == ':' && s[i + 1] == ' ' {
        if i > 0 { assert s[1..][i - 1] == ':' && s[1..][i - 1 + 1] == ' '; }
      }
    }
  }

  /** A plain scalar that is no quoted string, no boolean and no number stands for itself, or is refused for its
      colon. */
  lemma PlainScalar(s: string)
    requires s != "" && !IsSpace(s[0]) && !IsSpace(s[|s| - 1])
    requires !(|s| >= 2 && s[0] == '"' && s[|s| - 1] == '"')
    requires Lower(s) != "true" && Lower(s) != "false"
    requires exists i :: 0 <= i < |s| && !('0' <= s[i] <= '9')
    ensures var refused := s[|s| - 1] == ':' || exists i :: 0 <= i && i + 1 < |s| && s[i] == ':' && s[i + 1] == ' ';
      ParseScalar(s) == if refused then Err(UnsupportedColon) else Ok(Str(s))
  {
    StripTrimmed(s);
    ColonSpaceIs(s);
    var i :| 0 <= i < |s| && !('0' <= s[i] <= '9');
    assert !IsDigit(s[i]);
    hide Strip, Lower, HasColonSpace;
  }

  /** What the other scalars stand for: nothing for the empty string, a boolean in any case, a number in digits, and
      what is between quotes. */
  lemma OtherScalars(raw: string)
    ensures (forall i :: 0 <= i < |raw| ==> IsSpace(raw[i])) ==> ParseScalar(raw) == Ok(Str(""))
    ensures Lower(raw) == "true" ==> ParseScalar(raw) == Ok(Bool(true))
    ensures Lower(raw) == "false" ==> ParseScalar(raw) == Ok(Bool(false))
    ensures raw != "" && (forall i :: 0 <= i < |raw| ==> '0' <= raw[i] <= '9') ==> ParseScalar(raw) == Ok(Num(FromDecimal(raw)))
  {
    StripBlank(raw);
    if Lower(raw) == "true" || Lower(raw) == "false" { WordIsTrimmed(raw); }
    if raw != "" && forall i :: 0 <= i < |raw| ==> '0' <= raw[i] <= '9' {
      assert forall i :: 0 <= i < |raw| ==> IsDigit(raw[i]);
      DigitsAreCharacters(raw);
      StripTrimmed(raw);
    }
    hide Strip, HasColonSpace, FromDecimal, Lower;
  }

  lemma WordIsTrimmed(raw: string)
    requires Lower(raw) == "true" || Lower(raw) == "false"
    ensures Strip(raw) == raw && !IsQuoted(raw) && raw != "" && !(Lower(raw) == "true" && Lower(raw) == "false")
  {
    assert "true"[0] == 't' && "true"[3] == 'e' && "false"[0] == 'f' && "false"[4] == 'e' && |"true"| == 4 && |"false"| == 5;
    assert Lower(raw)[0] == LowerChar(raw[0]) && Lower(raw)[|raw| - 1] == LowerChar(raw[|raw| - 1]);
    StripTrimmed(raw);
    hide Lower, Strip;
  }

  /** Between quotes an escape that is not known keeps its backslash, and so does one at the end. */
  lemma UnknownEscapes(c: char, t: string)
    requires c != 'n' && c != '"' && c != '\\'
    ensures Unescape("\\" + [c] + t) == "\\" + [c] + Unescape(t)
    ensures Unescape("\\") == "\\"
  {
    UnescapePair(c, t);
    assert "\\" + [c] + t == ['\\', c] + t;
  }

  // ---- Lines -------------------------------------------------------------------------------

  lemma NoLines(data: Entries)
    ensures MapFrom([], data) == Ok(data)
  {
  }

  lemma StripPads(before: string, s: string, after: string)
    requires s != "" && !IsSpace(s[0]) && !IsSpace(s[|s| - 1])
    requires (forall i :: 0 <= i < |before| ==> IsSpace(before[i])) && (forall i :: 0 <= i < |after| ==> IsSpace(after[i]))
    ensures Strip(before + s + after) == s
  {
    hide IsSpace;
    StripFront(before, s + after);
    assert before + s + after == before + (s + after);
    StripBack(s, after);
  }

  lemma {:induction false} StripFront(before: string, t: string)
    requires t != "" && !IsSpace(t[0]) && forall i :: 0 <= i < |before| ==> IsSpace(before[i])
    ensures LStrip(before + t) == t
  {
    if before == "" {
      assert before + t == t;
    } else {
      assert (before + t)[1..] == before[1..] + t;
      StripFront(before[1..], t);
    }
  }

  lemma {:induction false} StripBack(s: string, after: string)
    requires s != "" && !IsSpace(s[|s| - 1]) && forall i :: 0 <= i < |after| ==> IsSpace(after[i])
    ensures RStrip(s + after) == s
  {
    if after == "" {
      assert s + after == s;
    } else {
      assert (s + after)[..|s + after| - 1] == s + after[..|after| - 1];
      StripBack(s, after[..|after| - 1]);
    }
  }

  lemma LineParts(key: string, pad: string, tail: string)
    requires GoodKey(key) && ':' !in pad && (forall i :: 0 <= i < |pad| ==> IsSpace(pad[i]) && !IsBreak(pad[i])) && NoBreaks(tail)
    ensures var line := key + pad + ":" + tail;
      && line != "" && GoodLine(line) && !IsSpace(FirstChar(line)) && ':' in line && NoBreaks(line)
      && IndexOf(line, ':') == |key + pad| && line[..|key + pad|] == key + pad && line[|key + pad| + 1..] == tail
  {
    var line := key + pad + ":" + tail;
    var n := |key + pad|;
    assert line[0] == key[0] && line[n] == ':' && line[..n] == key + pad && line[n + 1..] == tail;
    NotBlank(line, 0);
    assert forall k :: 0 <= k < n ==> line[k] == (key + pad)[k] != ':';
    var i := IndexOf(line, ':');
    assert i == n;
    hide IsSpace, IsBreak, IndexOf;
    forall k | 0 <= k < |line| ensures !IsBreak(line[k]) {
      if k > n { assert line[k] == tail[k - n - 1]; }
    }
  }

  /** A line of a key and a value, with any blanks around both, is read as the value its scalar stands for. */
  lemma MappingLine(key: string, pad: string, before: string, s: string, after: string)
    requires GoodKey(key) && s != "" && !IsSpace(s[0]) && !IsSpace(s[|s| - 1]) && NoBreaks(s)
    requires Blanks(pad) && Blanks(before) && Blanks(after)
    ensures ParseMapping(key + pad + ":" + (before + s + after)) ==
      if ParseScalar(s).Ok? then Ok([Field(key, ParseScalar(s).value)]) else Err(ParseScalar(s).error)
  {
    hide *;
    var tail := before + s + after;
    var line := key + pad + ":" + tail;
    TailHasNoBreaks(before, s, after);
    BlanksAre(pad);
    BlanksAre(before);
    BlanksAre(after);
    KeyIs(key);
    LineParts(key, pad, tail);
    StripPads(before, s, after);
    StripPads("", key, pad);
    assert "" + key + pad == key + pad;
    OneLine(line);
    MapFromValue(line, key, s);
  }

  lemma BlanksAre(pad: string)
    requires Blanks(pad)
    ensures ':' !in pad && forall i :: 0 <= i < |pad| ==> IsSpace(pad[i]) && !IsBreak(pad[i])
  {
    hide IsSpace, IsBreak;
  }

  lemma KeyIs(key: string)
    requires GoodKey(key)
    ensures key != "" && !IsSpace(key[0]) && !IsSpace(key[|key| - 1])
  {
    hide IsSpace, NoBreaks;
  }

  lemma TailHasNoBreaks(before: string, s: string, after: string)
    requires Blanks(before) && Blanks(after) && NoBreaks(s)
    ensures NoBreaks(before + s + after)
  {
    hide IsSpace, IsBreak;
  }

  lemma MapFromValue(line: string, key: string, s: string)
    requires GoodLine(line) && !IsSpace(FirstChar(line)) && ':' in line
    requires IndexOf(line, ':') < |line| && key != "" && Strip(line[..IndexOf(line, ':')]) == key && s != ""
    requires Strip(line[IndexOf(line, ':') + 1..]) == s
    ensures MapFrom([line], []) == if ParseScalar(s).Ok? then Ok([Field(key, ParseScalar(s).value)]) else Err(ParseScalar(s).error)
  {
    assert [line][1..] == [];
    hide Strip, ParseScalar, IndexOf, IsSpace;
  }

  /** Blanks that break no line. */
  ghost predicate Blanks(pad: string) {
    forall i :: 0 <= i < |pad| ==> IsSpace(pad[i]) && !IsBreak(pad[i]) && pad[i] != ':'
  }

  lemma OneLine(line: string)
    requires NoBreaks(line) && line != ""
    ensures ParseMapping(line) == MapFrom([line], [])
  {
    NoLineBreak(line);
    hide SplitLines, MapFrom;
  }

  /** The ordinary ticket line: a key and a plain scalar. */
  lemma PlainEntry(key: string, s: string)
    requires key != "" && !IsSpace(key[0]) && !IsSpace(key[|key| - 1]) && ':' !in key && forall i :: 0 <= i < |key| ==> !IsBreak(key[i])
    requires s != "" && !IsSpace(s[0]) && !IsSpace(s[|s| - 1]) && forall i :: 0 <= i < |s| ==> !IsBreak(s[i])
    requires !(|s| >= 2 && s[0] == '"' && s[|s| - 1] == '"')
    requires Lower(s) != "true" && Lower(s) != "false"
    requires exists i :: 0 <= i < |s| && !('0' <= s[i] <= '9')
    ensures var refused := s[|s| - 1] == ':' || exists i :: 0 <= i && i + 1 < |s| && s[i] == ':' && s[i + 1] == ' ';
      ParseMapping(key + ": " + s) == if refused then Err(UnsupportedColon) else Ok([Field(key, Str(s))])
  {
    assert GoodKey(key) && Blanks(" ") && Blanks("");
    assert key + "" + ":" + (" " + s + "") == key + ": " + s;
    hide ParseMapping, ParseScalar, IsSpace, IsBreak, Lower, Blanks;
    PlainScalar(s);
    MappingLine(key, "", " ", s, "");
  }

  /** An item without a colon is read as the value its scalar stands for. */
  lemma PlainItem(s: string)
    requires s != "" && !IsSpace(s[0]) && !IsSpace(s[|s| - 1]) && ':' !in s && forall i :: 0 <= i < |s| ==> !IsBreak(s[i])
    requires !(|s| >= 2 && s[0] == '"' && s[|s| - 1] == '"')
    requires Lower(s) != "true" && Lower(s) != "false"
    requires exists i :: 0 <= i < |s| && !('0' <= s[i] <= '9')
    ensures ListFrom(["- " + s], []) == Ok([Str(s)])
  {
    var line := "- " + s;
    PlainScalar(s);
    StripTrimmed(s);
    NotBlank(line, 0);
    assert line[2..] == s && StartsWith(line, "- ");
    assert TakeBlock([]) == ([], []);
    assert [line] + [] == [line];
    assert [] + [Str(s)] == [Str(s)] && ListFrom([], [Str(s)]) == Ok([Str(s)]);
    hide ListFrom, ParseScalar, Strip, Lower, IsSpace;
    ListFromScalar(line, [], [], [], Str(s));
  }

  lemma PutStep(first: Field, rest: Entries, key: string, w: Value)
    ensures Put([first] + rest, key, w) == if first.key == key then [Field(key, w)] + rest else [first] + Put(rest, key, w)
  {
    assert ([first] + rest)[1..] == rest;
  }

  /** A repeated key keeps its first place and takes the last value. */
  lemma {:induction false} PutAgain(before: Entries, key: string, v: Value, after: Entries, w: Value)
    requires forall i :: 0 <= i < |before| ==> before[i].key != key
    ensures Put(before + [Field(key, v)] + after, key, w) == before + [Field(key, w)] + after
  {
    hide Put;
    if before == [] {
      assert before + [Field(key, v)] + after == [Field(key, v)] + after;
      PutStep(Field(key, v), after, key, w);
    } else {
      var rest := before[1..] + [Field(key, v)] + after;
      assert before + [Field(key, v)] + after == [before[0]] + rest;
      PutStep(before[0], rest, key, w);
      PutAgain(before[1..], key, v, after, w);
      assert before == [before[0]] + before[1..];
    }
  }

  /** Blank lines are passed over everywhere. */
  lemma BlankLines(line: string, rest: seq<string>, data: Entries, values: seq<Value>)
    requires forall i :: 0 <= i < |line| ==> IsSpace(line[i])
    ensures MapFrom([line] + rest, data) == MapFrom(rest, data)
    ensures ListFrom([line] + rest, values) == ListFrom(rest, values)
    ensures TakeBlock([line] + rest) == TakeBlock(rest)
  {
    StripBlank(line);
    assert ([line] + rest)[1..] == rest;
    hide Strip, ParseScalar, Put, IsSpace;
  }

  /** The errors of the mapping parser: an indented line, a line without a colon, a line without a key. */
  lemma MappingErrors(line: string, rest: seq<string>, data: Entries)
    requires exists i :: 0 <= i < |line| && !IsSpace(line[i])
    ensures IsSpace(line[0]) ==> MapFrom([line] + rest, data) == Err(UnexpectedIndentation)
    ensures !IsSpace(line[0]) && ':' !in line ==> MapFrom([line] + rest, data) == Err(ExpectedKeyValue)
    ensures line[0] == ':' ==> MapFrom([line] + rest, data) == Err(MissingKey)
  {
    StripBlank(line);
    if line[0] == ':' {
      assert !IsSpace(':') && line[..0] == "" && Strip("") == "";
      assert IndexOf(line, ':') == 0;
    }
    hide Strip, ParseScalar, Put, IsSpace, IndexOf;
  }

  /** The errors of the list parser: a line that starts with no dash and blank, or has blanks in front, and an item
      without a colon that has a block below it. */
  lemma ListErrors(line: string, rest: seq<string>, values: seq<Value>)
    requires exists i :: 0 <= i < |line| && !IsSpace(line[i])
    ensures !(|line| >= 2 && line[0] == '-' && line[1] == ' ') ==> ListFrom([line] + rest, values) == Err(MixedListIndentation)
    ensures |line| >= 2 && line[0] == '-' && line[1] == ' ' && ':' !in line && TakeBlock(rest).0 != [] ==>
      ListFrom([line] + rest, values) == Err(NestedBlockWithoutKey)
  {
    StripBlank(line);
    assert ([line] + rest)[1..] == rest;
    assert StartsWith(line, "- ") <==> |line| >= 2 && line[0] == '-' && line[1] == ' ' by {
      if |line| >= 2 { assert line[..2] == [line[0], line[1]]; }
    }
    if StartsWith(line, "- ") && ':' !in line {
      DashLine(line);
      NoColonInside(line);
    }
    hide Strip, LStrip, ParseScalar, IsSpace, TakeBlock, StartsWith;
  }

  lemma NoColonInside(line: string)
    requires |line| >= 2 && ':' !in line
    ensures ':' !in Strip(line[2..])
  {
    var i := StripIs(line[2..]);
    hide Strip;
    var t := Strip(line[2..]);
    assert forall k :: 0 <= k < |t| ==> t[k] == line[2..][i..i + |t|][k] == line[2 + i + k];
  }

  /** A block whose first line has a dash and a blank, after whatever blanks, is read as a list; so more than two
      blanks in front of the dash are an error of the list. */
  lemma DashedBlock(pad: string, t: string, rest: seq<string>)
    requires forall i :: 0 <= i < |pad| ==> IsSpace(pad[i])
    ensures pad != "" ==> ParseBlock([pad + "- " + t] + rest) == Err(MixedListIndentation)
    ensures pad == "" ==> var items := ListFrom(["- " + t] + rest, []);
      ParseBlock(["- " + t] + rest) == if items.Ok? then Ok(List(items.value)) else Err(items.error)
  {
    var line := pad + "- " + t;
    assert line == pad + ("- " + t) && ("- " + t)[..2] == "- ";
    StripFront(pad, "- " + t);
    if pad == "" {
      assert line == "- " + t;
    } else {
      assert line[0] == pad[0] && line[|pad|] == '-' && !IsSpace('-');
      NotDashed(line, rest);
    }
    hide LStrip, Strip, ListFrom, IsSpace, ParseMapping;
    assert ([line] + rest)[0] == line;
  }

  lemma NotDashed(line: string, rest: seq<string>)
    requires line != "" && IsSpace(line[0]) && exists i :: 0 <= i < |line| && !IsSpace(line[i])
    ensures ListFrom([line] + rest, []) == Err(MixedListIndentation)
  {
    assert !IsSpace('-');
    hide IsSpace;
    ListErrors(line, rest, []);
  }
}
