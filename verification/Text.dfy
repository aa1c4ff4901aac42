/** Python string behaviour the models rely on: code-point order, whitespace, decimal digits. */
module Text {

  /** Python's `<=` on strings: code point by code point, a prefix first. */
  predicate LexLe(a: string, b: string) {
    if a == [] then true
    else if b == [] then false
    else if a[0] != b[0] then a[0] < b[0]
    else LexLe(a[1..], b[1..])
  }

  lemma {:induction false} LexTotal(a: string, b: string)
    ensures LexLe(a, b) || LexLe(b, a)
  {
    if a != [] && b != [] && a[0] == b[0] { LexTotal(a[1..], b[1..]); }
  }

  lemma {:induction false} LexAntisymmetric(a: string, b: string)
    requires LexLe(a, b) && LexLe(b, a)
    ensures a == b
  {
    if a != [] {
      LexAntisymmetric(a[1..], b[1..]);
      assert a == [a[0]] + a[1..] && b == [b[0]] + b[1..];
    }
  }

  lemma {:induction false} LexTransitive(a: string, b: string, c: string)
    requires LexLe(a, b) && LexLe(b, c)
    ensures LexLe(a, c)
  {
    if a != [] && a[0] == b[0] == c[0] { LexTransitive(a[1..], b[1..], c[1..]); }
  }

  lemma LexIsOrder()
    ensures forall a, b :: LexLe(a, b) || LexLe(b, a)
    ensures forall a, b :: LexLe(a, b) && LexLe(b, a) ==> a == b
    ensures forall a, b, c :: LexLe(a, b) && LexLe(b, c) ==> LexLe(a, c)
  {
    forall a, b ensures LexLe(a, b) || LexLe(b, a) { LexTotal(a, b); }
    forall a, b | LexLe(a, b) && LexLe(b, a) ensures a == b { LexAntisymmetric(a, b); }
    forall a, b, c | LexLe(a, b) && LexLe(b, c) ensures LexLe(a, c) { LexTransitive(a, b, c); }
  }

  /** Below means a proper or improper prefix, or a smaller character at the first difference. */
  lemma {:induction false} LexLeIs(a: string, b: string)
    ensures LexLe(a, b) <==> a <= b || exists k :: 0 <= k < |a| && k < |b| && a[..k] == b[..k] && a[k] < b[k]
  {
    if a != [] && b != [] && a[0] == b[0] {
      LexLeIs(a[1..], b[1..]);
      if LexLe(a, b) && !(a <= b) {
        var k :| 0 <= k < |a[1..]| && k < |b[1..]| && a[1..][..k] == b[1..][..k] && a[1..][k] < b[1..][k];
        assert a[..k + 1] == [a[0]] + a[1..][..k] && b[..k + 1] == [b[0]] + b[1..][..k];
      }
      if k :| 0 <= k < |a| && k < |b| && a[..k] == b[..k] && a[k] < b[k] {
        assert a[..k][0] == a[0];
        assert a[1..][..k - 1] == a[..k][1..] && b[1..][..k - 1] == b[..k][1..];
      }
    } else if a != [] && b != [] && a[0] != b[0] {
      assert a[..0] == b[..0];
      if k :| 0 <= k < |a| && k < |b| && a[..k] == b[..k] && a[k] < b[k] {
        if k > 0 { assert a[..k][0] == b[..k][0]; }
      }
    }
  }

  // ---- Whitespace and lines -----------------------------------------------------

  /** `str.isspace` for one character. */
  predicate IsSpace(c: char) {
    var n := c as int;
    9 <= n <= 13 || 28 <= n <= 32 || n == 0x85 || n == 0xA0 || n == 0x1680 || 0x2000 <= n <= 0x200A
    || n == 0x2028 || n == 0x2029 || n == 0x202F || n == 0x205F || n == 0x3000
  }

  /** The characters at which `str.splitlines` breaks. */
  predicate IsBreak(c: char) {
    var n := c as int;
    10 <= n <= 13 || 28 <= n <= 30 || n == 0x85 || n == 0x2028 || n == 0x2029
  }

  function LStrip(s: string): (r: string)
    ensures |r| <= |s|
  {
    if s == [] || !IsSpace(s[0]) then s else LStrip(s[1..])
  }

  function RStrip(s: string): (r: string)
    ensures |r| <= |s|
  {
    if s == [] || !IsSpace(s[|s| - 1]) then s else RStrip(s[..|s| - 1])
  }

  function Strip(s: string): (r: string)
    ensures |r| <= |s|
  {
    RStrip(LStrip(s))
  }

  predicate StartsWith(s: string, prefix: string) {
    |prefix| <= |s| && s[..|prefix|] == prefix
  }

  /** The position of the first character of s that is c, or the length of s. */
  function IndexOf(s: string, c: char): (i: nat)
    ensures i <= |s|
    ensures i < |s| ==> s[i] == c
    ensures c !in s[..i]
    ensures c in s <==> i < |s|
  {
    if s == [] then 0 else if s[0] == c then 0 else 1 + IndexOf(s[1..], c)
  }

  function FirstBreak(s: string): (i: nat)
    ensures i <= |s|
    ensures i < |s| ==> IsBreak(s[i])
    ensures forall j :: 0 <= j < i ==> !IsBreak(s[j])
  {
    if s == [] || IsBreak(s[0]) then 0 else 1 + FirstBreak(s[1..])
  }

  /** `str.splitlines`: a carriage return and line feed count as one break. */
  function SplitLines(s: string): seq<string> {
    if s == [] then []
    else
      var i := FirstBreak(s);
      if i == |s| then [s]
      else if s[i] == '\r' && i + 1 < |s| && s[i + 1] == '\n' then [s[..i]] + SplitLines(s[i + 2..])
      else [s[..i]] + SplitLines(s[i + 1..])
  }

  /** `"\n".join(lines)` */
  function JoinLines(lines: seq<string>): string {
    if lines == [] then []
    else if |lines| == 1 then lines[0]
    else lines[0] + "\n" + JoinLines(lines[1..])
  }

  /** Characters in the lines, counting one terminator for each. */
  function Weight(lines: seq<string>): nat {
    if lines == [] then 0 else |lines[0]| + 1 + Weight(lines[1..])
  }

  lemma {:induction false} SplitWeight(s: string)
    ensures Weight(SplitLines(s)) <= |s| + 1
    decreases |s|
  {
    if s != [] {
      var i := FirstBreak(s);
      if i < |s| {
        if s[i] == '\r' && i + 1 < |s| && s[i + 1] == '\n' {
          SplitWeight(s[i + 2..]);
        } else {
          SplitWeight(s[i + 1..]);
        }
      }
    }
  }

  lemma {:induction false} JoinWeight(lines: seq<string>)
    ensures lines != [] ==> |JoinLines(lines)| + 1 == Weight(lines)
  {
    if |lines| > 1 { JoinWeight(lines[1..]); }
  }

  ghost predicate NoBreaks(s: string) {
    forall i :: 0 <= i < |s| ==> !IsBreak(s[i])
  }

  /** Splitting undoes joining when the lines are not empty and hold no break themselves. */
  lemma {:induction false} SplitJoin(lines: seq<string>)
    requires forall i :: 0 <= i < |lines| ==> lines[i] != [] && NoBreaks(lines[i])
    ensures SplitLines(JoinLines(lines)) == lines
  {
    if lines == [] {
    } else if |lines| == 1 {
      assert FirstBreak(lines[0]) == |lines[0]|;
    } else {
      var t := JoinLines(lines);
      var n := |lines[0]|;
      assert t == lines[0] + "\n" + JoinLines(lines[1..]);
      assert t[n] == '\n' && forall i :: 0 <= i < n ==> t[i] == lines[0][i];
      var i := FirstBreak(t);
      assert forall k :: 0 <= k < n ==> !IsBreak(t[k]);
      assert i == n;
      assert t[..n] == lines[0] && t[n + 1..] == JoinLines(lines[1..]);
      SplitJoin(lines[1..]);
    }
  }

  /** The blanks are exactly these. */
  lemma SpacesAre(c: char)
    ensures var spaces :=
      ['\U{0009}', '\U{000A}', '\U{000B}', '\U{000C}', '\U{000D}', '\U{001C}', '\U{001D}', '\U{001E}', '\U{001F}', ' ',
       '\U{0085}', '\U{00A0}', '\U{1680}', '\U{2000}', '\U{2001}', '\U{2002}', '\U{2003}', '\U{2004}', '\U{2005}', '\U{2006}',
       '\U{2007}', '\U{2008}', '\U{2009}', '\U{200A}', '\U{2028}', '\U{2029}', '\U{202F}', '\U{205F}', '\U{3000}'];
      IsSpace(c) <==> c in spaces
  {
  }

  lemma BreaksAre(c: char)
    ensures var breaks :=
      ['\U{000A}', '\U{000B}', '\U{000C}', '\U{000D}', '\U{001C}', '\U{001D}', '\U{001E}', '\U{0085}', '\U{2028}', '\U{2029}'];
      IsBreak(c) <==> c in breaks
  {
  }

  lemma SplitUnfold(s: string)
    requires FirstBreak(s) < |s|
    ensures var i := FirstBreak(s);
      SplitLines(s) ==
        if s[i] == '\r' && i + 1 < |s| && s[i + 1] == '\n' then [s[..i]] + SplitLines(s[i + 2..]) else [s[..i]] + SplitLines(s[i + 1..])
  {
    hide FirstBreak, IsBreak;
  }

  lemma FirstBreakIs(s: string, i: nat)
    requires i < |s| && IsBreak(s[i]) && forall k :: 0 <= k < i ==> !IsBreak(s[k])
    ensures FirstBreak(s) == i
  {
    hide IsBreak;
  }

  lemma SplitAt(s: string, i: nat)
    requires i < |s| && IsBreak(s[i]) && forall k :: 0 <= k < i ==> !IsBreak(s[k])
    ensures SplitLines(s) ==
      if s[i] == '\r' && i + 1 < |s| && s[i + 1] == '\n' then [s[..i]] + SplitLines(s[i + 2..]) else [s[..i]] + SplitLines(s[i + 1..])
  {
    hide *;
    FirstBreakIs(s, i);
    SplitUnfold(s);
  }

  /** A text is its first line, the break, and the lines after it; a carriage return takes a line feed with it, and
      a break at the very end starts no line. */
  lemma SplitLinesIs(a: string, c: char, t: string)
    requires forall i :: 0 <= i < |a| ==> !IsBreak(a[i])
    requires IsBreak(c)
    ensures SplitLines(a) == if a == "" then [] else [a]
    ensures SplitLines(a + [c] + t) ==
      if c == '\r' && t != "" && t[0] == '\n' then [a] + SplitLines(t[1..]) else [a] + SplitLines(t)
  {
    var s := a + [c] + t;
    var n := |a|;
    assert s[n] == c && s[..n] == a && s[n + 1..] == t && forall k :: 0 <= k < n ==> s[k] == a[k];
    if t != "" { assert s[n + 1] == t[0] && s[n + 2..] == t[1..]; }
    assert a != "" ==> FirstBreak(a) == n;
    SplitAt(s, n);
    hide FirstBreak, IsBreak, SplitLines;
    NoLineBreak(a);
  }

  lemma NoLineBreak(a: string)
    requires forall i :: 0 <= i < |a| ==> !IsBreak(a[i])
    ensures SplitLines(a) == if a == "" then [] else [a]
  {
  }

  // ---- Trimming ---------------------------------------------------------------------

  /** Neither end is whitespace. */
  predicate Trimmed(s: string) {
    s != [] ==> !IsSpace(s[0]) && !IsSpace(s[|s| - 1])
  }

  lemma StripTrimmed(s: string)
    requires Trimmed(s)
    ensures Strip(s) == s && LStrip(s) == s
  {
  }

  lemma StripAfterSpace(s: string)
    requires Trimmed(s)
    ensures Strip(" " + s) == s
  {
    assert (" " + s)[1..] == s && IsSpace((" " + s)[0]);
    assert LStrip(" " + s) == LStrip(s);
    StripTrimmed(s);
  }

  lemma {:induction false} StripBlank(s: string)
    ensures (Strip(s) == []) <==> (forall i :: 0 <= i < |s| ==> IsSpace(s[i]))
  {
    LStripShape(s);
    RStripShape(LStrip(s));
    var t := LStrip(s);
    if t != [] {
      assert t[0] == s[|s| - |t|];
    }
  }

  lemma {:induction false} LStripShape(s: string)
    ensures var t := LStrip(s);
      && t == s[|s| - |t|..]
      && (forall i :: 0 <= i < |s| - |t| ==> IsSpace(s[i]))
      && (t != [] ==> !IsSpace(t[0]))
  {
    if s != [] && IsSpace(s[0]) { LStripShape(s[1..]); }
  }

  lemma {:induction false} RStripShape(s: string)
    ensures var t := RStrip(s);
      && t == s[..|t|]
      && (forall i :: |t| <= i < |s| ==> IsSpace(s[i]))
      && (t != [] ==> !IsSpace(t[|t| - 1]))
  {
    if s != [] && IsSpace(s[|s| - 1]) { RStripShape(s[..|s| - 1]); }
  }

  /** Stripping always trims, and stripping what is trimmed changes nothing. */
  lemma StripTrims(s: string)
    ensures Trimmed(Strip(s)) && Strip(Strip(s)) == Strip(s)
  {
    LStripShape(s);
    RStripShape(LStrip(s));
  }

  /** Stripping takes blanks off both ends, and all of them. */
  lemma StripIs(s: string) returns (i: nat)
    ensures i + |Strip(s)| <= |s| && s[i..i + |Strip(s)|] == Strip(s)
    ensures forall k :: 0 <= k < i || i + |Strip(s)| <= k < |s| ==> IsSpace(s[k])
    ensures Strip(s) != "" ==> !IsSpace(Strip(s)[0]) && !IsSpace(Strip(s)[|Strip(s)| - 1])
  {
    LStripShape(s);
    RStripShape(LStrip(s));
    StripTrims(s);
    i := |s| - |LStrip(s)|;
  }

  // ---- Decimal numbers ------------------------------------------------------------

  predicate IsDigit(c: char) { '0' <= c <= '9' }

  function Digit(d: nat): char
    requires d < 10
  {
    ('0' as int + d) as char
  }

  function Decimal(n: nat): (r: string)
    ensures r != [] && forall i :: 0 <= i < |r| ==> IsDigit(r[i])
  {
    if n < 10 then [Digit(n)] else Decimal(n / 10) + [Digit(n % 10)]
  }

  predicate AllDigits(s: string) {
    s != [] && forall i :: 0 <= i < |s| ==> IsDigit(s[i])
  }

  function FromDecimal(s: string): nat
    requires forall i :: 0 <= i < |s| ==> IsDigit(s[i])
  {
    if s == [] then 0 else assert IsDigit(s[|s| - 1]); 10 * FromDecimal(s[..|s| - 1]) + (s[|s| - 1] as int - '0' as int)
  }

  lemma {:induction false} DecimalRoundTrip(n: nat)
    ensures FromDecimal(Decimal(n)) == n
  {
    if n >= 10 {
      DecimalRoundTrip(n / 10);
      assert Decimal(n)[..|Decimal(n)| - 1] == Decimal(n / 10);
    } else {
      assert [Digit(n)][..0] == [];
    }
  }

  lemma DecimalInjective(m: nat, n: nat)
    requires Decimal(m) == Decimal(n)
    ensures m == n
  {
    DecimalRoundTrip(m);
    DecimalRoundTrip(n);
  }

  /** Numerals are to the base ten, without leading zeros but for zero itself. */
  lemma {:induction false} DecimalLeads(n: nat)
    ensures Decimal(n)[0] == '0' <==> n == 0
  {
    if n >= 10 { DecimalLeads(n / 10); }
  }

  lemma DecimalExamples()
    ensures Decimal(0) == "0" && Decimal(2) == "2" && Decimal(10) == "10" && Decimal(9876) == "9876"
  {
    DecimalStep(987, 6);
    DecimalStep(98, 7);
    DecimalStep(9, 8);
    DecimalStep(1, 0);
    hide Decimal;
  }

  lemma DecimalStep(n: nat, d: nat)
    requires n > 0 && d < 10
    ensures Decimal(10 * n + d) == Decimal(n) + [(48 + d) as char]
    ensures n < 10 ==> Decimal(n) == [(48 + n) as char]
    ensures Decimal(0) == "0"
  {
  }

  /** A further digit on the right counts once, what stands before it ten times. */
  lemma FromDecimalIs(s: string, c: char)
    requires (forall i :: 0 <= i < |s| ==> '0' <= s[i] <= '9') && '0' <= c <= '9'
    ensures FromDecimal("") == 0
    ensures FromDecimal(s + [c]) == 10 * FromDecimal(s) + (c as int - 48)
  {
    assert (s + [c])[..|s|] == s;
  }

  // ---- Case -------------------------------------------------------------------------

  function LowerChar(c: char): char {
    if 'A' <= c <= 'Z' then (c as int + 32) as char else c
  }

  function Lower(s: string): (r: string)
    ensures |r| == |s|
  {
    seq(|s|, i requires 0 <= i < |s| => LowerChar(s[i]))
  }

  /** Capital letters become their small ones, everything else stays. */
  lemma LowerIs(s: string, i: nat)
    requires i < |s|
    ensures var capital, small := "ABCDEFGHIJKLMNOPQRSTUVWXYZ", "abcdefghijklmnopqrstuvwxyz";
      (forall k :: 0 <= k < 26 && s[i] == capital[k] ==> Lower(s)[i] == small[k]) && (s[i] !in capital ==> Lower(s)[i] == s[i])
  {
    var capital := "ABCDEFGHIJKLMNOPQRSTUVWXYZ";
    if 'A' <= s[i] <= 'Z' { assert capital[s[i] as int - 'A' as int] == s[i]; }
  }
}
