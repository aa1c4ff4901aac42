/** The file rule of the housekeeping engine: keep the last lines, then the last bytes, of one file. */
module LogTruncation {
  import opened Sequences

  newtype Byte = x: int | 0 <= x < 256

  const NEWLINE: Byte := 10

  /** The lines of a file as a binary reader yields them, terminators included. */
  function Lines(s: seq<Byte>): seq<seq<Byte>> {
    if s == [] then []
    else if s[0] == NEWLINE then [[NEWLINE]] + Lines(s[1..])
    else
      var rest := Lines(s[1..]);
      if rest == [] then [[s[0]]] else [[s[0]] + rest[0]] + rest[1..]
  }

  function Join(lines: seq<seq<Byte>>): seq<Byte> {
    if lines == [] then [] else lines[0] + Join(lines[1..])
  }

  function Last<T>(s: seq<T>, n: nat): seq<T> {
    if |s| <= n then s else s[|s| - n..]
  }

  lemma LastFits<T>(s: seq<T>, n: nat)
    ensures |Last(s, n)| == Min(|s|, n)
  {
  }

  ghost predicate IsSuffix(t: seq<Byte>, s: seq<Byte>) {
    |t| <= |s| && t == s[|s| - |t|..]
  }

  /** What a positive line limit leaves, and what a positive byte limit leaves. */
  function KeepLines(s: seq<Byte>, maxLines: Option<int>): seq<Byte> {
    if maxLines.Some? && maxLines.value > 0 then Join(Last(Lines(s), maxLines.value)) else s
  }

  function KeepBytes(s: seq<Byte>, maxBytes: Option<int>): seq<Byte> {
    if maxBytes.Some? && maxBytes.value > 0 then Last(s, maxBytes.value) else s
  }

  lemma {:induction false} FirstLine(s: seq<Byte>)
    requires s != []
    ensures |Lines(s)| > 0
    ensures var l := Lines(s)[0]; 0 < |l| <= |s| && l == s[..|l|] && Lines(s)[1..] == Lines(s[|l|..])
  {
    if s[0] == NEWLINE || s[1..] == [] {
      assert Lines(s[1..]) == [] || s[0] == NEWLINE;
      assert Lines(s)[0] == [s[0]] && s[..1] == [s[0]];
    } else {
      FirstLine(s[1..]);
      var rest := Lines(s[1..]);
      assert Lines(s) == [[s[0]] + rest[0]] + rest[1..];
      hide *;
      PrependToFirst(s, rest[0]);
      assert Lines(s)[1..] == rest[1..];
    }
  }

  lemma PrependToFirst(s: seq<Byte>, l: seq<Byte>)
    requires s != [] && |l| < |s| && l == s[1..][..|l|]
    ensures [s[0]] + l == s[..|l| + 1] && s[1..][|l|..] == s[|l| + 1..]
  {
  }

  /** Dropping whole lines leaves a suffix whose lines are the remaining ones. */
  lemma {:induction false} JoinOfTail(s: seq<Byte>, k: nat)
    requires k <= |Lines(s)|
    ensures IsSuffix(Join(Lines(s)[k..]), s)
    ensures Lines(Join(Lines(s)[k..])) == Lines(s)[k..]
    decreases |s|
  {
    if k == 0 {
      assert Lines(s)[0..] == Lines(s) && s[0..] == s;
      AllLines(s);
    } else {
      assert s != [];
      FirstLine(s);
      var n := |Lines(s)[0]|;
      assert Lines(s)[k..] == Lines(s[n..])[k - 1..];
      hide *;
      JoinOfTail(s[n..], k - 1);
      SuffixOfSuffix(Join(Lines(s)[k..]), s, n);
    }
  }

  lemma SuffixOfSuffix(t: seq<Byte>, s: seq<Byte>, n: nat)
    requires n <= |s| && IsSuffix(t, s[n..])
    ensures IsSuffix(t, s)
  {
  }

  lemma {:induction false} AllLines(s: seq<Byte>)
    ensures Join(Lines(s)) == s
    decreases |s|
  {
    if s != [] {
      FirstLine(s);
      var n := |Lines(s)[0]|;
      AllLines(s[n..]);
      assert s == s[..n] + s[n..];
    }
  }

  /** Cutting bytes off the front never makes more lines. */
  lemma {:induction false} SuffixHasFewerLines(s: seq<Byte>, k: nat)
    requires k <= |s|
    ensures |Lines(s[k..])| <= |Lines(s)|
  {
    if k > 0 {
      SuffixHasFewerLines(s[1..], k - 1);
      assert s[1..][k - 1..] == s[k..];
    } else {
      assert s[0..] == s;
    }
  }

  lemma KeepLinesIs(s: seq<Byte>, maxLines: int)
    requires maxLines > 0
    ensures IsSuffix(KeepLines(s, Some(maxLines)), s)
    ensures Lines(KeepLines(s, Some(maxLines))) == Last(Lines(s), maxLines)
    ensures |KeepLines(s, Some(maxLines))| == |s| ==> KeepLines(s, Some(maxLines)) == s
  {
    var k := Max(|Lines(s)| - maxLines, 0);
    assert Last(Lines(s), maxLines) == Lines(s)[k..];
    assert KeepLines(s, Some(maxLines)) == Join(Lines(s)[k..]);
    hide *;
    JoinOfTail(s, k);
    SameLengthSuffix(Join(Lines(s)[k..]), s);
  }

  lemma SameLengthSuffix(t: seq<Byte>, s: seq<Byte>)
    ensures IsSuffix(t, s) && |t| == |s| ==> t == s
  {
  }

  /** Which of the operations on the file fail during a pass. */
  datatype Faults = Faults(stat: bool, read: bool, write: bool)

  const NO_FAULTS := Faults(false, false, false)

  /** Whether a pass meets a failing operation: one it needs before it knows that nothing is to be written, or the
      write itself. */
  predicate LinesFail(s: seq<Byte>, maxLines: Option<int>, dryRun: bool, faults: Faults) {
    && maxLines.Some? && maxLines.value > 0
    && (faults.stat || faults.read || (faults.write && !dryRun && |KeepLines(s, maxLines)| < |s|))
  }

  predicate BytesFail(s: seq<Byte>, maxBytes: Option<int>, dryRun: bool, faults: Faults) {
    && maxBytes.Some? && maxBytes.value > 0
    && (faults.stat || ((faults.read || faults.write) && !dryRun && |s| > maxBytes.value))
  }

  /** What a pass leaves and what it reports. */
  datatype Pass = Pass(content: seq<Byte>, truncated: int, failures: int)

  function LinesPass(s: seq<Byte>, maxLines: Option<int>, dryRun: bool, faults: Faults): Pass {
    if LinesFail(s, maxLines, dryRun, faults) then Pass(s, 0, 1)
    else Pass(if dryRun then s else KeepLines(s, maxLines), |s| - |KeepLines(s, maxLines)|, 0)
  }

  function BytesPass(s: seq<Byte>, maxBytes: Option<int>, dryRun: bool, faults: Faults): Pass {
    if BytesFail(s, maxBytes, dryRun, faults) then Pass(s, 0, 1)
    else Pass(if dryRun then s else KeepBytes(s, maxBytes), |s| - |KeepBytes(s, maxBytes)|, 0)
  }

  /** Both passes, one after the other. */
  function Passes(s: seq<Byte>, maxLines: Option<int>, maxBytes: Option<int>, dryRun: bool, lineFaults: Faults, byteFaults: Faults): Pass {
    var first := LinesPass(s, maxLines, dryRun, lineFaults);
    var second := BytesPass(first.content, maxBytes, dryRun, byteFaults);
    Pass(second.content, first.truncated + second.truncated, first.failures + second.failures)
  }

  lemma LinesPassIs(s: seq<Byte>, maxLines: int, dryRun: bool, faults: Faults)
    ensures LinesPass(s, Some(maxLines), dryRun, faults) ==
      if maxLines <= 0 then Pass(s, 0, 0)
      else
        var kept := Join(Last(Lines(s), maxLines));
        if faults.stat || faults.read then Pass(s, 0, 1)
        else if |kept| >= |s| then Pass(s, 0, 0)
        else if dryRun then Pass(s, |s| - |kept|, 0)
        else if faults.write then Pass(s, 0, 1)
        else Pass(kept, |s| - |kept|, 0)
  {
    if maxLines > 0 { KeepLinesIs(s, maxLines); }
    hide Join, Lines, Last;
  }

  lemma QueueStarts<T>(all: seq<T>, n: nat)
    ensures Last(all[..0], n) == []
  {
  }

  /** Appending to a queue bounded to `n` items. */
  lemma QueueAppends<T>(all: seq<T>, i: nat, n: nat)
    requires i < |all|
    ensures var queue := Last(all[..i], n) + [all[i]];
      Last(all[..i + 1], n) == if |queue| > n then queue[1..] else queue
  {
    assert all[..i + 1] == all[..i] + [all[i]];
  }

  /** What the rule finds at its path. */
  datatype PathState = Absent | Present(statFails: bool, regular: bool, mtime: real)

  predicate IsEligible(path: PathState, now: real, minAge: int) {
    path.Present? && !path.statFails && path.regular && now - path.mtime >= Max(minAge, 0) as real
  }

  /** The queue of `_truncate_lines`, bounded to `maxLines` lines, after all lines went through it */
  method LastLines(all: seq<seq<Byte>>, maxLines: nat) returns (queue: seq<seq<Byte>>)
    ensures queue == Last(all, maxLines)
  {
    hide *;
    queue := [];
    QueueStarts(all, maxLines);
    for i := 0 to |all|
      invariant queue == Last(all[..i], maxLines)
    {
      QueueAppends(all, i, maxLines);
      queue := queue + [all[i]];
      if |queue| > maxLines { queue := queue[1..]; }
    }
    assert all[..|all|] == all;
  }

  class LogFile {
    var content: seq<Byte>
    var errors: nat

    /** `_truncate_lines` */
    method TruncateLines(maxLines: int, dryRun: bool, faults: Faults) returns (truncated: int)
      modifies this
      ensures Pass(content, truncated, errors - old(errors)) == LinesPass(old(content), Some(maxLines), dryRun, faults)
    {
      LinesPassIs(content, maxLines, dryRun, faults);
      hide *;
      if maxLines <= 0 { return 0; }
      if faults.stat { errors := errors + 1; return 0; }
      var size := |content|;
      if faults.read { errors := errors + 1; return 0; }
      var queue := LastLines(Lines(content), maxLines);
      var payload := Join(queue);
      if |payload| >= size { return 0; }
      if dryRun { return size - |payload|; }
      if faults.write { errors := errors + 1; return 0; }
      content := payload;
      return size - |payload|;
    }

    /** `_truncate_bytes` */
    method TruncateBytes(maxBytes: int, dryRun: bool, faults: Faults) returns (truncated: int)
      modifies this
      ensures Pass(content, truncated, errors - old(errors)) == BytesPass(old(content), Some(maxBytes), dryRun, faults)
    {
      if maxBytes <= 0 { return 0; }
      if faults.stat { errors := errors + 1; return 0; }
      var size := |content|;
      if size <= maxBytes { return 0; }
      truncated := size - maxBytes;
      if dryRun { return truncated; }
      if faults.read || faults.write { errors := errors + 1; return 0; }
      content := content[size - maxBytes..];
    }

    /** `_apply_file_rule`: a file that is missing, no regular file or too young is left alone; otherwise both passes run. */
    method ApplyRule(path: PathState, now: real, minAge: int, maxLines: Option<int>, maxBytes: Option<int>, dryRun: bool,
                     lineFaults: Faults, byteFaults: Faults)
      returns (scanned: bool, eligible: bool, truncatedBytes: int)
      modifies this
      ensures scanned <==> path.Present? && !path.statFails && path.regular
      ensures eligible <==> IsEligible(path, now, minAge)
      ensures !eligible ==>
        content == old(content) && truncatedBytes == 0 && errors == old(errors) + (if path.Present? && path.statFails then 1 else 0)
      ensures eligible ==>
        Pass(content, truncatedBytes, errors - old(errors)) == Passes(old(content), maxLines, maxBytes, dryRun, lineFaults, byteFaults)
    {
      scanned, eligible, truncatedBytes := false, false, 0;
      if path.Absent? { return; }
      if path.statFails {
        errors := errors + 1;
        return;
      }
      if !path.regular { return; }
      scanned := true;
      if now - path.mtime < Max(minAge, 0) as real { return; }
      eligible := true;
      NoLimitNoPass(content, dryRun, lineFaults);
      hide LinesPass, BytesPass;
      if maxLines.Some? {
        var t := TruncateLines(maxLines.value, dryRun, lineFaults);
        truncatedBytes := truncatedBytes + t;
      }
      NoLimitNoPass(content, dryRun, byteFaults);
      if maxBytes.Some? {
        var t := TruncateBytes(maxBytes.value, dryRun, byteFaults);
        truncatedBytes := truncatedBytes + t;
      }
    }
  }

  lemma NoLimitNoPass(s: seq<Byte>, dryRun: bool, faults: Faults)
    ensures LinesPass(s, None, dryRun, faults) == Pass(s, 0, 0) && BytesPass(s, None, dryRun, faults) == Pass(s, 0, 0)
  {
  }

  /** A real run leaves a suffix and reports the real loss, whatever fails; a dry run leaves the file alone. */
  lemma PassesReportLoss(s: seq<Byte>, maxLines: Option<int>, maxBytes: Option<int>, dryRun: bool, lineFaults: Faults, byteFaults: Faults)
    ensures var p := Passes(s, maxLines, maxBytes, dryRun, lineFaults, byteFaults);
      && IsSuffix(p.content, s) && (dryRun ==> p.content == s)
      && (!dryRun ==> p.truncated == |s| - |p.content|)
      && (lineFaults == NO_FAULTS && byteFaults == NO_FAULTS ==> p.failures == 0)
  {
    var first := LinesPass(s, maxLines, dryRun, lineFaults);
    KeepsSuffix(s, maxLines, maxBytes);
    KeepsSuffix(first.content, maxLines, maxBytes);
    hide KeepLines, KeepBytes, IsSuffix;
    SuffixTwice(BytesPass(first.content, maxBytes, dryRun, byteFaults).content, first.content, s);
  }

  lemma KeepsSuffix(s: seq<Byte>, maxLines: Option<int>, maxBytes: Option<int>)
    ensures IsSuffix(KeepLines(s, maxLines), s) && IsSuffix(KeepBytes(s, maxBytes), s) && IsSuffix(s, s)
  {
    if maxLines.Some? && maxLines.value > 0 {
      KeepLinesIs(s, maxLines.value);
      hide KeepLines;
    }
  }

  /** A real run without failures leaves at most `maxLines` lines and at most `maxBytes` bytes; a dry run without
      failures adds up what each pass alone would cut. */
  lemma PassesMeetLimits(s: seq<Byte>, maxLines: Option<int>, maxBytes: Option<int>, dryRun: bool)
    ensures var p := Passes(s, maxLines, maxBytes, dryRun, NO_FAULTS, NO_FAULTS);
      && (!dryRun && maxLines.Some? && maxLines.value > 0 ==> |Lines(p.content)| <= maxLines.value)
      && (!dryRun && maxBytes.Some? && maxBytes.value > 0 ==> |p.content| <= maxBytes.value)
      && (dryRun ==> p.truncated == (|s| - |KeepLines(s, maxLines)|) + (|s| - |KeepBytes(s, maxBytes)|))
  {
    LimitsHold(s, maxLines, maxBytes);
    hide KeepLines, KeepBytes, Lines;
  }

  /** After both passes both limits hold, the byte pass having made no new lines. */
  lemma LimitsHold(s: seq<Byte>, maxLines: Option<int>, maxBytes: Option<int>)
    ensures var r := KeepBytes(KeepLines(s, maxLines), maxBytes);
      && (maxLines.Some? && maxLines.value > 0 ==> |Lines(r)| <= maxLines.value)
      && (maxBytes.Some? && maxBytes.value > 0 ==> |r| <= maxBytes.value)
  {
    var between := KeepLines(s, maxLines);
    var r := KeepBytes(between, maxBytes);
    SuffixHasFewerLines(between, |between| - |r|);
    assert r == between[|between| - |r|..];
    if maxLines.Some? && maxLines.value > 0 {
      hide *;
      KeepLinesIs(s, maxLines.value);
      LastFits(Lines(s), maxLines.value);
    }
  }

  lemma SuffixTwice(t: seq<Byte>, u: seq<Byte>, s: seq<Byte>)
    requires IsSuffix(t, u) && IsSuffix(u, s)
    ensures IsSuffix(t, s)
  {
  }

  /** A line limit keeps the last lines whole, and as many as it may. */
  lemma LineLimitIsTight(s: seq<Byte>, maxLines: int)
    requires maxLines > 0
    ensures var r := KeepLines(s, Some(maxLines));
      IsSuffix(r, s) && |Lines(r)| == Min(|Lines(s)|, maxLines) && (forall i :: 0 <= i < |Lines(r)| ==>
        Lines(r)[i] == Lines(s)[|Lines(s)| - |Lines(r)| + i])
  {
    hide *;
    KeepLinesIs(s, maxLines);
    LastAt(Lines(s), maxLines);
  }

  lemma LastAt<T>(s: seq<T>, n: nat)
    ensures |Last(s, n)| == Min(|s|, n)
    ensures forall i :: 0 <= i < |Last(s, n)| ==> Last(s, n)[i] == s[|s| - |Last(s, n)| + i]
  {
  }

  // ---- What the definitions say, byte by byte ----------------------------------------------

  /** The lines make up the text, none is empty, and the line feed, which is the byte ten, ends each but perhaps the
      last and stands nowhere else. */
  lemma {:induction false} LinesAre(s: seq<Byte>)
    ensures Join(Lines(s)) == s
    ensures forall i :: 0 <= i < |Lines(s)| ==> IsLine(Lines(s)[i])
    ensures forall i :: 0 <= i < |Lines(s)| - 1 ==> EndsWithFeed(Lines(s)[i])
  {
    AllLines(s);
    if s != [] {
      LinesAre(s[1..]);
      var rest := Lines(s[1..]);
      if s[0] != NEWLINE && rest != [] {
        assert ([s[0]] + rest[0])[1..] == rest[0];
      }
    }
  }

  ghost predicate EndsWithFeed(l: seq<Byte>) {
    l != [] && l[|l| - 1] == 10
  }

  ghost predicate IsLine(l: seq<Byte>) {
    l != [] && forall k :: 0 <= k < |l| - 1 ==> l[k] != 10
  }

  lemma JoinIs(l: seq<Byte>, rest: seq<seq<Byte>>)
    ensures Join([]) == [] && Join([l] + rest) == l + Join(rest)
  {
  }

  /** A byte limit keeps the last bytes, and as many as it may; a limit of zero or less, or none, keeps all. */
  lemma ByteLimitIsTight(s: seq<Byte>, maxBytes: int)
    ensures maxBytes > 0 ==> IsSuffix(KeepBytes(s, Some(maxBytes)), s) && |KeepBytes(s, Some(maxBytes))| == Min(|s|, maxBytes)
    ensures maxBytes <= 0 ==> KeepBytes(s, Some(maxBytes)) == s && KeepLines(s, Some(maxBytes)) == s
    ensures KeepBytes(s, None) == s && KeepLines(s, None) == s
  {
  }

  lemma {:induction false} JoinSize(a: seq<seq<Byte>>, b: seq<seq<Byte>>)
    ensures Join(a + b) == Join(a) + Join(b)
  {
    if a == [] {
      assert a + b == b;
    } else {
      assert (a + b)[1..] == a[1..] + b && (a + b)[0] == a[0];
      JoinSize(a[1..], b);
      assert a[0] + (Join(a[1..]) + Join(b)) == a[0] + Join(a[1..]) + Join(b);
    }
  }

  lemma NotEmpty(lines: seq<seq<Byte>>)
    requires lines != [] && forall i :: 0 <= i < |lines| ==> lines[i] != []
    ensures Join(lines) != []
  {
    assert lines[0] != [];
  }

  /** Something is cut exactly if there are more lines than the limit. */
  lemma CutsIff(s: seq<Byte>, maxLines: int)
    requires maxLines > 0
    ensures |KeepLines(s, Some(maxLines))| < |s| <==> |Lines(s)| > maxLines
  {
    KeepLinesIs(s, maxLines);
    LinesAre(s);
    var all := Lines(s);
    hide Lines, Join, IsSuffix;
    if |all| > maxLines {
      var k := |all| - maxLines;
      assert all == all[..k] + all[k..];
      JoinSize(all[..k], all[k..]);
      NotEmpty(all[..k]);
    }
  }

  /** A line pass fails, and counts one error, exactly if it has a limit and cannot measure or read the file, or has
      more lines to cut and cannot write it; then it leaves the file and reports nothing. */
  lemma LinesPassFails(s: seq<Byte>, maxLines: int, dryRun: bool, faults: Faults)
    ensures var p := LinesPass(s, Some(maxLines), dryRun, faults);
      var fails := maxLines > 0 && (faults.stat || faults.read || (faults.write && !dryRun && |Lines(s)| > maxLines));
      && p.failures == (if fails then 1 else 0)
      && (fails || dryRun || maxLines <= 0 ==> p.content == s) && (fails || maxLines <= 0 ==> p.truncated == 0)
      && (!fails && !dryRun ==> p.truncated == |s| - |p.content|)
      && (!fails && !dryRun && maxLines > 0 ==> Lines(p.content) == Last(Lines(s), maxLines) && IsSuffix(p.content, s))
  {
    if maxLines > 0 {
      CutsIff(s, maxLines);
      KeepLinesIs(s, maxLines);
    }
    hide Lines, Last, Join, IsSuffix;
  }

  /** A byte pass fails, and counts one error, exactly if it has a limit and cannot measure the file, or has bytes to
      cut and cannot read or write it. */
  lemma BytesPassFails(s: seq<Byte>, maxBytes: int, dryRun: bool, faults: Faults)
    ensures var p := BytesPass(s, Some(maxBytes), dryRun, faults);
      var fails := maxBytes > 0 && (faults.stat || (!dryRun && |s| > maxBytes && (faults.read || faults.write)));
      && p.failures == (if fails then 1 else 0)
      && (fails || dryRun || maxBytes <= 0 ==> p.content == s) && (fails || maxBytes <= 0 ==> p.truncated == 0)
      && (!fails && maxBytes > 0 ==> p.truncated == if |s| > maxBytes then |s| - maxBytes else 0)
      && (!fails && !dryRun && maxBytes > 0 ==> p.content == s[|s| - Min(|s|, maxBytes)..])
  {
  }

  /** A file is touched from the minimum age on, a negative one counting as zero, and not before. */
  lemma EligibleIff(path: PathState, now: real, minAge: int)
    ensures IsEligible(path, now, minAge) <==>
      path.Present? && !path.statFails && path.regular && now - path.mtime >= 0.0 && now - path.mtime >= minAge as real
  {
  }
}
