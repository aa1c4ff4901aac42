/** Repository ids in the hub manifest: sanitising, fresh names, and renaming unsafe ids in place while
    the references between entries keep pointing to the same repositories. */
module ManifestIds {
  import opened Sequences
  import opened Text

  predicate SafeChar(c: char) {
    'A' <= c <= 'Z' || 'a' <= c <= 'z' || '0' <= c <= '9' || c == '.' || c == '_' || c == '-'
  }

  predicate AllSafe(s: string) {
    forall i :: 0 <= i < |s| ==> SafeChar(s[i])
  }

  /** Only safe characters, and at least one. */
  predicate StrictlySafe(s: string) { s != "" && AllSafe(s) }

  /** `is_safe_repo_id`: the pattern's end anchor also matches in front of a final newline. */
  predicate IsSafe(s: string) {
    StrictlySafe(s) || (|s| >= 2 && s[|s| - 1] == '\n' && StrictlySafe(s[..|s| - 1]))
  }

  // ---- Sanitising ---------------------------------------------------------------

  function DropUnsafe(s: string): (r: string)
    ensures |r| <= |s|
  {
    if s == "" || SafeChar(s[0]) then s else DropUnsafe(s[1..])
  }

  /** Each run of other characters becomes one dash. */
  function Collapse(s: string): (r: string)
    ensures AllSafe(r)
    decreases |s|
  {
    if s == "" then ""
    else if SafeChar(s[0]) then [s[0]] + Collapse(s[1..])
    else "-" + Collapse(DropUnsafe(s[1..]))
  }

  function LeftDashes(s: string): (r: string)
    ensures AllSafe(s) ==> AllSafe(r)
  {
    if s == "" || s[0] != '-' then s else LeftDashes(s[1..])
  }

  function RightDashes(s: string): (r: string)
    ensures AllSafe(s) ==> AllSafe(r)
  {
    if s == "" || s[|s| - 1] != '-' then s else RightDashes(s[..|s| - 1])
  }

  /** `sanitize_repo_id` */
  function Sanitize(value: string): (r: string)
    ensures StrictlySafe(r)
  {
    var base := RightDashes(LeftDashes(Collapse(Strip(value))));
    if base == "" then "repo" else base
  }

  // ---- Fresh ids -----------------------------------------------------------------

  function Candidate(base: string, suffix: nat): string { base + "-" + Decimal(suffix) }

  lemma CandidateInjective(base: string, j: nat, k: nat)
    requires Candidate(base, j) == Candidate(base, k)
    ensures j == k
  {
    var n := |base + "-"|;
    assert Candidate(base, j)[n..] == Decimal(j) && Candidate(base, k)[n..] == Decimal(k);
    DecimalInjective(j, k);
  }

  ghost function Tried(base: string, k: nat): set<string> {
    set j | 2 <= j < k :: Candidate(base, j)
  }

  /** A candidate not tried before, found taken, leaves fewer taken ids untried. */
  lemma TriedGrows(base: string, existing: set<string>, k: nat)
    requires k >= 2 && Candidate(base, k) in existing
    ensures existing - Tried(base, k + 1) < existing - Tried(base, k)
  {
    if Candidate(base, k) in Tried(base, k) {
      var j :| 2 <= j < k && Candidate(base, j) == Candidate(base, k);
      CandidateInjective(base, j, k);
    }
    assert Candidate(base, k) in Tried(base, k + 1);
    assert Tried(base, k) <= Tried(base, k + 1);
  }

  /** The first free candidate from a suffix on: the search ends because candidates never repeat. */
  ghost function FirstFree(base: string, existing: set<string>, k: nat): (r: string)
    requires k >= 2
    ensures r !in existing
    decreases existing - Tried(base, k)
  {
    if Candidate(base, k) !in existing then Candidate(base, k)
    else
      TriedGrows(base, existing, k);
      FirstFree(base, existing, k + 1)
  }

  ghost function FreshId(base: string, existing: set<string>): (r: string)
    ensures r !in existing
  {
    if base !in existing then base else FirstFree(base, existing, 2)
  }

  lemma CandidateIsSafe(base: string, k: nat)
    requires StrictlySafe(base)
    ensures StrictlySafe(Candidate(base, k))
  {
    var d := Decimal(k);
    forall i | 0 <= i < |Candidate(base, k)| ensures SafeChar(Candidate(base, k)[i]) {
      if i > |base| { assert Candidate(base, k)[i] == d[i - |base| - 1] && IsDigit(d[i - |base| - 1]); }
    }
  }

  /** The fresh id is the base itself if that is free, else the free candidate of least suffix. */
  lemma {:induction false} FreshIdIs(base: string, existing: set<string>)
    ensures base !in existing ==> FreshId(base, existing) == base
    ensures base in existing ==>
      exists k :: k >= 2 && FreshId(base, existing) == Candidate(base, k) && forall j :: 2 <= j < k ==> Candidate(base, j) in existing
    ensures StrictlySafe(base) ==> StrictlySafe(FreshId(base, existing))
  {
    if base in existing {
      var k := FirstFreeIs(base, existing, 2);
      if StrictlySafe(base) { CandidateIsSafe(base, k); }
    }
  }

  lemma {:induction false} FirstFreeIs(base: string, existing: set<string>, from: nat) returns (k: nat)
    requires from >= 2
    ensures k >= from && FirstFree(base, existing, from) == Candidate(base, k)
    ensures forall j :: from <= j < k ==> Candidate(base, j) in existing
    decreases existing - Tried(base, from)
  {
    if Candidate(base, from) !in existing {
      k := from;
    } else {
      TriedGrows(base, existing, from);
      k := FirstFreeIs(base, existing, from + 1);
    }
  }

  /** `ensure_unique_repo_id` */
  method EnsureUniqueRepoId(base: string, existing: set<string>) returns (id: string)
    ensures id == FreshId(base, existing)
  {
    if base !in existing { return base; }
    var suffix := 2;
    id := Candidate(base, suffix);
    while id in existing
      invariant suffix >= 2 && id == Candidate(base, suffix)
      invariant FirstFree(base, existing, suffix) == FirstFree(base, existing, 2)
      decreases existing - Tried(base, suffix)
    {
      TriedGrows(base, existing, suffix);
      suffix := suffix + 1;
      id := Candidate(base, suffix);
    }
  }

  // ---- Renaming, on the ids alone ----------------------------------------------------

  ghost predicate Distinct(ids: seq<string>) {
    forall i, j :: 0 <= i < j < |ids| ==> ids[i] != ids[j]
  }

  function IdSet(ids: seq<string>): set<string> {
    set i | 0 <= i < |ids| :: ids[i]
  }

  /** The ids once the first n entries have been looked at. */
  ghost function Renamed(ids: seq<string>, names: seq<string>, n: nat): (r: seq<string>)
    requires |ids| == |names| && n <= |ids|
    ensures |r| == |ids|
  {
    if n == 0 then ids
    else
      var current := Renamed(ids, names, n - 1);
      var i := n - 1;
      if IsSafe(ids[i]) then current
      else current[i := FreshId(Sanitize(names[i]), IdSet(current) - {ids[i]})]
  }

  ghost function Normalized(ids: seq<string>, names: seq<string>): seq<string>
    requires |ids| == |names|
  {
    Renamed(ids, names, |ids|)
  }

  /** Distinct ids; the safe and the later ones are as before, the unsafe ones among the first n are not. */
  ghost predicate RenamedUpTo(ids: seq<string>, n: nat, r: seq<string>) {
    && |r| == |ids| && Distinct(r)
    && (forall i :: 0 <= i < |ids| && (i >= n || IsSafe(ids[i])) ==> r[i] == ids[i])
    && (forall i :: 0 <= i < n && i < |ids| && !IsSafe(ids[i]) ==> StrictlySafe(r[i]))
  }

  lemma ReplaceOne(ids: seq<string>, i: nat, r: seq<string>, id: string)
    requires RenamedUpTo(ids, i, r) && i < |ids| && !IsSafe(ids[i])
    requires id !in IdSet(r) - {ids[i]} && StrictlySafe(id)
    ensures RenamedUpTo(ids, i + 1, r[i := id])
  {
    hide IsSafe, StrictlySafe;
    forall j | 0 <= j < |ids| && j != i ensures r[j] != id {
      assert r[j] in IdSet(r) && r[j] != r[i] == ids[i];
    }
  }

  lemma KeepOne(ids: seq<string>, i: nat, r: seq<string>)
    requires RenamedUpTo(ids, i, r) && i < |ids| && IsSafe(ids[i])
    ensures RenamedUpTo(ids, i + 1, r)
  {
    hide IsSafe, StrictlySafe;
  }

  lemma KeepAll(ids: seq<string>, names: seq<string>)
    requires |ids| == |names| && Distinct(ids)
    ensures RenamedUpTo(ids, 0, Renamed(ids, names, 0))
  {
  }

  lemma RenamedUnfold(ids: seq<string>, names: seq<string>, i: nat)
    requires |ids| == |names| && i < |ids|
    ensures var current := Renamed(ids, names, i);
      Renamed(ids, names, i + 1) ==
        if IsSafe(ids[i]) then current else current[i := FreshId(Sanitize(names[i]), IdSet(current) - {ids[i]})]
  {
    hide IsSafe, FreshId, Sanitize, IdSet;
  }

  lemma {:induction false} RenamedFacts(ids: seq<string>, names: seq<string>, n: nat)
    requires |ids| == |names| && n <= |ids| && Distinct(ids)
    ensures RenamedUpTo(ids, n, Renamed(ids, names, n))
  {
    KeepAll(ids, names);
    hide *;
    if n > 0 {
      var i := n - 1;
      var current := Renamed(ids, names, i);
      var id := FreshId(Sanitize(names[i]), IdSet(current) - {ids[i]});
      RenamedUnfold(ids, names, i);
      RenamedFacts(ids, names, i);
      FreshIdIs(Sanitize(names[i]), IdSet(current) - {ids[i]});
      if IsSafe(ids[i]) {
        KeepOne(ids, i, current);
      } else {
        ReplaceOne(ids, i, current, id);
      }
    }
  }

  /** From any manifest with distinct ids, every id ends up safe, all stay distinct, and the ids that
      were safe are kept. */
  lemma NormalizedIsHealthy(ids: seq<string>, names: seq<string>)
    requires |ids| == |names| && Distinct(ids)
    ensures var r := Normalized(ids, names);
      && |r| == |ids| && Distinct(r)
      && (forall i :: 0 <= i < |r| ==> IsSafe(r[i]))
      && (forall i :: 0 <= i < |r| && IsSafe(ids[i]) ==> r[i] == ids[i])
  {
    RenamedFacts(ids, names, |ids|);
  }

  /** The ids end up with safe characters only, exactly if none came in as a safe id and a newline. */
  lemma StrictlySafeIff(ids: seq<string>, names: seq<string>)
    requires |ids| == |names| && Distinct(ids)
    ensures (forall i :: 0 <= i < |ids| ==> StrictlySafe(Normalized(ids, names)[i]))
      <==> (forall i :: 0 <= i < |ids| && IsSafe(ids[i]) ==> ids[i][|ids[i]| - 1] != '\n')
  {
    RenamedFacts(ids, names, |ids|);
    var r := Normalized(ids, names);
    forall i | 0 <= i < |ids| && IsSafe(ids[i])
      ensures StrictlySafe(r[i]) <==> ids[i][|ids[i]| - 1] != '\n'
    {
      assert r[i] == ids[i];
      if StrictlySafe(ids[i]) { assert SafeChar(ids[i][|ids[i]| - 1]); }
    }
  }

  /** On its own the safety test accepts an id with a newline at its end. */
  lemma NewlineIsAccepted()
    ensures IsSafe("a\n") && !StrictlySafe("a\n")
  {
    assert StrictlySafe("a\n"[..1]) && !SafeChar("a\n"[1]);
  }

  /** The ids of a loaded manifest: the loader strips what it reads. */
  function Loaded(raw: seq<string>): (ids: seq<string>)
    ensures |ids| == |raw|
  {
    seq(|raw|, i requires 0 <= i < |raw| => Strip(raw[i]))
  }

  lemma LoadedSafeIsStrict(raw: string)
    requires IsSafe(Strip(raw))
    ensures StrictlySafe(Strip(raw))
  {
    StripTrims(raw);
    assert IsSpace('\n');
    hide StrictlySafe, Strip, IsSpace;
  }

  /** However a manifest file spells its ids, repeated ones included, every id holds safe characters only once the
      loaded manifest is normalised. */
  lemma LoadedEndStrictlySafe(raw: seq<string>, names: seq<string>)
    requires |raw| == |names|
    ensures forall i :: 0 <= i < |raw| ==> StrictlySafe(Normalized(Loaded(raw), names)[i])
  {
    LoadedRenamed(raw, names, |raw|);
    assert Normalized(Loaded(raw), names) == Renamed(Loaded(raw), names, |raw|);
    hide *;
  }

  lemma {:induction false} LoadedRenamed(raw: seq<string>, names: seq<string>, n: nat)
    requires |raw| == |names| && n <= |raw|
    ensures var ids := Loaded(raw);
      var r := Renamed(ids, names, n);
      (forall i :: n <= i < |raw| ==> r[i] == ids[i]) && (forall i :: 0 <= i < n ==> StrictlySafe(r[i]))
  {
    if n > 0 {
      var ids := Loaded(raw);
      var i := n - 1;
      LoadedRenamed(raw, names, i);
      RenamedUnfold(ids, names, i);
      FreshIdIs(Sanitize(names[i]), IdSet(Renamed(ids, names, i)) - {ids[i]});
      if IsSafe(ids[i]) { LoadedSafeIsStrict(raw[i]); }
      hide IsSafe, StrictlySafe, FreshId, Sanitize, IdSet, Strip;
    }
  }

  /** Normalising twice changes nothing more. */
  lemma NormalizedTwice(ids: seq<string>, names: seq<string>, names': seq<string>)
    requires |ids| == |names| == |names'| && Distinct(ids)
    ensures Normalized(Normalized(ids, names), names') == Normalized(ids, names)
  {
    var r := Normalized(ids, names);
    NormalizedIsHealthy(ids, names);
    NormalizedIsHealthy(r, names');
    var s := Normalized(r, names');
    assert forall i :: 0 <= i < |r| ==> s[i] == r[i];
  }

  // ---- Sanitising keeps what is already good -------------------------------------------

  lemma {:induction false} CollapseSafe(s: string)
    requires AllSafe(s)
    ensures Collapse(s) == s
  {
    if s != "" { CollapseSafe(s[1..]); }
  }

  lemma {:induction false} DashesTrimmed(s: string)
    ensures var r := RightDashes(LeftDashes(s)); r != "" ==> r[0] != '-' && r[|r| - 1] != '-'
  {
    LeftTrimmed(s);
    RightTrimmed(LeftDashes(s));
  }

  lemma {:induction false} LeftTrimmed(s: string)
    ensures LeftDashes(s) != "" ==> LeftDashes(s)[0] != '-'
  {
    if s != "" && s[0] == '-' { LeftTrimmed(s[1..]); }
  }

  lemma {:induction false} RightTrimmed(s: string)
    ensures RightDashes(s) <= s
    ensures RightDashes(s) != "" ==> RightDashes(s)[|RightDashes(s)| - 1] != '-'
  {
    if s != "" && s[|s| - 1] == '-' { RightTrimmed(s[..|s| - 1]); }
  }

  /** A sanitised id has no dash at either end; sanitising an id that is safe and dash-free at both ends
      leaves it alone, so sanitising twice is sanitising once. */
  lemma SanitizeIdempotent(value: string)
    ensures var r := Sanitize(value);
      StrictlySafe(r) && r[0] != '-' && r[|r| - 1] != '-' && Sanitize(r) == r
  {
    SanitizedShape(value);
    hide *;
    SanitizeKeeps(Sanitize(value));
  }

  lemma SanitizedShape(value: string)
    ensures var r := Sanitize(value); StrictlySafe(r) && r != "" && r[0] != '-' && r[|r| - 1] != '-'
  {
    DashesTrimmed(Collapse(Strip(value)));
    hide Collapse, Strip, LeftDashes, RightDashes;
  }

  lemma SanitizeKeeps(r: string)
    requires StrictlySafe(r) && r[0] != '-' && r[|r| - 1] != '-'
    ensures Sanitize(r) == r
  {
    SafeIsTrimmed(r);
    StripTrimmed(r);
    CollapseSafe(r);
    hide Collapse, Strip;
  }

  lemma SafeIsTrimmed(s: string)
    requires AllSafe(s)
    ensures Trimmed(s)
  {
    if s != "" { assert SafeChar(s[0]) && SafeChar(s[|s| - 1]); }
  }

  // ---- Sanitising, character by character ---------------------------------------------------

  /** Letters and digits of ASCII, the dot, the underscore and the dash. */
  lemma SafeChars(c: char)
    ensures var n := c as int; SafeChar(c) <==> 65 <= n <= 90 || 97 <= n <= 122 || 48 <= n <= 57 || n == 46 || n == 95 || n == 45
  {
  }

  lemma {:induction false} DropUnsafeRun(u: string, rest: string)
    requires (forall i :: 0 <= i < |u| ==> !SafeChar(u[i])) && (rest == "" || SafeChar(rest[0]))
    ensures DropUnsafe(u + rest) == rest
  {
    if u == "" {
      assert u + rest == rest;
    } else {
      assert (u + rest)[1..] == u[1..] + rest;
      DropUnsafeRun(u[1..], rest);
    }
  }

  /** Safe characters stay, and a whole run of others becomes one dash. */
  lemma {:induction false} CollapseIs(safe: string, u: string, rest: string)
    requires AllSafe(safe)
    requires u != "" && (forall i :: 0 <= i < |u| ==> !SafeChar(u[i])) && (rest == "" || SafeChar(rest[0]))
    ensures Collapse(safe + u + rest) == safe + "-" + Collapse(rest)
    ensures Collapse(safe) == safe
    decreases |safe|
  {
    CollapseSafe(safe);
    if safe == "" {
      assert safe + u + rest == u + rest && (u + rest)[1..] == u[1..] + rest;
      DropUnsafeRun(u[1..], rest);
    } else {
      assert (safe + u + rest)[1..] == safe[1..] + u + rest;
      CollapseIs(safe[1..], u, rest);
      assert safe == [safe[0]] + safe[1..];
    }
  }

  lemma {:induction false} DashesBefore(s: string)
    ensures var t := LeftDashes(s); |t| <= |s| && t == s[|s| - |t|..] && forall k :: 0 <= k < |s| - |t| ==> s[k] == '-'
  {
    if s != "" { DashesBefore(s[1..]); }
  }

  lemma {:induction false} DashesAfter(s: string)
    ensures var t := RightDashes(s); |t| <= |s| && t == s[..|t|] && forall k :: |t| <= k < |s| ==> s[k] == '-'
  {
    if s != "" { DashesAfter(s[..|s| - 1]); }
  }

  lemma DashesOff(c: string) returns (i: nat, j: nat)
    ensures i <= j <= |c| && RightDashes(LeftDashes(c)) == c[i..j]
    ensures forall k :: 0 <= k < i || j <= k < |c| ==> c[k] == '-'
  {
    var t := LeftDashes(c);
    DashesBefore(c);
    DashesAfter(t);
    i := |c| - |t|;
    j := i + |RightDashes(t)|;
    hide LeftDashes, RightDashes;
    assert forall k :: i <= k < |c| ==> c[k] == t[k - i];
    assert c[i..j] == t[..j - i];
  }

  /** The sanitised id is what is left of the stripped and collapsed text without the dashes at its ends, or "repo"
      if nothing is left. */
  lemma SanitizeIs(value: string) returns (i: nat, j: nat)
    ensures var c := Collapse(Strip(value));
      && i <= j <= |c| && (forall k :: 0 <= k < i || j <= k < |c| ==> c[k] == '-')
      && (i < j ==> c[i] != '-' && c[j - 1] != '-' && Sanitize(value) == c[i..j])
      && (i == j ==> Sanitize(value) == "repo")
  {
    var c := Collapse(Strip(value));
    i, j := DashesOff(c);
    DashesTrimmed(c);
    hide Collapse, Strip, LeftDashes, RightDashes;
    if i < j {
      var r := c[i..j];
      assert r[0] == c[i] && r[|r| - 1] == c[j - 1];
    }
  }

  /** A taken id gets the least number from two on that makes it new. */
  lemma FreshIdNumber(base: string, existing: set<string>) returns (k: nat)
    requires base in existing
    ensures k >= 2 && FreshId(base, existing) == base + "-" + Decimal(k) && base + "-" + Decimal(k) !in existing
    ensures forall j :: 2 <= j < k ==> base + "-" + Decimal(j) in existing
  {
    k := FirstFreeIs(base, existing, 2);
    hide Decimal, FirstFree;
    assert forall j: nat :: Candidate(base, j) == base + "-" + Decimal(j);
  }

  // ---- The manifest ----------------------------------------------------------------------

  class ManifestRepo {
    var id: string
    var worktreeOf: Option<string>
    /** Empty when the manifest gives none. */
    var displayName: string

    constructor (id: string, worktreeOf: Option<string>, displayName: string)
      ensures this.id == id && this.worktreeOf == worktreeOf && this.displayName == displayName
    {
      this.id, this.worktreeOf, this.displayName := id, worktreeOf, displayName;
    }
  }

  ghost function IdsOf(repos: seq<ManifestRepo>): (r: seq<string>)
    reads repos
    ensures |r| == |repos|
  {
    seq(|repos|, i requires 0 <= i < |repos| reads repos => repos[i].id)
  }

  /** `repo.display_name or repo.id` */
  ghost function NamesOf(repos: seq<ManifestRepo>): (r: seq<string>)
    reads repos
    ensures |r| == |repos|
  {
    seq(|repos|, i requires 0 <= i < |repos| reads repos =>
      if repos[i].displayName != "" then repos[i].displayName else repos[i].id)
  }

  class Manifest {
    var repos: seq<ManifestRepo>

    /** The entries are different objects. */
    ghost predicate Valid()
      reads this
    {
      forall i, j :: 0 <= i < j < |repos| ==> repos[i] != repos[j]
    }

    /** Ids are safe and no two entries share one. */
    ghost predicate Healthy()
      reads this, repos
    {
      Distinct(IdsOf(repos)) && forall i :: 0 <= i < |repos| ==> IsSafe(IdsOf(repos)[i])
    }

    constructor ()
      ensures Valid() && repos == [] && Healthy()
    {
      repos := [];
    }

    /** `get`: the first entry with that id. */
    method Get(id: string) returns (repo: ManifestRepo?)
      ensures repo != null ==>
        exists i :: 0 <= i < |repos| && repos[i] == repo && repo.id == id && forall j :: 0 <= j < i ==> repos[j].id != id
      ensures repo == null <==> forall i :: 0 <= i < |repos| ==> repos[i].id != id
    {
      for i := 0 to |repos|
        invariant forall j :: 0 <= j < i ==> repos[j].id != id
      {
        if repos[i].id == id { return repos[i]; }
      }
      return null;
    }

    /** How far the renaming loop is: the first n entries are done. */
    ghost predicate Progress(ids: seq<string>, names: seq<string>, n: nat, reserved: set<string>, idMap: map<string, string>)
      reads this, repos
    {
      && |ids| == |names| == |repos| && n <= |ids|
      && IdsOf(repos) == Renamed(ids, names, n) && reserved == IdSet(Renamed(ids, names, n))
      && MapsRenamed(ids, names, n, idMap)
      && (forall j :: 0 <= j < n ==> repos[j].displayName == names[j])
      && (forall j :: n <= j < |repos| ==> names[j] == if repos[j].displayName != "" then repos[j].displayName else ids[j])
    }

    lemma ProgressStarts(ids: seq<string>, names: seq<string>)
      requires ids == IdsOf(repos) && names == NamesOf(repos)
      ensures Progress(ids, names, 0, set r | r in repos :: r.id, map[])
    {
      IdSetOf(repos);
      hide IsSafe, FreshId, Sanitize;
    }

    lemma ProgressEnds(ids: seq<string>, names: seq<string>, reserved: set<string>, idMap: map<string, string>)
      requires |ids| == |names| == |repos| && Progress(ids, names, |repos|, reserved, idMap)
      ensures IdsOf(repos) == Normalized(ids, names) && MapsRenamed(ids, names, |ids|, idMap)
      ensures forall j :: 0 <= j < |repos| ==> repos[j].displayName == names[j]
    {
      hide Renamed;
    }

    /** The renaming loop: fills in names, replaces unsafe ids and records what replaced them. */
    method RenameUnsafe(ghost ids: seq<string>, ghost names: seq<string>) returns (idMap: map<string, string>)
      requires Valid() && ids == IdsOf(repos) && names == NamesOf(repos) && Distinct(ids)
      modifies repos`id, repos`displayName
      ensures IdsOf(repos) == Normalized(ids, names)
      ensures forall j :: 0 <= j < |repos| ==> repos[j].displayName == names[j]
      ensures MapsRenamed(ids, names, |ids|, idMap)
    {
      hide *;
      var reserved: set<string> := set r | r in repos :: r.id;
      ProgressStarts(ids, names);
      idMap := map[];
      for i := 0 to |repos|
        invariant Progress(ids, names, i, reserved, idMap)
      {
        reserved, idMap := RenameEntry(repos[i], i, ids, names, reserved, idMap);
      }
      ProgressEnds(ids, names, reserved, idMap);
    }

    /** One turn of the renaming loop. */
    method RenameEntry(repo: ManifestRepo, ghost i: nat, ghost ids: seq<string>, ghost names: seq<string>, reserved: set<string>,
                       idMap: map<string, string>)
      returns (reserved': set<string>, idMap': map<string, string>)
      requires Valid() && i < |repos| && repo == repos[i] && Distinct(ids)
      requires Progress(ids, names, i, reserved, idMap)
      modifies repo`id, repo`displayName
      ensures Progress(ids, names, i + 1, reserved', idMap')
    {
      reserved', idMap' := reserved, idMap;
      ghost var current := IdsOf(repos);
      hide Renamed, MapsRenamed, IdSet, Sanitize, IsSafe, FreshId;
      RenamedFacts(ids, names, i);
      assert repo.id == current[i] == ids[i];
      var displayName := if repo.displayName != "" then repo.displayName else repo.id;
      RenameSkip(ids, names, i, idMap);
      if repo.displayName == "" { repo.displayName := displayName; }
      assert IdsOf(repos) == current;
      if IsSafe(repo.id) { return; }
      reserved' := reserved' - {repo.id};
      var safeId := EnsureUniqueRepoId(Sanitize(displayName), reserved');
      RenamedStep(ids, names, i, safeId, idMap);
      reserved' := reserved' + {safeId};
      idMap' := idMap'[repo.id := safeId];
      repo.id := safeId;
      assert IdsOf(repos) == current[i := safeId];
    }

    /** The second loop: references to renamed entries follow them. */
    method RedirectReferences(idMap: map<string, string>)
      requires Valid()
      modifies repos`worktreeOf
      ensures IdsOf(repos) == old(IdsOf(repos))
      ensures forall j :: 0 <= j < |repos| ==> repos[j].worktreeOf == Follow(old(repos[j].worktreeOf), idMap)
    {
      for i := 0 to |repos|
        invariant IdsOf(repos) == old(IdsOf(repos))
        invariant forall j :: 0 <= j < i ==> repos[j].worktreeOf == Follow(old(repos[j].worktreeOf), idMap)
        invariant forall j :: i <= j < |repos| ==> repos[j].worktreeOf == old(repos[j].worktreeOf)
      {
        var repo := repos[i];
        if repo.worktreeOf.Some? && repo.worktreeOf.value in idMap {
          repo.worktreeOf := Some(idMap[repo.worktreeOf.value]);
        }
      }
    }

    /** `_normalize_manifest_ids`: the ids become the normalised ones, names are filled in, every
        reference to an entry follows it to its new id, and references to nothing are left alone. */
    method NormalizeManifestIds()
      requires Valid() && Distinct(IdsOf(repos))
      modifies repos
      ensures Valid() && Healthy()
      ensures IdsOf(repos) == Normalized(old(IdsOf(repos)), old(NamesOf(repos)))
      ensures forall i :: 0 <= i < |repos| ==> repos[i].displayName == old(NamesOf(repos)[i])
      ensures forall i, j :: 0 <= i < |repos| && 0 <= j < |repos| && old(repos[i].worktreeOf) == Some(old(IdsOf(repos)[j])) ==>
        repos[i].worktreeOf == Some(IdsOf(repos)[j])
      ensures forall i :: 0 <= i < |repos| && (forall j :: 0 <= j < |repos| ==> old(repos[i].worktreeOf) != Some(old(IdsOf(repos)[j]))) ==>
        repos[i].worktreeOf == old(repos[i].worktreeOf)
    {
      ghost var ids, names := IdsOf(repos), NamesOf(repos);
      hide IsSafe, Normalized, Renamed, MapsRenamed, NamesOf;
      var idMap := RenameUnsafe(ids, names);
      if idMap != map[] { RedirectReferences(idMap); }
      NormalizedIsHealthy(ids, names);
      hide IsSafe, Normalized, MapsRenamed;
      forall i, j | 0 <= i < |repos| && 0 <= j < |repos| && old(repos[i].worktreeOf) == Some(ids[j])
        ensures repos[i].worktreeOf == Some(IdsOf(repos)[j])
      {
        FollowsRenamed(ids, names, idMap, j);
      }
      forall i | 0 <= i < |repos| && (forall j :: 0 <= j < |repos| ==> old(repos[i].worktreeOf) != Some(ids[j]))
        ensures repos[i].worktreeOf == old(repos[i].worktreeOf)
      {
        if old(repos[i].worktreeOf).Some? { OnlyRenamedMapped(ids, names, idMap, old(repos[i].worktreeOf).value); }
      }
    }

    /** `ensure_repo`: an entry with the sanitised id, found or appended; a healthy manifest stays
        healthy, so any sequence of calls keeps ids safe and distinct. */
    method EnsureRepo(repoId: string, displayName: string, pathName: string, worktreeOf: Option<string>) returns (repo: ManifestRepo)
      requires Valid() && Healthy()
      modifies this, repos
      ensures Valid() && Healthy() && repo in repos
      ensures
        var baseName := if displayName != "" then displayName else if repoId != "" then repoId else pathName;
        var id := Sanitize(if repoId != "" then repoId else baseName);
        && repo.id == id
        && old(repos) <= repos && IdsOf(repos)[..|old(repos)|] == old(IdsOf(repos))
        && (id in old(IdsOf(repos)) ==> repos == old(repos))
        && (id !in old(IdsOf(repos)) ==>
          && repos == old(repos) + [repo] && repo.displayName == baseName
          && repo.worktreeOf == if worktreeOf == Some("") then None else worktreeOf)
    {
      var baseName := if displayName != "" then displayName else if repoId != "" then repoId else pathName;
      var id := Sanitize(if repoId != "" then repoId else baseName);
      ghost var ids := IdsOf(repos);
      hide Sanitize, IsSafe, FreshId, StrictlySafe;
      SanitizedIsSafe(if repoId != "" then repoId else baseName);
      var existing := Get(id);
      if existing != null {
        var i :| 0 <= i < |repos| && repos[i] == existing;
        assert ids[i] == id;
        if displayName != "" && existing.displayName == "" { existing.displayName := displayName; }
        assert IdsOf(repos) == ids;
        return existing;
      }
      assert id !in ids;
      var existingIds: set<string> := set r | r in repos :: r.id;
      FreshIdIs(id, existingIds);
      var unique := EnsureUniqueRepoId(id, existingIds);
      assert unique == id;
      repo := new ManifestRepo(unique, if worktreeOf == Some("") then None else worktreeOf, baseName);
      repos := repos + [repo];
      assert IdsOf(repos) == ids + [id];
    }
  }

  lemma SanitizedIsSafe(value: string)
    ensures IsSafe(Sanitize(value))
  {
  }

  lemma IdSetOf(repos: seq<ManifestRepo>)
    ensures (set r | r in repos :: r.id) == IdSet(IdsOf(repos))
  {
    forall r | r in repos ensures r.id in IdSet(IdsOf(repos)) {
      var i := Position(repos, r);
      assert IdsOf(repos)[i] == r.id;
    }
  }

  /** After n entries the map sends exactly the unsafe ids among them to their replacements. */
  ghost predicate MapsRenamed(ids: seq<string>, names: seq<string>, n: nat, idMap: map<string, string>)
    requires |ids| == |names| && n <= |ids|
  {
    && (forall j :: 0 <= j < n && !IsSafe(ids[j]) ==> ids[j] in idMap && idMap[ids[j]] == Renamed(ids, names, n)[j])
    && (forall k :: k in idMap ==> exists j :: 0 <= j < n && ids[j] == k && !IsSafe(k))
  }

  lemma FollowsRenamed(ids: seq<string>, names: seq<string>, idMap: map<string, string>, j: nat)
    requires |ids| == |names| && j < |ids| && Distinct(ids) && MapsRenamed(ids, names, |ids|, idMap)
    ensures Follow(Some(ids[j]), idMap) == Some(Normalized(ids, names)[j])
  {
    RenamedFacts(ids, names, |ids|);
    hide Renamed;
  }

  lemma OnlyRenamedMapped(ids: seq<string>, names: seq<string>, idMap: map<string, string>, target: string)
    requires |ids| == |names| && MapsRenamed(ids, names, |ids|, idMap)
    requires forall j :: 0 <= j < |ids| ==> ids[j] != target
    ensures target !in idMap
  {
    hide Renamed;
  }

  /** An entry that is already safe changes nothing. */
  lemma RenameSkip(ids: seq<string>, names: seq<string>, i: nat, idMap: map<string, string>)
    requires |ids| == |names| && i < |ids| && MapsRenamed(ids, names, i, idMap)
    ensures IsSafe(ids[i]) ==> Renamed(ids, names, i + 1) == Renamed(ids, names, i) && MapsRenamed(ids, names, i + 1, idMap)
  {
  }

  function Follow(target: Option<string>, idMap: map<string, string>): Option<string> {
    if target.Some? && target.value in idMap then Some(idMap[target.value]) else target
  }

  lemma RenamedStep(ids: seq<string>, names: seq<string>, i: nat, id: string, idMap: map<string, string>)
    requires |ids| == |names| && i < |ids| && Distinct(ids) && !IsSafe(ids[i]) && MapsRenamed(ids, names, i, idMap)
    requires id == FreshId(Sanitize(names[i]), IdSet(Renamed(ids, names, i)) - {ids[i]})
    ensures Renamed(ids, names, i + 1) == Renamed(ids, names, i)[i := id]
    ensures IdSet(Renamed(ids, names, i + 1)) == IdSet(Renamed(ids, names, i)) - {ids[i]} + {id}
    ensures MapsRenamed(ids, names, i + 1, idMap[ids[i] := id])
  {
    hide *;
    RenamedUnfold(ids, names, i);
    RenamedDistinct(ids, names, i);
    ReplaceInSet(Renamed(ids, names, i), i, id);
    MapsStep(ids, names, i, id, idMap);
  }

  lemma RenamedDistinct(ids: seq<string>, names: seq<string>, i: nat)
    requires |ids| == |names| && i < |ids| && Distinct(ids)
    ensures Distinct(Renamed(ids, names, i)) && Renamed(ids, names, i)[i] == ids[i]
  {
    RenamedFacts(ids, names, i);
    hide Renamed, IsSafe, StrictlySafe;
  }

  lemma MapsStep(ids: seq<string>, names: seq<string>, i: nat, id: string, idMap: map<string, string>)
    requires |ids| == |names| && i < |ids| && Distinct(ids) && !IsSafe(ids[i]) && MapsRenamed(ids, names, i, idMap)
    requires Renamed(ids, names, i + 1) == Renamed(ids, names, i)[i := id]
    ensures MapsRenamed(ids, names, i + 1, idMap[ids[i] := id])
  {
    hide Renamed, IsSafe;
    var idMap' := idMap[ids[i] := id];
    forall k | k in idMap' ensures exists j :: 0 <= j < i + 1 && ids[j] == k && !IsSafe(k) {
      if k == ids[i] {
        assert 0 <= i < i + 1;
      } else {
        var j :| 0 <= j < i && ids[j] == k && !IsSafe(k);
        assert j < i + 1;
      }
    }
  }

  lemma ReplaceInSet(a: seq<string>, i: nat, id: string)
    requires Distinct(a) && i < |a|
    ensures IdSet(a[i := id]) == IdSet(a) - {a[i]} + {id}
  {
    var b := a[i := id];
    forall x ensures x in IdSet(b) <==> x in IdSet(a) - {a[i]} + {id} {
      if x in IdSet(b) {
        var j :| 0 <= j < |b| && b[j] == x;
        if j != i { assert a[j] == x && a[j] != a[i]; }
      }
      if x in IdSet(a) && x != a[i] {
        var j :| 0 <= j < |a| && a[j] == x;
        assert b[j] == x;
      }
      if x == id { assert b[i] == x; }
    }
  }
}
