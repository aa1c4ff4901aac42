/** Agent targets: which configured agent and profile a requested id stands for, and which agent runs it. */
module AgentConfig {
  import opened Sequences
  import opened Text

  /** The fields resolution looks at; of the profiles only the names. */
  datatype Agent = Agent(backend: Option<string>, profiles: Option<set<string>>)

  /** One entry of the agents mapping, and one of the table of runtime aliases; both keep their order. */
  datatype Row = Row(id: string, agent: Agent)
  datatype Alias = Alias(id: string, kind: string)

  datatype Pair = Pair(id: string, profile: string)
  datatype Request = Request(id: string, profile: Option<string>)

  datatype Kind = Passthrough | CanonicalProfile | AliasProfile
  datatype Target = Target(logicalId: string, logicalProfile: Option<string>,
                           runtimeId: string, runtimeProfile: Option<string>, kind: Kind)

  datatype Result = Ok(target: Target) | AgentIdRequired

  // ---- Tokens -------------------------------------------------------------------------

  /** `_normalize_token` */
  function Normalize(s: string): string { Lower(Strip(s)) }

  function NormalizeOptional(s: Option<string>): string {
    if s.Some? then Normalize(s.value) else ""
  }

  predicate IsToken(s: string) { Normalize(s) == s }

  /** `_strip_agent_prefix` */
  function StripAgentPrefix(agentId: string, kind: string): Option<string> {
    var a, k := Normalize(agentId), Normalize(kind);
    if a == "" || k == "" then None
    else if StartsWith(a, k + "-") || StartsWith(a, k + "_") then
      var suffix := Strip(a[|k| + 1..]);
      if suffix == "" then None else Some(suffix)
    else None
  }

  function NormalizedIds(agents: seq<Row>): set<string> {
    set r | r in agents :: Normalize(r.id)
  }

  predicate IsSeparator(c: char) { c == '-' || c == '_' }

  /** The longest boundary prefix of b shorter than i that is known. */
  function LongestKnown(b: string, known: set<string>, i: nat): Option<string>
    requires i <= |b|
  {
    if i <= 1 then None
    else if IsSeparator(b[i - 1]) && b[..i - 1] in known then Some(b[..i - 1])
    else LongestKnown(b, known, i - 1)
  }

  /** `_infer_backend_id_by_prefix` */
  function InferBackend(backendId: string, agents: seq<Row>): Option<string> {
    var b := Normalize(backendId);
    LongestKnown(b, NormalizedIds(agents), |b|)
  }

  // ---- Requests ------------------------------------------------------------------------

  /** `agents.get` */
  function Get(agents: seq<Row>, id: string): Option<Agent> {
    if agents == [] then None else if agents[0].id == id then Some(agents[0].agent) else Get(agents[1..], id)
  }

  /** The backend an agent runs on: its own, or one that its id is a variant of. */
  function RuntimeKind(agents: seq<Row>, id: string, agent: Agent): string {
    var kind := Normalize(if agent.backend.Some? && agent.backend.value != "" then agent.backend.value else id);
    if kind != id then kind
    else match InferBackend(id, agents)
      case Some(inferred) => inferred
      case None => kind
  }

  function FromConfigured(agents: seq<Row>, id: string): Option<Pair> {
    match Get(agents, id)
    case None => None
    case Some(agent) =>
      var kind := RuntimeKind(agents, id, agent);
      match StripAgentPrefix(id, kind)
      case Some(profile) => Some(Pair(kind, profile))
      case None => None
  }

  predicate OffersProfile(row: Row, id: string) {
    var base := Normalize(row.id);
    && base != "" && base != id && row.agent.profiles.Some?
    && StripAgentPrefix(id, base).Some?
    && StripAgentPrefix(id, base).value in (set p | p in row.agent.profiles.value :: Normalize(p))
  }

  function FromProfiles(agents: seq<Row>, id: string): Option<Pair> {
    if agents == [] then None
    else if OffersProfile(agents[0], id) then
      var base := Normalize(agents[0].id);
      Some(Pair(base, StripAgentPrefix(id, base).value))
    else FromProfiles(agents[1..], id)
  }

  function AliasKind(aliases: seq<Alias>, id: string): string {
    if aliases == [] then "" else if aliases[0].id == id then Normalize(aliases[0].kind) else AliasKind(aliases[1..], id)
  }

  function FromAliases(aliases: Option<seq<Alias>>, id: string): Option<Pair> {
    if aliases.None? then None
    else
      var kind := AliasKind(aliases.value, id);
      match StripAgentPrefix(id, kind)
      case Some(profile) => Some(Pair(kind, profile))
      case None => None
  }

  function Else<T>(a: Option<T>, b: Option<T>): Option<T> { if a.Some? then a else b }

  /** `_normalize_requested_agent_target` */
  function Requested(agents: seq<Row>, agentId: string, profile: Option<string>, aliases: Option<seq<Alias>>): Request {
    var id, p := Normalize(agentId), NormalizeOptional(profile);
    if p != "" then Request(id, Some(p))
    else match Else(FromConfigured(agents, id), Else(FromProfiles(agents, id), FromAliases(aliases, id)))
      case Some(pair) => Request(pair.id, Some(pair.profile))
      case None => Request(id, None)
  }

  // ---- Targets ------------------------------------------------------------------------------

  predicate HasProfile(agents: seq<Row>, id: string, profile: string) {
    match Get(agents, id)
    case Some(agent) => agent.profiles.Some? && profile in agent.profiles.value
    case None => false
  }

  /** The agent of this row runs the profile of the logical agent under an id of its own. */
  predicate RunsProfile(agents: seq<Row>, row: Row, id: string, profile: string) {
    var own := Normalize(row.id);
    own != id && RuntimeKind(agents, own, row.agent) == id && StripAgentPrefix(own, id) == Some(profile)
  }

  function RunnerIn(rows: seq<Row>, agents: seq<Row>, id: string, profile: string): Option<string> {
    if rows == [] then None
    else if RunsProfile(agents, rows[0], id, profile) then Some(Normalize(rows[0].id))
    else RunnerIn(rows[1..], agents, id, profile)
  }

  function AliasRunner(aliases: seq<Alias>, id: string, profile: string): Option<string> {
    if aliases == [] then None
    else
      var own := Normalize(aliases[0].id);
      if own != id && Normalize(aliases[0].kind) == id && StripAgentPrefix(own, id) == Some(profile) then Some(own)
      else AliasRunner(aliases[1..], id, profile)
  }

  /** What resolution makes of a request that has an id. */
  function Resolved(agents: seq<Row>, request: Request, aliases: Option<seq<Alias>>, fallback: bool): Target {
    var id := request.id;
    match request.profile
    case None => Target(id, None, id, None, Passthrough)
    case Some(profile) =>
      if HasProfile(agents, id, profile) then Target(id, Some(profile), id, Some(profile), CanonicalProfile)
      else
        match Else(RunnerIn(agents, agents, id, profile),
                   if fallback && aliases.Some? then AliasRunner(aliases.value, id, profile) else None)
        case Some(own) => Target(id, Some(profile), own, None, AliasProfile)
        case None => Target(id, Some(profile), id, Some(profile), Passthrough)
  }

  /** `resolve_agent_target_from_agents` */
  function Resolve(agents: seq<Row>, agentId: string, profile: Option<string>, aliases: Option<seq<Alias>>, fallback: bool): Result {
    var request := Requested(agents, agentId, profile, aliases);
    if request.id == "" then AgentIdRequired else Ok(Resolved(agents, request, aliases, fallback))
  }

  // ---- Facts about tokens ------------------------------------------------------------------

  lemma LowerKeepsSpace(c: char)
    ensures IsSpace(LowerChar(c)) == IsSpace(c) && LowerChar(LowerChar(c)) == LowerChar(c)
  {
  }

  lemma LowerTrimmed(s: string)
    requires Trimmed(s)
    ensures Trimmed(Lower(s)) && Lower(Lower(s)) == Lower(s)
  {
    if s != "" {
      LowerKeepsSpace(s[0]);
      LowerKeepsSpace(s[|s| - 1]);
    }
  }

  /** Normalising is idempotent, and a token is trimmed. */
  lemma NormalizeTwice(s: string)
    ensures IsToken(Normalize(s)) && Trimmed(Normalize(s))
  {
    StripTrims(s);
    LowerTrimmed(Strip(s));
    StripTrimmed(Normalize(s));
  }

  lemma PartOfToken(s: string, i: nat)
    requires IsToken(s) && i <= |s|
    ensures IsToken(Strip(s[i..]))
  {
    NormalizeTwice(s);
    var t := s[i..];
    StripTrims(t);
    LStripShape(t);
    RStripShape(LStrip(t));
    var u := Strip(t);
    assert forall k :: 0 <= k < |s| ==> s[k] == LowerChar(Strip(s)[k]) && Strip(s) == s by { StripTrimmed(s); }
    forall k | 0 <= k < |u| ensures LowerChar(u[k]) == u[k] {
      assert u[k] == t[|t| - |LStrip(t)| + k];
    }
    assert Lower(u) == u;
  }

  ghost predicate Blank(s: string) { forall i :: 0 <= i < |s| ==> IsSpace(s[i]) }

  /** How a name splits into an agent and a profile of it. */
  ghost predicate Splits(name: string, id: string, profile: string) {
    && |id| < |name| && name[..|id|] == id && IsSeparator(name[|id|])
    && profile != "" && |id| + 1 + |profile| <= |name|
    && Blank(name[|id| + 1..|name| - |profile|]) && name[|name| - |profile|..] == profile
  }

  /** A stripped prefix loses nothing but the separator and blanks, and both parts are tokens. */
  lemma StripPrefixShape(agentId: string, kind: string, profile: string)
    requires StripAgentPrefix(agentId, kind) == Some(profile)
    ensures Splits(Normalize(agentId), Normalize(kind), profile) && IsToken(profile) && Normalize(kind) != ""
  {
    var a, k := Normalize(agentId), Normalize(kind);
    hide *;
    NormalizeTwice(agentId);
    PrefixUnfold(agentId, kind, profile);
    PrefixAt(a, k);
    PartOfToken(a, |k| + 1);
    StripTail(a, |k| + 1);
    SplitsAt(a, k, profile);
  }

  lemma PrefixUnfold(agentId: string, kind: string, profile: string)
    requires StripAgentPrefix(agentId, kind) == Some(profile)
    ensures var a, k := Normalize(agentId), Normalize(kind);
      k != "" && (StartsWith(a, k + "-") || StartsWith(a, k + "_")) && |k| < |a| && profile == Strip(a[|k| + 1..]) && profile != ""
  {
    hide Normalize, Strip;
  }

  lemma PrefixAt(a: string, k: string)
    requires StartsWith(a, k + "-") || StartsWith(a, k + "_")
    ensures |k| < |a| && a[..|k|] == k && IsSeparator(a[|k|])
  {
    assert a[..|k|] == a[..|k| + 1][..|k|] && a[|k|] == a[..|k| + 1][|k|];
  }

  /** Stripping the end of a trimmed text only drops the blanks it starts with. */
  lemma StripTail(a: string, i: nat)
    requires Trimmed(a) && i <= |a|
    ensures var p := Strip(a[i..]); i + |p| <= |a| && a[|a| - |p|..] == p && Blank(a[i..|a| - |p|])
  {
    var l := LStrip(a[i..]);
    assert Strip(a[i..]) == RStrip(l);
    LStripTail(a, i);
    RStripTrimmed(l);
  }

  lemma {:induction false} LStripTail(a: string, i: nat)
    requires Trimmed(a) && i <= |a|
    ensures var l := LStrip(a[i..]); i + |l| <= |a| && a[|a| - |l|..] == l && Blank(a[i..|a| - |l|]) && Trimmed(l)
    decreases |a| - i
  {
    if i < |a| && IsSpace(a[i]) {
      assert a[i..][1..] == a[i + 1..];
      LStripTail(a, i + 1);
      hide IsSpace;
      BlankGrows(a, i, |a| - |LStrip(a[i + 1..])|);
    }
  }

  lemma BlankGrows(a: string, i: nat, j: nat)
    requires i < j <= |a| && IsSpace(a[i]) && Blank(a[i + 1..j])
    ensures Blank(a[i..j])
  {
    hide IsSpace;
    assert a[i..j] == [a[i]] + a[i + 1..j];
  }

  lemma RStripTrimmed(s: string)
    requires Trimmed(s)
    ensures RStrip(s) == s
  {
  }

  lemma SplitsAt(a: string, k: string, p: string)
    requires |k| < |a| && a[..|k|] == k && IsSeparator(a[|k|]) && p != ""
    requires |k| + 1 + |p| <= |a| && a[|a| - |p|..] == p && Blank(a[|k| + 1..|a| - |p|])
    ensures Splits(a, k, p)
  {
  }

  /** Joining a token and a profile name by a dash or an underscore is undone. */
  lemma StripUndoesJoin(kind: string, separator: char, profile: string)
    requires IsToken(kind) && kind != "" && IsToken(profile) && profile != "" && IsSeparator(separator)
    ensures StripAgentPrefix(kind + [separator] + profile, kind) == Some(profile)
  {
    var a := kind + [separator] + profile;
    JoinIsToken(kind, separator, profile);
    NormalizeTwice(profile);
    StripTrimmed(profile);
    assert a[..|kind| + 1] == kind + [separator] && a[|kind| + 1..] == profile;
    hide Normalize, Strip;
  }

  ghost predicate IsKnownBoundary(b: string, known: set<string>, j: nat) {
    0 < j < |b| && IsSeparator(b[j]) && b[..j] in known
  }

  /** The longest prefix of b that ends before a separator and is known. */
  ghost predicate IsLongestBoundary(b: string, known: set<string>, j: nat) {
    IsKnownBoundary(b, known, j) && forall k :: k > j ==> !IsKnownBoundary(b, known, k)
  }

  lemma {:induction false} LongestKnownIs(b: string, known: set<string>, i: nat)
    requires i <= |b| && forall k :: k >= i ==> !IsKnownBoundary(b, known, k)
    ensures match LongestKnown(b, known, i)
      case Some(p) => |p| < |b| && p == b[..|p|] && IsLongestBoundary(b, known, |p|)
      case None => forall k :: !IsKnownBoundary(b, known, k)
  {
    if i > 1 {
      var j: nat := i - 1;
      if IsSeparator(b[j]) && b[..j] in known {
        assert IsKnownBoundary(b, known, j);
      } else {
        assert !IsKnownBoundary(b, known, j);
        LongestKnownIs(b, known, j);
      }
    } else {
      forall k: nat ensures !IsKnownBoundary(b, known, k) {}
    }
  }

  /** Inference finds the longest known agent id that the id extends at a separator, if there is one. */
  lemma InferIsLongest(id: string, agents: seq<Row>)
    ensures var b, known := Normalize(id), NormalizedIds(agents);
      match InferBackend(id, agents)
      case Some(p) => |p| < |b| && p == b[..|p|] && IsLongestBoundary(b, known, |p|)
      case None => forall k :: !IsKnownBoundary(b, known, k)
  {
    LongestKnownIs(Normalize(id), NormalizedIds(agents), |Normalize(id)|);
  }

  /** What inference finds is a token. */
  lemma InferIsToken(id: string, agents: seq<Row>)
    ensures InferBackend(id, agents).Some? ==> IsToken(InferBackend(id, agents).value)
  {
    InferIsLongest(id, agents);
    if InferBackend(id, agents).Some? {
      var row :| row in agents && Normalize(row.id) == InferBackend(id, agents).value;
      NormalizeTwice(row.id);
    }
  }

  // ---- Facts about requests --------------------------------------------------------------

  lemma KindIsToken(agents: seq<Row>, id: string, agent: Agent)
    ensures IsToken(RuntimeKind(agents, id, agent))
  {
    NormalizeTwice(if agent.backend.Some? && agent.backend.value != "" then agent.backend.value else id);
    InferIsToken(id, agents);
  }

  /** The pair a name was split into. */
  ghost predicate SplitOf(name: string, pair: Option<Pair>) {
    pair.Some? ==>
      && Splits(name, pair.value.id, pair.value.profile) && IsToken(pair.value.id) && IsToken(pair.value.profile)
      && pair.value.id != ""
  }

  lemma StrippedSplits(id: string, kind: string)
    requires IsToken(id) && IsToken(kind)
    ensures StripAgentPrefix(id, kind).Some? ==> SplitOf(id, Some(Pair(kind, StripAgentPrefix(id, kind).value)))
  {
    if StripAgentPrefix(id, kind).Some? { StripPrefixShape(id, kind, StripAgentPrefix(id, kind).value); }
  }

  lemma ConfiguredSplits(agents: seq<Row>, id: string)
    requires IsToken(id)
    ensures SplitOf(id, FromConfigured(agents, id))
  {
    match Get(agents, id)
    case None =>
    case Some(agent) =>
      KindIsToken(agents, id, agent);
      hide StripAgentPrefix, Splits, RuntimeKind;
      StrippedSplits(id, RuntimeKind(agents, id, agent));
  }

  lemma {:induction false} ProfilesSplit(agents: seq<Row>, id: string)
    requires IsToken(id)
    ensures SplitOf(id, FromProfiles(agents, id))
  {
    if agents != [] {
      hide StripAgentPrefix, Splits, Normalize;
      NormalizeTwice(agents[0].id);
      StrippedSplits(id, Normalize(agents[0].id));
      ProfilesSplit(agents[1..], id);
    }
  }

  lemma {:induction false} AliasKindIsToken(aliases: seq<Alias>, id: string)
    ensures IsToken(AliasKind(aliases, id))
  {
    if aliases == [] {
    } else {
      NormalizeTwice(aliases[0].kind);
      AliasKindIsToken(aliases[1..], id);
    }
  }

  lemma AliasesSplit(aliases: Option<seq<Alias>>, id: string)
    requires IsToken(id)
    ensures SplitOf(id, FromAliases(aliases, id))
  {
    if aliases.Some? {
      AliasKindIsToken(aliases.value, id);
      hide StripAgentPrefix, Splits;
      StrippedSplits(id, AliasKind(aliases.value, id));
    }
  }

  /** A request given without a profile is either the name itself, or a split of it into an agent id and
      a profile that loses only the separator and blanks. With a profile, both are taken as given. */
  lemma RequestKeepsTheName(agents: seq<Row>, agentId: string, profile: Option<string>, aliases: Option<seq<Alias>>)
    ensures var r := Requested(agents, agentId, profile, aliases);
      && IsToken(r.id) && (r.profile.Some? ==> IsToken(r.profile.value) && r.profile.value != "")
      && (r.id == "" <==> Normalize(agentId) == "")
      && (if NormalizeOptional(profile) != "" then r == Request(Normalize(agentId), Some(NormalizeOptional(profile)))
          else if r.profile.None? then r.id == Normalize(agentId)
          else Splits(Normalize(agentId), r.id, r.profile.value))
  {
    var id := Normalize(agentId);
    NormalizeTwice(agentId);
    if profile.Some? { NormalizeTwice(profile.value); }
    ConfiguredSplits(agents, id);
    ProfilesSplit(agents, id);
    AliasesSplit(aliases, id);
    SplitsNonempty(id);
    hide FromConfigured, FromProfiles, FromAliases, Splits, Normalize;
  }

  lemma SplitsNonempty(name: string)
    ensures forall id, profile :: Splits(name, id, profile) ==> profile != "" && name != ""
  {
  }

  // ---- Main results ----------------------------------------------------------------------

  /** Resolution fails exactly on a blank agent id, whatever else is asked for. */
  lemma FailsIffBlank(agents: seq<Row>, agentId: string, profile: Option<string>, aliases: Option<seq<Alias>>, fallback: bool)
    ensures Resolve(agents, agentId, profile, aliases, fallback).AgentIdRequired? <==> Blank(agentId)
  {
    RequestKeepsTheName(agents, agentId, profile, aliases);
    StripBlank(agentId);
  }

  /** Resolving the logical agent and profile of a target again gives that target, for every configuration. */
  lemma ResolvesToItself(agents: seq<Row>, agentId: string, profile: Option<string>, aliases: Option<seq<Alias>>, fallback: bool, t: Target)
    requires Resolve(agents, agentId, profile, aliases, fallback) == Ok(t)
    ensures Resolve(agents, t.logicalId, t.logicalProfile, aliases, fallback) == Ok(t)
  {
    var r := Requested(agents, agentId, profile, aliases);
    RequestKeepsTheName(agents, agentId, profile, aliases);
    hide FromConfigured, FromProfiles, FromAliases, Splits, Normalize, HasProfile, RunnerIn, AliasRunner;
    assert t.logicalId == r.id && t.logicalProfile == r.profile;
    assert Requested(agents, r.id, r.profile, aliases) == r;
  }

  ghost predicate DistinctIds(agents: seq<Row>) {
    forall i, j :: 0 <= i < j < |agents| ==> agents[i].id != agents[j].id
  }

  /** The keys of the agents mapping are stored the way they are looked up. */
  ghost predicate NormalKeys(agents: seq<Row>) {
    forall i :: 0 <= i < |agents| ==> IsToken(agents[i].id)
  }

  lemma {:induction false} GetFinds(agents: seq<Row>, row: Row)
    requires DistinctIds(agents) && row in agents
    ensures Get(agents, row.id) == Some(row.agent)
  {
    if agents[0] != row {
      var i := Position(agents, row);
      assert agents[i].id != agents[0].id;
      GetFinds(agents[1..], row);
    }
  }

  lemma {:induction false} GetMissing(agents: seq<Row>, id: string)
    requires forall r :: r in agents ==> r.id != id
    ensures Get(agents, id).None?
  {
    if agents != [] { GetMissing(agents[1..], id); }
  }

  ghost predicate RunsFirst(rows: seq<Row>, agents: seq<Row>, id: string, profile: string, i: nat) {
    && i < |rows| && RunsProfile(agents, rows[i], id, profile)
    && forall j :: 0 <= j < i ==> !RunsProfile(agents, rows[j], id, profile)
  }

  /** The runner found is the first row that runs the profile. */
  lemma {:induction false} RunnerIs(rows: seq<Row>, agents: seq<Row>, id: string, profile: string)
    ensures match RunnerIn(rows, agents, id, profile)
      case Some(own) => exists i: nat :: RunsFirst(rows, agents, id, profile, i) && Normalize(rows[i].id) == own
      case None => forall i :: 0 <= i < |rows| ==> !RunsProfile(agents, rows[i], id, profile)
  {
    hide RunsProfile, Normalize;
    if rows == [] {
    } else if RunsProfile(agents, rows[0], id, profile) {
      assert RunsFirst(rows, agents, id, profile, 0);
    } else {
      var rest := rows[1..];
      RunnerIs(rest, agents, id, profile);
      if RunnerIn(rest, agents, id, profile).Some? {
        var i: nat :| RunsFirst(rest, agents, id, profile, i) && Normalize(rest[i].id) == RunnerIn(rest, agents, id, profile).value;
        assert rows[i + 1] == rest[i];
        forall j | 0 <= j < i + 1 ensures !RunsProfile(agents, rows[j], id, profile) {
          if j > 0 { assert rows[j] == rest[j - 1]; }
        }
        assert RunsFirst(rows, agents, id, profile, i + 1);
      } else {
        forall i | 0 <= i < |rows| ensures !RunsProfile(agents, rows[i], id, profile) {
          if i > 0 { assert rows[i] == rest[i - 1]; }
        }
      }
    }
  }

  /** The target's runner is one of the configured agents, not an entry of the alias table. */
  ghost predicate FoundInConfig(agents: seq<Row>, t: Target) {
    t.logicalProfile.Some? && RunnerIn(agents, agents, t.logicalId, t.logicalProfile.value) == Some(t.runtimeId)
  }

  lemma FoundRow(agents: seq<Row>, t: Target) returns (row: Row)
    requires FoundInConfig(agents, t)
    ensures row in agents && Normalize(row.id) == t.runtimeId
    ensures RunsProfile(agents, row, t.logicalId, t.logicalProfile.value)
  {
    RunnerIs(agents, agents, t.logicalId, t.logicalProfile.value);
    hide RunsProfile, Normalize, RunnerIn;
    var i: nat :| RunsFirst(agents, agents, t.logicalId, t.logicalProfile.value, i) && Normalize(agents[i].id) == t.runtimeId;
    row := agents[i];
  }

  lemma StableWhenStored(agents: seq<Row>, agentId: string, profile: Option<string>, aliases: Option<seq<Alias>>, fallback: bool,
                         t: Target, row: Row)
    requires DistinctIds(agents) && row in agents && row.id == t.runtimeId && IsToken(row.id)
    requires Resolve(agents, agentId, profile, aliases, fallback) == Ok(t) && t.logicalProfile.Some?
    requires RunsProfile(agents, row, t.logicalId, t.logicalProfile.value)
    ensures Resolve(agents, t.runtimeId, None, aliases, fallback) == Ok(t)
  {
    hide *;
    TargetRequest(agents, agentId, profile, aliases, fallback, t);
    GetFinds(agents, row);
    StoredRequest(agents, aliases, t.logicalId, t.logicalProfile.value, row);
    SameRequest(agents, agentId, profile, t.runtimeId, None, aliases, fallback);
  }

  lemma StoredRequest(agents: seq<Row>, aliases: Option<seq<Alias>>, id: string, profile: string, row: Row)
    requires IsToken(row.id) && Get(agents, row.id) == Some(row.agent) && RunsProfile(agents, row, id, profile)
    ensures Requested(agents, row.id, None, aliases) == Request(id, Some(profile))
  {
    hide RuntimeKind, StripAgentPrefix, Get, FromProfiles, FromAliases, Normalize;
    assert FromConfigured(agents, row.id) == Some(Pair(id, profile));
  }

  /** A target keeps the request it was made from, and depends on nothing else of the call. */
  lemma TargetRequest(agents: seq<Row>, agentId: string, profile: Option<string>, aliases: Option<seq<Alias>>, fallback: bool, t: Target)
    requires Resolve(agents, agentId, profile, aliases, fallback) == Ok(t)
    ensures Requested(agents, agentId, profile, aliases) == Request(t.logicalId, t.logicalProfile)
    ensures Resolved(agents, Request(t.logicalId, t.logicalProfile), aliases, fallback) == t
  {
    hide Requested, HasProfile, RunnerIn, AliasRunner;
  }

  lemma SameRequest(agents: seq<Row>, a: string, p: Option<string>, b: string, q: Option<string>, aliases: Option<seq<Alias>>, fallback: bool)
    requires Requested(agents, a, p, aliases) == Requested(agents, b, q, aliases)
    ensures Resolve(agents, a, p, aliases, fallback) == Resolve(agents, b, q, aliases, fallback)
  {
    hide Requested, Resolved;
  }

  lemma AliasSource(agents: seq<Row>, request: Request, aliases: Option<seq<Alias>>, fallback: bool)
    requires Resolved(agents, request, aliases, fallback).kind.AliasProfile?
    ensures var t := Resolved(agents, request, aliases, fallback);
      && t.logicalProfile.Some? && t.runtimeProfile.None? && !HasProfile(agents, t.logicalId, t.logicalProfile.value)
      && (FoundInConfig(agents, t)
        || (aliases.Some? && AliasRunner(aliases.value, t.logicalId, t.logicalProfile.value) == Some(t.runtimeId)))
  {
    hide HasProfile, RunnerIn, AliasRunner;
  }

  /** An alias target found in a configuration with normalised keys is found again from its runtime id alone. */
  lemma AliasIsStable(agents: seq<Row>, agentId: string, profile: Option<string>, aliases: Option<seq<Alias>>, fallback: bool, t: Target)
    requires NormalKeys(agents) && DistinctIds(agents)
    requires Resolve(agents, agentId, profile, aliases, fallback) == Ok(t) && t.kind.AliasProfile? && FoundInConfig(agents, t)
    ensures Resolve(agents, t.runtimeId, None, aliases, fallback) == Ok(t)
  {
    var row := FoundRow(agents, t);
    var i := Position(agents, row);
    assert IsToken(agents[i].id);
    hide RunsProfile, Resolve, FoundInConfig;
    StableWhenStored(agents, agentId, profile, aliases, fallback, t, row);
  }

  /** Asked for by its id alone, an agent is taken for this pair: its stored key runs the profile, or, where no stored
      key splits, the profile tables say so, or, where they say nothing, the alias table does. */
  predicate TakenFor(agents: seq<Row>, id: string, pair: Pair, aliases: Option<seq<Alias>>) {
    var stored := Get(agents, id);
    if stored.Some? && StripAgentPrefix(id, RuntimeKind(agents, id, stored.value)).Some? then
      RuntimeKind(agents, id, stored.value) == pair.id && StripAgentPrefix(id, pair.id) == Some(pair.profile)
    else
      FromProfiles(agents, id) == Some(pair) || (FromProfiles(agents, id).None? && FromAliases(aliases, id) == Some(pair))
  }

  lemma RequestedById(agents: seq<Row>, id: string, pair: Pair, aliases: Option<seq<Alias>>)
    requires IsToken(id)
    ensures Requested(agents, id, None, aliases) == Request(pair.id, Some(pair.profile)) <==> TakenFor(agents, id, pair, aliases)
  {
    hide StripAgentPrefix, RuntimeKind, Get, FromProfiles, FromAliases, Normalize;
  }

  /** For every configuration, an alias target is found again from its runtime id alone exactly if the id on its own
      is taken for the target's logical agent and profile. */
  lemma AliasStableIff(agents: seq<Row>, agentId: string, profile: Option<string>, aliases: Option<seq<Alias>>, fallback: bool, t: Target)
    requires Resolve(agents, agentId, profile, aliases, fallback) == Ok(t) && t.kind.AliasProfile?
    ensures t.logicalProfile.Some?
    ensures Resolve(agents, t.runtimeId, None, aliases, fallback) == Ok(t)
      <==> TakenFor(agents, t.runtimeId, Pair(t.logicalId, t.logicalProfile.value), aliases)
  {
    hide *;
    AliasTargetShape(agents, agentId, profile, aliases, fallback, t);
    AliasIdIsToken(agents, agentId, profile, aliases, fallback, t);
    TargetRequest(agents, agentId, profile, aliases, fallback, t);
    RequestedById(agents, t.runtimeId, Pair(t.logicalId, t.logicalProfile.value), aliases);
    if Resolve(agents, t.runtimeId, None, aliases, fallback) == Ok(t) {
      TargetRequest(agents, t.runtimeId, None, aliases, fallback, t);
    }
    if TakenFor(agents, t.runtimeId, Pair(t.logicalId, t.logicalProfile.value), aliases) {
      SameRequest(agents, agentId, profile, t.runtimeId, None, aliases, fallback);
    }
  }

  lemma AliasIdIsToken(agents: seq<Row>, agentId: string, profile: Option<string>, aliases: Option<seq<Alias>>, fallback: bool, t: Target)
    requires Resolve(agents, agentId, profile, aliases, fallback) == Ok(t) && t.kind.AliasProfile?
    ensures IsToken(t.runtimeId)
  {
    hide *;
    TargetRequest(agents, agentId, profile, aliases, fallback, t);
    AliasSource(agents, Request(t.logicalId, t.logicalProfile), aliases, fallback);
    if FoundInConfig(agents, t) {
      var row := FoundRow(agents, t);
      NormalizeTwice(row.id);
    } else {
      AliasRunnerIs(aliases.value, t.logicalId, t.logicalProfile.value);
    }
  }

  /** Where no two keys normalise alike, a target found in the configuration is found again exactly if its id is a
      stored key, or the profile tables lead to the same pair, or they lead nowhere and the alias table does. */
  lemma AliasStableByKey(agents: seq<Row>, agentId: string, profile: Option<string>, aliases: Option<seq<Alias>>, fallback: bool, t: Target)
    requires forall i, j :: 0 <= i < j < |agents| ==> Normalize(agents[i].id) != Normalize(agents[j].id)
    requires Resolve(agents, agentId, profile, aliases, fallback) == Ok(t) && t.kind.AliasProfile? && FoundInConfig(agents, t)
    ensures var pair := Some(Pair(t.logicalId, t.logicalProfile.value));
      Resolve(agents, t.runtimeId, None, aliases, fallback) == Ok(t) <==>
        || Get(agents, t.runtimeId).Some? || FromProfiles(agents, t.runtimeId) == pair
        || (FromProfiles(agents, t.runtimeId).None? && FromAliases(aliases, t.runtimeId) == pair)
  {
    AliasStableIff(agents, agentId, profile, aliases, fallback, t);
    AliasIdIsToken(agents, agentId, profile, aliases, fallback, t);
    hide Resolve, RuntimeKind, StripAgentPrefix, FromProfiles, FromAliases, Get, RunnerIn;
    var row := FoundRow(agents, t);
    if Get(agents, t.runtimeId).Some? {
      var stored := GetIsRow(agents, t.runtimeId);
      var i := Position(agents, row);
      var j := Position(agents, stored);
      assert Normalize(stored.id) == Normalize(row.id);
      assert i == j;
    }
  }

  lemma {:induction false} GetIsRow(agents: seq<Row>, id: string) returns (row: Row)
    requires Get(agents, id).Some?
    ensures row in agents && row.id == id && Get(agents, id) == Some(row.agent)
  {
    if agents[0].id == id {
      row := agents[0];
    } else {
      row := GetIsRow(agents[1..], id);
    }
  }

  lemma NormalizesTo(s: string, t: string)
    requires Trimmed(s) && |s| == |t| && forall i :: 0 <= i < |s| ==> LowerChar(s[i]) == t[i]
    ensures Normalize(s) == t
  {
    StripTrimmed(s);
    assert Lower(s) == t;
  }

  lemma {:induction false} NoProfiles(agents: seq<Row>, id: string)
    requires forall i :: 0 <= i < |agents| ==> agents[i].agent.profiles.None?
    ensures FromProfiles(agents, id).None?
  {
    if agents != [] { NoProfiles(agents[1..], id); }
  }

  lemma CapitalNames()
    ensures Normalize("Hermes-x") == "hermes-x" && Normalize("hermes-x") == "hermes-x" && Normalize("hermes") == "hermes" && Normalize("x") == "x"
    ensures StripAgentPrefix("hermes-x", "hermes") == Some("x") && "hermes-x" != "hermes" && "Hermes-x" != "hermes-x" && "Hermes-x" != "hermes"
  {
    NormalizesTo("Hermes-x", "hermes-x");
    NormalizesTo("hermes-x", "hermes-x");
    NormalizesTo("hermes", "hermes");
    NormalizesTo("x", "x");
    StripUndoesJoin("hermes", '-', "x");
    assert "hermes" + ['-'] + "x" == "hermes-x";
    assert "Hermes-x"[0] != "hermes-x"[0] && "Hermes-x"[0] != "hermes"[0] && |"hermes-x"| != |"hermes"|;
  }

  function CapitalKey(): seq<Row> { [Row("Hermes-x", Agent(Some("hermes"), None))] }

  lemma CapitalKeyRuns()
    ensures Requested(CapitalKey(), "hermes", Some("x"), None) == Request("hermes", Some("x"))
    ensures RunnerIn(CapitalKey(), CapitalKey(), "hermes", "x") == Some("hermes-x") && !HasProfile(CapitalKey(), "hermes", "x")
  {
    CapitalNames();
    hide Normalize, StripAgentPrefix, InferBackend;
    assert CapitalKey()[1..] == [];
    assert RunsProfile(CapitalKey(), CapitalKey()[0], "hermes", "x");
    GetMissing(CapitalKey(), "hermes");
  }

  lemma CapitalKeyMissed()
    ensures Requested(CapitalKey(), "hermes-x", None, None) == Request("hermes-x", None)
  {
    CapitalNames();
    GetMissing(CapitalKey(), "hermes-x");
    NoProfiles(CapitalKey(), "hermes-x");
    hide Normalize, StripAgentPrefix, Get, FromProfiles, CapitalKey;
  }

  /** Under a key that is stored with a capital the profile's runner is found, and its id alone leads nowhere. */
  lemma CapitalKeyIsLost()
    ensures Resolve(CapitalKey(), "hermes", Some("x"), None, false) == Ok(Target("hermes", Some("x"), "hermes-x", None, AliasProfile))
    ensures Resolve(CapitalKey(), "hermes-x", None, None, false) == Ok(Target("hermes-x", None, "hermes-x", None, Passthrough))
  {
    CapitalKeyRuns();
    CapitalKeyMissed();
    CapitalNames();
    hide Requested, RunnerIn, HasProfile, CapitalKey, StripAgentPrefix, Normalize;
  }

  /** The runner of an alias target carries the logical agent and the profile in its name. */
  lemma AliasTargetShape(agents: seq<Row>, agentId: string, profile: Option<string>, aliases: Option<seq<Alias>>, fallback: bool, t: Target)
    requires Resolve(agents, agentId, profile, aliases, fallback) == Ok(t) && t.kind.AliasProfile?
    ensures t.logicalProfile.Some? && t.runtimeProfile.None? && t.runtimeId != t.logicalId
    ensures !HasProfile(agents, t.logicalId, t.logicalProfile.value)
    ensures Splits(t.runtimeId, t.logicalId, t.logicalProfile.value)
  {
    hide *;
    TargetRequest(agents, agentId, profile, aliases, fallback, t);
    RequestKeepsTheName(agents, agentId, profile, aliases);
    AliasSource(agents, Request(t.logicalId, t.logicalProfile), aliases, fallback);
    var p := t.logicalProfile.value;
    if FoundInConfig(agents, t) {
      var row := FoundRow(agents, t);
      RunnerSplits(agents, row, t.logicalId, p);
    } else {
      AliasRunnerIs(aliases.value, t.logicalId, p);
      NamesSplit(t.runtimeId, t.logicalId, p);
    }
  }

  lemma NamesSplit(name: string, id: string, profile: string)
    requires IsToken(name) && IsToken(id) && StripAgentPrefix(name, id) == Some(profile)
    ensures Splits(name, id, profile)
  {
    StripPrefixShape(name, id, profile);
  }

  lemma RunnerSplits(agents: seq<Row>, row: Row, id: string, profile: string)
    requires IsToken(id) && RunsProfile(agents, row, id, profile)
    ensures Splits(Normalize(row.id), id, profile) && Normalize(row.id) != id
  {
    NormalizeTwice(row.id);
    NamesSplit(Normalize(row.id), id, profile);
  }

  lemma {:induction false} AliasRunnerIs(aliases: seq<Alias>, id: string, profile: string)
    ensures match AliasRunner(aliases, id, profile)
      case Some(own) => IsToken(own) && own != id && StripAgentPrefix(own, id) == Some(profile)
      case None => true
  {
    if aliases != [] {
      NormalizeTwice(aliases[0].id);
      AliasRunnerIs(aliases[1..], id, profile);
    }
  }

  /** A configured agent's profile is reached by joining their names, unless the joined name is itself
      configured or another agent offers a profile under it. */
  lemma JoinedNameIsFound(agents: seq<Row>, row: Row, separator: char, p: string, aliases: Option<seq<Alias>>, fallback: bool)
    requires DistinctIds(agents) && row in agents && row.agent.profiles.Some? && p in row.agent.profiles.value
    requires IsToken(row.id) && row.id != "" && IsToken(p) && p != "" && IsSeparator(separator)
    requires forall r :: r in agents ==> r.id != row.id + [separator] + p
    requires forall r :: r in agents && r != row ==> !OffersProfile(r, row.id + [separator] + p)
    ensures Resolve(agents, row.id + [separator] + p, None, aliases, fallback)
      == Ok(Target(row.id, Some(p), row.id, Some(p), CanonicalProfile))
  {
    var name := row.id + [separator] + p;
    StripUndoesJoin(row.id, separator, p);
    JoinIsToken(row.id, separator, p);
    GetFinds(agents, row);
    GetMissing(agents, name);
    assert OffersProfile(row, name) by { assert p == Normalize(p); }
    OnlyOffer(agents, row, name);
    hide OffersProfile, StripAgentPrefix, Normalize, Get, FromProfiles, FromAliases;
    assert Requested(agents, name, None, aliases) == Request(row.id, Some(p));
  }

  lemma JoinIsToken(kind: string, separator: char, profile: string)
    requires IsToken(kind) && kind != "" && IsToken(profile) && profile != "" && IsSeparator(separator)
    ensures IsToken(kind + [separator] + profile)
  {
    var a := kind + [separator] + profile;
    NormalizeTwice(kind);
    NormalizeTwice(profile);
    assert a[0] == kind[0] && a[|a| - 1] == profile[|profile| - 1];
    StripTrimmed(a);
    StripTrimmed(kind);
    StripTrimmed(profile);
    forall i | 0 <= i < |a| ensures LowerChar(a[i]) == a[i] {
      if i < |kind| { assert a[i] == kind[i] == Lower(kind)[i]; }
      if i > |kind| { assert a[i] == profile[i - |kind| - 1] == Lower(profile)[i - |kind| - 1]; }
    }
    assert Lower(a) == a;
  }

  lemma {:induction false} OnlyOffer(agents: seq<Row>, row: Row, name: string)
    requires row in agents && OffersProfile(row, name)
    requires forall r :: r in agents && r != row ==> !OffersProfile(r, name)
    ensures FromProfiles(agents, name) == Some(Pair(Normalize(row.id), StripAgentPrefix(name, Normalize(row.id)).value))
  {
    if agents[0] != row { OnlyOffer(agents[1..], row, name); }
  }
}
