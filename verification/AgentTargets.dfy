/** Which kind of target a resolution gives, field by field, and how each source of the answer is read. */
module AgentTargets {
  import opened Sequences
  import opened Text
  import opened AgentConfig

  /** A token is the text without the blanks around it, in small letters. */
  lemma NormalizeIs(s: string) returns (i: nat)
    ensures i + |Normalize(s)| <= |s| && forall k :: 0 <= k < |Normalize(s)| ==> Normalize(s)[k] == Lower(s)[i + k]
    ensures forall k :: 0 <= k < i || i + |Normalize(s)| <= k < |s| ==> IsSpace(s[k])
    ensures Normalize(s) != "" ==> !IsSpace(s[i]) && !IsSpace(s[i + |Normalize(s)| - 1])
  {
    i := StripIs(s);
    hide Strip, IsSpace;
    var t := Strip(s);
    assert forall k :: 0 <= k < |t| ==> t[k] == s[i..i + |t|][k] == s[i + k];
  }

  /** A name is split after the agent's id at a dash or an underscore, and at nothing else. */
  lemma SplitsAtSeparators(kind: string, c: char, profile: string)
    requires IsToken(kind) && kind != "" && IsToken(profile) && profile != ""
    ensures StripAgentPrefix(kind + "-" + profile, kind) == Some(profile) && StripAgentPrefix(kind + "_" + profile, kind) == Some(profile)
    ensures c != '-' && c != '_' && IsToken(kind + [c] + profile) ==> StripAgentPrefix(kind + [c] + profile, kind) == None
    ensures StripAgentPrefix(kind, kind) == None
  {
    StripUndoesJoin(kind, '-', profile);
    StripUndoesJoin(kind, '_', profile);
    var name := kind + [c] + profile;
    assert kind + ['-'] + profile == kind + "-" + profile && kind + ['_'] + profile == kind + "_" + profile;
    hide Normalize, Strip;
    assert name[|kind|] == c && (kind + "-")[|kind|] == '-' && (kind + "_")[|kind|] == '_';
    if StartsWith(name, kind + "-") { assert name[..|kind| + 1][|kind|] == '-'; }
    if StartsWith(name, kind + "_") { assert name[..|kind| + 1][|kind|] == '_'; }
  }

  // ---- The backend an agent runs on ---------------------------------------------------------

  /** Its own backend if it names another one, else the longest known id that its own id extends, else itself. */
  lemma RuntimeKindIs(agents: seq<Row>, id: string, agent: Agent)
    requires IsToken(id)
    ensures var named := agent.backend.Some? && agent.backend.value != "" && Normalize(agent.backend.value) != id;
      var inferred := InferBackend(id, agents);
      RuntimeKind(agents, id, agent) ==
        if named then Normalize(agent.backend.value) else if inferred.Some? then inferred.value else id
  {
    hide InferBackend, Normalize;
  }

  // ---- The tables -------------------------------------------------------------------------

  /** The profile tables answer with the first row that has the profile the name adds to the row's id. */
  lemma {:induction false} FromProfilesIs(agents: seq<Row>, id: string)
    ensures match FromProfiles(agents, id)
      case Some(pair) => exists i: nat :: OffersFirst(agents, id, pair, i)
      case None => forall i :: 0 <= i < |agents| ==> OffersNothing(agents[i], id)
  {
    if agents != [] {
      var rest := agents[1..];
      FromProfilesIs(rest, id);
      FromProfilesStep(agents, id);
      OffersIff(agents[0], id);
      hide OffersProfile, OffersPair, OffersNothing, StripAgentPrefix, Normalize, FromProfiles;
      if OffersProfile(agents[0], id) {
        assert OffersFirst(agents, id, FromProfiles(agents, id).value, 0);
      } else if FromProfiles(rest, id).Some? {
        var i: nat :| OffersFirst(rest, id, FromProfiles(rest, id).value, i);
        assert agents[i + 1] == rest[i];
        forall j | 0 <= j < i + 1 ensures OffersNothing(agents[j], id) {
          if j > 0 { assert agents[j] == rest[j - 1]; }
        }
        assert OffersFirst(agents, id, FromProfiles(agents, id).value, i + 1);
      } else {
        forall j | 0 <= j < |agents| ensures OffersNothing(agents[j], id) {
          if j > 0 { assert agents[j] == rest[j - 1]; }
        }
      }
    }
  }

  lemma FromProfilesStep(agents: seq<Row>, id: string)
    requires agents != []
    ensures OffersProfile(agents[0], id) ==>
      FromProfiles(agents, id) == Some(Pair(Normalize(agents[0].id), StripAgentPrefix(id, Normalize(agents[0].id)).value))
    ensures !OffersProfile(agents[0], id) ==> FromProfiles(agents, id) == FromProfiles(agents[1..], id)
  {
    hide Normalize, StripAgentPrefix;
  }

  /** The row's id and one of its profiles, both as tokens, are what the name splits into. */
  ghost predicate OffersPair(row: Row, id: string, pair: Pair) {
    && pair.id == Normalize(row.id) && pair.id != "" && pair.id != id && StripAgentPrefix(id, pair.id) == Some(pair.profile)
    && row.agent.profiles.Some? && exists p :: p in row.agent.profiles.value && Normalize(p) == pair.profile
  }

  ghost predicate OffersNothing(row: Row, id: string) {
    forall pair :: !OffersPair(row, id, pair)
  }

  ghost predicate OffersFirst(agents: seq<Row>, id: string, pair: Pair, i: nat) {
    i < |agents| && OffersPair(agents[i], id, pair) && forall j :: 0 <= j < i ==> OffersNothing(agents[j], id)
  }

  lemma OffersIff(row: Row, id: string)
    ensures OffersProfile(row, id) ==> OffersPair(row, id, Pair(Normalize(row.id), StripAgentPrefix(id, Normalize(row.id)).value))
    ensures !OffersProfile(row, id) ==> OffersNothing(row, id)
  {
    hide StripAgentPrefix, Normalize;
  }

  /** The alias table answers with the kind of the first alias of that id. */
  lemma {:induction false} AliasKindIs(aliases: seq<Alias>, id: string, i: nat)
    requires i <= |aliases| && forall j :: 0 <= j < i ==> aliases[j].id != id
    requires i < |aliases| ==> aliases[i].id == id
    ensures AliasKind(aliases, id) == if i < |aliases| then Normalize(aliases[i].kind) else ""
  {
    hide Normalize;
    if aliases != [] && i > 0 {
      assert forall j :: 0 <= j < |aliases[1..]| ==> aliases[1..][j] == aliases[j + 1];
      AliasKindIs(aliases[1..], id, i - 1);
    }
  }

  // ---- The target ----------------------------------------------------------------------------

  /** Only an alias runs under another id, and it alone drops the profile. A profile that was asked for is the
      target's. */
  lemma TargetFields(agents: seq<Row>, agentId: string, profile: Option<string>, aliases: Option<seq<Alias>>, fallback: bool, t: Target)
    requires Resolve(agents, agentId, profile, aliases, fallback) == Ok(t)
    ensures t.kind != AliasProfile ==> t.runtimeId == t.logicalId && t.runtimeProfile == t.logicalProfile
    ensures t.kind == AliasProfile ==> t.runtimeId != t.logicalId && t.runtimeProfile == None && t.logicalProfile.Some?
    ensures profile.Some? && Normalize(profile.value) != "" ==>
      t.logicalId == Normalize(agentId) && t.logicalProfile == Some(Normalize(profile.value))
  {
    TargetRequest(agents, agentId, profile, aliases, fallback, t);
    RequestKeepsTheName(agents, agentId, profile, aliases);
    if t.kind == AliasProfile { AliasTargetShape(agents, agentId, profile, aliases, fallback, t); }
    hide Requested, RunnerIn, AliasRunner, HasProfile, Normalize, Splits;
  }

  /** The agent itself has the profile in its table. */
  ghost predicate Configures(agents: seq<Row>, id: string, profile: string) {
    exists row :: row in agents && row.id == id && row.agent.profiles.Some? && profile in row.agent.profiles.value
  }

  ghost predicate HasRunner(agents: seq<Row>, id: string, profile: string) {
    exists row :: row in agents && RunsProfile(agents, row, id, profile)
  }

  ghost predicate IsAliasOf(alias: Alias, id: string, profile: string) {
    Normalize(alias.id) != id && Normalize(alias.kind) == id && StripAgentPrefix(Normalize(alias.id), id) == Some(profile)
  }

  ghost predicate HasAlias(aliases: Option<seq<Alias>>, id: string, profile: string) {
    aliases.Some? && exists alias :: alias in aliases.value && IsAliasOf(alias, id, profile)
  }

  ghost predicate AliasFirst(aliases: seq<Alias>, id: string, profile: string, i: nat) {
    i < |aliases| && IsAliasOf(aliases[i], id, profile) && forall j :: 0 <= j < i ==> !IsAliasOf(aliases[j], id, profile)
  }

  lemma AliasRunnerStep(aliases: seq<Alias>, id: string, profile: string)
    requires aliases != []
    ensures AliasRunner(aliases, id, profile) ==
      if IsAliasOf(aliases[0], id, profile) then Some(Normalize(aliases[0].id)) else AliasRunner(aliases[1..], id, profile)
  {
    hide Normalize, StripAgentPrefix;
  }

  /** The alias table answers with the first entry that is an alias of the agent and profile. */
  lemma {:induction false} AliasRunnerIff(aliases: seq<Alias>, id: string, profile: string)
    ensures match AliasRunner(aliases, id, profile)
      case Some(own) => exists i: nat :: AliasFirst(aliases, id, profile, i) && own == Normalize(aliases[i].id)
      case None => forall i :: 0 <= i < |aliases| ==> !IsAliasOf(aliases[i], id, profile)
  {
    if aliases != [] {
      var rest := aliases[1..];
      AliasRunnerIff(rest, id, profile);
      AliasRunnerStep(aliases, id, profile);
      hide Normalize, IsAliasOf, AliasRunner;
      if IsAliasOf(aliases[0], id, profile) {
        assert AliasFirst(aliases, id, profile, 0);
      } else if AliasRunner(rest, id, profile).Some? {
        var i: nat :| AliasFirst(rest, id, profile, i) && AliasRunner(rest, id, profile).value == Normalize(rest[i].id);
        assert aliases[i + 1] == rest[i];
        forall j | 0 <= j < i + 1 ensures !IsAliasOf(aliases[j], id, profile) {
          if j > 0 { assert aliases[j] == rest[j - 1]; }
        }
        assert AliasFirst(aliases, id, profile, i + 1);
      } else {
        forall j | 0 <= j < |aliases| ensures !IsAliasOf(aliases[j], id, profile) {
          if j > 0 { assert aliases[j] == rest[j - 1]; }
        }
      }
    }
  }

  lemma HasAliasIff(aliases: seq<Alias>, id: string, profile: string)
    ensures AliasRunner(aliases, id, profile).Some? <==> HasAlias(Some(aliases), id, profile)
  {
    AliasRunnerIff(aliases, id, profile);
    hide Normalize, IsAliasOf, AliasRunner;
    if AliasRunner(aliases, id, profile).Some? {
      var i: nat :| AliasFirst(aliases, id, profile, i);
      assert aliases[i] in aliases;
    } else if alias :| alias in aliases && IsAliasOf(alias, id, profile) {
      var i := Position(aliases, alias);
    }
  }

  lemma ConfiguresIff(agents: seq<Row>, id: string, profile: string)
    requires DistinctIds(agents)
    ensures HasProfile(agents, id, profile) <==> Configures(agents, id, profile)
  {
    if row :| row in agents && row.id == id {
      GetFinds(agents, row);
      forall other | other in agents && other.id == id ensures other == row {
        var i := Position(agents, row);
        var j := Position(agents, other);
        assert i == j;
      }
    } else {
      GetMissing(agents, id);
    }
  }

  /** When each kind arises: canonical if the agent has the profile itself, an alias if it does not and another agent
      or an allowed alias runs it, and passthrough otherwise, a request without a profile included. */
  lemma KindsAre(agents: seq<Row>, agentId: string, profile: Option<string>, aliases: Option<seq<Alias>>, fallback: bool, t: Target)
    requires DistinctIds(agents) && Resolve(agents, agentId, profile, aliases, fallback) == Ok(t)
    ensures t.logicalProfile.None? ==> t.kind == Passthrough
    ensures t.logicalProfile.Some? ==>
      var id, p := t.logicalId, t.logicalProfile.value;
      var runs := HasRunner(agents, id, p) || (fallback && HasAlias(aliases, id, p));
      && (t.kind == CanonicalProfile <==> Configures(agents, id, p))
      && (t.kind == AliasProfile <==> !Configures(agents, id, p) && runs)
      && (t.kind == Passthrough <==> !Configures(agents, id, p) && !runs)
  {
    TargetRequest(agents, agentId, profile, aliases, fallback, t);
    if t.logicalProfile.Some? {
      var id, p := t.logicalId, t.logicalProfile.value;
      hide Requested, HasProfile, RunnerIn, AliasRunner, RunsProfile, IsAliasOf, Configures;
      ConfiguresIff(agents, id, p);
      RunnerIff(agents, id, p);
      if aliases.Some? { HasAliasIff(aliases.value, id, p); }
    }
  }

  lemma RunnerIff(agents: seq<Row>, id: string, profile: string)
    ensures RunnerIn(agents, agents, id, profile).Some? <==> HasRunner(agents, id, profile)
  {
    RunnerIs(agents, agents, id, profile);
    hide RunsProfile, Normalize, RunnerIn;
    if RunnerIn(agents, agents, id, profile).Some? {
      var i: nat :| RunsFirst(agents, agents, id, profile, i);
      assert agents[i] in agents;
    } else if row :| row in agents && RunsProfile(agents, row, id, profile) {
      var i := Position(agents, row);
    }
  }

  /** The configured runner comes before any alias of the table, and each is the first of its kind. */
  lemma RunnerFirst(agents: seq<Row>, agentId: string, profile: Option<string>, aliases: Option<seq<Alias>>, fallback: bool, t: Target)
    requires Resolve(agents, agentId, profile, aliases, fallback) == Ok(t) && t.kind == AliasProfile
    ensures t.logicalProfile.Some?
    ensures var id, p := t.logicalId, t.logicalProfile.value;
      if HasRunner(agents, id, p) then
        exists i: nat :: RunsFirst(agents, agents, id, p, i) && Normalize(agents[i].id) == t.runtimeId
      else
        fallback && aliases.Some?
        && exists i: nat :: AliasFirst(aliases.value, id, p, i) && t.runtimeId == Normalize(aliases.value[i].id)
  {
    TargetRequest(agents, agentId, profile, aliases, fallback, t);
    hide Requested, HasProfile, RunnerIn, AliasRunner, RunsProfile, IsAliasOf, Normalize;
    var id, p := t.logicalId, t.logicalProfile.value;
    RunnerIff(agents, id, p);
    RunnerIs(agents, agents, id, p);
    if aliases.Some? { AliasRunnerIff(aliases.value, id, p); }
  }

  /** Another agent runs a profile exactly if its id is not the agent's own, its backend is the agent, and its id
      adds the profile to the agent's. */
  lemma RunsProfileIs(agents: seq<Row>, row: Row, id: string, profile: string)
    ensures RunsProfile(agents, row, id, profile) <==>
      && Normalize(row.id) != id && RuntimeKind(agents, Normalize(row.id), row.agent) == id
      && StripAgentPrefix(Normalize(row.id), id) == Some(profile)
  {
  }
}
