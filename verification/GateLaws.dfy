/** What the permission gate allows, in terms of tiers, switches, tokens and times
    (packages/agentic_micro_os/permission_gate.py). */
module GateLaws {
  import opened Wrappers
  import opened GateSpec

  // ---------------------------------------------------------------- decisions

  /** Every sub-switch that stands guard over the scope is on. */
  predicate SwitchedOn(s: SubSwitches, scope: Scope) {
    && (scope == Shell || scope == GitStatus ==> s.shell)
    && (scope == FileRead ==> s.fullFileRead)
    && (scope == FileWrite ==> s.fullFileWrite)
    && (scope == GitCommit ==> s.gitCommit)
    && (scope == GitPush ==> s.gitPush)
    && (scope == LocalBrainWrite ==> s.localBrainWrite)
    && (scope == CloudProductionWrite ==> s.cloudProductionWrite)
    && (scope == ExternalNetwork ==> s.externalNetwork)
    && (scope == BrowserControl ==> s.browserControl)
    && (scope == McpTools ==> s.mcpTools)
    && (scope == CodeExecution ==> s.codeExecution)
  }

  lemma SwitchesStandGuard(s: SubSwitches, scope: Scope)
    ensures SwitchFor(s, scope) <==> SwitchedOn(s, scope)
  {
  }

  const HARMLESS := {ReadSummary, ReviewDraftWrite, PatchProposal}

  /** What each tier asks for: reading summaries; the three harmless scopes; an unexpired token for
      the scope; an unexpired session with the switch of the scope on. */
  predicate TierPermits(g: Gate, now: int, scope: Scope, token: string) {
    match g.tier
    case ObserveOnly => scope == ReadSummary
    case DraftProposal => scope == ReadSummary || scope == ReviewDraftWrite || scope == PatchProposal
    case SignedDelegation =>
      token in g.delegations && scope in g.delegations[token].scopes && now < g.delegations[token].expiresAt
    case FullHostAuthority =>
      g.session.Some? && now < g.session.value.expiresAt && SwitchedOn(g.session.value.switches, scope)
  }

  /** An action is allowed if and only if there is no stop file and the tier permits it now. */
  lemma AllowedExactly(g: Gate, clock: Clock, scope: Scope, token: string)
    ensures VerifyAction(g, clock, scope, token).allowed
            <==> !g.stopped && TierPermits(g, clock(g.tick), scope, token)
  {
    if g.session.Some? { SwitchesStandGuard(g.session.value.switches, scope); }
  }

  /** One line more in the log, with that verdict on that scope. */
  predicate LogsOne(before: seq<AuditRecord>, after: seq<AuditRecord>, allowed: bool, scope: Scope) {
    && |after| == |before| + 1 && after[..|before|] == before
    && after[|before|].allowed == allowed && after[|before|].scope == scope
  }

  lemma ConcludeLogs(g: Gate, clock: Clock, allowed: bool, scope: Scope)
    ensures LogsOne(g.log, Conclude(g, clock, allowed, scope).log, allowed, scope)
  {
  }

  lemma FullHostLogs(g: Gate, clock: Clock, scope: Scope)
    ensures var v := VerifyFullHost(g, clock, scope); LogsOne(g.log, v.gate.log, v.allowed, scope)
  {
    var h := g.(tick := g.tick + 1);
    ConcludeLogs(g, clock, false, scope);
    ConcludeLogs(h.(session := None, tier := DraftProposal), clock, false, scope);
    ConcludeLogs(h, clock, false, scope);
    ConcludeLogs(h, clock, true, scope);
  }

  /** Whatever the tier, an allowed decision is logged as allowed, a denied one as denied, and
      nothing else is logged. */
  lemma DecisionIsLogged(g: Gate, clock: Clock, scope: Scope, token: string)
    ensures var v := VerifyAction(g, clock, scope, token); LogsOne(g.log, v.gate.log, v.allowed, scope)
  {
    if !g.stopped && g.tier == FullHostAuthority {
      FullHostLogs(g, clock, scope);
    } else {
      var allowed := VerifyAction(g, clock, scope, token).allowed;
      ConcludeLogs(g, clock, allowed, scope);
      ConcludeLogs(g.(tick := g.tick + 1), clock, allowed, scope);
    }
  }

  /** In every reachable state an allowed action beyond the harmless three rests on a live full-host
      session of at most six hours with the switch of its scope on, or on a token issued for its
      scope within the last hour. */
  lemma BeyondHarmless(clock: Clock, calls: seq<Call>, scope: Scope, token: string) returns (i: nat)
    requires Monotone(clock) && scope !in {ReadSummary, ReviewDraftWrite, PatchProposal}
    requires VerifyAction(Run(INITIAL, clock, calls), clock, scope, token).allowed
    ensures var g := Run(INITIAL, clock, calls);
      var now := clock(g.tick);
      && !g.stopped
      && if g.tier == FullHostAuthority then
           && g.session.Some? && SwitchedOn(g.session.value.switches, scope)
           && g.session.value.startedAt <= now < g.session.value.expiresAt
           && g.session.value.expiresAt <= g.session.value.startedAt + 21600 * 1000000
         else
           && g.tier == SignedDelegation && i < |calls| && calls[i].CallIssue? && calls[i].token == token
           && scope in calls[i].scopes && now < clock(Run(INITIAL, clock, calls[..i]).tick) + 3600 * 1000000
  {
    var g := Run(INITIAL, clock, calls);
    AllowedExactly(g, clock, scope, token);
    i := 0;
    if g.tier == FullHostAuthority {
      Tier4AllowsInsideWindow(clock, calls, scope, token);
    } else {
      i := SignedAllowsWereIssued(clock, calls, scope, token);
    }
  }

  // ------------------------------------------------------------------ other calls

  /** A session begins if and only if there is no stop file, the phrase is typed and the duration
      lies between a second and six hours; it lasts that long, with the switches asked for. */
  lemma EnabledExactly(g: Gate, clock: Clock, id: string, phrase: string, duration: int, switches: SubSwitches)
    ensures var h := Enable(g, clock, id, phrase, duration, switches);
      var granted := !g.stopped && phrase == "ENABLE FULL HOST AUTHORITY FOR ATANOR" && 1 <= duration <= 21600;
      && |h.log| == |g.log| + 1 && h.log[|g.log|].allowed == granted
      && (granted && h.session.Some? ==>
            && h.tier == FullHostAuthority && h.since == |g.log|
            && h.session.value == Session(id, clock(g.tick), clock(g.tick) + duration * 1000000, switches,
                                          Counters(0, 0, 0, 0)))
      && (granted && h.session.None? ==> clock(g.tick + 2) >= clock(g.tick) + duration * 1000000)
      && (!granted ==> (h.session == g.session && h.tier == g.tier)
                       || (h.session.None? && h.tier == DraftProposal))
  {
  }

  /** A session is dropped by a report exactly when it has expired, and then the tier is lowered. */
  lemma DroppedExactly(g: Gate, clock: Clock)
    requires g.session.Some?
    ensures var h := Refresh(g, clock);
      && (h.session.None? <==> g.session.value.expiresAt <= clock(g.tick))
      && (h.session.None? ==> h.tier == DraftProposal)
      && (h.session.Some? ==> h.session == g.session && h.tier == g.tier)
      && h.log == g.log && h.delegations == g.delegations && h.stopped == g.stopped
  {
  }

  /** Asking for the full-host tier is refused; any other tier is taken and ends the session. */
  lemma TierSetExactly(g: Gate, clock: Clock, tier: Tier)
    ensures var h := SetTier(g, clock, tier);
      && |h.log| == |g.log| + 1 && h.log[|g.log|].allowed == (tier != FullHostAuthority)
      && (tier != FullHostAuthority ==> h.tier == tier && h.session.None?)
      && (tier == FullHostAuthority ==> h.tier == g.tier || h.tier == DraftProposal)
  {
  }

  /** Disabling and stopping end the session and leave no full-host tier; other tiers stay. */
  lemma EndedExactly(g: Gate, clock: Clock)
    ensures var h, k := Disable(g, clock), EmergencyStop(g, clock);
      && h.session.None? && k.session.None? && k.stopped && h.stopped == g.stopped && h.tier == k.tier
      && h.tier == if g.tier == FullHostAuthority then DraftProposal else g.tier
  {
  }

  /** A token lives as long as asked, but at least a second and at most an hour. */
  lemma TokenLife(g: Gate, clock: Clock, token: string, scopes: set<Scope>, seconds: int)
    ensures var h, at := IssueDelegation(g, clock, token, scopes, seconds), clock(g.tick);
      && token in h.delegations && h.delegations[token].scopes == scopes
      && (1 <= seconds <= 3600 ==> h.delegations[token].expiresAt == at + seconds * 1000000)
      && (seconds > 3600 ==> h.delegations[token].expiresAt == at + 3600 * 1000000)
      && (seconds < 1 ==> h.delegations[token].expiresAt == at + 1000000)
  {
  }

  // ------------------------------------------------------------------- counters

  /** How many allowed records have a scope among these. */
  function AllowedWith(log: seq<AuditRecord>, scopes: set<Scope>): nat {
    if log == [] then 0
    else
      var r := log[|log| - 1];
      AllowedWith(log[..|log| - 1], scopes) + if r.allowed && r.scope in scopes then 1 else 0
  }

  lemma {:induction false} TallyCounts(log: seq<AuditRecord>)
    ensures var c := Tallied(log);
      && c.mutations == AllowedWith(log, {FileWrite, GitCommit, GitPush, LocalBrainWrite, CloudProductionWrite})
      && c.shells == AllowedWith(log, {Shell}) && c.fileWrites == AllowedWith(log, {FileWrite})
      && c.gitActions == AllowedWith(log, {GitCommit, GitPush, GitStatus})
  {
    if log != [] { TallyCounts(log[..|log| - 1]); }
  }

  /** While a session lives, its four counters are the numbers of allowed mutating, shell, file-write
      and git records since it was enabled. */
  lemma CountersCountRecords(clock: Clock, calls: seq<Call>)
    requires Monotone(clock) && Run(INITIAL, clock, calls).session.Some?
    ensures var g := Run(INITIAL, clock, calls);
      && g.since <= |g.log|
      && var c, past := g.session.value.counters, g.log[g.since..];
         && c.mutations == AllowedWith(past, {FileWrite, GitCommit, GitPush, LocalBrainWrite, CloudProductionWrite})
         && c.shells == AllowedWith(past, {Shell}) && c.fileWrites == AllowedWith(past, {FileWrite})
         && c.gitActions == AllowedWith(past, {GitCommit, GitPush, GitStatus})
  {
    ReachableSound(clock, calls);
    var g := Run(INITIAL, clock, calls);
    TallyCounts(g.log[g.since..]);
  }
}
