/** The permission gate as a state machine over its calls
    (packages/agentic_micro_os/permission_gate.py): tiers, the expiring full-host session, its
    counters, the audit log and the emergency latch. */
module GateSpec {
  import opened Wrappers

  datatype Tier = ObserveOnly | DraftProposal | SignedDelegation | FullHostAuthority

  datatype Scope =
    | ReadSummary | ReviewDraftWrite | PatchProposal | Shell | FileRead | FileWrite
    | GitStatus | GitCommit | GitPush | LocalBrainWrite | CloudProductionWrite
    | ExternalNetwork | BrowserControl | McpTools | CodeExecution

  datatype SubSwitches = SubSwitches(
    shell: bool, fullFileRead: bool, fullFileWrite: bool, gitCommit: bool, gitPush: bool,
    localBrainWrite: bool, cloudProductionWrite: bool, externalNetwork: bool,
    browserControl: bool, mcpTools: bool, codeExecution: bool)

  datatype Counters = Counters(mutations: nat, shells: nat, fileWrites: nat, gitActions: nat)

  datatype Session = Session(sessionId: string, startedAt: int, expiresAt: int, switches: SubSwitches,
                             counters: Counters)

  datatype Delegation = Delegation(scopes: set<Scope>, expiresAt: int)

  datatype AuditRecord = AuditRecord(ts: int, allowed: bool, scope: Scope, tier: Tier)

  /** Time in microseconds: the n-th reading of the clock. */
  type Clock = nat -> int

  const SECOND := 1000000
  const MAX_DURATION_SEC := 21600
  const FULL_HOST_PHRASE := "ENABLE FULL HOST AUTHORITY FOR ATANOR"

  ghost predicate Monotone(clock: Clock) {
    forall i: nat, j: nat :: i <= j ==> clock(i) <= clock(j)
  }

  /** `tick` counts clock readings; `since` is the length of the log when the session began. */
  datatype Gate = Gate(
    tier: Tier, session: Option<Session>, delegations: map<string, Delegation>,
    log: seq<AuditRecord>, stopped: bool, tick: nat, since: nat)

  const INITIAL := Gate(DraftProposal, None, map[], [], false, 0, 0)

  // ------------------------------------------------------------ transitions

  /** `status()` drops a session that has expired by now. */
  function Refresh(g: Gate, clock: Clock): Gate {
    if g.session.None? then g
    else if clock(g.tick) >= g.session.value.expiresAt then
      g.(session := None, tier := DraftProposal, tick := g.tick + 1)
    else g.(tick := g.tick + 1)
  }

  /** `_allow` and `_deny`: write the audit record, then report the status. */
  function Conclude(g: Gate, clock: Clock, allowed: bool, scope: Scope): Gate {
    Refresh(g.(log := g.log + [AuditRecord(clock(g.tick), allowed, scope, g.tier)], tick := g.tick + 1), clock)
  }

  function SetTier(g: Gate, clock: Clock, tier: Tier): Gate {
    if tier == FullHostAuthority then Conclude(g, clock, false, CodeExecution)
    else Conclude(g.(tier := tier, session := None), clock, true, ReadSummary)
  }

  function Clamp(seconds: int): int {
    if seconds > 3600 then 3600 else if seconds < 1 then 1 else seconds
  }

  function IssueDelegation(g: Gate, clock: Clock, token: string, scopes: set<Scope>, maxRuntimeSec: int): Gate {
    g.(delegations := g.delegations[token := Delegation(scopes, clock(g.tick) + Clamp(maxRuntimeSec) * SECOND)],
       tick := g.tick + 1)
  }

  function MayEnable(g: Gate, phrase: string, durationSec: int): bool {
    !g.stopped && phrase == FULL_HOST_PHRASE && 0 < durationSec <= MAX_DURATION_SEC
  }

  function Enable(g: Gate, clock: Clock, sessionId: string, phrase: string, durationSec: int,
                  switches: SubSwitches): Gate {
    if !MayEnable(g, phrase, durationSec) then Conclude(g, clock, false, CodeExecution)
    else
      var now := clock(g.tick);
      var session := Session(sessionId, now, now + durationSec * SECOND, switches, Counters(0, 0, 0, 0));
      Conclude(g.(tier := FullHostAuthority, session := Some(session), tick := g.tick + 1, since := |g.log|),
               clock, true, CodeExecution)
  }

  function Lower(g: Gate): Gate {
    g.(session := None, tier := if g.tier == FullHostAuthority then DraftProposal else g.tier)
  }

  function Disable(g: Gate, clock: Clock): Gate {
    Conclude(Lower(g), clock, true, ReadSummary)
  }

  function EmergencyStop(g: Gate, clock: Clock): Gate {
    Conclude(Lower(g.(stopped := true)), clock, false, CodeExecution)
  }

  function SwitchFor(s: SubSwitches, scope: Scope): bool {
    match scope
    case ReadSummary => true
    case ReviewDraftWrite => true
    case PatchProposal => true
    case Shell => s.shell
    case FileRead => s.fullFileRead
    case FileWrite => s.fullFileWrite
    case GitStatus => s.shell
    case GitCommit => s.gitCommit
    case GitPush => s.gitPush
    case LocalBrainWrite => s.localBrainWrite
    case CloudProductionWrite => s.cloudProductionWrite
    case ExternalNetwork => s.externalNetwork
    case BrowserControl => s.browserControl
    case McpTools => s.mcpTools
    case CodeExecution => s.codeExecution
  }

  const MUTATING := {FileWrite, GitCommit, GitPush, LocalBrainWrite, CloudProductionWrite}
  const GIT := {GitCommit, GitPush, GitStatus}

  function Bump(c: Counters, scope: Scope): Counters {
    Counters(c.mutations + (if scope in MUTATING then 1 else 0),
             c.shells + (if scope == Shell then 1 else 0),
             c.fileWrites + (if scope == FileWrite then 1 else 0),
             c.gitActions + (if scope in GIT then 1 else 0))
  }

  /** `_increment_counters` finds no session left when the status report just dropped it. */
  function Increment(g: Gate, scope: Scope): Gate {
    if g.session.None? then g
    else g.(session := Some(g.session.value.(counters := Bump(g.session.value.counters, scope))))
  }

  /** The decision of `verify_action` together with the state it leaves. */
  datatype Verified = Verified(allowed: bool, gate: Gate)

  function VerifyFullHost(g: Gate, clock: Clock, scope: Scope): Verified {
    if g.session.None? then Verified(false, Conclude(g, clock, false, scope))
    else if clock(g.tick) >= g.session.value.expiresAt then
      Verified(false, Conclude(g.(session := None, tier := DraftProposal, tick := g.tick + 1), clock, false, scope))
    else
      var allowed := SwitchFor(g.session.value.switches, scope);
      var done := Conclude(g.(tick := g.tick + 1), clock, allowed, scope);
      Verified(allowed, if allowed then Increment(done, scope) else done)
  }

  function VerifyAction(g: Gate, clock: Clock, scope: Scope, token: string): Verified {
    if g.stopped then Verified(false, Conclude(g, clock, false, scope))
    else match g.tier
      case ObserveOnly =>
        Verified(scope == ReadSummary, Conclude(g, clock, scope == ReadSummary, scope))
      case DraftProposal =>
        var allowed := scope == ReadSummary || scope == ReviewDraftWrite || scope == PatchProposal;
        Verified(allowed, Conclude(g, clock, allowed, scope))
      case SignedDelegation =>
        if token !in g.delegations || scope !in g.delegations[token].scopes then
          Verified(false, Conclude(g, clock, false, scope))
        else
          var allowed := clock(g.tick) < g.delegations[token].expiresAt;
          Verified(allowed, Conclude(g.(tick := g.tick + 1), clock, allowed, scope))
      case FullHostAuthority => VerifyFullHost(g, clock, scope)
  }

  // ------------------------------------------------------------------- runs

  datatype Call =
    | CallSetTier(tier: Tier)
    | CallIssue(token: string, scopes: set<Scope>, maxRuntimeSec: int)
    | CallEnable(sessionId: string, phrase: string, durationSec: int, switches: SubSwitches)
    | CallDisable
    | CallStop
    | CallVerify(scope: Scope, signedToken: string)
    | CallStatus
    | StopFileAppears
    | TimePasses

  function Step(g: Gate, clock: Clock, call: Call): Gate {
    match call
    case CallSetTier(tier) => SetTier(g, clock, tier)
    case CallIssue(token, scopes, runtime) => IssueDelegation(g, clock, token, scopes, runtime)
    case CallEnable(id, phrase, duration, switches) => Enable(g, clock, id, phrase, duration, switches)
    case CallDisable => Disable(g, clock)
    case CallStop => EmergencyStop(g, clock)
    case CallVerify(scope, token) => VerifyAction(g, clock, scope, token).gate
    case CallStatus => Refresh(g, clock)
    case StopFileAppears => g.(stopped := true)
    case TimePasses => g.(tick := g.tick + 1)
  }

  function Run(g: Gate, clock: Clock, calls: seq<Call>): Gate {
    if calls == [] then g
    else Step(Run(g, clock, calls[..|calls| - 1]), clock, calls[|calls| - 1])
  }

  // -------------------------------------------------------------- invariant

  /** The counters the allowed records of `log` add up to. */
  function Tallied(log: seq<AuditRecord>): Counters {
    if log == [] then Counters(0, 0, 0, 0)
    else
      var before, r := Tallied(log[..|log| - 1]), log[|log| - 1];
      if r.allowed then Bump(before, r.scope) else before
  }

  ghost predicate SessionSound(g: Gate, clock: Clock, s: Session) {
    && s.startedAt <= clock(g.tick)
    && s.startedAt < s.expiresAt <= s.startedAt + MAX_DURATION_SEC * SECOND
    && g.since <= |g.log|
    && s.counters == Tallied(g.log[g.since..])
  }

  ghost predicate Sound(g: Gate, clock: Clock) {
    && (g.tier == FullHostAuthority <==> g.session.Some?)
    && (g.session.Some? ==> SessionSound(g, clock, g.session.value))
  }

  lemma TalliedAdds(g: Gate, r: AuditRecord)
    requires g.since <= |g.log|
    ensures Tallied((g.log + [r])[g.since..])
            == if r.allowed then Bump(Tallied(g.log[g.since..]), r.scope) else Tallied(g.log[g.since..])
  {
    var now := (g.log + [r])[g.since..];
    assert now == g.log[g.since..] + [r];
    assert now[..|now| - 1] == g.log[g.since..];
  }

  /** A record that no counter counts, and a clock reading, leave the invariant alone. */
  lemma ConcludeSound(g: Gate, clock: Clock, allowed: bool, scope: Scope)
    requires Monotone(clock) && Sound(g, clock)
    requires !allowed || g.session.None? || Bump(Tallied(g.log[g.since..]), scope) == Tallied(g.log[g.since..])
    ensures Sound(Conclude(g, clock, allowed, scope), clock)
  {
    if g.session.Some? {
      TalliedAdds(g, AuditRecord(clock(g.tick), allowed, scope, g.tier));
    }
  }

  /** An allowed full-host action: the record is written first, then the clock is read again,
      and only a session that is still there gets its counters raised. */
  lemma FullHostSound(g: Gate, clock: Clock, scope: Scope)
    requires Monotone(clock) && Sound(g, clock) && g.tier == FullHostAuthority
    ensures Sound(VerifyFullHost(g, clock, scope).gate, clock)
    ensures VerifyFullHost(g, clock, scope).allowed ==>
      g.session.value.startedAt <= clock(g.tick) < g.session.value.startedAt + MAX_DURATION_SEC * SECOND
  {
    FullHostStaysSound(g, clock, scope);
    if VerifyFullHost(g, clock, scope).allowed { FullHostInsideWindow(g, clock, scope); }
  }

  lemma FullHostInsideWindow(g: Gate, clock: Clock, scope: Scope)
    requires Sound(g, clock) && g.tier == FullHostAuthority && VerifyFullHost(g, clock, scope).allowed
    ensures g.session.value.startedAt <= clock(g.tick) < g.session.value.expiresAt
    ensures g.session.value.expiresAt <= g.session.value.startedAt + MAX_DURATION_SEC * SECOND
  {
  }

  /** Where a full-host action leaves the gate, in the three cases there are. */
  lemma FullHostCases(g: Gate, clock: Clock, scope: Scope)
    requires g.session.Some?
    ensures var h, end := g.(tick := g.tick + 1), VerifyFullHost(g, clock, scope).gate;
      if clock(g.tick) >= g.session.value.expiresAt then
        end == Conclude(h.(session := None, tier := DraftProposal), clock, false, scope)
      else if !SwitchFor(g.session.value.switches, scope) then end == Conclude(h, clock, false, scope)
      else end == Increment(Conclude(h, clock, true, scope), scope)
  {
  }

  lemma FullHostStaysSound(g: Gate, clock: Clock, scope: Scope)
    requires Monotone(clock) && Sound(g, clock) && g.tier == FullHostAuthority
    ensures Sound(VerifyFullHost(g, clock, scope).gate, clock)
  {
    var h := g.(tick := g.tick + 1);
    FullHostCases(g, clock, scope);
    TickSound(g, clock);
    if clock(g.tick) >= g.session.value.expiresAt {
      ConcludeSound(h.(session := None, tier := DraftProposal), clock, false, scope);
    } else if !SwitchFor(g.session.value.switches, scope) {
      ConcludeSound(h, clock, false, scope);
    } else {
      AllowedSound(h, clock, scope);
    }
  }

  lemma TickSound(g: Gate, clock: Clock)
    requires Monotone(clock) && Sound(g, clock)
    ensures Sound(g.(tick := g.tick + 1), clock)
  {
  }

  lemma AllowedSound(g: Gate, clock: Clock, scope: Scope)
    requires Monotone(clock) && Sound(g, clock)
    ensures Sound(Increment(Conclude(g, clock, true, scope), scope), clock)
  {
    if g.session.Some? {
      TalliedAdds(g, AuditRecord(clock(g.tick), true, scope, g.tier));
    }
  }

  lemma VerifySound(g: Gate, clock: Clock, scope: Scope, token: string)
    requires Monotone(clock) && Sound(g, clock)
    ensures Sound(VerifyAction(g, clock, scope, token).gate, clock)
  {
    if g.stopped {
      ConcludeSound(g, clock, false, scope);
    } else if g.tier == FullHostAuthority {
      FullHostSound(g, clock, scope);
    } else {
      ConcludeSound(g, clock, VerifyAction(g, clock, scope, token).allowed, scope);
      ConcludeSound(g.(tick := g.tick + 1), clock, VerifyAction(g, clock, scope, token).allowed, scope);
    }
  }

  lemma EnableSound(g: Gate, clock: Clock, id: string, phrase: string, duration: int, switches: SubSwitches)
    requires Monotone(clock) && Sound(g, clock)
    ensures Sound(Enable(g, clock, id, phrase, duration, switches), clock)
  {
    if MayEnable(g, phrase, duration) {
      var now := clock(g.tick);
      var session := Session(id, now, now + duration * SECOND, switches, Counters(0, 0, 0, 0));
      var h := g.(tier := FullHostAuthority, session := Some(session), tick := g.tick + 1, since := |g.log|);
      assert h.log[h.since..] == [];
      ConcludeSound(h, clock, true, CodeExecution);
    } else {
      ConcludeSound(g, clock, false, CodeExecution);
    }
  }

  lemma StepSound(g: Gate, clock: Clock, call: Call)
    requires Monotone(clock) && Sound(g, clock)
    ensures Sound(Step(g, clock, call), clock)
  {
    match call
    case CallSetTier(tier) =>
      if tier == FullHostAuthority { ConcludeSound(g, clock, false, CodeExecution); }
      else { ConcludeSound(g.(tier := tier, session := None), clock, true, ReadSummary); }
    case CallEnable(id, phrase, duration, switches) => EnableSound(g, clock, id, phrase, duration, switches);
    case CallDisable => ConcludeSound(Lower(g), clock, true, ReadSummary);
    case CallStop => ConcludeSound(Lower(g.(stopped := true)), clock, false, CodeExecution);
    case CallVerify(scope, token) => VerifySound(g, clock, scope, token);
    case CallIssue(_, _, _) =>
    case CallStatus =>
    case StopFileAppears =>
    case TimePasses =>
  }

  // --------------------------------------------------------------- theorems

  /** In every reachable state the tier is full host exactly while a session exists, and a live
      session's counters are the allowed audit records since it was enabled. */
  lemma {:induction false} ReachableSound(clock: Clock, calls: seq<Call>)
    requires Monotone(clock)
    ensures var g := Run(INITIAL, clock, calls);
      && (g.tier == FullHostAuthority <==> g.session.Some?)
      && (g.session.Some? ==> g.since <= |g.log| && g.session.value.counters == Tallied(g.log[g.since..]))
      && Sound(g, clock)
  {
    if calls != [] {
      ReachableSound(clock, calls[..|calls| - 1]);
      StepSound(Run(INITIAL, clock, calls[..|calls| - 1]), clock, calls[|calls| - 1]);
    }
  }

  /** Whatever came before, a full-host action is allowed only within six hours of the enabling. */
  lemma Tier4AllowsInsideWindow(clock: Clock, calls: seq<Call>, scope: Scope, token: string)
    requires Monotone(clock)
    requires var g := Run(INITIAL, clock, calls);
      g.tier == FullHostAuthority && VerifyAction(g, clock, scope, token).allowed
    ensures var g := Run(INITIAL, clock, calls);
      && g.session.Some? && SwitchFor(g.session.value.switches, scope) && !g.stopped
      && g.session.value.startedAt <= clock(g.tick) < g.session.value.expiresAt
      && g.session.value.expiresAt <= g.session.value.startedAt + MAX_DURATION_SEC * SECOND
  {
    ReachableSound(clock, calls);
    FullHostSound(Run(INITIAL, clock, calls), clock, scope);
  }

  /** Once the stop file exists it stays, every verification is denied and no session is enabled. */
  lemma {:induction false} StopLatches(g: Gate, clock: Clock, calls: seq<Call>)
    requires g.stopped
    ensures var h := Run(g, clock, calls);
      && h.stopped
      && (forall scope, token :: !VerifyAction(h, clock, scope, token).allowed)
      && (forall id, phrase, duration, switches ::
            Enable(h, clock, id, phrase, duration, switches) == Conclude(h, clock, false, CodeExecution))
      && (g.session.None? ==> h.session.None?)
      && (g.session.Some? && h.session.Some? ==> g.session.value == h.session.value)
  {
    if calls != [] {
      StopLatches(g, clock, calls[..|calls| - 1]);
      StoppedStep(Run(g, clock, calls[..|calls| - 1]), clock, calls[|calls| - 1]);
    }
  }

  lemma StoppedStep(g: Gate, clock: Clock, call: Call)
    requires g.stopped
    ensures var h := Step(g, clock, call);
      h.stopped && (h.session.Some? ==> g.session == h.session)
  {
  }

  /** After an emergency stop no continuation ever reaches full host authority again. */
  lemma EmergencyStopIsFinal(clock: Clock, before: seq<Call>, after: seq<Call>)
    requires Monotone(clock)
    ensures var g := Run(INITIAL, clock, before + [CallStop] + after);
      g.stopped && g.session.None? && g.tier != FullHostAuthority
  {
    var g := Run(INITIAL, clock, before + [CallStop]);
    assert (before + [CallStop])[..|before|] == before;
    ReachableSound(clock, before);
    RunAppend(INITIAL, clock, before + [CallStop], after);
    StopLatches(g, clock, after);
    ReachableSound(clock, before + [CallStop] + after);
  }

  /** Only issuing a token changes what is on file for it. */
  lemma StepDelegations(g: Gate, clock: Clock, call: Call, token: string)
    ensures var h := Step(g, clock, call);
      if call.CallIssue? && call.token == token then
        var until := clock(g.tick) + Clamp(call.maxRuntimeSec) * SECOND;
        h.delegations == g.delegations[token := Delegation(call.scopes, until)]
      else
        ((token in h.delegations <==> token in g.delegations)
         && (token in h.delegations ==> h.delegations[token] == g.delegations[token]))
  {
  }

  lemma IssuedForAnHour(g: Gate, clock: Clock, call: Call)
    requires call.CallIssue?
    ensures var h := Step(g, clock, call);
      && call.token in h.delegations && h.delegations[call.token].scopes == call.scopes
      && clock(g.tick) + SECOND <= h.delegations[call.token].expiresAt <= clock(g.tick) + 3600 * SECOND
  {
  }

  /** The delegation was issued by call `i` of the run, for those scopes and for at most an hour
      from that call's reading of the clock. */
  ghost predicate IssuedBy(clock: Clock, calls: seq<Call>, i: nat, token: string, d: Delegation) {
    && i < |calls| && calls[i].CallIssue? && calls[i].token == token && d.scopes == calls[i].scopes
    && var at := clock(Run(INITIAL, clock, calls[..i]).tick);
       at + SECOND <= d.expiresAt <= at + 3600 * SECOND
  }

  /** Every delegation on file was issued by some call of the run. */
  lemma {:induction false} DelegationsWereIssued(clock: Clock, calls: seq<Call>, token: string) returns (i: nat)
    requires token in Run(INITIAL, clock, calls).delegations
    ensures IssuedBy(clock, calls, i, token, Run(INITIAL, clock, calls).delegations[token])
  {
    assert calls != [];
    var n := |calls| - 1;
    var g := Run(INITIAL, clock, calls[..n]);
    StepDelegations(g, clock, calls[n], token);
    if calls[n].CallIssue? && calls[n].token == token {
      IssuedForAnHour(g, clock, calls[n]);
      i := n;
    } else {
      i := DelegationsWereIssued(clock, calls[..n], token);
      assert calls[..n][..i] == calls[..i];
    }
  }

  /** At the signed tier an action is allowed only by a token issued for its scope within the last hour. */
  lemma SignedAllowsWereIssued(clock: Clock, calls: seq<Call>, scope: Scope, token: string) returns (i: nat)
    requires var g := Run(INITIAL, clock, calls);
      g.tier == SignedDelegation && VerifyAction(g, clock, scope, token).allowed
    ensures i < |calls| && calls[i].CallIssue? && calls[i].token == token && scope in calls[i].scopes
    ensures clock(Run(INITIAL, clock, calls).tick) < clock(Run(INITIAL, clock, calls[..i]).tick) + 3600 * SECOND
  {
    i := DelegationsWereIssued(clock, calls, token);
  }

  lemma {:induction false} RunAppend(g: Gate, clock: Clock, a: seq<Call>, b: seq<Call>)
    ensures Run(g, clock, a + b) == Run(Run(g, clock, a), clock, b)
  {
    if b == [] {
      assert a + b == a;
    } else {
      assert (a + b)[..|a + b| - 1] == a + b[..|b| - 1];
      RunAppend(g, clock, a, b[..|b| - 1]);
    }
  }
}
