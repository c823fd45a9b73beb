/** The permission gate as the object the source keeps
    (packages/agentic_micro_os/permission_gate.py), each method refining its transition. */
module PermissionGate {
  import opened Wrappers
  import opened GateSpec

  class HostAuthoritySession {
    const sessionId: string
    const startedAt: int
    const expiresAt: int
    const switches: SubSwitches
    var mutationCount: nat
    var shellCount: nat
    var fileWriteCount: nat
    var gitActionCount: nat

    constructor (sessionId: string, startedAt: int, expiresAt: int, switches: SubSwitches)
      ensures Value() == Session(sessionId, startedAt, expiresAt, switches, Counters(0, 0, 0, 0))
    {
      this.sessionId, this.startedAt, this.expiresAt, this.switches := sessionId, startedAt, expiresAt, switches;
      mutationCount, shellCount, fileWriteCount, gitActionCount := 0, 0, 0, 0;
    }

    /** Raise the counters this scope belongs to. */
    method Raise(scope: Scope)
      modifies this
      ensures Value() == old(Value()).(counters := Bump(old(Value()).counters, scope))
    {
      if scope in MUTATING { mutationCount := mutationCount + 1; }
      if scope == Shell { shellCount := shellCount + 1; }
      if scope == FileWrite { fileWriteCount := fileWriteCount + 1; }
      if scope in GIT { gitActionCount := gitActionCount + 1; }
    }

    ghost function Value(): Session
      reads this
    {
      Session(sessionId, startedAt, expiresAt, switches,
              Counters(mutationCount, shellCount, fileWriteCount, gitActionCount))
    }
  }

  class Gatekeeper {
    const clock: Clock
    var tier: Tier
    var session: HostAuthoritySession?
    var signedDelegations: map<string, Delegation>
    var auditLog: seq<AuditRecord>
    var stopFile: bool
    var tick: nat
    ghost var since: nat

    constructor (clock: Clock)
      ensures this.clock == clock && State() == INITIAL
    {
      this.clock := clock;
      tier, session, signedDelegations, auditLog, stopFile, tick, since := DraftProposal, null, map[], [], false, 0, 0;
    }

    ghost function State(): Gate
      reads this, session
    {
      Gate(tier, if session == null then None else Some(session.Value()),
           signedDelegations, auditLog, stopFile, tick, since)
    }

    method Now() returns (t: int)
      modifies this`tick
      ensures t == clock(old(tick)) && tick == old(tick) + 1
    {
      t := clock(tick);
      tick := tick + 1;
    }

    /** `status()` */
    method Status() returns (tier4Active: bool)
      modifies this
      ensures State() == Refresh(old(State()), clock)
      ensures session == null || session == old(session)
      ensures tier4Active <==> tier == FullHostAuthority && session != null
    {
      if session != null {
        var now := Now();
        if now >= session.expiresAt {
          session := null;
          tier := DraftProposal;
        }
      }
      tier4Active := tier == FullHostAuthority && session != null;
    }

    /** `_allow_or_deny` */
    method AllowOrDeny(allowed: bool, scope: Scope)
      modifies this
      ensures State() == Conclude(old(State()), clock, allowed, scope)
      ensures session == null || session == old(session)
    {
      var ts := Now();
      auditLog := auditLog + [AuditRecord(ts, allowed, scope, tier)];
      var active := Status();
    }

    method SetTier(next: Tier) returns (allowed: bool)
      modifies this
      ensures State() == GateSpec.SetTier(old(State()), clock, next)
      ensures allowed <==> next != FullHostAuthority
      ensures session == null || session == old(session)
    {
      if next == FullHostAuthority {
        AllowOrDeny(false, CodeExecution);
        return false;
      }
      tier := next;
      session := null;
      AllowOrDeny(true, ReadSummary);
      return true;
    }

    /** The token id is a fresh one. */
    method IssueSignedDelegation(token: string, scopes: set<Scope>, maxRuntimeSec: int)
      modifies this
      ensures State() == IssueDelegation(old(State()), clock, token, scopes, maxRuntimeSec)
      ensures session == old(session)
    {
      var now := Now();
      signedDelegations := signedDelegations[token := Delegation(scopes, now + Clamp(maxRuntimeSec) * SECOND)];
    }

    method EnableFullHost(sessionId: string, phrase: string, durationSec: int, switches: SubSwitches)
      returns (allowed: bool)
      modifies this
      ensures State() == Enable(old(State()), clock, sessionId, phrase, durationSec, switches)
      ensures allowed <==> MayEnable(old(State()), phrase, durationSec)
      ensures session == null || session == old(session) || fresh(session)
    {
      if stopFile || phrase != FULL_HOST_PHRASE || durationSec <= 0 || durationSec > MAX_DURATION_SEC {
        AllowOrDeny(false, CodeExecution);
        return false;
      }
      var now := Now();
      tier := FullHostAuthority;
      session := new HostAuthoritySession(sessionId, now, now + durationSec * SECOND, switches);
      since := |auditLog|;
      AllowOrDeny(true, CodeExecution);
      return true;
    }

    method DisableFullHost()
      modifies this
      ensures State() == Disable(old(State()), clock) && session == null
    {
      session := null;
      if tier == FullHostAuthority { tier := DraftProposal; }
      AllowOrDeny(true, ReadSummary);
    }

    method TriggerEmergencyStop()
      modifies this
      ensures State() == EmergencyStop(old(State()), clock) && session == null
    {
      stopFile := true;
      session := null;
      if tier == FullHostAuthority { tier := DraftProposal; }
      AllowOrDeny(false, CodeExecution);
    }

    /** `verify_action` */
    method VerifyAction(scope: Scope, signedToken: string) returns (allowed: bool)
      modifies this, session
      ensures GateSpec.VerifyAction(old(State()), clock, scope, signedToken) == Verified(allowed, State())
      ensures session == null || session == old(session)
    {
      if stopFile {
        AllowOrDeny(false, scope);
        return false;
      }
      if tier == ObserveOnly {
        allowed := scope == ReadSummary;
        AllowOrDeny(allowed, scope);
      } else if tier == DraftProposal {
        allowed := scope == ReadSummary || scope == ReviewDraftWrite || scope == PatchProposal;
        AllowOrDeny(allowed, scope);
      } else if tier == SignedDelegation {
        allowed := VerifyDelegated(scope, signedToken);
      } else {
        allowed := VerifyFullHostAction(scope);
      }
    }

    /** The signed-token branch: the clock is read only for a delegation of this scope. */
    method VerifyDelegated(scope: Scope, signedToken: string) returns (allowed: bool)
      requires tier == SignedDelegation && !stopFile
      modifies this
      ensures GateSpec.VerifyAction(old(State()), clock, scope, signedToken) == Verified(allowed, State())
      ensures session == null || session == old(session)
    {
      allowed := false;
      if signedToken in signedDelegations && scope in signedDelegations[signedToken].scopes {
        var now := Now();
        allowed := now < signedDelegations[signedToken].expiresAt;
      }
      AllowOrDeny(allowed, scope);
    }

    /** `_verify_full_host_action` */
    method VerifyFullHostAction(scope: Scope) returns (allowed: bool)
      modifies this, session
      ensures VerifyFullHost(old(State()), clock, scope) == Verified(allowed, State())
      ensures session == null || session == old(session)
    {
      if session == null {
        AllowOrDeny(false, scope);
        return false;
      }
      var now := Now();
      if now >= session.expiresAt {
        session := null;
        tier := DraftProposal;
        AllowOrDeny(false, scope);
        return false;
      }
      allowed := SwitchFor(session.switches, scope);
      AllowOrDeny(allowed, scope);
      if allowed { IncrementCounters(scope); }
    }

    /** `_increment_counters` */
    method IncrementCounters(scope: Scope)
      modifies session
      ensures State() == Increment(old(State()), scope)
    {
      if session != null { session.Raise(scope); }
    }
  }
}
