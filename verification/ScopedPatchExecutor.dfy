/** The scoped patch executor as the object the source keeps
    (packages/agentic_micro_os/scoped_patch_executor.py), over a gate it shares. */
module ScopedPatchExecutor {
  import opened Wrappers
  import opened TextSearch
  import opened GateSpec
  import opened PermissionGate
  import opened PatchSpec

  class Executor {
    const host: Host
    const limits: Limits
    const gate: Gatekeeper
    var files: Files
    var ids: nat

    constructor (host: Host, limits: Limits, gate: Gatekeeper, files: Files)
      requires gate.clock == host.clock
      ensures this.host == host && this.limits == limits && this.gate == gate && Valid()
      ensures State() == Exec(gate.State(), files, 0)
    {
      this.host, this.limits, this.gate, this.files, ids := host, limits, gate, files, 0;
    }

    ghost predicate Valid() {
      gate.clock == host.clock
    }

    ghost function State(): Exec
      reads this, gate, gate.session
    {
      Exec(gate.State(), files, ids)
    }

    /** A line of the executor's own in the audit log. */
    method Audit()
      modifies gate
      ensures gate.State() == Note(old(gate.State())) && gate.session == old(gate.session)
    {
      var ts := gate.Now();
    }

    method Plan(r: PatchRequest) returns (plan: Checked<Path>)
      requires Valid()
      modifies this, gate
      ensures plan == Planned(host, limits, files, r)
      ensures State() == Exec(Note(old(gate.State())), old(files), old(ids) + 1)
      ensures gate.session == old(gate.session)
    {
      ids := ids + 1;
      Audit();
      var target := ValidateTarget(host, r.targetPath);
      if target.Fail? { return Fail(target.why); }
      var original := ReadTarget(files, target.value, limits.maxFileBytes);
      if original.Fail? { return Fail(original.why); }
      if r.expectedOldText == "" { return Fail(OldTextRequired); }
      if !Contains(original.value, r.expectedOldText) { return Fail(OldTextNotFound); }
      var updated := ReplaceFirst(original.value, r.expectedOldText, r.replacementText);
      if host.diffLines(original.value, updated) > limits.maxDiffLines { return Fail(DiffTooLong); }
      return Pass(target.value);
    }

    /** `_verify_apply_permission` */
    method VerifyPermission(lists: bool, typed: string, wanted: string, sessionId: string)
      returns (refusal: Option<Denial>)
      requires Valid()
      modifies gate, gate.session
      ensures Permit(host, old(gate.State()), lists, typed, wanted, sessionId) == Permission(refusal, gate.State())
      ensures gate.session == null || gate.session == old(gate.session)
    {
      if gate.stopFile { return Some(StopActive); }
      if !lists { return Some(SwitchNotListed); }
      if typed != wanted { return Some(ConfirmationMismatch); }
      var active := gate.Status();
      if !active { return Some(SessionNotActive); }
      if sessionId == "" || sessionId != gate.session.sessionId { return Some(SessionIdMismatch); }
      if !gate.session.switches.fullFileWrite { return Some(SwitchOff); }
      var allowed := gate.VerifyAction(FileWrite, "");
      if !allowed { return Some(GateDenied); }
      return None;
    }

    method Apply(r: PatchRequest) returns (result: Result)
      requires Valid()
      modifies this, gate, gate.session
      ensures PatchSpec.Apply(host, limits, old(State()), r) == Ran(result, State())
    {
      var id := ids;
      var plan := Plan(r);
      if plan.Fail? { return Denied(plan.why); }
      var refusal := VerifyPermission(r.listsFullFileWrite, r.confirmation, APPLY_CONFIRMATION, r.sessionId);
      if refusal.Some? {
        Audit();
        return Denied(refusal.value);
      }
      var target := plan.value;
      var original := ReadText(files[target].content);
      var updated := ReplaceFirst(original, r.expectedOldText, r.replacementText);
      var backup := BackupPath(host, id, target);
      files := files[backup := Text(original)];
      files := files[target := Text(updated)];
      Audit();
      return Applied(target, backup);
    }

    method Rollback(r: RollbackRequest) returns (result: Result)
      requires Valid()
      modifies this, gate, gate.session
      ensures PatchSpec.Rollback(host, old(State()), r) == Ran(result, State())
    {
      ids := ids + 1;
      var target := ValidateTarget(host, r.targetPath);
      if target.Fail? {
        Audit();
        return Denied(target.why);
      }
      var backup := ValidateBackup(host, files, r.backupPath);
      if backup.Fail? {
        Audit();
        return Denied(backup.why);
      }
      var refusal := VerifyPermission(true, r.confirmation, ROLLBACK_CONFIRMATION, r.sessionId);
      if refusal.Some? {
        Audit();
        return Denied(refusal.value);
      }
      if target.value !in files || !files[target.value].Text? || !files[backup.value].Text? {
        return Raises;
      }
      files := files[target.value := Text(ReadText(files[backup.value].content))];
      Audit();
      return Applied(target.value, backup.value);
    }
  }
}
