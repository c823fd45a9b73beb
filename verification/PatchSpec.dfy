/** Scoped patches over a file tree (packages/agentic_micro_os/scoped_patch_executor.py): which
    paths may be written, what apply and rollback do, and why a backup survives until it is used. */
module PatchSpec {
  import opened Wrappers
  import opened TextSearch
  import opened GateSpec

  /** Path components below the project root, after `resolve()`. */
  type Path = seq<string>

  datatype Place = Outside | Inside(path: Path)

  datatype FileData = Text(content: string) | NotUtf8(size: nat, hasNul: bool)

  type Files = map<Path, FileData>

  /** Everything outside the executor: the clock, path resolution, lower-casing, fresh ids,
      path digests and the length of a diff. */
  datatype Host = Host(
    clock: Clock, resolve: string -> Place, lower: string -> string,
    uuid: nat -> string, digest: Path -> string, diffLines: (string, string) -> nat)

  /** The first `n` ids drawn differ, and each has sixteen characters. */
  ghost predicate FreshIds(host: Host, n: nat) {
    && (forall i: nat | i < n :: |host.uuid(i)| == 16)
    && forall i: nat, j: nat | i < n && j < n && i != j :: host.uuid(i) != host.uuid(j)
  }

  /** The last `k` hexadecimal digits of `i`. */
  function Hex(i: nat, k: nat): (r: string)
    ensures |r| == k
  {
    if k == 0 then "" else Hex(i / 16, k - 1) + ["0123456789abcdef"[i % 16]]
  }

  function Power(k: nat): (r: nat)
    ensures r >= 1 && (k > 0 ==> r >= 16)
  {
    if k == 0 then 1 else 16 * Power(k - 1)
  }

  lemma {:induction false} HexInjective(i: nat, j: nat, k: nat)
    requires i < Power(k) && j < Power(k) && Hex(i, k) == Hex(j, k)
    ensures i == j
  {
    if k > 0 {
      var a, b := Hex(i / 16, k - 1), Hex(j / 16, k - 1);
      assert Hex(i, k)[..k - 1] == a && Hex(j, k)[..k - 1] == b;
      assert Hex(i, k)[k - 1] == Hex(j, k)[k - 1];
      assert i % 16 == j % 16;
      HexInjective(i / 16, j / 16, k - 1);
    }
  }

  /** Sixteen hexadecimal digits name that many draws apart, whatever else the host does. */
  lemma HexIdsAreFresh(host: Host, n: nat)
    requires n <= Power(16) && forall i: nat :: host.uuid(i) == Hex(i, 16)
    ensures FreshIds(host, n)
  {
    forall i: nat, j: nat | i < n && j < n && i != j ensures host.uuid(i) != host.uuid(j) {
      if host.uuid(i) == host.uuid(j) { HexInjective(i, j, 16); }
    }
  }

  lemma FreshHostsExist(host: Host, n: nat) returns (named: Host)
    requires n <= Power(16)
    ensures FreshIds(named, n) && named == host.(uuid := named.uuid)
  {
    named := host.(uuid := (i: nat) => Hex(i, 16));
    HexIdsAreFresh(named, n);
  }

  // -------------------------------------------------------------------- text

  predicate StartsWith(s: string, prefix: string) { prefix <= s }

  /** `s.replace(old, new, 1)` */
  function ReplaceFirst(s: string, before: string, after: string): string {
    match Find(s, before, 0)
    case None => s
    case Some(i) => s[..i] + after + s[i + |before|..]
  }

  /** `read_text` turns every carriage return, with a line feed after it or not, into a line feed. */
  function ReadText(s: string): string {
    if s == [] then []
    else if s[0] == '\r' then ['\n'] + ReadText(if |s| > 1 && s[1] == '\n' then s[2..] else s[1..])
    else [s[0]] + ReadText(s[1..])
  }

  /** Reading as text is faithful exactly for text without carriage returns. */
  lemma {:induction false} ReadTextFaithful(s: string)
    ensures ReadText(s) == s <==> '\r' !in s
    ensures '\r' !in ReadText(s)
  {
    if s != [] {
      if s[0] == '\r' {
        ReadTextFaithful(if |s| > 1 && s[1] == '\n' then s[2..] else s[1..]);
        assert ReadText(s)[0] == '\n';
      } else {
        ReadTextFaithful(s[1..]);
        assert s == [s[0]] + s[1..];
        assert ReadText(s)[1..] == ReadText(s[1..]);
      }
    }
  }

  function Utf8Length(s: string): nat {
    if s == [] then 0
    else
      var c := s[0] as int;
      (if c < 0x80 then 1 else if c < 0x800 then 2 else if c < 0x1_0000 then 3 else 4) + Utf8Length(s[1..])
  }

  function Size(f: FileData): nat {
    match f
    case Text(content) => Utf8Length(content)
    case NotUtf8(size, _) => size
  }

  predicate HasNul(f: FileData) {
    match f
    case Text(content) => '\0' in content
    case NotUtf8(_, hasNul) => hasNul
  }

  // ------------------------------------------------------------------- paths

  function Posix(p: Path): string {
    if p == [] then "." else if |p| == 1 then p[0] else p[0] + "/" + Posix(p[1..])
  }

  function Name(p: Path): string {
    if p == [] then "" else p[|p| - 1]
  }

  function LastDot(s: string, i: nat): Option<nat>
    requires i <= |s|
  {
    if i == 0 then None else if s[i - 1] == '.' then Some(i - 1) else LastDot(s, i - 1)
  }

  /** `Path.suffix` */
  function Suffix(name: string): string {
    match LastDot(name, |name|)
    case None => ""
    case Some(i) => if i <= |name| && 0 < i < |name| - 1 then name[i..] else ""
  }

  const FORBIDDEN_PARTS := [".env", "candidate_store", "candidate_stores", "local_brain", "verified_store_v0"]
  const LOCKFILES := ["package-lock.json", "pnpm-lock.yaml", "yarn.lock", "poetry.lock"]
  const TEXT_SUFFIXES := [".css", ".md", ".py", ".ts", ".tsx", ".txt"]
  const BACKUP_DIR: Path := ["runtime", "agentic_micro_os", "scoped_patch_backups"]

  datatype Denial =
    | PathRequired | TraversalRejected | OutsideRoot | StorePath | ForbiddenPart | Lockfile | NotText | NotAllowlisted
    | NotAFile | TooLarge | BinaryFile | NotUtf8Text | OldTextRequired | OldTextNotFound | DiffTooLong
    | StopActive | SwitchNotListed | ConfirmationMismatch | SessionNotActive | SessionIdMismatch | SwitchOff
    | GateDenied
    | BackupPathRequired | BackupOutside | BackupMissing

  /** `_is_allowed_relative_path` */
  predicate Allowlisted(p: Path, lower: string -> string) {
    var rel, suffix := Posix(p), lower(Suffix(Name(p)));
    || (StartsWith(rel, "apps/web/app/") && suffix in [".tsx", ".css"])
    || (StartsWith(rel, "apps/api/app/routers/") && suffix == ".py")
    || (StartsWith(rel, "packages/agentic_micro_os/") && suffix == ".py" && |p| == 3)
    || (StartsWith(rel, "packages/splatra_turbovec/") && suffix == ".py" && |p| == 3)
    || (StartsWith(rel, "docs/") && suffix == ".md" && |p| == 2)
  }

  datatype Checked<T> = Pass(value: T) | Fail(why: Denial)

  /** Some part of the path is `..`. */
  predicate Climbs(value: string) {
    exists i | 0 <= i <= |value| :: ParentAt(value, i)
  }

  predicate ParentAt(value: string, i: nat) {
    && i + 2 <= |value| && value[i..i + 2] == ".." && (i == 0 || value[i - 1] == '/')
    && (i + 2 == |value| || value[i + 2] == '/')
  }

  /** `_validate_target_path` */
  function ValidateTarget(host: Host, value: string): Checked<Path> {
    if value == "" then Fail(PathRequired)
    else if Climbs(value) then Fail(TraversalRejected)
    else match host.resolve(value)
    case Outside => Fail(OutsideRoot)
    case Inside(p) =>
      var text := host.lower(Posix(p));
      if StartsWith(text, "data/") || StartsWith(text, "runtime/") || StartsWith(text, "external_repos/")
      then Fail(StorePath)
      else if exists x | x in FORBIDDEN_PARTS :: Contains(text, x) then Fail(ForbiddenPart)
      else if Name(p) in LOCKFILES then Fail(Lockfile)
      else if host.lower(Suffix(Name(p))) !in TEXT_SUFFIXES then Fail(NotText)
      else if !Allowlisted(p, host.lower) then Fail(NotAllowlisted)
      else Pass(p)
  }

  predicate InBackupDir(p: Path) { BACKUP_DIR <= p }

  /** `_validate_backup_path`; unlike that of a target, the path of a backup may climb before it is resolved. */
  function ValidateBackup(host: Host, files: Files, value: string): Checked<Path> {
    if value == "" then Fail(BackupPathRequired)
    else match host.resolve(value)
    case Outside => Fail(BackupOutside)
    case Inside(p) =>
      if !InBackupDir(p) then Fail(BackupOutside)
      else if p !in files then Fail(BackupMissing)
      else Pass(p)
  }

  /** `_read_text_target`: the raw text, no newline translated. */
  function ReadTarget(files: Files, p: Path, maxBytes: nat): Checked<string> {
    if p !in files then Fail(NotAFile)
    else if Size(files[p]) > maxBytes then Fail(TooLarge)
    else if HasNul(files[p]) then Fail(BinaryFile)
    else match files[p]
      case NotUtf8(_, _) => Fail(NotUtf8Text)
      case Text(content) => Pass(content)
  }

  function BackupName(id: string, digest: string, suffix: string): string {
    "scoped_patch_" + (id + ("_" + digest + suffix))
  }

  function BackupPath(host: Host, id: nat, target: Path): Path {
    BACKUP_DIR + [BackupName(host.uuid(id), host.digest(target), Suffix(Name(target)))]
  }

  lemma BackupStart(p: Path)
    ensures InBackupDir(p) ==> Posix(p) != [] && Posix(p)[0] == 'r'
  {
    if InBackupDir(p) {
      assert p[0] == BACKUP_DIR[0];
    }
  }

  /** Valid targets and backups never meet. */
  lemma TargetIsNoBackup(host: Host, value: string)
    requires ValidateTarget(host, value).Pass?
    ensures !InBackupDir(ValidateTarget(host, value).value)
  {
    var p := ValidateTarget(host, value).value;
    BackupStart(p);
    assert Posix(p)[0] in ['a', 'p', 'd'];
  }

  lemma BackupNamesDiffer(i: string, d: string, x: string, j: string, e: string, y: string)
    requires |i| == |j| && i != j
    ensures BackupName(i, d, x) != BackupName(j, e, y)
  {
    var n := |"scoped_patch_"|;
    assert BackupName(i, d, x)[n..][..|i|] == i;
    assert BackupName(j, e, y)[n..][..|j|] == j;
  }

  lemma BackupPathsDiffer(host: Host, n: nat, i: nat, p: Path, j: nat, q: Path)
    requires FreshIds(host, n) && i < n && j < n && i != j
    ensures BackupPath(host, i, p) != BackupPath(host, j, q)
  {
    BackupNamesDiffer(host.uuid(i), host.digest(p), Suffix(Name(p)), host.uuid(j), host.digest(q), Suffix(Name(q)));
    assert BackupPath(host, i, p)[|BACKUP_DIR|] == BackupName(host.uuid(i), host.digest(p), Suffix(Name(p)));
    assert BackupPath(host, j, q)[|BACKUP_DIR|] == BackupName(host.uuid(j), host.digest(q), Suffix(Name(q)));
  }

  // ------------------------------------------------------- plan, apply, rollback

  datatype PatchRequest = PatchRequest(
    targetPath: string, expectedOldText: string, replacementText: string,
    confirmation: string, sessionId: string, listsFullFileWrite: bool)

  datatype RollbackRequest = RollbackRequest(targetPath: string, backupPath: string, confirmation: string,
                                             sessionId: string)

  datatype Limits = Limits(maxFileBytes: nat, maxDiffLines: nat)

  const APPLY_CONFIRMATION := "APPLY SCOPED PATCH"
  const ROLLBACK_CONFIRMATION := "ROLLBACK SCOPED PATCH"

  /** The gate, the files, and how many ids were drawn. */
  datatype Exec = Exec(gate: Gate, files: Files, ids: nat)

  datatype Result =
    | Denied(why: Denial)
    | Raises
    | Applied(target: Path, backup: Path)

  /** The executor's own audit line takes one reading of the clock. */
  function Note(g: Gate): Gate { g.(tick := g.tick + 1) }

  /** `plan`, without the audit line: the target when the patch is acceptable. */
  function Planned(host: Host, limits: Limits, files: Files, r: PatchRequest): Checked<Path> {
    match ValidateTarget(host, r.targetPath)
    case Fail(why) => Fail(why)
    case Pass(p) =>
      match ReadTarget(files, p, limits.maxFileBytes)
      case Fail(why) => Fail(why)
      case Pass(original) =>
        if r.expectedOldText == "" then Fail(OldTextRequired)
        else if !Contains(original, r.expectedOldText) then Fail(OldTextNotFound)
        else
          var updated := ReplaceFirst(original, r.expectedOldText, r.replacementText);
          if host.diffLines(original, updated) > limits.maxDiffLines then Fail(DiffTooLong)
          else Pass(p)
  }

  datatype Permission = Permission(refusal: Option<Denial>, gate: Gate)

  /** `_verify_apply_permission` */
  function Permit(host: Host, g: Gate, lists: bool, typed: string, wanted: string, sessionId: string): Permission {
    if g.stopped then Permission(Some(StopActive), g)
    else if !lists then Permission(Some(SwitchNotListed), g)
    else if typed != wanted then Permission(Some(ConfirmationMismatch), g)
    else
      var h := Refresh(g, host.clock);
      if h.tier != FullHostAuthority || h.session.None? then Permission(Some(SessionNotActive), h)
      else if sessionId == "" || sessionId != h.session.value.sessionId then Permission(Some(SessionIdMismatch), h)
      else if !h.session.value.switches.fullFileWrite then Permission(Some(SwitchOff), h)
      else
        var v := VerifyAction(h, host.clock, FileWrite, "");
        if !v.allowed then Permission(Some(GateDenied), v.gate) else Permission(None, v.gate)
  }

  datatype Ran = Ran(result: Result, after: Exec)

  function Apply(host: Host, limits: Limits, e: Exec, r: PatchRequest): Ran {
    match Planned(host, limits, e.files, r)
    case Fail(why) => Ran(Denied(why), Exec(Note(e.gate), e.files, e.ids + 1))
    case Pass(p) =>
      var permit := Permit(host, Note(e.gate), r.listsFullFileWrite, r.confirmation, APPLY_CONFIRMATION, r.sessionId);
      if permit.refusal.Some? then Ran(Denied(permit.refusal.value), Exec(Note(permit.gate), e.files, e.ids + 1))
      else
        var original := ReadText(e.files[p].content);
        var updated := ReplaceFirst(original, r.expectedOldText, r.replacementText);
        var backup := BackupPath(host, e.ids, p);
        Ran(Applied(p, backup),
            Exec(Note(permit.gate), e.files[backup := Text(original)][p := Text(updated)], e.ids + 1))
  }

  /** `rollback` draws an id too; a missing or undecodable target or backup raises. */
  function Rollback(host: Host, e: Exec, r: RollbackRequest): Ran {
    match ValidateTarget(host, r.targetPath)
    case Fail(why) => Ran(Denied(why), Exec(Note(e.gate), e.files, e.ids + 1))
    case Pass(p) =>
      match ValidateBackup(host, e.files, r.backupPath)
      case Fail(why) => Ran(Denied(why), Exec(Note(e.gate), e.files, e.ids + 1))
      case Pass(b) =>
        var permit := Permit(host, e.gate, true, r.confirmation, ROLLBACK_CONFIRMATION, r.sessionId);
        if permit.refusal.Some? then Ran(Denied(permit.refusal.value), Exec(Note(permit.gate), e.files, e.ids + 1))
        else if p !in e.files || !e.files[p].Text? || !e.files[b].Text?
        then Ran(Raises, Exec(permit.gate, e.files, e.ids + 1))
        else
          Ran(Applied(p, b),
              Exec(Note(permit.gate), e.files[p := Text(ReadText(e.files[b].content))], e.ids + 1))
  }

  // --------------------------------------------------------------- invariants

  /** No file sits where a backup still to be written, up to the `n`-th id, will go. */
  ghost predicate RoomForBackups(host: Host, e: Exec, n: nat) {
    forall i: nat, p: Path | e.ids <= i < n :: BackupPath(host, i, p) !in e.files
  }

  /** Same files with the same content outside the backup directory. */
  ghost predicate SameTree(a: Files, b: Files) {
    forall p: Path | !InBackupDir(p) :: (p in a <==> p in b) && (p in a ==> a[p] == b[p])
  }

  /** Backups written so far are untouched. */
  ghost predicate KeepsBackups(a: Files, b: Files) {
    forall p | p in a && InBackupDir(p) :: p in b && b[p] == a[p]
  }

  lemma BackupIsInBackupDir(host: Host, i: nat, p: Path)
    ensures InBackupDir(BackupPath(host, i, p))
  {
  }

  lemma ApplyKeepsBackups(host: Host, limits: Limits, n: nat, e: Exec, r: PatchRequest)
    requires FreshIds(host, n) && RoomForBackups(host, e, n) && e.ids < n
    ensures var f := Apply(host, limits, e, r).after; KeepsBackups(e.files, f.files) && RoomForBackups(host, f, n)
  {
    var ran := Apply(host, limits, e, r);
    if ran.result.Applied? {
      TargetIsNoBackup(host, r.targetPath);
      assert BackupPath(host, e.ids, ran.result.target) !in e.files;
      forall i: nat, p: Path | e.ids + 1 <= i < n ensures BackupPath(host, i, p) !in ran.after.files {
        BackupPathsDiffer(host, n, i, p, e.ids, ran.result.target);
        BackupIsInBackupDir(host, i, p);
      }
    }
  }

  lemma RollbackKeepsBackups(host: Host, n: nat, e: Exec, r: RollbackRequest)
    requires RoomForBackups(host, e, n)
    ensures var f := Rollback(host, e, r).after; KeepsBackups(e.files, f.files) && RoomForBackups(host, f, n)
  {
    var ran := Rollback(host, e, r);
    if ran.result.Applied? {
      TargetIsNoBackup(host, r.targetPath);
      forall i: nat, p: Path | e.ids + 1 <= i < n ensures BackupPath(host, i, p) !in ran.after.files {
        BackupIsInBackupDir(host, i, p);
      }
    }
  }

  /** Without permission nothing changes on disk. */
  lemma DeniedTouchesNothing(host: Host, limits: Limits, e: Exec, r: PatchRequest, b: RollbackRequest)
    ensures !Apply(host, limits, e, r).result.Applied? ==> Apply(host, limits, e, r).after.files == e.files
    ensures !Rollback(host, e, b).result.Applied? ==> Rollback(host, e, b).after.files == e.files
    ensures e.gate.stopped ==> !Apply(host, limits, e, r).result.Applied? && !Rollback(host, e, b).result.Applied?
  {
  }

  /** A successful apply is a file write the gate allowed inside the session named in the request. */
  lemma AppliedMeansPermitted(host: Host, limits: Limits, e: Exec, r: PatchRequest)
    requires Monotone(host.clock) && GateSpec.Sound(e.gate, host.clock) && Apply(host, limits, e, r).result.Applied?
    ensures e.gate.session.Some? && e.gate.session.value.sessionId == r.sessionId
    ensures e.gate.session.value.switches.fullFileWrite && r.confirmation == APPLY_CONFIRMATION && r.listsFullFileWrite
    ensures host.clock(e.gate.tick) < e.gate.session.value.expiresAt
    ensures exists i :: |e.gate.log| <= i < |Apply(host, limits, e, r).after.gate.log|
              && Apply(host, limits, e, r).after.gate.log[i].allowed
              && Apply(host, limits, e, r).after.gate.log[i].scope == FileWrite
  {
    var h := Refresh(Note(e.gate), host.clock);
    var v := VerifyAction(h, host.clock, FileWrite, "");
    var log := Apply(host, limits, e, r).after.gate.log;
    assert log == e.gate.log + [AuditRecord(host.clock(h.tick + 1), true, FileWrite, h.tier)];
    assert log[|e.gate.log|].allowed;
  }
}
