/** What the patch executor writes, what it accepts and what it refuses, in terms of texts, paths
    and the session (packages/agentic_micro_os/scoped_patch_executor.py). */
module PatchLaws {
  import opened Wrappers
  import opened TextSearch
  import opened GateSpec
  import opened PatchSpec
  import opened PatchTheorems

  // ------------------------------------------------------------------ newlines

  /** Text before which no carriage return stands is read as it is. */
  lemma {:induction false} ReadPlainFirst(a: string, b: string)
    requires '\r' !in a
    ensures ReadText(a + b) == a + ReadText(b)
  {
    if a == [] {
      assert a + b == b;
    } else {
      assert (a + b)[1..] == a[1..] + b && a == [a[0]] + a[1..];
      ReadPlainFirst(a[1..], b);
    }
  }

  /** After reading a line end of either kind there is one line feed, and reading goes on behind it. */
  lemma ReadLineEnd(a: string, b: string)
    requires '\r' !in a
    ensures ReadText(a + ("\r\n" + b)) == a + ("\n" + ReadText(b))
    ensures (b == [] || b[0] != '\n') ==> ReadText(a + ("\r" + b)) == a + ("\n" + ReadText(b))
  {
    ReadPlainFirst(a, "\r\n" + b);
    ReadPlainFirst(a, "\r" + b);
    assert ("\r\n" + b)[2..] == b && ("\r" + b)[1..] == b;
    if b != [] { assert ("\r" + b)[1] == b[0]; }
  }

  lemma OccursBehind(first: char, s: string, sub: string)
    requires Contains(s, sub)
    ensures Contains([first] + s, sub)
  {
    ContainsInside([first], s, [], sub);
    assert [first] + s + [] == [first] + s;
  }

  /** Reading loses no occurrence of a text without carriage returns. */
  lemma {:induction false} ReadKeepsOccurrence(s: string, sub: string, i: nat)
    requires '\r' !in sub && OccursAt(s, sub, i)
    ensures Contains(ReadText(s), sub)
  {
    if i == 0 {
      assert s == sub + s[|sub|..];
      ReadPlainFirst(sub, s[|sub|..]);
      assert ReadText(s)[0..0 + |sub|] == sub;
      OccursMeansContains(ReadText(s), sub, 0);
    } else {
      assert s[1..][i - 1..i - 1 + |sub|] == s[i..i + |sub|];
      ReadKeepsOccurrence(s[1..], sub, i - 1);
      if s[0] == '\r' && |s| > 1 && s[1] == '\n' {
        assert s[1..][1..] == s[2..];
        assert ReadText(s) == ReadText(s[1..]);
      } else {
        OccursBehind(if s[0] == '\r' then '\n' else s[0], ReadText(s[1..]), sub);
      }
    }
  }

  // ---------------------------------------------------------------- what is written

  /** The text is `pre`, then the part at its first place, then `post`. */
  ghost predicate SplitsAt(text: string, part: string, pre: string, post: string) {
    text == pre + part + post && forall i: nat | i < |pre| :: !OccursAt(text, part, i)
  }

  lemma ReplaceSplits(s: string, before: string, after: string) returns (pre: string, post: string)
    requires Contains(s, before)
    ensures SplitsAt(s, before, pre, post) && ReplaceFirst(s, before, after) == pre + after + post
  {
    var i := Find(s, before, 0).value;
    pre, post := s[..i], s[i + |before|..];
    assert s == s[..i] + s[i..i + |before|] + s[i + |before|..];
  }

  /** An applied patch puts the replacement where the old text first stands in the text read and
      leaves the rest of it, if and only if the old text holds no carriage return; otherwise it
      replaces nothing and writes the text as it was read. */
  lemma AppliedText(host: Host, limits: Limits, e: Exec, r: PatchRequest) returns (pre: string, post: string)
    requires Apply(host, limits, e, r).result.Applied?
    ensures var a := Apply(host, limits, e, r);
      && a.result.target in e.files && e.files[a.result.target].Text? && a.result.target in a.after.files
      && var read, written := ReadText(e.files[a.result.target].content), a.after.files[a.result.target];
         && r.expectedOldText != ""
         && ('\r' !in r.expectedOldText ==>
               SplitsAt(read, r.expectedOldText, pre, post) && written == Text(pre + r.replacementText + post))
         && ('\r' in r.expectedOldText ==> !Contains(read, r.expectedOldText) && written == Text(read))
  {
    ApplyEffect(host, limits, e, r);
    PlanFound(host, limits, e, r);
    var raw := e.files[Apply(host, limits, e, r).result.target].content;
    ReadTextFaithful(raw);
    pre, post := "", "";
    if '\r' !in r.expectedOldText {
      ReadKeepsOccurrence(raw, r.expectedOldText, Find(raw, r.expectedOldText, 0).value);
      pre, post := ReplaceSplits(ReadText(raw), r.expectedOldText, r.replacementText);
    } else {
      NotWithin(ReadText(raw), r.expectedOldText, '\r');
    }
  }

  lemma NotWithin(s: string, sub: string, c: char)
    requires c in sub && c !in s
    ensures !Contains(s, sub)
  {
    var k :| 0 <= k < |sub| && sub[k] == c;
    forall i: nat | i + |sub| <= |s| ensures !OccursAt(s, sub, i) {
      assert s[i..i + |sub|][k] == s[i + k];
    }
  }

  lemma PlanFound(host: Host, limits: Limits, e: Exec, r: PatchRequest)
    requires Apply(host, limits, e, r).result.Applied?
    ensures var p := Apply(host, limits, e, r).result.target;
      && p in e.files && e.files[p].Text? && r.expectedOldText != ""
      && Contains(e.files[p].content, r.expectedOldText)
  {
  }

  // ---------------------------------------------------------------- what is accepted

  /** The parts of a path as given, between slashes. */
  function Parts(value: string): seq<string>
    decreases |value|
  {
    match Find(value, "/", 0)
    case None => [value]
    case Some(k) => [value[..k]] + Parts(value[k + 1..])
  }

  /** Where a text has no slash, it is none. */
  lemma SlashAt(s: string, k: nat)
    requires k < |s|
    ensures OccursAt(s, "/", k) <==> s[k] == '/'
  {
  }

  /** A path climbs exactly when one of its parts is two dots. */
  lemma {:induction false} ClimbsExactly(value: string)
    ensures Climbs(value) <==> ".." in Parts(value)
    decreases |value|
  {
    match Find(value, "/", 0)
    case None =>
      forall k | 0 <= k < |value| ensures value[k] != '/' { SlashAt(value, k); }
      if value == ".." { assert ParentAt(value, 0); }
    case Some(k) =>
      var rest := value[k + 1..];
      ClimbsExactly(rest);
      SlashAt(value, k);
      forall j | 0 <= j < k ensures value[j] != '/' { SlashAt(value, j); }
      forall i: nat ensures ParentAt(rest, i) <==> ParentAt(value, k + 1 + i) {
        ParentBehind(value, k, i);
      }
      if Climbs(value) {
        var i :| 0 <= i <= |value| && ParentAt(value, i);
        if i > k { assert ParentAt(rest, i - (k + 1)); } else { ParentBefore(value, k, i); }
      }
      if Climbs(rest) {
        var i :| 0 <= i <= |rest| && ParentAt(rest, i);
        assert ParentAt(value, k + 1 + i);
      }
      if value[..k] == ".." { assert ParentAt(value, 0); }
  }

  lemma ParentBehind(value: string, k: nat, i: nat)
    requires k < |value| && value[k] == '/'
    ensures ParentAt(value[k + 1..], i) <==> ParentAt(value, k + 1 + i)
  {
    if i + 2 <= |value[k + 1..]| {
      assert value[k + 1..][i..i + 2] == value[k + 1 + i..k + 1 + i + 2];
    }
  }

  lemma ParentBefore(value: string, k: nat, i: nat)
    requires i <= k < |value| && value[k] == '/' && (forall j | 0 <= j < k :: value[j] != '/') && ParentAt(value, i)
    ensures value[..k] == ".."
  {
    assert value[i] == value[i..i + 2][0] && value[i + 1] == value[i..i + 2][1];
    assert i == 0 && k == 2;
  }

  /** How many characters of the text have that code or a higher one. */
  function FromCode(s: string, code: int): nat {
    if s == [] then 0 else (if s[0] as int >= code then 1 else 0) + FromCode(s[1..], code)
  }

  /** In UTF-8 a character takes one byte, and one more from each of the codes 128, 2048 and 65536 on. */
  lemma {:induction false} Utf8LengthMeans(s: string)
    ensures Utf8Length(s) == |s| + FromCode(s, 128) + FromCode(s, 2048) + FromCode(s, 65536)
  {
    if s != [] { Utf8LengthMeans(s[1..]); }
  }

  /** Where patches are allowed: five places, each with its kinds of file. */
  predicate InAllowedPlace(path: string, parts: nat, suffix: string) {
    || ("apps/web/app/" <= path && (suffix == ".tsx" || suffix == ".css"))
    || ("apps/api/app/routers/" <= path && suffix == ".py")
    || ("packages/agentic_micro_os/" <= path && suffix == ".py" && parts == 3)
    || ("packages/splatra_turbovec/" <= path && suffix == ".py" && parts == 3)
    || ("docs/" <= path && suffix == ".md" && parts == 2)
  }

  /** Nothing of a store, a run-time directory, a checkout of others or an environment file. */
  predicate OffLimits(lowered: string) {
    || "data/" <= lowered || "runtime/" <= lowered || "external_repos/" <= lowered
    || Contains(lowered, ".env") || Contains(lowered, "candidate_store") || Contains(lowered, "candidate_stores")
    || Contains(lowered, "local_brain") || Contains(lowered, "verified_store_v0")
  }

  predicate GoodTarget(host: Host, value: string, p: Path) {
    && value != "" && ".." !in Parts(value) && host.resolve(value) == Inside(p)
    && !OffLimits(host.lower(Posix(p)))
    && Name(p) !in {"package-lock.json", "pnpm-lock.yaml", "yarn.lock", "poetry.lock"}
    && InAllowedPlace(Posix(p), |p|, host.lower(Suffix(Name(p))))
  }

  /** A target is accepted just when it is given without climbing, lies inside the project in an
      allowed place of an allowed kind, and is neither off limits nor a lock file. */
  lemma TargetsExactly(host: Host, value: string, p: Path)
    ensures ValidateTarget(host, value) == Pass(p) <==> GoodTarget(host, value, p)
  {
    if ValidateTarget(host, value) == Pass(p) { AcceptedIsGood(host, value, p); }
    if GoodTarget(host, value, p) { GoodIsAccepted(host, value, p); }
  }

  lemma AcceptedIsGood(host: Host, value: string, p: Path)
    requires ValidateTarget(host, value) == Pass(p)
    ensures GoodTarget(host, value, p)
  {
    OffLimitsMeans(host.lower(Posix(p)));
    ClimbsExactly(value);
  }

  lemma GoodIsAccepted(host: Host, value: string, p: Path)
    requires GoodTarget(host, value, p)
    ensures ValidateTarget(host, value) == Pass(p)
  {
    OffLimitsMeans(host.lower(Posix(p)));
    ClimbsExactly(value);
  }

  lemma OffLimitsMeans(lowered: string)
    ensures (exists x | x in FORBIDDEN_PARTS :: Contains(lowered, x)) <==>
            Contains(lowered, ".env") || Contains(lowered, "candidate_store") || Contains(lowered, "candidate_stores")
            || Contains(lowered, "local_brain") || Contains(lowered, "verified_store_v0")
  {
    assert FORBIDDEN_PARTS[0] == ".env" && FORBIDDEN_PARTS[1] == "candidate_store";
    assert FORBIDDEN_PARTS[2] == "candidate_stores" && FORBIDDEN_PARTS[3] == "local_brain";
    assert FORBIDDEN_PARTS[4] == "verified_store_v0";
  }

  /** The suffix of a name is what follows its last dot, unless the dot is first or last. */
  lemma {:induction false} SuffixMeans(name: string)
    ensures var x := Suffix(name);
      if x == "" then forall i | 0 < i < |name| - 1 && name[i] == '.' :: '.' in name[i + 1..]
      else |x| >= 2 && |x| < |name| && name[|name| - |x|..] == x && x[0] == '.' && '.' !in x[1..]
  {
    LastDotMeans(name, |name|);
    match LastDot(name, |name|)
    case None =>
    case Some(k) =>
      if 0 < k < |name| - 1 {
        assert name[|name| - |name[k..]|..] == name[k..];
        forall j | 0 <= j < |name[k..][1..]| ensures name[k..][1..][j] != '.' {
          assert name[k..][1..][j] == name[k + 1 + j];
        }
      } else {
        forall i | 0 < i < |name| - 1 && name[i] == '.' ensures '.' in name[i + 1..] {
          assert name[i + 1..][k - (i + 1)] == name[k];
        }
      }
  }

  lemma {:induction false} LastDotMeans(s: string, n: nat)
    requires n <= |s|
    ensures LastDot(s, n).None? ==> forall j | 0 <= j < n :: s[j] != '.'
    ensures LastDot(s, n).Some? ==> LastDot(s, n).value < n && s[LastDot(s, n).value] == '.'
    ensures LastDot(s, n).Some? ==> forall j | LastDot(s, n).value < j < n :: s[j] != '.'
  {
    if n > 0 { LastDotMeans(s, n - 1); }
  }

  /** The file can be patched as asked: text, not too large, without a null character, holding the
      old text, and not changed in too many lines. */
  predicate GoodPatch(host: Host, limits: Limits, files: Files, p: Path, r: PatchRequest) {
    && p in files && files[p].Text? && Utf8Length(files[p].content) <= limits.maxFileBytes
    && '\0' !in files[p].content
    && r.expectedOldText != "" && Contains(files[p].content, r.expectedOldText)
    && host.diffLines(files[p].content, ReplaceFirst(files[p].content, r.expectedOldText, r.replacementText))
       <= limits.maxDiffLines
  }

  lemma PlansExactly(host: Host, limits: Limits, files: Files, r: PatchRequest, p: Path)
    ensures Planned(host, limits, files, r) == Pass(p) <==>
            GoodTarget(host, r.targetPath, p) && GoodPatch(host, limits, files, p, r)
  {
    TargetsExactly(host, r.targetPath, p);
  }

  /** The session named lives at both readings of the clock, may write files, and nothing stops it. */
  predicate MayWrite(g: Gate, clock: Clock, sessionId: string) {
    && !g.stopped && g.tier == FullHostAuthority && g.session.Some?
    && sessionId != "" && sessionId == g.session.value.sessionId && g.session.value.switches.fullFileWrite
    && clock(g.tick) < g.session.value.expiresAt && clock(g.tick + 1) < g.session.value.expiresAt
  }

  lemma PermitsExactly(host: Host, g: Gate, lists: bool, typed: string, wanted: string, sessionId: string)
    ensures Permit(host, g, lists, typed, wanted, sessionId).refusal.None? <==>
            lists && typed == wanted && MayWrite(g, host.clock, sessionId)
  {
  }

  /** A patch is applied just when target and patch are good, the write switch is listed, the phrase
      is typed and the session may write; otherwise it is denied. */
  lemma AppliedExactly(host: Host, limits: Limits, e: Exec, r: PatchRequest)
    ensures Apply(host, limits, e, r).result.Applied? <==>
            && (exists p :: GoodTarget(host, r.targetPath, p) && GoodPatch(host, limits, e.files, p, r))
            && r.listsFullFileWrite && r.confirmation == "APPLY SCOPED PATCH"
            && MayWrite(Note(e.gate), host.clock, r.sessionId)
    ensures !Apply(host, limits, e, r).result.Applied? ==> Apply(host, limits, e, r).result.Denied?
  {
    PermitsExactly(host, Note(e.gate), r.listsFullFileWrite, r.confirmation, APPLY_CONFIRMATION, r.sessionId);
    match Planned(host, limits, e.files, r)
    case Pass(p) => PlansExactly(host, limits, e.files, r, p);
    case Fail(_) =>
      forall p ensures !(GoodTarget(host, r.targetPath, p) && GoodPatch(host, limits, e.files, p, r)) {
        PlansExactly(host, limits, e.files, r, p);
      }
  }

  function PathOf(host: Host, value: string): Path {
    match host.resolve(value) case Inside(p) => p case Outside => []
  }

  /** What a refusal of the target says is the case. */
  predicate TargetFails(host: Host, value: string, why: Denial) {
    var p := PathOf(host, value);
    var lowered, suffix := host.lower(Posix(p)), host.lower(Suffix(Name(p)));
    match why
    case PathRequired => value == ""
    case TraversalRejected => ".." in Parts(value)
    case OutsideRoot => host.resolve(value).Outside?
    case StorePath => "data/" <= lowered || "runtime/" <= lowered || "external_repos/" <= lowered
    case ForbiddenPart => OffLimits(lowered)
    case Lockfile => Name(p) in {"package-lock.json", "pnpm-lock.yaml", "yarn.lock", "poetry.lock"}
    case NotText => suffix !in {".css", ".md", ".py", ".ts", ".tsx", ".txt"}
    case NotAllowlisted => !InAllowedPlace(Posix(p), |p|, suffix)
    case _ => false
  }

  /** What a refusal for the session says is the case. */
  predicate SessionFails(host: Host, g: Gate, sessionId: string, why: Denial) {
    match why
    case StopActive => g.stopped
    case SessionNotActive =>
      g.tier != FullHostAuthority || g.session.None? || g.session.value.expiresAt <= host.clock(g.tick)
    case SessionIdMismatch => sessionId == "" || (g.session.Some? && sessionId != g.session.value.sessionId)
    case SwitchOff => g.session.Some? && !g.session.value.switches.fullFileWrite
    case GateDenied => g.session.Some? && g.session.value.expiresAt <= host.clock(g.tick + 1)
    case _ => false
  }

  /** What a refusal of the patch itself says is the case. */
  predicate PatchFails(host: Host, limits: Limits, files: Files, r: PatchRequest, why: Denial) {
    var p := PathOf(host, r.targetPath);
    match why
    case NotAFile => p !in files
    case TooLarge => p in files && Size(files[p]) > limits.maxFileBytes
    case BinaryFile => p in files && HasNul(files[p])
    case NotUtf8Text => p in files && files[p].NotUtf8?
    case OldTextRequired => r.expectedOldText == ""
    case OldTextNotFound => p in files && files[p].Text? && !Contains(files[p].content, r.expectedOldText)
    case DiffTooLong => p in files && files[p].Text? && !GoodPatch(host, limits, files, p, r)
    case SwitchNotListed => !r.listsFullFileWrite
    case ConfirmationMismatch => r.confirmation != "APPLY SCOPED PATCH"
    case _ => false
  }

  predicate Because(host: Host, limits: Limits, files: Files, g: Gate, r: PatchRequest, why: Denial) {
    || TargetFails(host, r.targetPath, why) || SessionFails(host, g, r.sessionId, why)
    || PatchFails(host, limits, files, r, why)
  }

  lemma RefusedTargetFails(host: Host, value: string)
    requires ValidateTarget(host, value).Fail?
    ensures TargetFails(host, value, ValidateTarget(host, value).why)
  {
    OffLimitsMeans(host.lower(Posix(PathOf(host, value))));
    ClimbsExactly(value);
  }

  lemma RefusedPatchFails(host: Host, limits: Limits, files: Files, r: PatchRequest)
    requires ValidateTarget(host, r.targetPath).Pass? && Planned(host, limits, files, r).Fail?
    ensures PatchFails(host, limits, files, r, Planned(host, limits, files, r).why)
  {
  }

  lemma RefusedSessionFails(host: Host, g: Gate, lists: bool, typed: string, wanted: string, sessionId: string)
    requires Permit(host, g, lists, typed, wanted, sessionId).refusal.Some?
    ensures var why := Permit(host, g, lists, typed, wanted, sessionId).refusal.value;
      || SessionFails(host, g, sessionId, why) || (why == SwitchNotListed && !lists)
      || (why == ConfirmationMismatch && typed != wanted)
  {
  }

  lemma RefusedBackupFails(host: Host, files: Files, r: RollbackRequest)
    requires ValidateBackup(host, files, r.backupPath).Fail?
    ensures RollbackFails(host, files, r, ValidateBackup(host, files, r.backupPath).why)
  {
    var b := PathOf(host, r.backupPath);
    if |b| >= 3 { assert BACKUP_DIR <= b <==> b[0] == BACKUP_DIR[0] && b[1] == BACKUP_DIR[1] && b[2] == BACKUP_DIR[2]; }
  }

  /** Every refusal of a patch gives a reason that holds. */
  lemma DeniedBecause(host: Host, limits: Limits, e: Exec, r: PatchRequest)
    requires Apply(host, limits, e, r).result.Denied?
    ensures Because(host, limits, e.files, Note(e.gate), r, Apply(host, limits, e, r).result.why)
  {
    if ValidateTarget(host, r.targetPath).Fail? {
      RefusedTargetFails(host, r.targetPath);
    } else if Planned(host, limits, e.files, r).Fail? {
      RefusedPatchFails(host, limits, e.files, r);
    } else {
      RefusedSessionFails(host, Note(e.gate), r.listsFullFileWrite, r.confirmation, APPLY_CONFIRMATION, r.sessionId);
    }
  }

  /** A backup is accepted just when it resolves to a file of the backup directory. */
  predicate GoodBackup(host: Host, files: Files, value: string, b: Path) {
    && value != "" && host.resolve(value) == Inside(b) && b in files
    && |b| >= 3 && b[0] == "runtime" && b[1] == "agentic_micro_os" && b[2] == "scoped_patch_backups"
  }

  lemma BackupsExactly(host: Host, files: Files, value: string, b: Path)
    ensures ValidateBackup(host, files, value) == Pass(b) <==> GoodBackup(host, files, value, b)
  {
    if |b| >= 3 { assert BACKUP_DIR <= b <==> b[0] == BACKUP_DIR[0] && b[1] == BACKUP_DIR[1] && b[2] == BACKUP_DIR[2]; }
  }

  /** A rollback is applied just when target and backup are good and text, the phrase is typed and
      the session may write. */
  lemma RolledBackExactly(host: Host, e: Exec, r: RollbackRequest, p: Path, b: Path)
    ensures Rollback(host, e, r).result == Applied(p, b) <==>
            && GoodTarget(host, r.targetPath, p) && GoodBackup(host, e.files, r.backupPath, b)
            && p in e.files && e.files[p].Text? && e.files[b].Text?
            && r.confirmation == "ROLLBACK SCOPED PATCH" && MayWrite(e.gate, host.clock, r.sessionId)
  {
    TargetsExactly(host, r.targetPath, p);
    BackupsExactly(host, e.files, r.backupPath, b);
    PermitsExactly(host, e.gate, true, r.confirmation, ROLLBACK_CONFIRMATION, r.sessionId);
  }

  /** With a good target and backup, the phrase and the session, a rollback fails only on a file that
      is missing or not text, and then it raises. */
  lemma RollbackRaisesExactly(host: Host, e: Exec, r: RollbackRequest, p: Path, b: Path)
    requires GoodTarget(host, r.targetPath, p) && GoodBackup(host, e.files, r.backupPath, b)
    ensures Rollback(host, e, r).result == Raises <==>
            && r.confirmation == "ROLLBACK SCOPED PATCH" && MayWrite(e.gate, host.clock, r.sessionId)
            && !(p in e.files && e.files[p].Text? && e.files[b].Text?)
  {
    TargetsExactly(host, r.targetPath, p);
    BackupsExactly(host, e.files, r.backupPath, b);
    PermitsExactly(host, e.gate, true, r.confirmation, ROLLBACK_CONFIRMATION, r.sessionId);
  }

  lemma OnlyGoodPathsRaise(host: Host, e: Exec, r: RollbackRequest) returns (p: Path, b: Path)
    requires Rollback(host, e, r).result == Raises
    ensures GoodTarget(host, r.targetPath, p) && GoodBackup(host, e.files, r.backupPath, b)
  {
    p, b := ValidateTarget(host, r.targetPath).value, ValidateBackup(host, e.files, r.backupPath).value;
    TargetsExactly(host, r.targetPath, p);
    BackupsExactly(host, e.files, r.backupPath, b);
  }

  /** What a refusal of the backup or the phrase says is the case. */
  predicate RollbackFails(host: Host, files: Files, r: RollbackRequest, why: Denial) {
    var b := PathOf(host, r.backupPath);
    match why
    case BackupPathRequired => r.backupPath == ""
    case BackupOutside =>
      || host.resolve(r.backupPath).Outside? || |b| < 3
      || !(b[0] == "runtime" && b[1] == "agentic_micro_os" && b[2] == "scoped_patch_backups")
    case BackupMissing => b !in files
    case ConfirmationMismatch => r.confirmation != "ROLLBACK SCOPED PATCH"
    case _ => false
  }

  /** Every refusal of a rollback gives a reason that holds. */
  lemma RollbackDeniedBecause(host: Host, e: Exec, r: RollbackRequest)
    requires Rollback(host, e, r).result.Denied?
    ensures var why := Rollback(host, e, r).result.why;
      || TargetFails(host, r.targetPath, why) || SessionFails(host, e.gate, r.sessionId, why)
      || RollbackFails(host, e.files, r, why)
  {
    if ValidateTarget(host, r.targetPath).Fail? {
      RefusedTargetFails(host, r.targetPath);
    } else if ValidateBackup(host, e.files, r.backupPath).Fail? {
      RefusedBackupFails(host, e.files, r);
    } else {
      RefusedSessionFails(host, e.gate, true, r.confirmation, ROLLBACK_CONFIRMATION, r.sessionId);
    }
  }
}
