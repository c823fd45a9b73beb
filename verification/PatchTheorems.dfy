/** Rolling patches back in reverse order restores the tree, and exactly when one rollback does. */
module PatchTheorems {
  import opened Wrappers
  import opened TextSearch
  import opened GateSpec
  import opened PatchSpec

  /** Well-nested histories: every successful apply is undone by a rollback of its own backup
      after whatever was nested inside it; refused patches and gate calls come anywhere. */
  datatype Script =
    | Done
    | GateCall(call: Call, rest: Script)
    | Refused(request: PatchRequest, rest: Script)
    | RefusedRollback(back: RollbackRequest, rest: Script)
    | Wrapped(apply: PatchRequest, inner: Script, undo: RollbackRequest, rest: Script)

  function Perform(host: Host, limits: Limits, e: Exec, s: Script): Exec
    decreases s
  {
    match s
    case Done => e
    case GateCall(call, rest) => Perform(host, limits, e.(gate := Step(e.gate, host.clock, call)), rest)
    case Refused(r, rest) => Perform(host, limits, Apply(host, limits, e, r).after, rest)
    case RefusedRollback(b, rest) => Perform(host, limits, Rollback(host, e, b).after, rest)
    case Wrapped(r, inner, b, rest) =>
      Perform(host, limits, Rollback(host, Perform(host, limits, Apply(host, limits, e, r).after, inner), b).after,
              rest)
  }

  /** The calls of the script succeed and fail as its shape says. */
  ghost predicate Nested(host: Host, limits: Limits, e: Exec, s: Script)
    decreases s
  {
    match s
    case Done => true
    case GateCall(call, rest) => Nested(host, limits, e.(gate := Step(e.gate, host.clock, call)), rest)
    case Refused(r, rest) =>
      var a := Apply(host, limits, e, r);
      !a.result.Applied? && Nested(host, limits, a.after, rest)
    case RefusedRollback(b, rest) =>
      var a := Rollback(host, e, b);
      !a.result.Applied? && Nested(host, limits, a.after, rest)
    case Wrapped(r, inner, b, rest) =>
      var a := Apply(host, limits, e, r);
      var z := Rollback(host, Perform(host, limits, a.after, inner), b);
      && a.result.Applied?
      && Nested(host, limits, a.after, inner)
      && z.result == a.result
      && Nested(host, limits, z.after, rest)
  }

  /** A successful apply, seen from the files: the backup holds the target as read. */
  lemma ApplyEffect(host: Host, limits: Limits, e: Exec, r: PatchRequest)
    requires Apply(host, limits, e, r).result.Applied?
    ensures var a := Apply(host, limits, e, r);
      && a.result.target in e.files && e.files[a.result.target].Text?
      && !InBackupDir(a.result.target) && InBackupDir(a.result.backup)
      && a.after.files == e.files[a.result.backup := Text(ReadText(e.files[a.result.target].content))]
                                 [a.result.target := Text(ReplaceFirst(ReadText(e.files[a.result.target].content),
                                                                       r.expectedOldText, r.replacementText))]
  {
    TargetIsNoBackup(host, r.targetPath);
  }

  lemma RollbackEffect(host: Host, e: Exec, b: RollbackRequest)
    requires Rollback(host, e, b).result.Applied?
    ensures var z := Rollback(host, e, b);
      && z.result.backup in e.files && e.files[z.result.backup].Text?
      && z.after.files == e.files[z.result.target := Text(ReadText(e.files[z.result.backup].content))]
  {
  }

  /** However the tree changed in between, rolling a patch back restores its target exactly if and
      only if the target held no carriage return when it was patched. */
  lemma RollbackRestoresExactlyWhen(host: Host, limits: Limits, e: Exec, r: PatchRequest, m: Exec, b: RollbackRequest)
    requires Apply(host, limits, e, r).result.Applied?
    requires KeepsBackups(Apply(host, limits, e, r).after.files, m.files)
    requires Rollback(host, m, b).result == Apply(host, limits, e, r).result
    ensures var p := Apply(host, limits, e, r).result.target;
      p in e.files && e.files[p].Text?
      && (Rollback(host, m, b).after.files[p] == e.files[p] <==> '\r' !in e.files[p].content)
  {
    ApplyEffect(host, limits, e, r);
    RollbackEffect(host, m, b);
    var a := Apply(host, limits, e, r);
    var original := e.files[a.result.target].content;
    ReadTextFaithful(original);
    ReadTextFaithful(ReadText(original));
    assert m.files[a.result.backup] == Text(ReadText(original));
  }

  /** A patch that was applied can be rolled back while its target is still text, the session lasts
      and its backup is asked for under a path that resolves to it. */
  lemma AppliedCanBeUndone(host: Host, limits: Limits, e: Exec, r: PatchRequest, m: Exec, b: RollbackRequest)
    requires Apply(host, limits, e, r).result.Applied?
    requires KeepsBackups(Apply(host, limits, e, r).after.files, m.files)
    requires var p := Apply(host, limits, e, r).result.target; p in m.files && m.files[p].Text?
    requires b.targetPath == r.targetPath && b.backupPath != ""
    requires host.resolve(b.backupPath) == Inside(Apply(host, limits, e, r).result.backup)
    requires Permit(host, m.gate, true, b.confirmation, ROLLBACK_CONFIRMATION, b.sessionId).refusal.None?
    ensures Rollback(host, m, b).result == Apply(host, limits, e, r).result
  {
    ApplyEffect(host, limits, e, r);
    var a := Apply(host, limits, e, r);
    assert a.result.backup in a.after.files;
  }

  // ------------------------------------------------------------- whole histories

  /** The file as it reads once its line ends are translated. */
  function Normalised(f: FileData): FileData {
    if f.Text? then Text(ReadText(f.content)) else f
  }

  lemma NormalisedTwice(f: FileData)
    ensures Normalised(Normalised(f)) == Normalised(f)
    ensures f.Text? ==> (Normalised(f) == f <==> '\r' !in f.content)
  {
    if f.Text? {
      ReadTextFaithful(f.content);
      ReadTextFaithful(ReadText(f.content));
    }
  }

  /** The files the script patches. */
  function Patched(host: Host, s: Script): set<Path>
    decreases s
  {
    match s
    case Done => {}
    case GateCall(_, rest) => Patched(host, rest)
    case Refused(_, rest) => Patched(host, rest)
    case RefusedRollback(_, rest) => Patched(host, rest)
    case Wrapped(r, inner, _, rest) => TargetOf(host, r) + Patched(host, inner) + Patched(host, rest)
  }

  function TargetOf(host: Host, r: PatchRequest): set<Path> {
    match ValidateTarget(host, r.targetPath)
    case Pass(p) => {p}
    case Fail(_) => {}
  }

  /** Outside the backup directory the files of `ps` are read and written back, all others untouched. */
  ghost predicate OnlyNormalises(a: Files, b: Files, ps: set<Path>) {
    forall p: Path | !InBackupDir(p) ::
      (p in a <==> p in b) && (p in a ==> b[p] == if p in ps then Normalised(a[p]) else a[p])
  }

  ghost predicate AreText(files: Files, ps: set<Path>) {
    forall p | p in ps :: !InBackupDir(p) && p in files && files[p].Text?
  }

  /** What a stretch of history keeps. */
  ghost predicate Undone(host: Host, n: nat, e: Exec, f: Exec, ps: set<Path>) {
    && OnlyNormalises(e.files, f.files, ps) && AreText(e.files, ps)
    && KeepsBackups(e.files, f.files) && RoomForBackups(host, f, n)
  }

  lemma UndoneTwice(host: Host, n: nat, e: Exec, f: Exec, h: Exec, ps: set<Path>, qs: set<Path>)
    requires Undone(host, n, e, f, ps) && Undone(host, n, f, h, qs)
    ensures Undone(host, n, e, h, ps + qs)
  {
    forall p | p in e.files && InBackupDir(p) ensures p in h.files && h.files[p] == e.files[p] {
      assert p in f.files;
    }
    forall p: Path | !InBackupDir(p)
      ensures (p in e.files <==> p in h.files)
      ensures p in e.files ==> h.files[p] == if p in ps + qs then Normalised(e.files[p]) else e.files[p]
    {
      assert p in e.files <==> p in f.files;
      if p in e.files { NormalisedTwice(e.files[p]); }
    }
  }

  /** One patch around a stretch that was undone is undone too. */
  lemma WrapUndone(host: Host, limits: Limits, n: nat, e: Exec, r: PatchRequest, m: Exec, b: RollbackRequest,
                   ps: set<Path>)
    requires FreshIds(host, n) && RoomForBackups(host, e, n) && e.ids < n
    requires Apply(host, limits, e, r).result.Applied?
    requires Undone(host, n, Apply(host, limits, e, r).after, m, ps)
    requires Rollback(host, m, b).result == Apply(host, limits, e, r).result
    ensures Undone(host, n, e, Rollback(host, m, b).after, TargetOf(host, r) + ps)
  {
    var a, z := Apply(host, limits, e, r), Rollback(host, m, b);
    ApplyEffect(host, limits, e, r);
    RollbackEffect(host, m, b);
    ApplyKeepsBackups(host, limits, n, e, r);
    RollbackKeepsBackups(host, n, m, b);
    var p := a.result.target;
    assert TargetOf(host, r) == {p};
    WrapFiles(e.files, a.after.files, m.files, z.after.files, p, a.result.backup, ps);
  }

  /** The files around one wrapped patch: before it, after it, before its rollback, after that. */
  lemma WrapFiles(e: Files, a: Files, m: Files, z: Files, p: Path, backup: Path, ps: set<Path>)
    requires p in e && !InBackupDir(p) && InBackupDir(backup)
    requires a.Keys == e.Keys + {backup} && (forall q | q in e && q != p && q != backup :: a[q] == e[q])
    requires a[backup] == Normalised(e[p])
    requires OnlyNormalises(a, m, ps) && KeepsBackups(a, m) && KeepsBackups(e, a)
    requires z == m[p := Normalised(m[backup])]
    requires e[p].Text? && AreText(a, ps)
    ensures OnlyNormalises(e, z, {p} + ps) && KeepsBackups(e, z) && AreText(e, {p} + ps)
  {
    NormalisedTwice(e[p]);
    forall q: Path | !InBackupDir(q)
      ensures (q in e <==> q in z) && (q in e ==> z[q] == if q in {p} + ps then Normalised(e[q]) else e[q])
    {
      assert q in a <==> q in m;
    }
  }

  lemma {:induction false} IdsGrow(host: Host, limits: Limits, e: Exec, s: Script)
    ensures e.ids <= Perform(host, limits, e, s).ids
    decreases s
  {
    match s
    case Done =>
    case GateCall(call, rest) => IdsGrow(host, limits, e.(gate := Step(e.gate, host.clock, call)), rest);
    case Refused(r, rest) => IdsGrow(host, limits, Apply(host, limits, e, r).after, rest);
    case RefusedRollback(b, rest) => IdsGrow(host, limits, Rollback(host, e, b).after, rest);
    case Wrapped(r, inner, b, rest) =>
      var a := Apply(host, limits, e, r).after;
      IdsGrow(host, limits, a, inner);
      IdsGrow(host, limits, Rollback(host, Perform(host, limits, a, inner), b).after, rest);
  }

  lemma WrappedParts(host: Host, limits: Limits, n: nat, e: Exec, r: PatchRequest, inner: Script, b: RollbackRequest,
                     rest: Script)
    requires Nested(host, limits, e, Wrapped(r, inner, b, rest))
    requires Perform(host, limits, e, Wrapped(r, inner, b, rest)).ids <= n
    ensures var a := Apply(host, limits, e, r);
      var m := Perform(host, limits, a.after, inner);
      var z := Rollback(host, m, b);
      && a.result.Applied? && z.result == a.result
      && Nested(host, limits, a.after, inner) && Nested(host, limits, z.after, rest)
      && e.ids < a.after.ids <= m.ids < z.after.ids <= Perform(host, limits, z.after, rest).ids <= n
  {
    var a := Apply(host, limits, e, r).after;
    var m := Perform(host, limits, a, inner);
    DrawsOneId(host, limits, e, r, m, b);
    IdsGrow(host, limits, a, inner);
    IdsGrow(host, limits, Rollback(host, m, b).after, rest);
  }

  lemma DrawsOneId(host: Host, limits: Limits, e: Exec, r: PatchRequest, m: Exec, b: RollbackRequest)
    ensures Apply(host, limits, e, r).after.ids == e.ids + 1
    ensures Rollback(host, m, b).after.ids == m.ids + 1
  {
  }

  /** Stack discipline: a well-nested history of patches and rollbacks of their own backups
      translates the line ends of the files it patched, leaves every other file outside the backup
      directory as it was, and never alters a written backup. */
  lemma {:induction false} StackUndone(host: Host, limits: Limits, n: nat, e: Exec, s: Script)
    requires Nested(host, limits, e, s) && Perform(host, limits, e, s).ids <= n
    requires FreshIds(host, n) && RoomForBackups(host, e, n)
    ensures Undone(host, n, e, Perform(host, limits, e, s), Patched(host, s))
    decreases s
  {
    match s
    case Done =>
    case GateCall(call, rest) =>
      StackUndone(host, limits, n, e.(gate := Step(e.gate, host.clock, call)), rest);
    case Refused(r, rest) =>
      var a := Apply(host, limits, e, r);
      DeniedTouchesNothing(host, limits, e, r, RollbackRequest("", "", "", ""));
      IdsGrow(host, limits, a.after, rest);
      ApplyKeepsBackups(host, limits, n, e, r);
      StackUndone(host, limits, n, a.after, rest);
    case RefusedRollback(b, rest) =>
      var a := Rollback(host, e, b);
      RollbackKeepsBackups(host, n, e, b);
      assert a.after.files == e.files;
      StackUndone(host, limits, n, a.after, rest);
    case Wrapped(r, inner, b, rest) =>
      WrappedParts(host, limits, n, e, r, inner, b, rest);
      var a := Apply(host, limits, e, r).after;
      var m := Perform(host, limits, a, inner);
      var z := Rollback(host, m, b).after;
      ApplyKeepsBackups(host, limits, n, e, r);
      StackUndone(host, limits, n, a, inner);
      WrapUndone(host, limits, n, e, r, m, b, Patched(host, inner));
      StackUndone(host, limits, n, z, rest);
      UndoneTwice(host, n, e, z, Perform(host, limits, z, rest), TargetOf(host, r) + Patched(host, inner),
                  Patched(host, rest));
  }

  /** Such a history restores the whole tree if and only if no file it patched held a carriage
      return at the start; the replacement texts and all other files may hold what they like. */
  lemma StackRestoresExactlyWhen(host: Host, limits: Limits, n: nat, e: Exec, s: Script)
    requires Nested(host, limits, e, s) && Perform(host, limits, e, s).ids <= n
    requires FreshIds(host, n) && RoomForBackups(host, e, n)
    ensures forall p | p in Patched(host, s) :: p in e.files && e.files[p].Text?
    ensures SameTree(e.files, Perform(host, limits, e, s).files) <==>
            forall p | p in Patched(host, s) :: '\r' !in e.files[p].content
    ensures KeepsBackups(e.files, Perform(host, limits, e, s).files)
  {
    StackUndone(host, limits, n, e, s);
    SameTreeExactlyWhen(e.files, Perform(host, limits, e, s).files, Patched(host, s));
  }

  lemma SameTreeExactlyWhen(a: Files, b: Files, ps: set<Path>)
    requires OnlyNormalises(a, b, ps) && AreText(a, ps)
    ensures SameTree(a, b) <==> forall p | p in ps :: '\r' !in a[p].content
  {
    forall p | p in ps ensures b[p] == a[p] <==> '\r' !in a[p].content {
      NormalisedTwice(a[p]);
      assert !InBackupDir(p);
    }
  }
}
