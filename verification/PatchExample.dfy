/** Histories of the scoped patch executor that the stack theorem speaks about: a document is
    patched inside a live session and rolled back from its backup. */
module PatchExample {
  import opened Wrappers
  import opened TextSearch
  import opened GateSpec
  import opened PatchSpec
  import opened PatchTheorems
  import opened PatchLaws

  const DOC: Path := ["docs", "a.md"]
  const LIVE := Session("host", 0, SECOND,
                        SubSwitches(true, true, true, true, true, true, true, true, true, true, true),
                        Counters(0, 0, 0, 0))
  const OPEN_GATE := Gate(FullHostAuthority, Some(LIVE), map[], [], false, 0, 0)
  const LIMITS := Limits(100, 100)

  function Before(content: string): Exec { Exec(OPEN_GATE, map[DOC := Text(content)], 0) }

  /** A document the patch applies to. */
  predicate Patchable(content: string) {
    '\0' !in content && Utf8Length(content) <= 100 && Contains(content, "old")
  }

  const PATCH := PatchRequest("docs/a.md", "old", "new", APPLY_CONFIRMATION, "host", true)
  const UNDO := RollbackRequest("docs/a.md", "backup", ROLLBACK_CONFIRMATION, "host")

  /** The clock stands still, "docs/a.md" is the document and every other path its backup. */
  function TheHost(): Host {
    Host((n: nat) => 0,
         (value: string) =>
           Inside(if value == "docs/a.md" then DOC else BACKUP_DIR + [BackupName(Hex(0, 16), "d", ".md")]),
         (s: string) => s, (i: nat) => Hex(i, 16), (p: Path) => "d", (a: string, b: string) => 0)
  }

  lemma DocSuffix()
    ensures Suffix(Name(DOC)) == ".md" && Posix(DOC) == "docs/a.md"
  {
    var name := "a.md";
    assert LastDot(name, 3) == LastDot(name, 2);
    assert LastDot(name, 4) == LastDot(name, 3) == Some(1);
    assert name[1..] == ".md";
    assert Posix(["a.md"]) == "a.md" && DOC[1..] == ["a.md"];
  }

  /** A text is not part of another in which it finds no place to start. */
  lemma StartsNowhere(text: string, x: string)
    requires x != "" && forall i | 0 <= i <= |text| - |x| :: text[i] != x[0]
    ensures !Contains(text, x)
  {
    forall i: nat | i + |x| <= |text| ensures !OccursAt(text, x, i) {
      assert text[i..i + |x|][0] == text[i];
    }
  }

  lemma OneDot(text: string, i: nat)
    requires i + 2 <= |text| ==> text[i] != '.' || text[i + 1] != '.'
    ensures !ParentAt(text, i)
  {
    if i + 2 <= |text| {
      assert text[i..i + 2] == [text[i], text[i + 1]];
    }
  }

  lemma DocIsTarget()
    ensures ValidateTarget(TheHost(), "docs/a.md") == Pass(DOC)
  {
    DocSuffix();
    var text := "docs/a.md";
    forall i | 0 <= i <= |text| ensures !ParentAt(text, i) { OneDot(text, i); }
    forall x | x in FORBIDDEN_PARTS ensures !Contains(text, x) { StartsNowhere(text, x); }
    assert text[1] != "data/"[1] && text[0] != "runtime/"[0];
    assert text[..5] == "docs/" && !StartsWith(text, "data/") && !StartsWith(text, "runtime/");
    assert text != "" && !Climbs(text) && TheHost().resolve(text) == Inside(DOC);
    assert TheHost().lower(Posix(DOC)) == text;
    assert Name(DOC) == "a.md" && "a.md" !in LOCKFILES;
    assert ".md" in TEXT_SUFFIXES;
    assert Allowlisted(DOC, TheHost().lower);
  }

  lemma PatchPlanned(content: string)
    requires Patchable(content)
    ensures Planned(TheHost(), LIMITS, Before(content).files, PATCH) == Pass(DOC)
  {
    DocIsTarget();
  }

  lemma PatchPermitted()
    ensures var permit := Permit(TheHost(), Note(OPEN_GATE), true, APPLY_CONFIRMATION, APPLY_CONFIRMATION, "host");
      && permit.refusal.None? && StillOpen(permit.gate)
  {
  }

  /** The session of the example goes on, whatever its counters show. */
  predicate StillOpen(g: Gate) {
    && g.session.Some? && g.session.value.(counters := LIVE.counters) == LIVE
    && g.tier == FullHostAuthority && !g.stopped
  }

  lemma PatchApplies(content: string)
    requires Patchable(content)
    ensures var a := Apply(TheHost(), LIMITS, Before(content), PATCH);
      && a.result == Applied(DOC, BackupPath(TheHost(), 0, DOC)) && a.after.ids == 1
      && DOC in a.after.files && a.after.files[DOC].Text? && StillOpen(a.after.gate)
  {
    PatchPlanned(content);
    PatchPermitted();
  }

  lemma UndoPermitted(g: Gate)
    requires StillOpen(g)
    ensures Permit(TheHost(), g, true, ROLLBACK_CONFIRMATION, ROLLBACK_CONFIRMATION, "host").refusal.None?
  {
  }

  lemma RollbackApplies(content: string)
    requires Patchable(content)
    ensures var a := Apply(TheHost(), LIMITS, Before(content), PATCH);
      && Rollback(TheHost(), a.after, UNDO).result == a.result
      && Rollback(TheHost(), a.after, UNDO).after.ids == 2
  {
    PatchApplies(content);
    DocSuffix();
    var a := Apply(TheHost(), LIMITS, Before(content), PATCH);
    UndoPermitted(a.after.gate);
    AppliedCanBeUndone(TheHost(), LIMITS, Before(content), PATCH, a.after, UNDO);
  }

  lemma NothingInTheWay(content: string)
    ensures RoomForBackups(TheHost(), Before(content), 2)
  {
    forall i: nat, p: Path | i < 2 ensures BackupPath(TheHost(), i, p) !in Before(content).files {
      assert |BackupPath(TheHost(), i, p)| == 4;
    }
  }

  lemma OnePatch(host: Host, limits: Limits, e: Exec, r: PatchRequest, b: RollbackRequest)
    requires Apply(host, limits, e, r).result.Applied?
    requires Rollback(host, Apply(host, limits, e, r).after, b).result == Apply(host, limits, e, r).result
    ensures Nested(host, limits, e, Wrapped(r, Done, b, Done))
    ensures Perform(host, limits, e, Wrapped(r, Done, b, Done)) ==
            Rollback(host, Apply(host, limits, e, r).after, b).after
  {
  }

  const HISTORY := Wrapped(PATCH, Done, UNDO, Done)

  /** The premises of the stack theorem are met, with a patch that is applied and rolled back. */
  lemma HistoryRuns(content: string)
    requires Patchable(content)
    ensures FreshIds(TheHost(), 2) && RoomForBackups(TheHost(), Before(content), 2)
    ensures Nested(TheHost(), LIMITS, Before(content), HISTORY)
    ensures Perform(TheHost(), LIMITS, Before(content), HISTORY).ids == 2
  {
    HexIdsAreFresh(TheHost(), 2);
    NothingInTheWay(content);
    PatchApplies(content);
    RollbackApplies(content);
    OnePatch(TheHost(), LIMITS, Before(content), PATCH, UNDO);
  }

  lemma HistoryPatchesDoc()
    ensures Patched(TheHost(), HISTORY) == {DOC}
  {
    DocIsTarget();
    assert Patched(TheHost(), Done) == {};
  }

  /** That history restores the document exactly when it holds no carriage return. */
  lemma HistoryRestoresExactlyWhen(content: string)
    requires Patchable(content)
    ensures SameTree(Before(content).files, Perform(TheHost(), LIMITS, Before(content), HISTORY).files)
            <==> '\r' !in content
  {
    HistoryRuns(content);
    HistoryPatchesDoc();
    StackRestoresExactlyWhen(TheHost(), LIMITS, 2, Before(content), HISTORY);
    assert Before(content).files[DOC].content == content;
  }

  lemma OldIsPatchable(content: string)
    requires content == "old" || content == "old\r"
    ensures Patchable(content)
  {
    assert content[0..0 + 3] == "old";
    assert OccursAt(content, "old", 0);
    assert Utf8Length(content[3..]) <= 4;
    assert Utf8Length(content[2..]) <= 8 && content[2..][1..] == content[3..];
    assert Utf8Length(content[1..]) <= 12 && content[1..][1..] == content[2..];
  }

  /** One document is restored, the same with a carriage return is not. */
  lemma RestoredAndNot()
    ensures SameTree(Before("old").files, Perform(TheHost(), LIMITS, Before("old"), HISTORY).files)
    ensures !SameTree(Before("old\r").files, Perform(TheHost(), LIMITS, Before("old\r"), HISTORY).files)
  {
    OldIsPatchable("old");
    OldIsPatchable("old\r");
    HistoryRestoresExactlyWhen("old");
    HistoryRestoresExactlyWhen("old\r");
    assert "old\r"[3] == '\r';
  }

  /** A patch whose old text holds a carriage return is applied and replaces nothing: the document
      keeps its words and only gets another line end. */
  lemma CarriageReturnReplacesNothing()
    ensures var a := Apply(TheHost(), LIMITS, Before("old\r"), WhollyOld("old\r"));
      a.result.Applied? && DOC in a.after.files && a.after.files[DOC] == Text("old\n")
  {
    OldIsPatchable("old\r");
    WhollyOldApplies("old\r");
    var pre, post := AppliedText(TheHost(), LIMITS, Before("old\r"), WhollyOld("old\r"));
    assert "old\r"[3] == '\r';
    OldRead();
  }

  /** The patch, asked for the whole document. */
  function WhollyOld(content: string): PatchRequest { PATCH.(expectedOldText := content) }

  lemma WhollyOldApplies(content: string)
    requires Patchable(content)
    ensures var a := Apply(TheHost(), LIMITS, Before(content), WhollyOld(content)).result;
      a.Applied? && a.target == DOC
  {
    WhollyOldIsGood(content);
    AppliedExactly(TheHost(), LIMITS, Before(content), WhollyOld(content));
    PlansExactly(TheHost(), LIMITS, Before(content).files, WhollyOld(content), DOC);
  }

  lemma WhollyOldIsGood(content: string)
    requires Patchable(content)
    ensures GoodTarget(TheHost(), "docs/a.md", DOC)
    ensures GoodPatch(TheHost(), LIMITS, Before(content).files, DOC, WhollyOld(content))
  {
    DocIsTarget();
    TargetsExactly(TheHost(), "docs/a.md", DOC);
    assert OccursAt(content, content, 0);
    OccursMeansContains(content, content, 0);
    assert Find(content, "old", 0).Some? && content != "";
  }

  lemma OldRead()
    ensures ReadText("old\r") == "old\n"
  {
    ReadLineEnd("old", []);
    assert "old" + ("\r" + []) == "old\r" && "old" + ("\n" + ReadText([])) == "old\n";
  }
}
