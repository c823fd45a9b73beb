/** The human review queue (packages/agentic_micro_os/review_queue.py): imports, decisions, the
    approval guard, and the saved state. */
module ReviewQueue {
  import opened Rounding
  import opened Wrappers
  import opened TextSearch

  datatype Status = Pending | Approved | Rejected | Deferred | NeedsMoreEvidence

  datatype Risk = Low | Medium | High | Critical

  /** Scores are whole numbers of 1e-4, the grid `_bounded` leaves them on. */
  datatype Item = Item(
    itemId: string, itemType: string, title: string, summary: string, sourceRefs: seq<string>,
    contentHash: string, risk: Risk, novelty: nat, duplicate: nat, status: Status, notes: seq<string>)

  datatype ApprovedFor = DraftOnly | CandidateQueue | SkillRegistryDraft | PromotionRequest

  datatype Decision = Decision(itemId: string, status: Status, reviewer: string, reason: string,
                               approvedFor: ApprovedFor)

  /** A normalised payload; `dump` is its whole text. */
  datatype Payload = Payload(title: string, summary: string, sourceRefs: seq<string>, contentHash: string,
                             dump: string, confidence: real)

  /** Text work left abstract: what a character is in lower case, and the tokens of a title. */
  datatype Texts = Texts(lower: char -> string, tokens: string -> set<string>)

  const FORBIDDEN_TERMS := [
    "local_brain_direct_write", "local brain write", "production_store_mutated", "production cloud brain",
    "production write", "candidate promotion", "auto promote", "auto-promotion", "auto commit", "auto push",
    "raw_private_memory", "api_key", "token", "secret"]

  function Lower(texts: Texts, s: string): string {
    if s == [] then [] else texts.lower(s[0]) + Lower(texts, s[1..])
  }

  /** `" ".join(parts)` */
  function Joined(parts: seq<string>): string {
    if parts == [] then [] else if |parts| == 1 then parts[0] else parts[0] + (" " + Joined(parts[1..]))
  }

  predicate HoldsForbiddenTerm(texts: Texts, s: string) {
    exists term | term in FORBIDDEN_TERMS :: Contains(Lower(texts, s), term)
  }

  const ONE := 10000

  /** `_bounded` */
  function Bounded(x: real): (r: nat)
    ensures r <= ONE
  {
    var units := HalfEven(x * 10000.0);
    if units < 0 then 0 else if units > ONE then ONE else units
  }

  lemma BoundedComplement(d: nat)
    requires d <= ONE
    ensures Bounded(1.0 - d as real / 10000.0) == ONE - d
  {
    assert (1.0 - d as real / 10000.0) * 10000.0 == (ONE - d) as real;
    HalfEvenExact(ONE - d);
  }

  lemma BoundedMonotone(x: real, y: real)
    requires x <= y
    ensures Bounded(x) <= Bounded(y)
  {
    HalfEvenMonotone(x * 10000.0, y * 10000.0);
  }

  /** Overlap of two token sets. */
  function Overlap(a: set<string>, b: set<string>): real {
    if |a + b| == 0 then 0.0 else |a * b| as real / |a + b| as real
  }

  /** How much an item already queued looks like the one imported. */
  function Similarity(texts: Texts, existing: Item, title: string, contentHash: string): real {
    var overlap := if texts.tokens(existing.title) == {} then 0.0
      else Overlap(texts.tokens(title), texts.tokens(existing.title));
    if existing.contentHash == contentHash && overlap < 1.0 then 1.0 else overlap
  }

  /** The largest similarity to anything queued, or nothing for a title without tokens. */
  ghost predicate IsDuplicateScore(texts: Texts, items: map<string, Item>, title: string, contentHash: string,
                                   score: nat) {
    if texts.tokens(title) == {} then score == 0
    else
      && score <= ONE
      && (forall id | id in items :: Bounded(Similarity(texts, items[id], title, contentHash)) <= score)
      && (score == 0 || exists id :: id in items && Bounded(Similarity(texts, items[id], title, contentHash)) == score)
  }

  /** `best` is the largest similarity to the items of `ids`, or zero. */
  ghost predicate BestOf(texts: Texts, items: map<string, Item>, ids: seq<string>, title: string, contentHash: string,
                         best: real) {
    && (forall id | id in ids :: id in items && Similarity(texts, items[id], title, contentHash) <= best)
    && best >= 0.0
    && (best == 0.0 || exists id ::
          id in ids && id in items && Similarity(texts, items[id], title, contentHash) == best)
  }

  function Larger(a: real, b: real): real { if a < b then b else a }

  lemma BestGrows(texts: Texts, items: map<string, Item>, ids: seq<string>, id: string, title: string,
                  contentHash: string, best: real)
    requires BestOf(texts, items, ids, title, contentHash, best) && id in items
    ensures BestOf(texts, items, ids + [id], title, contentHash,
                   Larger(best, Similarity(texts, items[id], title, contentHash)))
  {
    assert id in ids + [id];
    assert forall x | x in ids + [id] :: x in ids || x == id;
    assert forall x | x in ids :: x in ids + [id];
  }

  lemma BestNext(texts: Texts, items: map<string, Item>, order: seq<string>, i: nat, title: string,
                 contentHash: string, best: real)
    requires i < |order| && order[i] in items && BestOf(texts, items, order[..i], title, contentHash, best)
    ensures BestOf(texts, items, order[..i + 1], title, contentHash,
                   Larger(best, Similarity(texts, items[order[i]], title, contentHash)))
  {
    assert order[..i + 1] == order[..i] + [order[i]];
    BestGrows(texts, items, order[..i], order[i], title, contentHash, best);
  }

  lemma BestIsScore(texts: Texts, items: map<string, Item>, ids: seq<string>, title: string, contentHash: string,
                    best: real)
    requires BestOf(texts, items, ids, title, contentHash, best) && texts.tokens(title) != {}
    requires forall id :: id in ids <==> id in items
    ensures IsDuplicateScore(texts, items, title, contentHash, Bounded(best))
  {
    forall id | id in items ensures Bounded(Similarity(texts, items[id], title, contentHash)) <= Bounded(best) {
      BoundedMonotone(Similarity(texts, items[id], title, contentHash), best);
    }
    if best == 0.0 { HalfEvenExact(0); }
  }

  function RiskOf(texts: Texts, itemType: string, p: Payload): Risk {
    var text := Joined([itemType, p.title, p.summary, Joined(p.sourceRefs), p.dump]);
    if HoldsForbiddenTerm(texts, text) then Critical
    else if p.sourceRefs == [] then High
    else if Contains(Lower(texts, text), "unknown") || p.confidence < 0.35 then Medium
    else Low
  }

  function RiskName(r: Risk): string {
    match r case Low => "low" case Medium => "medium" case High => "high" case Critical => "critical"
  }

  /** `_is_forbidden_mutation_item` */
  predicate IsForbidden(texts: Texts, item: Item) {
    || item.risk == Critical
    || HoldsForbiddenTerm(texts, Joined([item.title, item.summary, Joined(item.sourceRefs), RiskName(item.risk)]))
  }

  function ItemId(itemType: string, contentHash: string): string {
    itemType + "_" + if |contentHash| > 16 then contentHash[..16] else contentHash
  }

  /** A first import. */
  function NewItem(texts: Texts, itemType: string, p: Payload, duplicate: nat): Item {
    Item(ItemId(itemType, p.contentHash), itemType, p.title, p.summary, p.sourceRefs, p.contentHash,
         RiskOf(texts, itemType, p), Bounded(1.0 - duplicate as real / 10000.0), duplicate, Pending, [])
  }

  const BLOCKED_NOTE := "approval blocked: forbidden mutation or private payload signal"
  const SEEN_NOTE := "duplicate import observed"

  /** A repeated import scores as a full duplicate; text, risk and status stay as they were. */
  function SeenAgain(queued: Item): Item {
    var novelty := Bounded(1.0 - ONE as real / 10000.0);
    queued.(duplicate := if queued.duplicate < ONE then ONE else queued.duplicate,
          novelty := if novelty < queued.novelty then novelty else queued.novelty,
          notes := if SEEN_NOTE in queued.notes then queued.notes else queued.notes + [SEEN_NOTE])
  }

  lemma SeenAgainSound(texts: Texts, decisions: seq<Decision>, id: string, item: Item)
    requires ItemSound(texts, decisions, id, item)
    ensures ItemSound(texts, decisions, id, SeenAgain(item)) && SeenAgain(item).duplicate == ONE
  {
    BoundedComplement(ONE);
  }

  /** The status the decision log leaves an item in. */
  function Replayed(decisions: seq<Decision>, id: string): Status {
    if decisions == [] then Pending
    else if decisions[|decisions| - 1].itemId == id then decisions[|decisions| - 1].status
    else Replayed(decisions[..|decisions| - 1], id)
  }

  datatype Saved = Saved(items: seq<Item>, decisions: seq<Decision>)

  datatype Decided = Logged(decision: Decision) | ValueError | KeyError

  /** The counters of the status report; statuses never met are not keys of the dictionary. */
  datatype Report = Report(
    total: nat, pending: nat, approved: nat, rejected: nat, deferred: nat, needsMoreEvidence: nat,
    highRisk: nat, duplicateWarnings: nat, decisions: nat)

  function CountOf(byStatus: map<Status, nat>, s: Status): nat {
    if s in byStatus then byStatus[s] else 0
  }

  /** The ids among `ids` whose items pass the test. */
  ghost function Passing(items: map<string, Item>, ids: seq<string>, test: Item -> bool): set<string> {
    set id | id in ids && id in items && test(items[id])
  }

  function Has(s: Status): Item -> bool { (item: Item) => item.status == s }

  const IS_RISKY: Item -> bool := (item: Item) => item.risk == High || item.risk == Critical
  const IS_REPEAT: Item -> bool := (item: Item) => item.duplicate >= 5000

  lemma PassingOneMore(items: map<string, Item>, ids: seq<string>, id: string, test: Item -> bool)
    requires id in items && id !in ids
    ensures |Passing(items, ids + [id], test)| == |Passing(items, ids, test)| + if test(items[id]) then 1 else 0
  {
    var before, now := Passing(items, ids, test), Passing(items, ids + [id], test);
    assert id !in before;
    assert now == before + if test(items[id]) then {id} else {};
  }

  /** The variables of the report's loop. */
  datatype Totals = Totals(byStatus: map<Status, nat>, highRisk: nat, warnings: nat)

  function CountOne(t: Totals, item: Item): Totals {
    Totals(t.byStatus[item.status := CountOf(t.byStatus, item.status) + 1],
           t.highRisk + (if IS_RISKY(item) then 1 else 0), t.warnings + (if IS_REPEAT(item) then 1 else 0))
  }

  function SumOf(byStatus: map<Status, nat>): nat {
    CountOf(byStatus, Pending) + CountOf(byStatus, Approved) + CountOf(byStatus, Rejected)
    + CountOf(byStatus, Deferred) + CountOf(byStatus, NeedsMoreEvidence)
  }

  /** What the loop has counted once it has been through `ids`. */
  ghost predicate Counted(items: map<string, Item>, ids: seq<string>, t: Totals) {
    && (forall s :: CountOf(t.byStatus, s) == |Passing(items, ids, Has(s))|)
    && t.highRisk == |Passing(items, ids, IS_RISKY)| && t.warnings == |Passing(items, ids, IS_REPEAT)|
    && SumOf(t.byStatus) == |ids|
  }

  lemma CountOneAdds(t: Totals, item: Item)
    ensures SumOf(CountOne(t, item).byStatus) == SumOf(t.byStatus) + 1
    ensures forall r ::
              CountOf(CountOne(t, item).byStatus, r) == CountOf(t.byStatus, r) + if r == item.status then 1 else 0
  {
    assert forall r ::
        CountOf(CountOne(t, item).byStatus, r) == CountOf(t.byStatus, r) + if r == item.status then 1 else 0;
    match item.status
    case Pending =>
    case Approved =>
    case Rejected =>
    case Deferred =>
    case NeedsMoreEvidence =>
  }

  lemma CountedOneMore(items: map<string, Item>, ids: seq<string>, id: string, t: Totals)
    requires Counted(items, ids, t) && id in items && id !in ids
    ensures Counted(items, ids + [id], CountOne(t, items[id]))
  {
    var now := CountOne(t, items[id]);
    CountOneAdds(t, items[id]);
    forall s ensures CountOf(now.byStatus, s) == |Passing(items, ids + [id], Has(s))| {
      PassingOneMore(items, ids, id, Has(s));
    }
    PassingOneMore(items, ids, id, IS_RISKY);
    PassingOneMore(items, ids, id, IS_REPEAT);
  }

  lemma CountedFirst(items: map<string, Item>, order: seq<string>, i: nat, t: Totals)
    requires NoRepeats(order) && i < |order| && order[i] in items && Counted(items, order[..i], t)
    ensures Counted(items, order[..i + 1], CountOne(t, items[order[i]]))
  {
    assert order[..i + 1] == order[..i] + [order[i]];
    CountedOneMore(items, order[..i], order[i], t);
  }

  /** Status is the last decision, nothing forbidden is approved, and the two scores are complementary. */
  ghost predicate ItemSound(texts: Texts, decisions: seq<Decision>, id: string, item: Item) {
    && item.itemId == id
    && item.status == Replayed(decisions, id)
    && (IsForbidden(texts, item) ==> item.status != Approved)
    && item.novelty + item.duplicate == ONE
  }

  ghost predicate QueueSound(texts: Texts, order: seq<string>, items: map<string, Item>, decisions: seq<Decision>) {
    && NoRepeats(order)
    && (forall id :: id in order <==> id in items) && "" !in items
    && (forall d | d in decisions :: d.itemId in items)
    && forall id | id in items :: ItemSound(texts, decisions, id, items[id])
  }

  lemma {:induction false} NeverDecided(ds: seq<Decision>, id: string)
    requires forall d | d in ds :: d.itemId != id
    ensures Replayed(ds, id) == Pending
  {
    if ds != [] {
      assert ds[|ds| - 1] in ds;
      assert forall d | d in ds[..|ds| - 1] :: d in ds;
      NeverDecided(ds[..|ds| - 1], id);
    }
  }

  lemma ReplayAdds(ds: seq<Decision>, d: Decision, id: string)
    ensures Replayed(ds + [d], id) == if d.itemId == id then d.status else Replayed(ds, id)
  {
    assert (ds + [d])[..|ds|] == ds;
  }

  /** A decision logged and the status it names keep the queue sound. */
  lemma DecideSound(texts: Texts, order: seq<string>, items: map<string, Item>, decisions: seq<Decision>, d: Decision,
                    notes: seq<string>)
    requires QueueSound(texts, order, items, decisions) && d.itemId in items
    requires d.status == Approved ==> !IsForbidden(texts, items[d.itemId])
    ensures QueueSound(texts, order, items[d.itemId := items[d.itemId].(status := d.status, notes := notes)],
                       decisions + [d])
  {
    var after := items[d.itemId := items[d.itemId].(status := d.status, notes := notes)];
    forall id | id in after ensures ItemSound(texts, decisions + [d], id, after[id]) {
      ReplayAdds(decisions, d, id);
      assert ItemSound(texts, decisions, id, items[id]);
    }
  }

  /** Importing an item again, or a new one, keeps the queue sound. */
  lemma ImportSound(texts: Texts, order: seq<string>, items: map<string, Item>, decisions: seq<Decision>, item: Item)
    requires QueueSound(texts, order, items, decisions) && item.itemId != ""
    requires item.itemId in items ==> ItemSound(texts, decisions, item.itemId, item)
    requires item.itemId !in items ==> item.status == Pending && item.novelty + item.duplicate == ONE
    ensures QueueSound(texts, if item.itemId in items then order else order + [item.itemId],
                       items[item.itemId := item], decisions)
  {
    if item.itemId !in items {
      NeverDecided(decisions, item.itemId);
      assert forall id :: id in order + [item.itemId] <==> id in order || id == item.itemId;
    }
  }

  function ReportOf(total: nat, t: Totals, decisions: nat): Report {
    Report(total, CountOf(t.byStatus, Pending), CountOf(t.byStatus, Approved), CountOf(t.byStatus, Rejected),
           CountOf(t.byStatus, Deferred), CountOf(t.byStatus, NeedsMoreEvidence), t.highRisk, t.warnings, decisions)
  }

  /** How many queued items the decision log leaves in status `s`. */
  ghost function Standing(items: map<string, Item>, decisions: seq<Decision>, s: Status): nat {
    |set id | id in items && Replayed(decisions, id) == s|
  }

  /** The report tells what the decision log says of the items queued. */
  ghost predicate IsReport(items: map<string, Item>, decisions: seq<Decision>, r: Report) {
    && r.total == |items| && r.decisions == |decisions|
    && r.pending + r.approved + r.rejected + r.deferred + r.needsMoreEvidence == r.total
    && r.pending == Standing(items, decisions, Pending) && r.approved == Standing(items, decisions, Approved)
    && r.rejected == Standing(items, decisions, Rejected) && r.deferred == Standing(items, decisions, Deferred)
    && r.needsMoreEvidence == Standing(items, decisions, NeedsMoreEvidence)
    && r.highRisk == |set id | id in items && items[id].risk in {High, Critical}|
    && r.duplicateWarnings == |set id | id in items && 2 * items[id].duplicate >= ONE|
  }

  lemma PassingIsStanding(texts: Texts, order: seq<string>, items: map<string, Item>, decisions: seq<Decision>,
                          s: Status)
    requires QueueSound(texts, order, items, decisions)
    ensures |Passing(items, order, Has(s))| == Standing(items, decisions, s)
  {
    assert forall id | id in items :: ItemSound(texts, decisions, id, items[id]);
    assert Passing(items, order, Has(s)) == set id | id in items && Replayed(decisions, id) == s;
  }

  lemma {:induction false} DistinctCount(ids: seq<string>)
    requires NoRepeats(ids)
    ensures |set id | id in ids| == |ids|
  {
    if ids != [] {
      var before, last := ids[..|ids| - 1], ids[|ids| - 1];
      DistinctCount(before);
      assert (set id | id in ids) == (set id | id in before) + {last};
    }
  }

  lemma CountedIsReport(texts: Texts, order: seq<string>, items: map<string, Item>, decisions: seq<Decision>, t: Totals)
    requires QueueSound(texts, order, items, decisions) && Counted(items, order, t)
    ensures IsReport(items, decisions, ReportOf(|items|, t, |decisions|))
  {
    DistinctCount(order);
    assert (set id | id in order) == items.Keys;
    forall s ensures CountOf(t.byStatus, s) == Standing(items, decisions, s) {
      PassingIsStanding(texts, order, items, decisions, s);
    }
    PassingAll(order, items);
  }

  lemma PassingAll(order: seq<string>, items: map<string, Item>)
    requires forall id :: id in order <==> id in items
    ensures Passing(items, order, IS_RISKY) == set id | id in items && items[id].risk in {High, Critical}
    ensures Passing(items, order, IS_REPEAT) == set id | id in items && 2 * items[id].duplicate >= ONE
  {
  }

  /** The loop of the report over the items in the order they were imported. */
  method CountItems(order: seq<string>, items: map<string, Item>) returns (t: Totals)
    requires NoRepeats(order) && forall id | id in order :: id in items
    ensures Counted(items, order, t)
  {
    t := Totals(map[], 0, 0);
    CountedNothing(items);
    assert order[..0] == [];
    for i := 0 to |order|
      invariant Counted(items, order[..i], t)
    {
      CountedFirst(items, order, i, t);
      t := CountOne(t, items[order[i]]);
    }
    assert order[..|order|] == order;
  }

  lemma CountedNothing(items: map<string, Item>)
    ensures Counted(items, [], Totals(map[], 0, 0))
  {
    forall test ensures Passing(items, [], test) == {} { }
  }

  /** The scan of `_duplicate_score` over everything queued. */
  method ScanForDuplicates(texts: Texts, order: seq<string>, items: map<string, Item>, title: string,
                           contentHash: string)
    returns (score: nat)
    requires forall id :: id in order <==> id in items
    ensures IsDuplicateScore(texts, items, title, contentHash, score)
  {
    if texts.tokens(title) == {} { return 0; }
    var best := 0.0;
    for i := 0 to |order|
      invariant BestOf(texts, items, order[..i], title, contentHash, best)
    {
      BestNext(texts, items, order, i, title, contentHash, best);
      best := Larger(best, Similarity(texts, items[order[i]], title, contentHash));
    }
    assert order[..|order|] == order;
    BestIsScore(texts, items, order, title, contentHash, best);
    return Bounded(best);
  }

  /** The decision that is logged: an approval of a forbidden item turns into a call for evidence. */
  function Logs(texts: Texts, item: Item, decision: Status, reviewer: string, reason: string,
                approvedFor: ApprovedFor): Decision {
    if decision == Approved && IsForbidden(texts, item)
    then Decision(item.itemId, NeedsMoreEvidence, reviewer, reason, DraftOnly)
    else Decision(item.itemId, decision, reviewer, reason, approvedFor)
  }

  /** The item once a decision asked for has been logged in the form it was. */
  function Stamped(item: Item, asked: Status, logged: Decision): Item {
    var note := if logged.status != asked then [BLOCKED_NOTE] else if logged.reason == "" then [] else [logged.reason];
    item.(status := logged.status, notes := item.notes + note)
  }

  class Queue {
    const texts: Texts
    var order: seq<string>          // keys in the order they were first imported
    var items: map<string, Item>
    var decisions: seq<Decision>

    ghost predicate Valid()
      reads this
    {
      QueueSound(texts, order, items, decisions)
    }

    constructor (texts: Texts)
      ensures Valid() && this.texts == texts && order == [] && decisions == []
    {
      this.texts := texts;
      order, items, decisions := [], map[], [];
    }

    /** `_duplicate_score` */
    method DuplicateScore(itemId: string, title: string, contentHash: string) returns (score: nat)
      requires Valid()
      ensures if itemId in items then score == ONE else IsDuplicateScore(texts, items, title, contentHash, score)
    {
      if itemId in items { return ONE; }
      score := ScanForDuplicates(texts, order, items, title, contentHash);
    }

    method ImportPayload(itemType: string, p: Payload) returns (item: Item)
      requires Valid()
      modifies this
      ensures Valid() && decisions == old(decisions)
      ensures var id := ItemId(itemType, p.contentHash);
        && item.itemId == id && items == old(items)[id := item]
        && order == (if id in old(items) then old(order) else old(order) + [id])
        && (id in old(items) ==> item == SeenAgain(old(items)[id]))
        && (id !in old(items) ==>
              && item == NewItem(texts, itemType, p, item.duplicate)
              && IsDuplicateScore(texts, old(items), p.title, p.contentHash, item.duplicate))
    {
      var id := ItemId(itemType, p.contentHash);
      var duplicate := DuplicateScore(id, p.title, p.contentHash);
      BoundedComplement(duplicate);
      item := if id in items then SeenAgain(items[id]) else NewItem(texts, itemType, p, duplicate);
      if id in items { SeenAgainSound(texts, decisions, id, items[id]); }
      ImportSound(texts, order, items, decisions, item);
      if id !in items { order := order + [id]; }
      items := items[id := item];
    }

    method Decide(itemId: string, decision: Status, reviewer: string, reason: string, approvedFor: ApprovedFor)
      returns (r: Decided)
      requires Valid()
      modifies this
      ensures Valid() && order == old(order) && items.Keys == old(items.Keys)
      ensures r == if decision == Pending then ValueError
                   else if itemId !in old(items) then KeyError
                   else Logged(Logs(texts, old(items)[itemId], decision, reviewer, reason, approvedFor))
      ensures !r.Logged? ==> items == old(items) && decisions == old(decisions)
      ensures r.Logged? ==> decisions == old(decisions) + [r.decision]
      ensures r.Logged? ==> items == old(items)[itemId := Stamped(old(items)[itemId], decision, r.decision)]
    {
      if decision == Pending { return ValueError; }
      if itemId !in items { return KeyError; }
      var item := items[itemId];
      assert ItemSound(texts, decisions, itemId, item);
      var logged := Logs(texts, item, decision, reviewer, reason, approvedFor);
      DecideSound(texts, order, items, decisions, logged, Stamped(item, decision, logged).notes);
      items := items[itemId := Stamped(item, decision, logged)];
      decisions := decisions + [logged];
      return Logged(logged);
    }

    function InOrder(): seq<Item>
      reads this
      requires forall id | id in order :: id in items
    {
      seq(|order|, i requires 0 <= i < |order| reads this requires order[i] in items => items[order[i]])
    }

    /** Each count is that of the items with the status; the five together count every item once. */
    method Status() returns (r: Report)
      requires Valid()
      ensures IsReport(items, decisions, r)
    {
      var t := CountItems(order, items);
      CountedIsReport(texts, order, items, decisions, t);
      r := ReportOf(|items|, t, |decisions|);
    }

    /** What is saved loads back as the same items, in the same order, with the same decisions. */
    method Save() returns (saved: Saved)
      requires Valid()
      ensures ItemsOf(saved.items) == items && OrderOf(saved.items) == order && saved.decisions == decisions
    {
      saved := Saved(InOrder(), decisions);
      SaveThenLoad();
    }

    /** `load`: any saved state is accepted; records without an id are passed over. */
    constructor Load(texts: Texts, saved: Saved)
      ensures this.texts == texts && items == ItemsOf(saved.items) && order == OrderOf(saved.items)
      ensures decisions == saved.decisions
    {
      this.texts := texts;
      order, items, decisions := [], map[], saved.decisions;
      new;
      for i := 0 to |saved.items|
        invariant this.texts == texts && decisions == saved.decisions
        invariant items == ItemsOf(saved.items[..i]) && order == OrderOf(saved.items[..i])
      {
        assert saved.items[..i + 1][..i] == saved.items[..i];
        var item := saved.items[i];
        if item.itemId == "" { continue; }
        if item.itemId !in order { order := order + [item.itemId]; }
        items := items[item.itemId := item];
      }
      assert saved.items[..|saved.items|] == saved.items;
    }

    /** What a queue saves loads back as the same queue: same items, order and decisions. */
    lemma SaveThenLoad()
      requires Valid()
      ensures ItemsOf(InOrder()) == items && OrderOf(InOrder()) == order
    {
      assert Listed(InOrder(), order, items);
      ListedOrder(InOrder(), order, items);
      ListedItems(InOrder(), order, items);
      assert (map id | id in order :: items[id]) == items;
    }
  }

  function ItemsOf(saved: seq<Item>): map<string, Item> {
    if saved == [] then map[]
    else
      var before, item := ItemsOf(saved[..|saved| - 1]), saved[|saved| - 1];
      if item.itemId == "" then before else before[item.itemId := item]
  }

  function OrderOf(saved: seq<Item>): seq<string> {
    if saved == [] then []
    else
      var before, item := OrderOf(saved[..|saved| - 1]), saved[|saved| - 1];
      if item.itemId == "" || item.itemId in before then before else before + [item.itemId]
  }

  /** Records listed once each, under their own names. */
  ghost predicate Listed(saved: seq<Item>, order: seq<string>, items: map<string, Item>) {
    && |saved| == |order| && NoRepeats(order)
    && forall i | 0 <= i < |order| ::
         order[i] in items && saved[i] == items[order[i]] && saved[i].itemId == order[i] != ""
  }

  lemma {:induction false} ListedOrder(saved: seq<Item>, order: seq<string>, items: map<string, Item>)
    requires Listed(saved, order, items)
    ensures OrderOf(saved) == order
  {
    if saved != [] {
      var n := |saved| - 1;
      ListedOrder(saved[..n], order[..n], items);
      assert order == order[..n] + [order[n]];
    }
  }

  lemma {:induction false} ListedItems(saved: seq<Item>, order: seq<string>, items: map<string, Item>)
    requires Listed(saved, order, items)
    ensures ItemsOf(saved) == map id | id in order :: items[id]
  {
    if saved != [] {
      var n := |saved| - 1;
      ListedItems(saved[..n], order[..n], items);
      assert forall id :: id in order <==> id in order[..n] || id == order[n];
    }
  }
}
