/** What the review queue's guards keep out, in terms of the texts and scores of an item
    (packages/agentic_micro_os/review_queue.py). */
module ReviewLaws {
  import opened Wrappers
  import opened TextSearch
  import opened Rounding
  import opened ReviewQueue

  // ------------------------------------------------------------------- texts

  /** One of the fourteen terms stands in the text, whatever its case. */
  predicate Mentions(texts: Texts, s: string) {
    var low := Lower(texts, s);
    || Contains(low, "local_brain_direct_write") || Contains(low, "local brain write")
    || Contains(low, "production_store_mutated") || Contains(low, "production cloud brain")
    || Contains(low, "production write") || Contains(low, "candidate promotion") || Contains(low, "auto promote")
    || Contains(low, "auto-promotion") || Contains(low, "auto commit") || Contains(low, "auto push")
    || Contains(low, "raw_private_memory") || Contains(low, "api_key") || Contains(low, "token")
    || Contains(low, "secret")
  }

  lemma MentionsIsForbidden(texts: Texts, s: string)
    ensures HoldsForbiddenTerm(texts, s) <==> Mentions(texts, s)
  {
    AnyOfFourteen(FORBIDDEN_TERMS, Lower(texts, s));
  }

  lemma AnyOfFourteen(t: seq<string>, low: string)
    requires |t| == 14
    ensures (exists x | x in t :: Contains(low, x)) <==>
            || Contains(low, t[0]) || Contains(low, t[1]) || Contains(low, t[2]) || Contains(low, t[3])
            || Contains(low, t[4]) || Contains(low, t[5]) || Contains(low, t[6]) || Contains(low, t[7])
            || Contains(low, t[8]) || Contains(low, t[9]) || Contains(low, t[10]) || Contains(low, t[11])
            || Contains(low, t[12]) || Contains(low, t[13])
  {
    forall x | x in t ensures exists i :: 0 <= i < 14 && t[i] == x {
    }
  }

  lemma {:induction false} LowerAppend(texts: Texts, a: string, b: string)
    ensures Lower(texts, a + b) == Lower(texts, a) + Lower(texts, b)
  {
    if a == [] {
      assert a + b == b;
    } else {
      assert (a + b)[1..] == a[1..] + b;
      LowerAppend(texts, a[1..], b);
    }
  }

  /** What a part of a text mentions, the text mentions. */
  lemma PartMentions(texts: Texts, a: string, b: string, c: string)
    requires HoldsForbiddenTerm(texts, b)
    ensures HoldsForbiddenTerm(texts, a + b + c)
  {
    LowerAppend(texts, a + b, c);
    LowerAppend(texts, a, b);
    var term :| term in FORBIDDEN_TERMS && Contains(Lower(texts, b), term);
    ContainsInside(Lower(texts, a), Lower(texts, b), Lower(texts, c), term);
  }

  lemma {:induction false} JoinedHoldsPart(parts: seq<string>, i: nat) returns (a: string, c: string)
    requires i < |parts|
    ensures Joined(parts) == a + parts[i] + c
  {
    if |parts| == 1 {
      a, c := [], [];
    } else if i == 0 {
      a, c := [], " " + Joined(parts[1..]);
    } else {
      a, c := JoinedHoldsPart(parts[1..], i - 1);
      a := parts[0] + (" " + a);
    }
  }

  lemma JoinedMentions(texts: Texts, parts: seq<string>, i: nat)
    requires i < |parts| && HoldsForbiddenTerm(texts, parts[i])
    ensures HoldsForbiddenTerm(texts, Joined(parts))
  {
    var a, c := JoinedHoldsPart(parts, i);
    PartMentions(texts, a, parts[i], c);
  }

  // ----------------------------------------------------------------- approval

  /** In every sound queue an approved item is not critical, and neither its title nor its summary
      nor any of its sources mentions a forbidden term. */
  lemma ApprovedIsHarmless(texts: Texts, order: seq<string>, items: map<string, Item>, decisions: seq<Decision>,
                           id: string)
    requires QueueSound(texts, order, items, decisions) && id in items && items[id].status == Approved
    ensures items[id].risk != Critical
    ensures !Mentions(texts, items[id].title) && !Mentions(texts, items[id].summary)
    ensures forall source | source in items[id].sourceRefs :: !Mentions(texts, source)
  {
    assert ItemSound(texts, decisions, id, items[id]);
    var item := items[id];
    var parts := [item.title, item.summary, Joined(item.sourceRefs), RiskName(item.risk)];
    MentionsIsForbidden(texts, item.title);
    MentionsIsForbidden(texts, item.summary);
    if HoldsForbiddenTerm(texts, parts[0]) { JoinedMentions(texts, parts, 0); }
    if HoldsForbiddenTerm(texts, parts[1]) { JoinedMentions(texts, parts, 1); }
    forall source | source in item.sourceRefs ensures !Mentions(texts, source) {
      SourceStaysOut(texts, item, source);
    }
  }

  lemma SourceStaysOut(texts: Texts, item: Item, source: string)
    requires source in item.sourceRefs && !IsForbidden(texts, item)
    ensures !Mentions(texts, source)
  {
    var i :| 0 <= i < |item.sourceRefs| && item.sourceRefs[i] == source;
    MentionsIsForbidden(texts, source);
    if HoldsForbiddenTerm(texts, source) {
      JoinedMentions(texts, item.sourceRefs, i);
      JoinedMentions(texts, [item.title, item.summary, Joined(item.sourceRefs), RiskName(item.risk)], 2);
    }
  }

  /** The status that is logged is the one asked for, but an approval of an item that is critical or
      mentions a forbidden term anywhere is logged as a call for evidence, for a draft only. */
  lemma DecidedExactly(texts: Texts, item: Item, asked: Status, reviewer: string, reason: string,
                       approvedFor: ApprovedFor)
    ensures var d := Logs(texts, item, asked, reviewer, reason, approvedFor);
      var barred := item.risk == Critical
                    || Mentions(texts, Joined([item.title, item.summary, Joined(item.sourceRefs),
                                               RiskName(item.risk)]));
      && d.itemId == item.itemId && d.reviewer == reviewer && d.reason == reason
      && (asked == Approved && barred ==> d.status == NeedsMoreEvidence && d.approvedFor == DraftOnly)
      && (asked != Approved || !barred ==> d.status == asked && d.approvedFor == approvedFor)
  {
    MentionsIsForbidden(texts, Joined([item.title, item.summary, Joined(item.sourceRefs), RiskName(item.risk)]));
  }

  // ---------------------------------------------------------------------- risk

  /** All that the risk of a payload is judged by. */
  function TextOf(itemType: string, p: Payload): string {
    Joined([itemType, p.title, p.summary, Joined(p.sourceRefs), p.dump])
  }

  /** A first import is critical exactly when its text mentions a forbidden term, else high without
      sources, else medium if something is unknown or confidence is below 0.35, else low. */
  lemma RiskExactly(texts: Texts, itemType: string, p: Payload, duplicate: nat)
    ensures var risk, text := NewItem(texts, itemType, p, duplicate).risk, TextOf(itemType, p);
      && (risk == Critical <==> Mentions(texts, text))
      && (risk == High <==> !Mentions(texts, text) && p.sourceRefs == [])
      && (risk == Medium <==> !Mentions(texts, text) && p.sourceRefs != []
                              && (Contains(Lower(texts, text), "unknown") || p.confidence < 0.35))
      && (risk == Low <==> !Mentions(texts, text) && p.sourceRefs != []
                           && !Contains(Lower(texts, text), "unknown") && p.confidence >= 0.35)
  {
    MentionsIsForbidden(texts, TextOf(itemType, p));
  }

  /** A forbidden term anywhere in a payload makes the item critical. */
  lemma MentionIsCritical(texts: Texts, itemType: string, p: Payload, duplicate: nat)
    requires
      || Mentions(texts, p.title) || Mentions(texts, p.summary) || Mentions(texts, p.dump)
      || exists source | source in p.sourceRefs :: Mentions(texts, source)
    ensures NewItem(texts, itemType, p, duplicate).risk == Critical
  {
    var parts := [itemType, p.title, p.summary, Joined(p.sourceRefs), p.dump];
    MentionsIsForbidden(texts, p.title);
    MentionsIsForbidden(texts, p.summary);
    MentionsIsForbidden(texts, p.dump);
    if Mentions(texts, p.title) { JoinedMentions(texts, parts, 1); }
    else if Mentions(texts, p.summary) { JoinedMentions(texts, parts, 2); }
    else if Mentions(texts, p.dump) { JoinedMentions(texts, parts, 4); }
    else {
      var i :| 0 <= i < |p.sourceRefs| && Mentions(texts, p.sourceRefs[i]);
      MentionsIsForbidden(texts, p.sourceRefs[i]);
      JoinedMentions(texts, p.sourceRefs, i);
      JoinedMentions(texts, parts, 3);
    }
  }

  /** Neither a repeated import nor a decision changes what an item is: its id, texts, sources and
      risk stay; so a critical item stays critical, and is never approved. */
  lemma RiskStays(item: Item, asked: Status, logged: Decision)
    ensures var again, stamped := SeenAgain(item), Stamped(item, asked, logged);
      && again.risk == stamped.risk == item.risk && again.itemId == stamped.itemId == item.itemId
      && again.title == stamped.title == item.title && again.summary == stamped.summary == item.summary
      && again.sourceRefs == stamped.sourceRefs == item.sourceRefs && again.status == item.status
      && stamped.status == logged.status && stamped.duplicate == item.duplicate && stamped.novelty == item.novelty
  {
  }

  // -------------------------------------------------------------------- scores

  /** The same content, or a title of the same words, is a full duplicate; other content without a
      common word is none; and every similarity lies between the two. */
  lemma SimilarityMeans(texts: Texts, existing: Item, title: string, contentHash: string)
    requires texts.tokens(title) != {}
    ensures var x, mine, theirs := Similarity(texts, existing, title, contentHash), texts.tokens(title),
                texts.tokens(existing.title);
      && 0.0 <= x <= 1.0
      && (x == 1.0 <==> existing.contentHash == contentHash || mine == theirs)
      && (x == 0.0 <==> existing.contentHash != contentHash && mine * theirs == {})
  {
    var mine, theirs := texts.tokens(title), texts.tokens(existing.title);
    if theirs != {} { OverlapMeans(mine, theirs); }
  }

  lemma OverlapMeans(a: set<string>, b: set<string>)
    requires a != {}
    ensures 0.0 <= Overlap(a, b) <= 1.0
    ensures Overlap(a, b) == 1.0 <==> a == b
    ensures Overlap(a, b) == 0.0 <==> a * b == {}
  {
    var both, all := |a * b|, |a + b|;
    assert a + b != {};
    assert |a + b| == |a| + |b - a| && |a| == |a * b| + |a - b|;
    Ratio(both, all);
    if both == all {
      assert |a - b| == 0 && |b - a| == 0;
      assert a - b == {} && b - a == {};
      assert a == b;
    }
    if a == b { assert a * b == a && a + b == a; }
  }

  lemma Ratio(x: nat, y: nat)
    requires x <= y && y > 0
    ensures 0.0 <= x as real / y as real <= 1.0
    ensures x as real / y as real == 1.0 <==> x == y
    ensures x as real / y as real == 0.0 <==> x == 0
  {
  }

  /** A score is what was measured to within half of the fourth digit, cut off at zero and one. */
  lemma BoundedMeans(x: real)
    ensures x <= 0.0 ==> Bounded(x) == 0
    ensures x >= 1.0 ==> Bounded(x) == ONE
    ensures 0.0 <= x <= 1.0 ==> x - 0.00005 <= Bounded(x) as real / 10000.0 <= x + 0.00005
  {
    HalfEvenExact(0);
    HalfEvenExact(ONE);
    HalfEvenNear(x * 10000.0);
    if x <= 0.0 { HalfEvenMonotone(x * 10000.0, 0.0); } else { HalfEvenMonotone(0.0, x * 10000.0); }
    if x >= 1.0 { HalfEvenMonotone(10000.0, x * 10000.0); } else { HalfEvenMonotone(x * 10000.0, 10000.0); }
  }

  /** Payloads of one type are one item exactly when the first sixteen characters of their content
      hashes agree. */
  lemma SameItemExactly(itemType: string, h: string, k: string)
    ensures ItemId(itemType, h) == ItemId(itemType, k) <==> h == k || (|h| >= 16 && |k| >= 16 && h[..16] == k[..16])
  {
    var x, y := if |h| > 16 then h[..16] else h, if |k| > 16 then k[..16] else k;
    var prefix := itemType + "_";
    assert ItemId(itemType, h) == prefix + x && ItemId(itemType, k) == prefix + y;
    assert (prefix + x)[|prefix|..] == x && (prefix + y)[|prefix|..] == y;
    if |h| == 16 { assert h[..16] == h; }
    if |k| == 16 { assert k[..16] == k; }
  }

  // ------------------------------------------------------------------- loading

  /** After loading, an item is what the last record of its id says; records without an id count for
      nothing. */
  lemma {:induction false} LastRecordCounts(saved: seq<Item>, i: nat)
    requires i < |saved| && saved[i].itemId != ""
    requires forall j | i < j < |saved| :: saved[j].itemId != saved[i].itemId
    ensures saved[i].itemId in ItemsOf(saved) && ItemsOf(saved)[saved[i].itemId] == saved[i]
  {
    if i < |saved| - 1 {
      LastRecordCounts(saved[..|saved| - 1], i);
    }
  }

  /** The items loaded are those with a record, in the order of their first records. */
  lemma {:induction false} LoadedInOrder(saved: seq<Item>, k: nat)
    requires k <= |saved|
    ensures NoRepeats(OrderOf(saved)) && OrderOf(saved[..k]) <= OrderOf(saved)
    ensures forall id :: id in OrderOf(saved) <==> id in ItemsOf(saved)
    ensures forall id :: id in ItemsOf(saved) <==> id != "" && exists i | 0 <= i < |saved| :: saved[i].itemId == id
  {
    if saved != [] {
      var before, last := saved[..|saved| - 1], saved[|saved| - 1];
      LoadedInOrder(before, if k < |saved| then k else |before|);
      if k < |saved| { assert saved[..k] == before[..k]; } else { assert saved[..k] == saved; }
      forall id
        ensures id in ItemsOf(saved) <==> id != "" && exists i | 0 <= i < |saved| :: saved[i].itemId == id
      {
        forall i | 0 <= i < |before| ensures before[i] == saved[i] { }
        if id != "" && id in ItemsOf(before) {
          var i :| 0 <= i < |before| && before[i].itemId == id;
          assert saved[i].itemId == id;
        }
      }
    }
  }
}
