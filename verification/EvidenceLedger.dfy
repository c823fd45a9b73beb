/** The host-voiced evidence ledger (packages/atanor_browser/browser_ingest.py): an index in
    memory against an append-only log of events. */
module EvidenceLedger {
  import opened Ordering

  datatype Triple = Triple(subject: string, relation: string, target: string)

  datatype Event = Event(triple: Triple, url: string, host: string, at: string)

  /** One slot of the index; the key hash is taken to be injective, so slots are keyed by triple. */
  datatype Slot = Slot(hosts: set<string>, urls: set<string>, firstSeen: string)

  type Index = map<Triple, Slot>

  /** `_apply` */
  function Apply(index: Index, ev: Event): Index {
    var slot := if ev.triple in index then index[ev.triple] else Slot({}, {}, ev.at);
    index[ev.triple := Slot(slot.hosts + (if ev.host == "" then {} else {ev.host}),
                            slot.urls + (if ev.url == "" then {} else {ev.url}), slot.firstSeen)]
  }

  function Fold(log: seq<Event>): Index {
    if log == [] then map[] else Apply(Fold(log[..|log| - 1]), log[|log| - 1])
  }

  /** The voices a triple has: the distinct hosts that asserted it. */
  function Hosts(log: seq<Event>, t: Triple): set<string> {
    set ev | ev in log && ev.triple == t && ev.host != "" :: ev.host
  }

  function Urls(log: seq<Event>, t: Triple): set<string> {
    set ev | ev in log && ev.triple == t && ev.url != "" :: ev.url
  }

  /** The index holds, for each triple, just what the log says about it, wherever it says it. */
  lemma {:induction false} FoldMeaning(log: seq<Event>)
    ensures forall t :: t in Fold(log) <==> exists ev :: ev in log && ev.triple == t
    ensures forall t | t in Fold(log) :: Fold(log)[t].hosts == Hosts(log, t) && Fold(log)[t].urls == Urls(log, t)
  {
    if log != [] {
      var before, ev := log[..|log| - 1], log[|log| - 1];
      assert log == before + [ev];
      assert forall x :: x in log <==> x in before || x == ev;
      FoldMeaning(before);
      forall t | t in Fold(log) ensures Fold(log)[t].hosts == Hosts(log, t) && Fold(log)[t].urls == Urls(log, t) {
        OneMoreVoice(before, ev, t);
      }
    }
  }

  lemma OneMoreVoice(log: seq<Event>, ev: Event, t: Triple)
    ensures Hosts(log + [ev], t) == Hosts(log, t) + (if ev.triple == t && ev.host != "" then {ev.host} else {})
    ensures Urls(log + [ev], t) == Urls(log, t) + (if ev.triple == t && ev.url != "" then {ev.url} else {})
    ensures (forall x | x in log :: x.triple != t) ==> Hosts(log, t) == {} && Urls(log, t) == {}
  {
    assert forall x :: x in log + [ev] <==> x in log || x == ev;
  }

  /** Does the curated judge let a triple through? */
  type Judge = Triple -> bool

  predicate Promotable(index: Index, minHosts: nat, judge: Judge, t: Triple) {
    t in index && |index[t].hosts| >= minHosts && judge(t)
  }

  /** Confidence in tenths: 0.5 and a tenth for each voice from the threshold on, at most 0.9. */
  function Confidence(voices: nat, minHosts: nat): int {
    var raised := 5 + (voices - minHosts + 1);
    if raised < 9 then raised else 9
  }

  /** Six tenths at the threshold, a tenth more for each further voice, never more than nine. */
  lemma ConfidenceMeans(voices: nat, minHosts: nat)
    requires voices >= minHosts
    ensures Confidence(voices, minHosts) == if voices - minHosts >= 3 then 9 else 6 + (voices - minHosts)
  {
  }

  /** A triple is promotable just when enough hosts have asserted it and the judge lets it through. */
  lemma ClearedMeans(log: seq<Event>, minHosts: nat, judge: Judge)
    requires minHosts >= 1
    ensures forall t :: Promotable(Fold(log), minHosts, judge, t) <==> |Hosts(log, t)| >= minHosts && judge(t)
  {
    FoldMeaning(log);
    forall t | |Hosts(log, t)| >= minHosts ensures t in Fold(log) {
      var h :| h in Hosts(log, t);
    }
  }

  class BrowserEvidenceLedger {
    const minHosts: nat
    var log: seq<Event>
    var agg: Index

    ghost predicate Valid()
      reads this
    {
      minHosts >= 1 && agg == Fold(log)
    }

    /** Open the ledger on a file: the index is rebuilt from its lines. */
    constructor (minHosts: int, lines: seq<Event>)
      ensures Valid() && log == lines && this.minHosts == if minHosts < 1 then 1 else minHosts
    {
      this.minHosts := if minHosts < 1 then 1 else minHosts;
      log := lines;
      agg := map[];
      new;
      for i := 0 to |lines|
        invariant agg == Fold(lines[..i]) && log == lines
        invariant this.minHosts == if minHosts < 1 then 1 else minHosts
      {
        assert lines[..i + 1][..i] == lines[..i];
        agg := Apply(agg, lines[i]);
      }
      assert lines[..|lines|] == lines;
    }

    method Record(t: Triple, url: string, host: string, at: string)
      requires Valid()
      modifies this
      ensures Valid() && log == old(log) + [Event(t, url, host, at)]
    {
      var ev := Event(t, url, host, at);
      agg := Apply(agg, ev);
      assert (log + [ev])[..|log|] == log;
      log := log + [ev];
    }

    /** `promotable` as the set of cleared triples with their voices and confidence. */
    method Cleared(judge: Judge) returns (cleared: map<Triple, (nat, int)>)
      requires Valid()
      ensures forall t :: t in cleared <==> Promotable(agg, minHosts, judge, t)
      ensures forall t | t in cleared ::
                cleared[t] == (|Hosts(log, t)|, Confidence(|Hosts(log, t)|, minHosts)) && 6 <= cleared[t].1 <= 9
    {
      FoldMeaning(log);
      cleared := map t | t in agg && |agg[t].hosts| >= minHosts && judge(t) ::
        (|agg[t].hosts|, Confidence(|agg[t].hosts|, minHosts));
    }
  }

  // --------------------------------------------------------------- theorems

  /** Two logs with the same events, in any order and however repeated, clear the same triples
      with the same voices. */
  lemma OrderAndRepetitionDoNotMatter(a: seq<Event>, b: seq<Event>, minHosts: nat, judge: Judge, t: Triple)
    requires forall ev :: ev in a <==> ev in b
    ensures Promotable(Fold(a), minHosts, judge, t) <==> Promotable(Fold(b), minHosts, judge, t)
    ensures t in Fold(a) <==> t in Fold(b)
    ensures t in Fold(a) ==> Fold(a)[t].hosts == Fold(b)[t].hosts && Fold(a)[t].urls == Fold(b)[t].urls
  {
    FoldMeaning(a);
    FoldMeaning(b);
    assert Hosts(a, t) == Hosts(b, t) && Urls(a, t) == Urls(b, t);
  }

  /** A slot keeps the time of the first event about its triple. */
  lemma {:induction false} FirstSeenIsFirst(log: seq<Event>, i: nat)
    requires i < |log| && forall j | 0 <= j < i :: log[j].triple != log[i].triple
    ensures log[i].triple in Fold(log) && Fold(log)[log[i].triple].firstSeen == log[i].at
  {
    var before := log[..|log| - 1];
    if i < |before| {
      assert before[i] == log[i];
      FirstSeenIsFirst(before, i);
    } else {
      FoldMeaning(before);
    }
  }

  /** One more event: a host already counted changes no voice anywhere, and with a fixed judge
      nothing that was promotable stops being so and no confidence falls. */
  lemma EvidenceOnlyGrows(log: seq<Event>, ev: Event, minHosts: nat, judge: Judge, t: Triple)
    ensures ev.host == "" || ev.host in Hosts(log, ev.triple) ==> Hosts(log + [ev], t) == Hosts(log, t)
    ensures Promotable(Fold(log), minHosts, judge, t) ==> Promotable(Fold(log + [ev]), minHosts, judge, t)
    ensures |Hosts(log, t)| <= |Hosts(log + [ev], t)|
    ensures Confidence(|Hosts(log, t)|, minHosts) <= Confidence(|Hosts(log + [ev], t)|, minHosts)
  {
    VoicesOnlyGrow(log, ev, t);
    ConfidenceGrows(|Hosts(log, t)|, |Hosts(log + [ev], t)|, minHosts);
    if Promotable(Fold(log), minHosts, judge, t) { StaysPromotable(log, ev, minHosts, judge, t); }
  }

  lemma VoicesOnlyGrow(log: seq<Event>, ev: Event, t: Triple)
    ensures ev.host == "" || ev.host in Hosts(log, ev.triple) ==> Hosts(log + [ev], t) == Hosts(log, t)
    ensures |Hosts(log, t)| <= |Hosts(log + [ev], t)|
  {
    OneMoreVoice(log, ev, t);
    SubsetSize(Hosts(log, t), Hosts(log + [ev], t));
  }

  lemma ConfidenceGrows(few: nat, many: nat, minHosts: nat)
    requires few <= many
    ensures Confidence(few, minHosts) <= Confidence(many, minHosts)
  {
  }

  lemma StaysPromotable(log: seq<Event>, ev: Event, minHosts: nat, judge: Judge, t: Triple)
    requires Promotable(Fold(log), minHosts, judge, t)
    ensures Promotable(Fold(log + [ev]), minHosts, judge, t)
  {
    StaysInIndex(log, ev, t);
    VoicesOnlyGrow(log, ev, t);
  }

  /** What is in the index stays there, with all its voices. */
  lemma StaysInIndex(log: seq<Event>, ev: Event, t: Triple)
    requires t in Fold(log)
    ensures t in Fold(log + [ev]) && Fold(log)[t].hosts == Hosts(log, t)
    ensures Fold(log + [ev])[t].hosts == Hosts(log + [ev], t)
  {
    FoldMeaning(log);
    FoldMeaning(log + [ev]);
    var x :| x in log && x.triple == t;
    assert x in log + [ev];
  }
}
