/** Why and when the explorer stops, what it appends and what it logs, in terms of the run's own
    numbers (packages/agentic_micro_os/web_explorer_loop.py). */
module CrawlLaws {
  import opened Wrappers
  import opened CrawlSpec
  import opened CrawlBooks
  import opened CrawlRun
  import opened CrawlTheorems

  // ------------------------------------------------------------------ stopping

  /** The run has used up its errors: its last fetch failed and too many have by now. */
  predicate OutOfErrors(config: Config, web: Web, log: seq<Visit>, errors: int) {
    log != [] && FetchFailed(web, log[|log| - 1]) && errors >= config.maxErrors
  }

  /** The stop reason says what is the case. */
  predicate StoppedFor(config: Config, web: Web, queue: seq<Entry>, log: seq<Visit>, errors: int, stop: StopReason) {
    match stop
    case RepeatedErrors => OutOfErrors(config, web, log, errors)
    case Completed => queue == [] && !OutOfErrors(config, web, log, errors)
    case MaxPages => Reads(log) >= config.maxPages && queue != [] && !OutOfErrors(config, web, log, errors)
    case MaxRuntime =>
      && web.elapsed(|log|) > config.maxRuntimeSec && Reads(log) < config.maxPages && queue != []
      && !OutOfErrors(config, web, log, errors)
    case CapabilityDenied => false
  }

  lemma StopsForItsReason(config: Config, web: Web, b: Books, stop: StopReason)
    ensures StopOf(config, web, b) == Some(stop) <==>
            StoppedFor(config, web, b.crawl.queue, b.log, b.errors, stop)
  {
  }

  /** Before the `k`-th pop there was something to pop, a page to read and time left, and the errors
      were not used up. */
  ghost predicate PopWasDue(config: Config, web: Web, s: Books, log: seq<Visit>, k: nat)
    requires k < |log|
  {
    var past := log[..k];
    && Reads(past) < config.maxPages && web.elapsed(k) <= config.maxRuntimeSec
    && !OutOfErrors(config, web, past, s.errors + Failures(web, past))
  }

  /** What a run has done up to its end: each pop was due, and popped the queue of its time. */
  ghost predicate PopsWereDue(config: Config, web: Web, s: Books, b: Books) {
    && b.errors == s.errors + Failures(web, b.log)
    && forall k: nat | k < |b.log| :: PopWasDue(config, web, s, b.log, k)
  }

  lemma PopKeepsDue(config: Config, web: Web, s: Books, b: Books)
    requires PopsWereDue(config, web, s, b) && StopOf(config, web, b).None?
    ensures PopsWereDue(config, web, s, PopOne(config, web, b))
  {
    var n := PopOne(config, web, b);
    assert n.log[..|b.log|] == b.log;
    forall k: nat | k < |n.log| ensures PopWasDue(config, web, s, n.log, k) {
      if k < |b.log| {
        assert n.log[..k] == b.log[..k];
        assert PopWasDue(config, web, s, b.log, k);
      }
    }
  }

  lemma EveryPopWasDue(config: Config, web: Web, s: Books)
    requires IsOpening(config, s)
    ensures PopsWereDue(config, web, s, Explored(config, web, s))
  {
    var keep := (x: Books) => PopsWereDue(config, web, s, x);
    forall x ensures KeptByPop(config, web, keep, x) {
      if keep(x) && StopOf(config, web, x).None? { PopKeepsDue(config, web, s, x); }
    }
    var n := ExploredEnds(config, web, s);
    KeptByPops(config, web, keep, s, n);
  }

  /** A run stops no later and no sooner than its budgets say: before every pop none of them was used
      up, and at the end the reason given holds. */
  lemma RunStopsOnTime(config: Config, web: Web, s: Books, stop: StopReason)
    requires IsOpening(config, s) && StopOf(config, web, Explored(config, web, s)) == Some(stop)
    ensures EndsWell(config, web)(s, Explored(config, web, s), stop)
  {
    ExploredRanWell(config, web, s);
    EveryPopWasDue(config, web, s);
    StopsForItsReason(config, web, Explored(config, web, s), stop);
  }

  /** Does a run from `s` that stopped at `b` for that reason end as it should? */
  ghost function EndsWell(config: Config, web: Web): (Books, Books, StopReason) -> bool {
    (s, b, stop) => EndedWell(config, web, s, b, stop)
  }

  /** Books of a sound run, in which every pop was due, and that ended for this reason. */
  ghost predicate EndedWell(config: Config, web: Web, s: Books, b: Books, stop: StopReason) {
    && RanWell(config, web, s, b) && PopsWereDue(config, web, s, b)
    && StoppedFor(config, web, b.crawl.queue, b.log, b.errors, stop)
  }

  // ------------------------------------------------------------------ appending

  /** The links of a page that may be appended, in the order of the page. */
  function Candidates(web: Web, seen: set<Url>, hrefs: seq<Url>, depth: nat): seq<Entry> {
    if hrefs == [] then []
    else
      Candidates(web, seen, hrefs[..|hrefs| - 1], depth)
      + var link := Defrag(hrefs[|hrefs| - 1]);
        if link !in seen && (web.policyAllows(link) || web.deniedPattern(link)) then [Entry(link, depth + 1)] else []
  }

  lemma {:induction false} CandidatesFromFront(web: Web, seen: set<Url>, hrefs: seq<Url>, depth: nat)
    requires hrefs != []
    ensures Candidates(web, seen, hrefs, depth)
            == Candidates(web, seen, hrefs[..1], depth) + Candidates(web, seen, hrefs[1..], depth)
  {
    var n := |hrefs| - 1;
    if n > 0 {
      CandidatesFromFront(web, seen, hrefs[..n], depth);
      assert hrefs[..n][..1] == hrefs[..1] && hrefs[..n][1..] == hrefs[1..][..n - 1];
    } else {
      assert hrefs[..1] == hrefs && hrefs[1..] == [];
    }
  }

  /** A page appends its candidates in order, the first ones as far as there is room. */
  lemma {:induction false} AppendsFirstCandidates(web: Web, seen: set<Url>, hrefs: seq<Url>, depth: nat, room: int)
    ensures var all := Candidates(web, seen, hrefs, depth);
      Appended(web, seen, hrefs, depth, room) == if room <= 0 then [] else if room < |all| then all[..room] else all
    decreases |hrefs|
  {
    if hrefs != [] && room > 0 {
      CandidatesFromFront(web, seen, hrefs, depth);
      assert hrefs[..1][..0] == [] && hrefs[..1][0] == hrefs[0];
      var first := Candidates(web, seen, hrefs[..1], depth);
      assert |first| <= 1;
      AppendsFirstCandidates(web, seen, hrefs[1..], depth, room - |first|);
    }
  }

  // ------------------------------------------------------------------ logging

  /** What a line of the safety log says of a visit. */
  predicate Tells(config: Config, web: Web, v: Visit, readsInDomain: nat, keys: set<string>, line: Block) {
    match line
    case DepthRejected(u) => u == v.url && v.depth > config.maxDepth
    case PolicyRejected(u) => u == v.url && v.depth <= config.maxDepth && !web.policyAllows(u)
    case DomainBudget(d) =>
      && d == web.domain(v.url) && v.depth <= config.maxDepth && web.policyAllows(v.url)
      && readsInDomain >= config.maxPagesPerDomain
    case RobotsDisallow(u) =>
      && u == v.url && v.depth <= config.maxDepth && web.policyAllows(u)
      && readsInDomain < config.maxPagesPerDomain && !web.robotsAllow(u)
    case FetchError(u) => u == v.url && MayFetch(config, web, u, v.depth, readsInDomain) && web.fetch(u).FetchFails?
    case NonHtml(u) =>
      && u == v.url && MayFetch(config, web, u, v.depth, readsInDomain)
      && web.fetch(u).Fetched? && !web.fetch(u).isHtml
    case DuplicateContent(u) =>
      && u == v.url && MayFetch(config, web, u, v.depth, readsInDomain)
      && web.fetch(u).Fetched? && web.fetch(u).isHtml && web.fetch(u).contentKey in keys
    case NoDraft(u) => u == v.url && v.outcome == Read(false)
    case ReadDenied => false
    case ProductionWriteBlocked => false
  }

  /** A repeat and a drafted read log nothing, every other visit one line that says why. */
  lemma BlocksTell(config: Config, web: Web, v: Visit, readsInDomain: nat, keys: set<string>, drafts: nat)
    requires Judged(config, web, v, readsInDomain, keys, drafts)
    ensures var lines := BlocksOf(config, web, v, readsInDomain, keys);
      && |lines| == (if v.outcome.AlreadySeen? || v.outcome == Read(true) then 0 else 1)
      && forall line | line in lines :: Tells(config, web, v, readsInDomain, keys, line)
  {
  }

  // ------------------------------------------------------------- seeds and store

  /** A run starts from the seeds it was given, each at depth zero and in their order, or from six
      pages of its own if it was given none. */
  lemma StartsFromSeeds(config: Config)
    ensures var queue := StartQueue(Seeds(config));
      && (config.seedUrls != [] ==> |queue| == |config.seedUrls|)
      && (config.seedUrls == [] ==> |queue| == 6)
      && forall i | 0 <= i < |queue| ::
           queue[i].depth == 0 && (config.seedUrls != [] ==> queue[i].url.page == config.seedUrls[i].page)
  {
  }

  /** Every URL of the log is one without a fragment. */
  ghost predicate Bare(log: seq<Visit>) {
    forall k | 0 <= k < |log| :: log[k].url.fragment == ""
  }

  lemma LogIsBare(config: Config, web: Web, s: Books)
    requires IsOpening(config, s)
    ensures Bare(Explored(config, web, s).log)
  {
    var keep := (x: Books) => Bare(x.log);
    var n := ExploredEnds(config, web, s);
    KeptByPops(config, web, keep, s, n);
  }

  /** No page is fetched twice in a run, whatever fragments the links to it carry. */
  lemma PagesFetchedOnce(config: Config, web: Web, s: Books, i: nat, j: nat)
    requires IsOpening(config, s)
    requires var log := Explored(config, web, s).log; i < j < |log| && WasFetched(log[i]) && WasFetched(log[j])
    ensures Explored(config, web, s).log[i].url.page != Explored(config, web, s).log[j].url.page
  {
    var b := Explored(config, web, s);
    ExploredRanWell(config, web, s);
    LogIsBare(config, web, s);
    NothingFetchedTwice(config.maxDepth, b.log, b.crawl, i, j);
  }

  /** The source is that of a page read in this visit: where it ended up, and the hash of its text. */
  predicate ComesFrom(web: Web, x: Source, v: Visit) {
    && v.outcome.Read? && web.fetch(v.url).Fetched?
    && x == Source(web.fetch(v.url).finalUrl, web.fetch(v.url).sourceHash)
  }

  ghost predicate WasRead(web: Web, x: Source, log: seq<Visit>) {
    exists v | v in log :: ComesFrom(web, x, v)
  }

  ghost predicate WasDrafted(web: Web, x: Source, log: seq<Visit>) {
    exists v | v in log :: v.outcome == Read(true) && ComesFrom(web, x, v)
  }

  ghost predicate ReadsWereFetched(web: Web, log: seq<Visit>) {
    forall v | v in log && v.outcome.Read? :: web.fetch(v.url).Fetched?
  }

  lemma ReadMeansFetched(config: Config, web: Web, s: Books)
    requires IsOpening(config, s)
    ensures ReadsWereFetched(web, Explored(config, web, s).log)
  {
    var log := Explored(config, web, s).log;
    ExploredRanWell(config, web, s);
    forall v | v in log && v.outcome.Read? ensures web.fetch(v.url).Fetched? {
      var i :| 0 <= i < |log| && log[i] == v;
      assert JudgedAt(config, web, log, StartOf(s), i);
    }
  }

  lemma {:induction false} SourcesTell(web: Web, sources: seq<Source>, log: seq<Visit>)
    requires ReadsWereFetched(web, log)
    ensures var after := SourcesAfter(web, sources, log);
      && sources <= after
      && (forall k | |sources| <= k < |after| :: WasRead(web, after[k], log))
      && forall v, x | v in log && ComesFrom(web, x, v) ::
           exists k | 0 <= k < |after| :: after[k].contentHash == x.contentHash
  {
    if log != [] {
      var before, last := log[..|log| - 1], log[|log| - 1];
      SourcesTell(web, sources, before);
      var was, now := SourcesAfter(web, sources, before), SourcesAfter(web, sources, log);
      assert log == before + [last];
      forall v, x | v in log && ComesFrom(web, x, v)
        ensures exists k | 0 <= k < |now| :: now[k].contentHash == x.contentHash
      {
        if v in before {
          var k :| 0 <= k < |was| && was[k].contentHash == x.contentHash;
          assert now[k].contentHash == x.contentHash;
        } else if exists y | y in was :: y.contentHash == x.contentHash {
          var y :| y in was && y.contentHash == x.contentHash;
          var k :| 0 <= k < |was| && was[k] == y;
          assert now[k].contentHash == x.contentHash;
        } else {
          assert now[|was|].contentHash == x.contentHash;
        }
      }
      forall k | |sources| <= k < |now| ensures WasRead(web, now[k], log) {
        if k < |was| {
          assert WasRead(web, was[k], before);
        } else {
          assert last in log && ComesFrom(web, now[k], last);
        }
      }
    }
  }

  lemma {:induction false} DraftsTell(web: Web, drafts: seq<Draft>, log: seq<Visit>)
    requires ReadsWereFetched(web, log)
    ensures var after := DraftsAfter(web, drafts, log);
      && drafts <= after && |after| == |drafts| + Drafted(log)
      && forall k | |drafts| <= k < |after| ::
           after[k].number == k && WasDrafted(web, after[k].source, log)
  {
    if log != [] {
      var before, last := log[..|log| - 1], log[|log| - 1];
      DraftsTell(web, drafts, before);
      assert log == before + [last];
      var was, now := DraftsAfter(web, drafts, before), DraftsAfter(web, drafts, log);
      forall k | |drafts| <= k < |now|
        ensures now[k].number == k && WasDrafted(web, now[k].source, log)
      {
        if k < |was| {
          assert was[k].number == k && WasDrafted(web, was[k].source, before);
        } else {
          assert last in log && ComesFrom(web, now[k].source, last);
        }
      }
    }
  }

  /** A run stores pages it read and no others, each content read has its hash in the store, and
      the drafts made are numbered on, each of a page read with one. */
  lemma StoreTells(config: Config, web: Web, s: Books)
    requires IsOpening(config, s)
    ensures var b := Explored(config, web, s);
      && s.sources <= b.sources && s.drafts <= b.drafts && |b.drafts| == |s.drafts| + Drafted(b.log)
      && (forall k | |s.sources| <= k < |b.sources| :: WasRead(web, b.sources[k], b.log))
      && (forall v, x | v in b.log && ComesFrom(web, x, v) ::
            exists k | 0 <= k < |b.sources| :: b.sources[k].contentHash == x.contentHash)
      && forall k | |s.drafts| <= k < |b.drafts| ::
           b.drafts[k].number == k && WasDrafted(web, b.drafts[k].source, b.log)
  {
    var log := Explored(config, web, s).log;
    ExploredRanWell(config, web, s);
    ReadMeansFetched(config, web, s);
    SourcesTell(web, s.sources, log);
    DraftsTell(web, s.drafts, log);
  }
}
