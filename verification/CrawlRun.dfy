/** The explorer's loop as a function of its start (packages/agentic_micro_os/web_explorer_loop.py):
    what one pop makes of the queue, the store, the counters and the log, when the loop stops, and
    what holds of every state it goes through. */
module CrawlRun {
  import opened Wrappers
  import opened CrawlSpec
  import opened CrawlBooks

  /** The loop's variables and the fields it updates; the log holds the pops of this run. */
  datatype Books = Books(
    crawl: Crawl, log: seq<Visit>, hashes: set<string>, counts: map<string, nat>,
    sources: seq<Source>, drafts: seq<Draft>, blocks: seq<Block>, errors: nat)

  /** A run about to begin. */
  function Opening(config: Config, counts: map<string, nat>, sources: seq<Source>, drafts: seq<Draft>,
                   blocks: seq<Block>, errors: nat): Books
  {
    Books(Crawl(StartQueue(Seeds(config)), map[], {}, false), [], {}, counts, sources, drafts, blocks, errors)
  }

  predicate IsOpening(config: Config, s: Books) {
    s == Opening(config, s.counts, s.sources, s.drafts, s.blocks, s.errors)
  }

  // ----------------------------------------------------------------- one pop

  /** The entries one page's links add to a queue with that much room. */
  function Appended(web: Web, seen: set<Url>, hrefs: seq<Url>, depth: nat, room: int): seq<Entry>
    decreases |hrefs|
  {
    if hrefs == [] || room <= 0 then []
    else
      var link := Defrag(hrefs[0]);
      if Relevant(web, link) && link !in seen
      then [Entry(link, depth + 1)] + Appended(web, seen, hrefs[1..], depth, room - 1)
      else Appended(web, seen, hrefs[1..], depth, room)
  }

  /** Some relevant link to a page not yet seen was left out. */
  predicate Loses(web: Web, seen: set<Url>, hrefs: seq<Url>, depth: nat, more: seq<Entry>) {
    exists h | h in hrefs :: Relevant(web, Defrag(h)) && Defrag(h) !in seen && Entry(Defrag(h), depth + 1) !in more
  }

  /** Only relevant links to pages not yet seen are appended, one level deeper, and no more than
      there is room for; one is left out only if there is no room left. */
  lemma {:induction false} AppendedShape(web: Web, seen: set<Url>, hrefs: seq<Url>, depth: nat, room: int)
    ensures var more := Appended(web, seen, hrefs, depth, room);
      && (forall e | e in more ::
            && e.depth == depth + 1 && Defrag(e.url) == e.url && Relevant(web, e.url) && e.url !in seen
            && exists h | h in hrefs :: Defrag(h) == e.url)
      && |more| <= |hrefs| && |more| <= Max(0, room)
      && (Loses(web, seen, hrefs, depth, more) ==> |more| >= room)
    decreases |hrefs|
  {
    if hrefs != [] && room > 0 {
      var first, rest := hrefs[0], hrefs[1..];
      assert hrefs == [first] + rest;
      var link := Defrag(first);
      AppendedShape(web, seen, rest, depth, if Relevant(web, link) && link !in seen then room - 1 else room);
    }
  }

  function SourceOf(web: Web, url: Url): Source {
    match web.fetch(url)
    case FetchFails => Source(url, "")
    case Fetched(_, _, hash, finalUrl, _) => Source(finalUrl, hash)
  }

  /** `add_source` */
  function Added(sources: seq<Source>, x: Source): seq<Source> {
    if exists y | y in sources :: y.contentHash == x.contentHash then sources else sources + [x]
  }

  function HeadOf(b: Books): Url
    requires b.crawl.queue != []
  {
    Defrag(b.crawl.queue[0].url)
  }

  function VerdictOf(config: Config, web: Web, b: Books): Verdict
    requires b.crawl.queue != []
  {
    Inspect(config, web, HeadOf(b), b.crawl.queue[0].depth, CountOf(b.counts, web.domain(HeadOf(b))), b.hashes)
  }

  function OutcomeOf(config: Config, web: Web, b: Books): Outcome
    requires b.crawl.queue != []
  {
    if HeadOf(b) in b.crawl.seen then AlreadySeen
    else match VerdictOf(config, web, b)
      case Reject(_, fetched) => Rejected(fetched)
      case Accept(_, _, _) => Read(web.draftAllowed(HeadOf(b)) && |b.drafts| < config.maxCandidateDrafts)
  }

  /** What the head of the queue appends to the rest of it. */
  function MoreOf(config: Config, web: Web, b: Books): seq<Entry>
    requires b.crawl.queue != []
  {
    if !OutcomeOf(config, web, b).Read? then []
    else Appended(web, b.crawl.seen.Keys + {HeadOf(b)}, HrefsOf(web, HeadOf(b)), b.crawl.queue[0].depth,
                  4 * config.maxPages - (|b.crawl.queue| - 1))
  }

  function LosesNow(config: Config, web: Web, b: Books): bool
    requires b.crawl.queue != []
  {
    OutcomeOf(config, web, b).Read?
    && Loses(web, b.crawl.seen.Keys + {HeadOf(b)}, HrefsOf(web, HeadOf(b)), b.crawl.queue[0].depth,
             MoreOf(config, web, b))
  }

  /** The lines a visit leaves among the safety blocks. */
  function BlocksOf(config: Config, web: Web, v: Visit, readsInDomain: nat, keys: set<string>): seq<Block> {
    match v.outcome
    case AlreadySeen => []
    case Read(drafted) => if drafted then [] else [NoDraft(v.url)]
    case Rejected(_) =>
      match Inspect(config, web, v.url, v.depth, readsInDomain, keys)
      case Reject(block, _) => [block]
      case Accept(_, _, _) => []
  }

  /** One turn of the loop after its budget checks. */
  function PopOne(config: Config, web: Web, b: Books): Books
    requires b.crawl.queue != []
  {
    var outcome, u, d := OutcomeOf(config, web, b), HeadOf(b), web.domain(HeadOf(b));
    var x := VisitOf(b.crawl, outcome);
    Books(
      After(b.crawl, outcome, MoreOf(config, web, b), LosesNow(config, web, b)),
      b.log + [x],
      if outcome.Read? then b.hashes + {KeyOf(web, u)} else b.hashes,
      if outcome.Read? then b.counts[d := CountOf(b.counts, d) + 1] else b.counts,
      if outcome.Read? then Added(b.sources, SourceOf(web, u)) else b.sources,
      if outcome == Read(true) then b.drafts + [Draft(|b.drafts|, SourceOf(web, u))] else b.drafts,
      b.blocks + BlocksOf(config, web, x, CountOf(b.counts, d), b.hashes),
      b.errors + if FetchFailed(web, x) then 1 else 0)
  }

  lemma PopOfRejected(config: Config, web: Web, b: Books)
    requires b.crawl.queue != [] && HeadOf(b) !in b.crawl.seen && VerdictOf(config, web, b).Reject?
    ensures var v, n := VerdictOf(config, web, b), PopOne(config, web, b);
      && OutcomeOf(config, web, b) == Rejected(v.fetched) && MoreOf(config, web, b) == []
      && n.blocks == b.blocks + [v.block] && n.errors == b.errors + (if v.block.FetchError? then 1 else 0)
      && n.hashes == b.hashes && n.counts == b.counts && n.sources == b.sources && n.drafts == b.drafts
  {
  }

  lemma PopOfAccepted(config: Config, web: Web, b: Books)
    requires b.crawl.queue != [] && HeadOf(b) !in b.crawl.seen && VerdictOf(config, web, b).Accept?
    ensures var v, n, u := VerdictOf(config, web, b), PopOne(config, web, b), HeadOf(b);
      var drafted := web.draftAllowed(u) && |b.drafts| < config.maxCandidateDrafts;
      && OutcomeOf(config, web, b) == Read(drafted)
      && MoreOf(config, web, b) == Appended(web, b.crawl.seen.Keys + {u}, v.hrefs, b.crawl.queue[0].depth,
                                            4 * config.maxPages - |b.crawl.queue[1..]|)
      && n.hashes == b.hashes + {v.contentKey} && n.sources == Added(b.sources, v.source)
      && n.counts == b.counts[web.domain(u) := CountOf(b.counts, web.domain(u)) + 1]
      && n.drafts == b.drafts + (if drafted then [Draft(|b.drafts|, v.source)] else [])
      && n.blocks == b.blocks + (if drafted then [] else [NoDraft(u)]) && n.errors == b.errors
  {
  }

  /** What a pop logs, and what the counts make of it. */
  lemma PopLogs(config: Config, web: Web, b: Books)
    requires b.crawl.queue != []
    ensures var n, x := PopOne(config, web, b), VisitOf(b.crawl, OutcomeOf(config, web, b));
      && n.log == b.log + [x]
      && Reads(n.log) == Reads(b.log) + (if x.outcome.Read? then 1 else 0)
      && Rejections(n.log) == Rejections(b.log) + (if x.outcome.Rejected? then 1 else 0)
      && n.errors == b.errors + (if FetchFailed(web, x) then 1 else 0)
  {
    assert PopOne(config, web, b).log[..|b.log|] == b.log;
  }

  /** A repeat changes the queue and the log alone. */
  lemma PopOfRepeat(config: Config, web: Web, b: Books)
    requires b.crawl.queue != [] && HeadOf(b) in b.crawl.seen
    ensures var n := PopOne(config, web, b);
      && OutcomeOf(config, web, b) == AlreadySeen
      && n.crawl.queue == b.crawl.queue[1..] && n.crawl.seen.Keys == b.crawl.seen.Keys
      && n.hashes == b.hashes && n.counts == b.counts && n.sources == b.sources && n.drafts == b.drafts
      && n.blocks == b.blocks && n.errors == b.errors
  {
  }

  lemma PopOfNew(config: Config, web: Web, b: Books)
    requires b.crawl.queue != [] && HeadOf(b) !in b.crawl.seen
    ensures var n := PopOne(config, web, b);
      && !OutcomeOf(config, web, b).AlreadySeen?
      && n.crawl.queue == b.crawl.queue[1..] + MoreOf(config, web, b)
      && n.crawl.seen.Keys == b.crawl.seen.Keys + {HeadOf(b)}
  {
    AfterShape(b.crawl, OutcomeOf(config, web, b), MoreOf(config, web, b), LosesNow(config, web, b));
  }

  // ---------------------------------------------------------------- whole runs

  /** Why the loop goes no further from here, if it does not. */
  function StopOf(config: Config, web: Web, b: Books): Option<StopReason> {
    if b.log != [] && FetchFailed(web, b.log[|b.log| - 1]) && b.errors >= config.maxErrors then Some(RepeatedErrors)
    else if b.crawl.queue == [] then Some(Completed)
    else if Reads(b.log) >= config.maxPages then Some(MaxPages)
    else if web.elapsed(|b.log|) > config.maxRuntimeSec then Some(MaxRuntime)
    else None
  }

  /** Every pop reads a page or shortens the queue. */
  lemma PopProgresses(config: Config, web: Web, b: Books)
    requires b.crawl.queue != []
    ensures var n := PopOne(config, web, b);
      Reads(n.log) == Reads(b.log) + 1 || (Reads(n.log) == Reads(b.log) && |n.crawl.queue| < |b.crawl.queue|)
  {
    assert PopOne(config, web, b).log[..|b.log|] == b.log;
  }

  /** The loop: it ends on every web. */
  function Explored(config: Config, web: Web, b: Books): Books
    decreases Max(0, config.maxPages - Reads(b.log)), |b.crawl.queue|
  {
    if StopOf(config, web, b).Some? then b
    else
      PopProgresses(config, web, b);
      Explored(config, web, PopOne(config, web, b))
  }

  /** The state after `n` pops, or where the loop stopped before. */
  function AfterPops(config: Config, web: Web, b: Books, n: nat): Books
    decreases n
  {
    if n == 0 || StopOf(config, web, b).Some? then b
    else AfterPops(config, web, PopOne(config, web, b), n - 1)
  }

  /** The loop ends after as many pops as its log says, and only where it stops. */
  lemma {:induction false} ExploredEnds(config: Config, web: Web, b: Books) returns (n: nat)
    ensures Explored(config, web, b) == AfterPops(config, web, b, n)
    ensures StopOf(config, web, Explored(config, web, b)).Some?
    ensures |Explored(config, web, b).log| == |b.log| + n
    decreases Max(0, config.maxPages - Reads(b.log)), |b.crawl.queue|
  {
    n := 0;
    if StopOf(config, web, b).None? {
      PopProgresses(config, web, b);
      n := ExploredEnds(config, web, PopOne(config, web, b));
      n := n + 1;
    }
  }

  // ------------------------------------------------- what every state keeps

  /** The sources stored once the pages of the log have been read. */
  function SourcesAfter(web: Web, sources: seq<Source>, log: seq<Visit>): seq<Source> {
    if log == [] then sources
    else
      var before, v := SourcesAfter(web, sources, log[..|log| - 1]), log[|log| - 1];
      if v.outcome.Read? then Added(before, SourceOf(web, v.url)) else before
  }

  function DraftsAfter(web: Web, drafts: seq<Draft>, log: seq<Visit>): seq<Draft> {
    if log == [] then drafts
    else
      var before, v := DraftsAfter(web, drafts, log[..|log| - 1]), log[|log| - 1];
      if v.outcome == Read(true) then before + [Draft(|before|, SourceOf(web, v.url))] else before
  }

  function BlocksAfter(config: Config, web: Web, s: Books, log: seq<Visit>): seq<Block> {
    if log == [] then s.blocks
    else
      var past, v := log[..|log| - 1], log[|log| - 1];
      var d := web.domain(v.url);
      BlocksAfter(config, web, s, past)
      + BlocksOf(config, web, v, CountOf(s.counts, d) + ReadsIn(web, past, d), KeysRead(web, past))
  }

  function StartOf(s: Books): Start { Start(s.counts, |s.drafts|) }

  function TallyOf(s: Books, b: Books): Tally {
    Tally(Reads(b.log), Rejections(b.log), |b.blocks| - |s.blocks|, |b.drafts| - |s.drafts|, b.errors - s.errors,
          b.counts)
  }

  /** Store and safety blocks are what the log says they must be. */
  ghost predicate Stocked(config: Config, web: Web, s: Books, b: Books) {
    && b.hashes == KeysRead(web, b.log)
    && b.sources == SourcesAfter(web, s.sources, b.log)
    && b.drafts == DraftsAfter(web, s.drafts, b.log)
    && b.blocks == BlocksAfter(config, web, s, b.log)
  }

  /** Breadth-first order, the log, the guards, the counters, the store and the queue's bounds. */
  ghost predicate Running(config: Config, web: Web, s: Books, b: Books) {
    && Bfs(LinksOf(web), Seeds(config), b.crawl)
    && Chronicle(config.maxDepth, b.log, b.crawl)
    && JudgedInTurn(config, web, b.log, StartOf(s))
    && Accounts(web, config.maxPagesPerDomain, b.log, TallyOf(s, b), s.counts)
    && Capped(config, web, b.crawl, b.log)
    && |b.crawl.queue| <= Max(|Seeds(config)|, 4 * config.maxPages)
    && Stocked(config, web, s, b)
  }

  /** Pages, time and errors spent: the error budget is used up just where that stops the loop. */
  ghost predicate Budgets(config: Config, web: Web, s: Books, b: Books) {
    && Reads(b.log) <= Max(0, config.maxPages)
    && (forall k: nat | k < |b.log| :: web.elapsed(k) <= config.maxRuntimeSec)
    && b.errors >= s.errors
    && (b.errors > s.errors && b.errors >= config.maxErrors <==> StopOf(config, web, b) == Some(RepeatedErrors))
  }

  /** The head's outcome is the one its guards demand. */
  lemma OutcomeIsJudged(config: Config, web: Web, b: Books)
    requires b.crawl.queue != []
    ensures Judged(config, web, VisitOf(b.crawl, OutcomeOf(config, web, b)),
                   CountOf(b.counts, web.domain(HeadOf(b))), b.hashes, |b.drafts|)
  {
  }

  /** What the head appends, in the words of the search. */
  lemma MoreAppends(config: Config, web: Web, b: Books)
    requires b.crawl.queue != [] && OutcomeOf(config, web, b).Read?
    ensures Appends(web, b.crawl.seen.Keys + {HeadOf(b)}, HeadOf(b), b.crawl.queue[0].depth,
                    MoreOf(config, web, b), LosesNow(config, web, b))
    ensures |b.crawl.queue| - 1 + |MoreOf(config, web, b)| <= Max(|b.crawl.queue| - 1, 4 * config.maxPages)
    ensures LosesNow(config, web, b) ==> |b.crawl.queue| - 1 + |MoreOf(config, web, b)| >= 4 * config.maxPages
  {
    AppendedShape(web, b.crawl.seen.Keys + {HeadOf(b)}, HrefsOf(web, HeadOf(b)), b.crawl.queue[0].depth,
                  4 * config.maxPages - (|b.crawl.queue| - 1));
  }

  lemma PopKeepsSearch(config: Config, web: Web, b: Books)
    requires b.crawl.queue != [] && Bfs(LinksOf(web), Seeds(config), b.crawl)
            && Chronicle(config.maxDepth, b.log, b.crawl)
    ensures var n := PopOne(config, web, b);
      Bfs(LinksOf(web), Seeds(config), n.crawl) && Chronicle(config.maxDepth, n.log, n.crawl)
  {
    var outcome := OutcomeOf(config, web, b);
    OutcomeIsJudged(config, web, b);
    if outcome.Read? { MoreAppends(config, web, b); }
    SearchAdds(config, web, b.log, b.crawl, outcome, MoreOf(config, web, b), LosesNow(config, web, b));
  }

  lemma PopKeepsQueue(config: Config, web: Web, b: Books)
    requires b.crawl.queue != [] && Capped(config, web, b.crawl, b.log)
    requires |b.crawl.queue| <= Max(|Seeds(config)|, 4 * config.maxPages)
    ensures var n := PopOne(config, web, b);
      Capped(config, web, n.crawl, n.log) && |n.crawl.queue| <= Max(|Seeds(config)|, 4 * config.maxPages)
  {
    var outcome, more := OutcomeOf(config, web, b), MoreOf(config, web, b);
    if outcome.Read? { MoreAppends(config, web, b); }
    CappedAdds(config, web, b.crawl, b.log, outcome, more, LosesNow(config, web, b));
    AfterShape(b.crawl, outcome, more, LosesNow(config, web, b));
  }

  lemma PopKeepsBooks(config: Config, web: Web, s: Books, b: Books)
    requires b.crawl.queue != [] && JudgedInTurn(config, web, b.log, StartOf(s)) && b.hashes == KeysRead(web, b.log)
    requires Accounts(web, config.maxPagesPerDomain, b.log, TallyOf(s, b), s.counts)
    ensures var n := PopOne(config, web, b);
      && JudgedInTurn(config, web, n.log, StartOf(s)) && n.hashes == KeysRead(web, n.log)
      && Accounts(web, config.maxPagesPerDomain, n.log, TallyOf(s, n), s.counts)
  {
    var x := VisitOf(b.crawl, OutcomeOf(config, web, b));
    OutcomeIsJudged(config, web, b);
    BooksAdd(config, web, b.log, TallyOf(s, b), StartOf(s), x);
    TallyAdds(config, web, s, b);
  }

  lemma TallyAdds(config: Config, web: Web, s: Books, b: Books)
    requires b.crawl.queue != []
    ensures TallyOf(s, PopOne(config, web, b)) == Count(web, TallyOf(s, b), VisitOf(b.crawl, OutcomeOf(config, web, b)))
  {
    assert PopOne(config, web, b).log[..|b.log|] == b.log;
  }

  lemma PopKeepsStock(config: Config, web: Web, s: Books, b: Books)
    requires b.crawl.queue != [] && Stocked(config, web, s, b)
    requires Accounts(web, config.maxPagesPerDomain, b.log, TallyOf(s, b), s.counts)
    ensures Stocked(config, web, s, PopOne(config, web, b))
  {
    var n := PopOne(config, web, b);
    assert n.log[..|b.log|] == b.log;
  }

  /** One pop keeps all of it. */
  lemma PopKeepsRunning(config: Config, web: Web, s: Books, b: Books)
    requires Running(config, web, s, b) && b.crawl.queue != []
    ensures Running(config, web, s, PopOne(config, web, b))
  {
    PopKeepsSearch(config, web, b);
    PopKeepsQueue(config, web, b);
    PopKeepsBooks(config, web, s, b);
    PopKeepsStock(config, web, s, b);
  }

  lemma PopKeepsBudgets(config: Config, web: Web, s: Books, b: Books)
    requires Budgets(config, web, s, b) && StopOf(config, web, b).None?
    ensures Budgets(config, web, s, PopOne(config, web, b))
  {
    PopLogs(config, web, b);
  }

  lemma OpeningRuns(config: Config, web: Web, s: Books)
    requires IsOpening(config, s)
    ensures Running(config, web, s, s) && Budgets(config, web, s, s)
  {
    BfsStart(LinksOf(web), Seeds(config));
  }
}
