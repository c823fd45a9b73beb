/** What holds of every state of a crawl and of a whole run of it, on every web. */
module CrawlTheorems {
  import opened Wrappers
  import opened CrawlSpec
  import opened CrawlBooks
  import opened CrawlRun

  ghost predicate KeptByPop(config: Config, web: Web, keep: Books -> bool, x: Books) {
    keep(x) && StopOf(config, web, x).None? ==> keep(PopOne(config, web, x))
  }

  /** What every pop keeps holds after any number of them. */
  lemma {:induction false} KeptByPops(config: Config, web: Web, keep: Books -> bool, b: Books, n: nat)
    requires keep(b)
    requires forall x :: KeptByPop(config, web, keep, x)
    ensures keep(AfterPops(config, web, b, n))
    decreases n
  {
    if n > 0 && StopOf(config, web, b).None? {
      var next := PopOne(config, web, b);
      assert KeptByPop(config, web, keep, b) && keep(next);
      KeptByPops(config, web, keep, next, n - 1);
    }
  }

  ghost predicate Sound(config: Config, web: Web, s: Books, b: Books) {
    Running(config, web, s, b) && Budgets(config, web, s, b)
  }

  lemma PopKeepsSound(config: Config, web: Web, s: Books, b: Books)
    requires Sound(config, web, s, b) && StopOf(config, web, b).None?
    ensures Sound(config, web, s, PopOne(config, web, b))
  {
    PopKeepsRunning(config, web, s, b);
    PopKeepsBudgets(config, web, s, b);
  }

  /** After any number of pops of a run the books are sound. */
  lemma EveryStateIsSound(config: Config, web: Web, s: Books, n: nat)
    requires IsOpening(config, s)
    ensures Sound(config, web, s, AfterPops(config, web, s, n))
  {
    var keep := (x: Books) => Sound(config, web, s, x);
    OpeningRuns(config, web, s);
    forall x ensures KeptByPop(config, web, keep, x) {
      if keep(x) && StopOf(config, web, x).None? { PopKeepsSound(config, web, s, x); }
    }
    KeptByPops(config, web, keep, s, n);
  }

  /** Unless a link was lost to the cap, every page seen was first popped at its least distance,
      and once the queue is empty, all that can be reached through the pages read was seen. */
  ghost predicate Searched(config: Config, web: Web, b: Books) {
    && (!b.crawl.cut ==> SeenAtLeastDistance(config, web, b.crawl))
    && (!b.crawl.cut && b.crawl.queue == [] ==> SawEverything(config, web, b.crawl))
  }

  lemma BfsSearched(config: Config, web: Web, b: Books)
    requires Bfs(LinksOf(web), Seeds(config), b.crawl)
    ensures Searched(config, web, b)
  {
    SearchesUntilCut(config, web, b.crawl);
    EmptyQueueSawEverything(config, web, b.crawl);
  }

  /** A whole run. */
  ghost predicate RanWell(config: Config, web: Web, s: Books, b: Books) {
    Sound(config, web, s, b) && Searched(config, web, b) && StopOf(config, web, b).Some?
  }

  lemma ExploredRanWell(config: Config, web: Web, s: Books)
    requires IsOpening(config, s)
    ensures RanWell(config, web, s, Explored(config, web, s))
  {
    var n := ExploredEnds(config, web, s);
    EveryStateIsSound(config, web, s, n);
    BfsSearched(config, web, Explored(config, web, s));
  }

  /** A page of `m` links at most cannot fill the queue of a run whose cap such pages stay below. */
  lemma FewLinksLoseNothing(config: Config, web: Web, s: Books, m: nat)
    requires IsOpening(config, s) && forall u :: |HrefsOf(web, u)| <= m
    requires |Seeds(config)| + m * Max(0, config.maxPages) < 4 * config.maxPages
    ensures !Explored(config, web, s).crawl.cut
  {
    ExploredRanWell(config, web, s);
    StayBelowCap(config, web, Explored(config, web, s), m);
  }

  lemma StayBelowCap(config: Config, web: Web, b: Books, m: nat)
    requires Capped(config, web, b.crawl, b.log) && Reads(b.log) <= Max(0, config.maxPages)
    requires forall u :: |HrefsOf(web, u)| <= m
    requires |Seeds(config)| + m * Max(0, config.maxPages) < 4 * config.maxPages
    ensures !b.crawl.cut
  {
    FewLinks(web, b.log, m);
    Times(m, Reads(b.log), Max(0, config.maxPages));
  }

  lemma Times(m: nat, x: nat, y: nat)
    requires x <= y
    ensures m * x <= m * y
  {
  }
}
