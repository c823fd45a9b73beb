/** The books of a crawl (packages/agentic_micro_os/web_explorer_loop.py): the guards, the log of
    pops, the counters, and how each pop adds to them. */
module CrawlBooks {
  import opened CrawlSpec

  datatype Source = Source(url: Url, contentHash: string)

  datatype Draft = Draft(number: nat, source: Source)

  datatype Config = Config(
    seedUrls: seq<Url>, maxPages: int, maxDepth: int, maxRuntimeSec: int,
    maxPagesPerDomain: int, maxCandidateDrafts: int, maxErrors: int)

  function Https(page: string): Url { Url("https://" + page, "") }

  const DEFAULT_SEEDS := [
    Https("github.com/fishaudio/fish-speech"), Https("github.com/Cozystone/SPLATRA"),
    Https("modelcontextprotocol.io/docs/concepts/tools"), Https("github.com/anthropics/anthropic-cookbook"),
    Https("modelcontextprotocol.io/docs/concepts/resources"), Https("www.w3.org/TR/privacy-principles/")]

  function Seeds(config: Config): seq<Url> {
    if config.seedUrls == [] then DEFAULT_SEEDS else config.seedUrls
  }

  datatype StopReason = Completed | MaxPages | MaxRuntime | RepeatedErrors | CapabilityDenied

  datatype Block =
    | ReadDenied
    | DepthRejected(url: Url) | PolicyRejected(url: Url) | DomainBudget(domain: string)
    | RobotsDisallow(url: Url) | FetchError(url: Url) | NonHtml(url: Url) | DuplicateContent(url: Url)
    | NoDraft(url: Url)
    | ProductionWriteBlocked

  datatype Verdict =
    | Reject(block: Block, fetched: bool)
    | Accept(contentKey: string, source: Source, hrefs: seq<Url>)

  function CountOf(counts: map<string, nat>, domain: string): nat {
    if domain in counts then counts[domain] else 0
  }

  /** The chain of guards a page newly popped goes through, in the order of the source. */
  function Inspect(config: Config, web: Web, url: Url, depth: nat, readsInDomain: nat, hashes: set<string>): Verdict
  {
    if depth > config.maxDepth then Reject(DepthRejected(url), false)
    else if !web.policyAllows(url) then Reject(PolicyRejected(url), false)
    else if readsInDomain >= config.maxPagesPerDomain then Reject(DomainBudget(web.domain(url)), false)
    else if !web.robotsAllow(url) then Reject(RobotsDisallow(url), false)
    else match web.fetch(url)
      case FetchFails => Reject(FetchError(url), true)
      case Fetched(isHtml, key, hash, finalUrl, hrefs) =>
        if !isHtml then Reject(NonHtml(url), true)
        else if key in hashes then Reject(DuplicateContent(url), true)
        else Accept(key, Source(finalUrl, hash), hrefs)
  }

  // ------------------------------------------------------- what a run leaves behind

  datatype Outcome = AlreadySeen | Rejected(fetched: bool) | Read(drafted: bool)

  /** One pop of the queue. */
  datatype Visit = Visit(url: Url, depth: nat, outcome: Outcome)

  function Reads(log: seq<Visit>): nat {
    if log == [] then 0 else Reads(log[..|log| - 1]) + if log[|log| - 1].outcome.Read? then 1 else 0
  }

  function Rejections(log: seq<Visit>): nat {
    if log == [] then 0 else Rejections(log[..|log| - 1]) + if log[|log| - 1].outcome.Rejected? then 1 else 0
  }

  function Repeats(log: seq<Visit>): nat {
    if log == [] then 0 else Repeats(log[..|log| - 1]) + if log[|log| - 1].outcome.AlreadySeen? then 1 else 0
  }

  function Drafted(log: seq<Visit>): nat {
    if log == [] then 0 else Drafted(log[..|log| - 1]) + if log[|log| - 1].outcome == Read(true) then 1 else 0
  }

  function ReadsIn(web: Web, log: seq<Visit>, domain: string): nat {
    if log == [] then 0
    else ReadsIn(web, log[..|log| - 1], domain)
         + if log[|log| - 1].outcome.Read? && web.domain(log[|log| - 1].url) == domain then 1 else 0
  }

  /** The content keys of the pages read. */
  function KeysRead(web: Web, log: seq<Visit>): set<string> {
    if log == [] then {}
    else KeysRead(web, log[..|log| - 1]) + if log[|log| - 1].outcome.Read? then {KeyOf(web, log[|log| - 1].url)} else {}
  }

  function KeyOf(web: Web, url: Url): string {
    match web.fetch(url)
    case FetchFails => ""
    case Fetched(_, key, _, _, _) => key
  }

  function HrefsOf(web: Web, url: Url): seq<Url> {
    match web.fetch(url)
    case FetchFails => []
    case Fetched(_, _, _, _, hrefs) => hrefs
  }

  /** How many links the pages read hold, relevant or not. */
  function LinksRead(web: Web, log: seq<Visit>): nat {
    if log == [] then 0
    else LinksRead(web, log[..|log| - 1]) + if log[|log| - 1].outcome.Read? then |HrefsOf(web, log[|log| - 1].url)|
      else 0
  }

  predicate FetchFailed(web: Web, v: Visit) {
    v.outcome == Rejected(true) && web.fetch(v.url).FetchFails?
  }

  function Failures(web: Web, log: seq<Visit>): nat {
    if log == [] then 0 else Failures(web, log[..|log| - 1]) + if FetchFailed(web, log[|log| - 1]) then 1 else 0
  }

  predicate WasFetched(v: Visit) {
    v.outcome.Read? || (v.outcome.Rejected? && v.outcome.fetched)
  }

  /** Every pop is a read, a rejection or a page already seen. */
  lemma {:induction false} PopsAddUp(log: seq<Visit>)
    ensures |log| == Reads(log) + Rejections(log) + Repeats(log)
  {
    if log != [] { PopsAddUp(log[..|log| - 1]); }
  }

  /** Pops go level by level. */
  ghost predicate InOrder(log: seq<Visit>, queue: seq<Entry>) {
    && (forall i, j | 0 <= i < j < |log| :: log[i].depth <= log[j].depth)
    && forall i, e | 0 <= i < |log| && e in queue :: log[i].depth <= e.depth
  }

  /** The seen and the read pages are those of the log. */
  ghost predicate Members(log: seq<Visit>, c: Crawl) {
    && (forall u :: u in c.seen <==> exists v :: v in log && v.url == u)
    && forall u :: u in c.read <==> exists v :: v in log && v.url == u && v.outcome.Read?
  }

  /** A page is handled at its first pop, at the depth noted for it, and only then. */
  ghost predicate FirstPops(maxDepth: int, log: seq<Visit>, c: Crawl) {
    && (forall i, j | 0 <= i < j < |log| && log[i].url == log[j].url :: log[j].outcome.AlreadySeen?)
    && (forall v | v in log && v.outcome.Read? :: v.depth <= maxDepth)
    && forall v | v in log && !v.outcome.AlreadySeen? :: v.url in c.seen && c.seen[v.url] == v.depth
  }

  ghost predicate Chronicle(maxDepth: int, log: seq<Visit>, c: Crawl) {
    InOrder(log, c.queue) && Members(log, c) && FirstPops(maxDepth, log, c)
  }

  /** No page is fetched twice. */
  lemma NothingFetchedTwice(maxDepth: int, log: seq<Visit>, c: Crawl, i: nat, j: nat)
    requires Chronicle(maxDepth, log, c) && i < j < |log| && WasFetched(log[i]) && WasFetched(log[j])
    ensures log[i].url != log[j].url
  {
  }

  /** The visit a pop with this outcome is, and the crawl it leaves. */
  function VisitOf(c: Crawl, outcome: Outcome): Visit
    requires c.queue != []
  {
    Visit(Defrag(c.queue[0].url), c.queue[0].depth, outcome)
  }

  function After(c: Crawl, outcome: Outcome, more: seq<Entry>, cutNow: bool): Crawl
    requires c.queue != []
  {
    if outcome.Read? then Extended(Popped(c), Defrag(c.queue[0].url), more, cutNow) else Popped(c)
  }

  lemma AfterShape(c: Crawl, outcome: Outcome, more: seq<Entry>, cutNow: bool)
    requires c.queue != [] && (!outcome.Read? ==> more == [])
    ensures After(c, outcome, more, cutNow).queue == c.queue[1..] + more
    ensures After(c, outcome, more, cutNow).seen.Keys == c.seen.Keys + {Defrag(c.queue[0].url)}
    ensures After(c, outcome, more, cutNow).cut == (c.cut || (outcome.Read? && cutNow))
  {
  }

  /** What `Handle` appends, in the words of the search. */
  ghost predicate Appends(web: Web, seen: set<Url>, url: Url, depth: nat, more: seq<Entry>, cutNow: bool) {
    && (forall e | e in more :: e.depth == depth + 1 && Defrag(e.url) == e.url && LinksTo(web, url, e.url))
    && (!cutNow ==> forall v | LinksTo(web, url, v) :: v in seen || Entry(v, depth + 1) in more)
    && |more| <= |HrefsOf(web, url)|
  }

  lemma AppendsFollow(web: Web, c: Crawl, more: seq<Entry>, cutNow: bool)
    requires c.queue != [] && Defrag(c.queue[0].url) !in c.seen
    requires var u := Defrag(c.queue[0].url); Appends(web, c.seen.Keys + {u}, u, c.queue[0].depth, more, cutNow)
    ensures Follows(LinksOf(web), Popped(c), Defrag(c.queue[0].url), more, cutNow)
  {
  }

  lemma InOrderAdds(log: seq<Visit>, c: Crawl, outcome: Outcome, more: seq<Entry>, cutNow: bool)
    requires InOrder(log, c.queue) && c.queue != [] && Levelled(c)
    requires forall e | e in more :: e.depth == c.queue[0].depth + 1
    ensures InOrder(log + [VisitOf(c, outcome)], After(c, outcome, more, cutNow).queue)
  {
    assert c.queue[0] in c.queue;
    var rest := After(c, outcome, more, cutNow).queue;
    forall e | e in rest ensures e in more || (e in c.queue && c.queue[0].depth <= e.depth) {
    }
  }

  lemma MembersAdds(log: seq<Visit>, c: Crawl, outcome: Outcome, more: seq<Entry>, cutNow: bool)
    requires Members(log, c) && c.queue != []
    ensures Members(log + [VisitOf(c, outcome)], After(c, outcome, more, cutNow))
  {
    var x := VisitOf(c, outcome);
    assert forall v :: v in log + [x] <==> v in log || v == x;
  }

  lemma FirstPopsAdds(maxDepth: int, log: seq<Visit>, c: Crawl, outcome: Outcome, more: seq<Entry>, cutNow: bool)
    requires FirstPops(maxDepth, log, c) && Members(log, c) && c.queue != []
    requires outcome.AlreadySeen? <==> Defrag(c.queue[0].url) in c.seen
    requires outcome.Read? ==> c.queue[0].depth <= maxDepth
    ensures FirstPops(maxDepth, log + [VisitOf(c, outcome)], After(c, outcome, more, cutNow))
  {
    var x := VisitOf(c, outcome);
    assert forall v :: v in log + [x] <==> v in log || v == x;
    forall i, j | 0 <= i < j < |log + [x]| && (log + [x])[i].url == (log + [x])[j].url
      ensures (log + [x])[j].outcome.AlreadySeen?
    {
      if j == |log| { assert log[i] in log; }
    }
  }

  lemma ChronicleAdds(maxDepth: int, log: seq<Visit>, c: Crawl, outcome: Outcome, more: seq<Entry>, cutNow: bool)
    requires Chronicle(maxDepth, log, c) && c.queue != [] && Levelled(c)
    requires outcome.AlreadySeen? <==> Defrag(c.queue[0].url) in c.seen
    requires outcome.Read? ==> c.queue[0].depth <= maxDepth
    requires forall e | e in more :: e.depth == c.queue[0].depth + 1
    ensures Chronicle(maxDepth, log + [VisitOf(c, outcome)], After(c, outcome, more, cutNow))
  {
    InOrderAdds(log, c, outcome, more, cutNow);
    MembersAdds(log, c, outcome, more, cutNow);
    FirstPopsAdds(maxDepth, log, c, outcome, more, cutNow);
  }

  lemma BfsAdds(to: Links, seeds: seq<Url>, c: Crawl, outcome: Outcome, more: seq<Entry>, cutNow: bool)
    requires Bfs(to, seeds, c) && c.queue != []
    requires outcome.Read? ==> Defrag(c.queue[0].url) !in c.seen
    requires outcome.Read? ==> Follows(to, Popped(c), Defrag(c.queue[0].url), more, cutNow)
    ensures Bfs(to, seeds, After(c, outcome, more, cutNow))
  {
    PopKeepsBfs(to, seeds, c);
    if outcome.Read? {
      assert c.queue[0] in c.queue;
      forall e | e in c.queue[1..] ensures e.depth <= c.queue[0].depth + 1 { RestIsDeeper(c, e); }
      ReadKeepsBfs(to, seeds, Popped(c), Defrag(c.queue[0].url), more, cutNow);
    }
  }

  // ------------------------------------------------------------------ the loop

  function Max(a: int, b: int): int { if a < b then b else a }

  /** What the loop's fields held when a run began. */
  datatype Start = Start(counts: map<string, nat>, drafts: nat)

  /** The counters of a run; blocks, drafts and errors are counted from its start. */
  datatype Tally = Tally(pagesRead: nat, pagesRejected: nat, blocks: int, drafts: int, errors: int,
                         counts: map<string, nat>)

  /** What one pop does to the counters: a rejection is logged, and so is a read without a draft. */
  function Count(web: Web, t: Tally, x: Visit): Tally {
    match x.outcome
    case AlreadySeen => t
    case Rejected(_) =>
      t.(pagesRejected := t.pagesRejected + 1, blocks := t.blocks + 1,
         errors := t.errors + if FetchFailed(web, x) then 1 else 0)
    case Read(drafted) =>
      var d := web.domain(x.url);
      Tally(t.pagesRead + 1, t.pagesRejected, t.blocks + (if drafted then 0 else 1),
            t.drafts + (if drafted then 1 else 0), t.errors, t.counts[d := CountOf(t.counts, d) + 1])
  }

  /** Counters, drafts, errors and safety blocks agree with the log, and no domain passes its cap. */
  ghost predicate Accounts(web: Web, cap: int, log: seq<Visit>, t: Tally, before: map<string, nat>) {
    && t.pagesRead == Reads(log) && t.pagesRejected == Rejections(log)
    && t.drafts == Drafted(log) && t.errors == Failures(web, log)
    && t.blocks == Rejections(log) + Reads(log) - Drafted(log)
    && forall d :: CountOf(t.counts, d) == CountOf(before, d) + ReadsIn(web, log, d)
                   && CountOf(t.counts, d) <= Max(CountOf(before, d), cap)
  }

  lemma AccountsAdd(web: Web, cap: int, log: seq<Visit>, t: Tally, before: map<string, nat>, x: Visit)
    requires Accounts(web, cap, log, t, before)
    requires x.outcome.Read? ==> CountOf(t.counts, web.domain(x.url)) < cap
    ensures Accounts(web, cap, log + [x], Count(web, t, x), before)
  {
    assert (log + [x])[..|log|] == log;
  }

  /** A page may be fetched: depth, policy, domain budget and robots all let it through. */
  predicate MayFetch(config: Config, web: Web, url: Url, depth: nat, readsInDomain: nat) {
    && depth <= config.maxDepth && web.policyAllows(url)
    && readsInDomain < config.maxPagesPerDomain && web.robotsAllow(url)
  }

  /** The fetched page is HTML with content not read before. */
  predicate Worthwhile(web: Web, url: Url, keys: set<string>) {
    match web.fetch(url)
    case FetchFails => false
    case Fetched(isHtml, key, _, _, _) => isHtml && key !in keys
  }

  /** A first pop was read, rejected, fetched and drafted exactly as the guards demand. */
  ghost predicate Judged(config: Config, web: Web, v: Visit, readsInDomain: nat, keys: set<string>, drafts: nat) {
    var may := MayFetch(config, web, v.url, v.depth, readsInDomain);
    match v.outcome
    case AlreadySeen => true
    case Read(drafted) =>
      && may && Worthwhile(web, v.url, keys)
      && (drafted <==> web.draftAllowed(v.url) && drafts < config.maxCandidateDrafts)
    case Rejected(fetched) => (fetched <==> may) && !(may && Worthwhile(web, v.url, keys))
  }

  /** Every pop of the log was judged rightly given the pops before it. */
  ghost predicate JudgedInTurn(config: Config, web: Web, log: seq<Visit>, start: Start) {
    forall i | 0 <= i < |log| :: JudgedAt(config, web, log, start, i)
  }

  ghost predicate JudgedAt(config: Config, web: Web, log: seq<Visit>, start: Start, i: nat)
    requires i < |log|
  {
    var past, d := log[..i], web.domain(log[i].url);
    Judged(config, web, log[i], CountOf(start.counts, d) + ReadsIn(web, past, d), KeysRead(web, past),
           start.drafts + Drafted(past))
  }

  lemma JudgedAdds(config: Config, web: Web, log: seq<Visit>, start: Start, x: Visit)
    requires JudgedInTurn(config, web, log, start)
    requires var d := web.domain(x.url);
      Judged(config, web, x, CountOf(start.counts, d) + ReadsIn(web, log, d), KeysRead(web, log),
             start.drafts + Drafted(log))
    ensures JudgedInTurn(config, web, log + [x], start)
    ensures KeysRead(web, log + [x]) == KeysRead(web, log) + if x.outcome.Read? then {KeyOf(web, x.url)} else {}
  {
    var more := log + [x];
    assert more[..|log|] == log;
    forall i | 0 <= i < |more| ensures JudgedAt(config, web, more, start, i) {
      if i < |log| {
        assert more[..i] == log[..i] && more[i] == log[i];
        assert JudgedAt(config, web, log, start, i);
      }
    }
  }

  /** Nothing enters the queue but seeds and links, so the cap cuts a list only when they suffice to reach it. */
  ghost predicate Capped(config: Config, web: Web, c: Crawl, log: seq<Visit>) {
    && |c.queue| <= |Seeds(config)| + LinksRead(web, log)
    && (c.cut ==> MayCut(config, web, log))
  }

  /** Seeds and links read could fill the queue to its cap. */
  predicate MayCut(config: Config, web: Web, log: seq<Visit>) {
    |Seeds(config)| + LinksRead(web, log) >= 4 * config.maxPages
  }

  lemma CappedAdds(config: Config, web: Web, c: Crawl, log: seq<Visit>, outcome: Outcome, more: seq<Entry>, cut: bool)
    requires Capped(config, web, c, log) && c.queue != []
    requires !outcome.Read? ==> more == [] && !cut
    requires outcome.Read? ==> |more| <= |HrefsOf(web, Defrag(c.queue[0].url))|
    requires cut ==> |c.queue[1..] + more| >= 4 * config.maxPages
    ensures Capped(config, web, After(c, outcome, more, cut), log + [VisitOf(c, outcome)])
  {
    var x := VisitOf(c, outcome);
    assert (log + [x])[..|log|] == log;
    AfterShape(c, outcome, more, cut);
  }

  /** On pages of at most `m` links each, the pages read can be counted instead. */
  lemma {:induction false} FewLinks(web: Web, log: seq<Visit>, m: nat)
    requires forall u :: |HrefsOf(web, u)| <= m
    ensures LinksRead(web, log) <= m * Reads(log)
  {
    if log != [] {
      FewLinks(web, log[..|log| - 1], m);
      assert m * (Reads(log[..|log| - 1]) + 1) == m * Reads(log[..|log| - 1]) + m;
    }
  }

  /** Every page seen was first popped at its least distance from the seeds through pages read. */
  ghost predicate SeenAtLeastDistance(config: Config, web: Web, c: Crawl) {
    forall v | v in c.seen ::
      && ReachIn(LinksOf(web), Seeds(config), c.read, v, c.seen[v])
      && forall k: nat :: ReachIn(LinksOf(web), Seeds(config), c.read, v, k) ==> c.seen[v] <= k
  }

  /** The pages seen are those a seed leads to through pages read, all links of these included. */
  ghost predicate SawEverything(config: Config, web: Web, c: Crawl) {
    && (forall v :: v in c.seen <==> exists k: nat :: ReachIn(LinksOf(web), Seeds(config), c.read, v, k))
    && forall u, v | u in c.read && LinksTo(web, u, v) :: v in c.seen
  }

  /** Until a link is lost to the cap the crawl is a breadth-first search. */
  lemma SearchesUntilCut(config: Config, web: Web, c: Crawl)
    requires Bfs(LinksOf(web), Seeds(config), c)
    ensures !c.cut ==> SeenAtLeastDistance(config, web, c)
  {
    if c.cut { return; }
    forall v | v in c.seen
      ensures ReachIn(LinksOf(web), Seeds(config), c.read, v, c.seen[v])
      ensures forall k: nat :: ReachIn(LinksOf(web), Seeds(config), c.read, v, k) ==> c.seen[v] <= k
    {
      FirstPopIsShortest(LinksOf(web), Seeds(config), c, v);
    }
  }

  /** And a complete one once its queue is empty. */
  lemma EmptyQueueSawEverything(config: Config, web: Web, c: Crawl)
    requires Bfs(LinksOf(web), Seeds(config), c)
    ensures !c.cut && c.queue == [] ==> SawEverything(config, web, c)
  {
    if c.cut || c.queue != [] { return; }
    forall v ensures v in c.seen <==> exists k: nat :: ReachIn(LinksOf(web), Seeds(config), c.read, v, k) {
      CompletedSawEverything(LinksOf(web), Seeds(config), c, v);
    }
    forall u, v | u in c.read && LinksTo(web, u, v) ensures v in c.seen {
      CompletedSawEverything(LinksOf(web), Seeds(config), c, v);
      assert LinksOf(web)(u, v);
    }
  }

  /** The books after one more pop. */
  lemma BooksAdd(config: Config, web: Web, log: seq<Visit>, t: Tally, start: Start, x: Visit)
    requires JudgedInTurn(config, web, log, start) && Accounts(web, config.maxPagesPerDomain, log, t, start.counts)
    requires start.drafts + t.drafts >= 0
    requires Judged(config, web, x, CountOf(t.counts, web.domain(x.url)), KeysRead(web, log), start.drafts + t.drafts)
    ensures JudgedInTurn(config, web, log + [x], start)
    ensures Accounts(web, config.maxPagesPerDomain, log + [x], Count(web, t, x), start.counts)
    ensures KeysRead(web, log + [x]) == KeysRead(web, log) + if x.outcome.Read? then {KeyOf(web, x.url)} else {}
  {
    JudgedAdds(config, web, log, start, x);
    AccountsAdd(web, config.maxPagesPerDomain, log, t, start.counts, x);
  }

  /** The search after one more pop. */
  lemma SearchAdds(config: Config, web: Web, log: seq<Visit>, c: Crawl, outcome: Outcome, more: seq<Entry>, cut: bool)
    requires c.queue != [] && Bfs(LinksOf(web), Seeds(config), c) && Chronicle(config.maxDepth, log, c)
    requires var u := Defrag(c.queue[0].url);
      && (outcome.AlreadySeen? <==> u in c.seen)
      && (outcome.Read? ==> Appends(web, c.seen.Keys + {u}, u, c.queue[0].depth, more, cut))
    requires outcome.Read? ==> c.queue[0].depth <= config.maxDepth
    requires !outcome.Read? ==> more == []
    ensures Bfs(LinksOf(web), Seeds(config), After(c, outcome, more, cut))
    ensures Chronicle(config.maxDepth, log + [VisitOf(c, outcome)], After(c, outcome, more, cut))
  {
    if outcome.Read? { AppendsFollow(web, c, more, cut); }
    BfsAdds(LinksOf(web), Seeds(config), c, outcome, more, cut);
    ChronicleAdds(config.maxDepth, log, c, outcome, more, cut);
  }
}
