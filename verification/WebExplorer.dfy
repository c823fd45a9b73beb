/** The bounded open-web explorer (packages/agentic_micro_os/web_explorer_loop.py) and the
    store it fills (packages/agentic_micro_os/web_collection_store.py). */
module WebExplorer {
  import opened CrawlSpec
  import opened CrawlBooks
  import opened CrawlRun
  import opened CrawlTheorems
  import opened CrawlLaws
  import opened Wrappers

  class WebCollectionStore {
    var sources: seq<Source>
    var candidateDrafts: seq<Draft>

    constructor ()
      ensures sources == [] && candidateDrafts == []
    {
      sources, candidateDrafts := [], [];
    }

    /** No two sources share a content hash. */
    ghost predicate Valid()
      reads this
    {
      forall i, j | 0 <= i < j < |sources| :: sources[i].contentHash != sources[j].contentHash
    }

    method AddSource(source: Source)
      requires Valid()
      modifies this`sources
      ensures Valid()
      ensures sources == old(sources) || sources == old(sources) + [source]
      ensures exists i :: 0 <= i < |sources| && sources[i].contentHash == source.contentHash
      ensures sources == Added(old(sources), source)
    {
      if exists i :: 0 <= i < |sources| && sources[i].contentHash == source.contentHash {
        return;
      }
      sources := sources + [source];
      assert sources[|sources| - 1] == source;
    }

    method CreateCandidateDraft(source: Source) returns (draft: Draft)
      modifies this`candidateDrafts
      ensures draft == Draft(|old(candidateDrafts)|, source)
      ensures candidateDrafts == old(candidateDrafts) + [draft]
    {
      draft := Draft(|candidateDrafts|, source);
      candidateDrafts := candidateDrafts + [draft];
    }
  }

  datatype RunResult = RunResult(pagesRead: nat, pagesRejected: nat, candidateDraftsCount: nat,
                                 stoppedReason: StopReason)

  class OpenWebExplorerLoop {
    const config: Config
    const web: Web
    const store: WebCollectionStore
    var safetyBlocks: seq<Block>
    var domainCounts: map<string, nat>
    var errors: nat

    constructor (config: Config, web: Web, store: WebCollectionStore)
      ensures this.config == config && this.web == web && this.store == store
      ensures safetyBlocks == [] && domainCounts == map[] && errors == 0
    {
      this.config, this.web, this.store := config, web, store;
      safetyBlocks, domainCounts, errors := [], map[], 0;
    }

    /** Append the relevant, unseen links until the queue holds four entries for each page of the budget. */
    method Enqueue(queue0: seq<Entry>, seen: set<Url>, hrefs: seq<Url>, depth: nat) returns (queue: seq<Entry>)
      ensures queue == queue0 + Appended(web, seen, hrefs, depth, 4 * config.maxPages - |queue0|)
    {
      queue := queue0;
      ghost var cap, more := 4 * config.maxPages, [];
      for i := 0 to |hrefs|
        invariant queue == queue0 + more
        invariant more + Appended(web, seen, hrefs[i..], depth, cap - |queue|)
                  == Appended(web, seen, hrefs, depth, cap - |queue0|)
      {
        if |queue| >= config.maxPages * 4 { break; }
        var link := Defrag(hrefs[i]);
        assert hrefs[i..][0] == hrefs[i] && hrefs[i..][1..] == hrefs[i + 1..];
        if Relevant(web, link) && link !in seen {
          queue := queue + [Entry(link, depth + 1)];
          more := more + [Entry(link, depth + 1)];
        }
      }
    }

    /** Store a page that passed every guard; a draft is made while the budget lasts. */
    method Keep(url: Url, source: Source) returns (drafted: bool)
      requires store.Valid()
      modifies this`safetyBlocks, this`domainCounts, store
      ensures store.Valid() && store.sources == Added(old(store.sources), source)
      ensures domainCounts == old(domainCounts)[web.domain(url) := CountOf(old(domainCounts), web.domain(url)) + 1]
      ensures drafted <==> web.draftAllowed(url) && |old(store.candidateDrafts)| < config.maxCandidateDrafts
      ensures store.candidateDrafts ==
              old(store.candidateDrafts) + if drafted then [Draft(|old(store.candidateDrafts)|, source)] else []
      ensures safetyBlocks == if drafted then old(safetyBlocks) else old(safetyBlocks) + [NoDraft(url)]
    {
      store.AddSource(source);
      domainCounts := domainCounts[web.domain(url) := CountOf(domainCounts, web.domain(url)) + 1];
      if web.draftAllowed(url) && |store.candidateDrafts| < config.maxCandidateDrafts {
        var draft := store.CreateCandidateDraft(source);
        return true;
      }
      safetyBlocks := safetyBlocks + [NoDraft(url)];
      return false;
    }

    /** The fields are those of the books. */
    ghost predicate Holds(b: Books)
      reads this, store
    {
      && store.Valid() && safetyBlocks == b.blocks && domainCounts == b.counts && errors == b.errors
      && store.sources == b.sources && store.candidateDrafts == b.drafts
    }

    /** One page popped for the first time: all guards, then the store and the queue. */
    method Handle(queue0: seq<Entry>, seenUrls: set<Url>, hashes0: set<string>, url: Url, depth: nat, ghost b: Books)
      returns (outcome: Outcome, queue: seq<Entry>, hashes: set<string>)
      requires Holds(b) && hashes0 == b.hashes
      requires b.crawl.queue != [] && queue0 == b.crawl.queue[1..]
      requires url == HeadOf(b) && depth == b.crawl.queue[0].depth
      requires url !in b.crawl.seen && seenUrls == b.crawl.seen.Keys + {url}
      modifies this, store
      ensures Holds(PopOne(config, web, b)) && hashes == PopOne(config, web, b).hashes
      ensures outcome == OutcomeOf(config, web, b) && queue == queue0 + MoreOf(config, web, b)
    {
      queue, hashes := queue0, hashes0;
      var verdict := Inspect(config, web, url, depth, CountOf(domainCounts, web.domain(url)), hashes);
      match verdict {
        case Reject(block, fetched) =>
          PopOfRejected(config, web, b);
          safetyBlocks := safetyBlocks + [block];
          if block.FetchError? { errors := errors + 1; }
          outcome := Rejected(fetched);
        case Accept(contentKey, source, hrefs) =>
          PopOfAccepted(config, web, b);
          hashes := hashes + {contentKey};
          var drafted := Keep(url, source);
          queue := Enqueue(queue, seenUrls, hrefs, depth);
          outcome := Read(drafted);
      }
    }

    /** The loop's variables and the fields are those of the books. */
    ghost predicate InStep(queue: seq<Entry>, seenUrls: set<Url>, hashes: set<string>, readCount: nat,
                           rejectedCount: nat, b: Books)
      reads this, store
    {
      && Holds(b) && queue == b.crawl.queue && seenUrls == b.crawl.seen.Keys && hashes == b.hashes
      && readCount == Reads(b.log) && rejectedCount == Rejections(b.log)
    }

    /** Pop the head of the queue; handle it unless it was seen before. */
    method Pop(queue0: seq<Entry>, seen0: set<Url>, hashes0: set<string>, readCount0: nat, rejectedCount0: nat,
               ghost b: Books)
      returns (failed: bool, queue: seq<Entry>, seen: set<Url>, hashes: set<string>, readCount: nat, rejectedCount: nat)
      requires InStep(queue0, seen0, hashes0, readCount0, rejectedCount0, b) && queue0 != []
      modifies this, store
      ensures InStep(queue, seen, hashes, readCount, rejectedCount, PopOne(config, web, b))
      ensures failed <==> FetchFailed(web, VisitOf(b.crawl, OutcomeOf(config, web, b)))
    {
      var url, depth := Defrag(queue0[0].url), queue0[0].depth;
      PopLogs(config, web, b);
      queue, seen, hashes := queue0[1..], seen0, hashes0;
      readCount, rejectedCount := readCount0, rejectedCount0;
      if url in seen {
        PopOfRepeat(config, web, b);
        return false, queue, seen, hashes, readCount, rejectedCount;
      }
      PopOfNew(config, web, b);
      var before, outcome := errors, AlreadySeen;
      seen := seen + {url};
      outcome, queue, hashes := Handle(queue, seen, hashes, url, depth, b);
      if outcome.Read? { readCount := readCount + 1; } else { rejectedCount := rejectedCount + 1; }
      failed := errors > before;
    }

    /** The two checks at the top of the loop. */
    function BudgetStop(readCount: nat, tick: nat): StopReason {
      if readCount >= config.maxPages then MaxPages
      else if web.elapsed(tick) > config.maxRuntimeSec then MaxRuntime
      else Completed
    }

    /** The crawl itself, once reading is allowed. */
    method Explore(ghost s: Books) returns (readCount: nat, rejectedCount: nat, stop: StopReason)
      requires IsOpening(config, s) && Holds(s)
      modifies this, store
      ensures var b := Explored(config, web, s);
        && Holds(b) && readCount == Reads(b.log) && rejectedCount == Rejections(b.log)
        && StopOf(config, web, b) == Some(stop)
    {
      var queue := StartQueue(Seeds(config));
      var seenUrls: set<Url>, contentHashes: set<string> := {}, {};
      var tick: nat := 0;
      readCount, rejectedCount, stop := 0, 0, Completed;
      ghost var b := s;

      while queue != [] && stop == Completed
        invariant InStep(queue, seenUrls, contentHashes, readCount, rejectedCount, b) && tick == |b.log|
        invariant Explored(config, web, b) == Explored(config, web, s)
        invariant stop == RepeatedErrors <==> StopOf(config, web, b) == Some(RepeatedErrors)
        invariant stop == Completed || stop == RepeatedErrors
        decreases Max(0, config.maxPages) - readCount, |queue|
      {
        stop := BudgetStop(readCount, tick);
        if stop != Completed { break; }
        tick := tick + 1;
        PopProgresses(config, web, b);
        var failed;
        failed, queue, seenUrls, contentHashes, readCount, rejectedCount :=
          Pop(queue, seenUrls, contentHashes, readCount, rejectedCount, b);
        b := PopOne(config, web, b);
        if failed && errors >= config.maxErrors { stop := RepeatedErrors; }
      }
    }

    method Run() returns (r: RunResult)
      requires store.Valid()
      modifies this, store
      ensures store.Valid() && r.candidateDraftsCount == |store.candidateDrafts|
      ensures !web.readCapability ==>
        && r == RunResult(0, 0, |old(store.candidateDrafts)|, CapabilityDenied)
        && safetyBlocks == old(safetyBlocks) + [ReadDenied, ProductionWriteBlocked]
        && store.sources == old(store.sources) && store.candidateDrafts == old(store.candidateDrafts)
        && domainCounts == old(domainCounts) && errors == old(errors)
      ensures web.readCapability ==>
        var s := Opening(config, old(domainCounts), old(store.sources), old(store.candidateDrafts), old(safetyBlocks),
                         old(errors));
        var b := Explored(config, web, s);
        && EndsWell(config, web)(s, b, r.stoppedReason)
        && r.pagesRead == Reads(b.log) && r.pagesRejected == Rejections(b.log)
        && safetyBlocks == b.blocks + [ProductionWriteBlocked]
        && store.sources == b.sources && store.candidateDrafts == b.drafts
        && domainCounts == b.counts && errors == b.errors
    {
      var readCount: nat, rejectedCount: nat, stop := 0, 0, CapabilityDenied;
      if web.readCapability {
        ghost var s := Opening(config, domainCounts, store.sources, store.candidateDrafts, safetyBlocks, errors);
        readCount, rejectedCount, stop := Explore(s);
        RunStopsOnTime(config, web, s, stop);
      } else {
        safetyBlocks := safetyBlocks + [ReadDenied];
      }
      safetyBlocks := safetyBlocks + [ProductionWriteBlocked];
      r := RunResult(readCount, rejectedCount, |store.candidateDrafts|, stop);
    }
  }
}
