/** The open-web crawl as a breadth-first search: the order of its queue, the depth it gives
    each page, and what it has seen when it completes. */
module CrawlSpec {
  /** A URL and its fragment; `urldefrag` drops the fragment. */
  datatype Url = Url(page: string, fragment: string)

  function Defrag(u: Url): Url { Url(u.page, "") }

  datatype Page =
    | FetchFails
    | Fetched(isHtml: bool, contentKey: string, sourceHash: string, finalUrl: Url, hrefs: seq<Url>)

  /** Everything outside the loop, arbitrary: pages, policy, robots, drafts and the clock. */
  datatype Web = Web(
    fetch: Url -> Page,
    policyAllows: Url -> bool,
    deniedPattern: Url -> bool,
    robotsAllow: Url -> bool,
    domain: Url -> string,
    draftAllowed: Url -> bool,
    elapsed: nat -> int,
    readCapability: bool)

  /** `_link_relevant`: allowed, or matching a denied pattern so that its rejection is logged. */
  predicate Relevant(web: Web, link: Url) {
    web.policyAllows(link) || web.deniedPattern(link)
  }

  predicate LinksTo(web: Web, u: Url, v: Url) {
    match web.fetch(u)
    case FetchFails => false
    case Fetched(_, _, _, _, hrefs) => Relevant(web, v) && exists h | h in hrefs :: Defrag(h) == v
  }

  /** Which pages point to which: all the search below needs of the web. */
  type Links = (Url, Url) -> bool

  function LinksOf(web: Web): Links {
    (u, v) => LinksTo(web, u, v)
  }

  datatype Entry = Entry(url: Url, depth: nat)

  /** `seen` maps a URL to the depth it was first popped at; `cut` records whether the queue cap
      ever kept a relevant link to an unseen page out. */
  datatype Crawl = Crawl(queue: seq<Entry>, seen: map<Url, nat>, read: set<Url>, cut: bool)

  /** The `i`-th page of the chain was read and links to the next. */
  predicate LeadsOn(to: Links, read: set<Url>, chain: seq<Url>, i: nat)
    requires i + 1 < |chain|
  {
    chain[i] in read && to(chain[i], chain[i + 1])
  }

  /** Consecutive relevant links from a seed on, every page but the last one actually read. */
  ghost predicate IsChain(to: Links, seeds: seq<Url>, read: set<Url>, chain: seq<Url>) {
    && chain != [] && (exists s | s in seeds :: Defrag(s) == chain[0])
    && forall i: nat | i + 1 < |chain| :: LeadsOn(to, read, chain, i)
  }

  /** `v` is `k` links away from a seed. */
  ghost predicate ReachIn(to: Links, seeds: seq<Url>, read: set<Url>, v: Url, k: nat) {
    exists chain :: IsChain(to, seeds, read, chain) && |chain| == k + 1 && chain[k] == v
  }

  lemma ReachMonotone(to: Links, seeds: seq<Url>, read: set<Url>, more: set<Url>, v: Url, k: nat)
    requires read <= more && ReachIn(to, seeds, read, v, k)
    ensures ReachIn(to, seeds, more, v, k)
  {
    var chain :| IsChain(to, seeds, read, chain) && |chain| == k + 1 && chain[k] == v;
    forall i: nat | i + 1 < |chain| ensures LeadsOn(to, more, chain, i) {
      assert LeadsOn(to, read, chain, i);
    }
    assert IsChain(to, seeds, more, chain);
  }

  lemma ReachStep(to: Links, seeds: seq<Url>, read: set<Url>, u: Url, v: Url, k: nat)
    requires ReachIn(to, seeds, read, u, k) && u in read && to(u, v)
    ensures ReachIn(to, seeds, read, v, k + 1)
  {
    var chain :| IsChain(to, seeds, read, chain) && |chain| == k + 1 && chain[k] == u;
    var longer := chain + [v];
    forall i: nat | i + 1 < |longer| ensures LeadsOn(to, read, longer, i) {
      if i < k { assert LeadsOn(to, read, chain, i); }
    }
    assert IsChain(to, seeds, read, longer);
  }

  lemma ReachSeed(to: Links, seeds: seq<Url>, read: set<Url>, s: Url)
    requires s in seeds
    ensures ReachIn(to, seeds, read, Defrag(s), 0)
  {
    assert IsChain(to, seeds, read, [Defrag(s)]);
  }

  // ------------------------------------------------------------ the invariant

  /** The queue is sorted by depth, spans at most two levels, and lies beyond everything seen. */
  ghost predicate Levelled(c: Crawl) {
    && (forall i, j | 0 <= i < j < |c.queue| :: c.queue[i].depth <= c.queue[j].depth <= c.queue[i].depth + 1)
    && (forall u, e | u in c.seen && e in c.queue :: c.seen[u] <= e.depth)
  }

  /** Depths are lengths of real link chains. */
  ghost predicate Grounded(to: Links, seeds: seq<Url>, c: Crawl) {
    && c.read <= c.seen.Keys
    && (forall u {:trigger c.seen[u]} | u in c.seen :: ReachIn(to, seeds, c.read, u, c.seen[u]))
    && forall e | e in c.queue :: ReachIn(to, seeds, c.read, Defrag(e.url), e.depth)
  }

  /** `v` was popped no later than depth `k`, or is waiting no deeper than that. */
  ghost predicate Due(c: Crawl, v: Url, k: nat) {
    || (v in c.seen && c.seen[v] <= k)
    || exists e | e in c.queue :: Defrag(e.url) == v && e.depth <= k
  }

  /** Nothing that a seed or a read page points to has been forgotten. */
  ghost predicate Complete(to: Links, seeds: seq<Url>, c: Crawl)
    requires c.read <= c.seen.Keys
  {
    && (forall s | s in seeds :: Due(c, Defrag(s), 0))
    && forall u, v | u in c.read && to(u, v) :: Due(c, v, c.seen[u] + 1)
  }

  ghost predicate Bfs(to: Links, seeds: seq<Url>, c: Crawl) {
    Levelled(c) && Grounded(to, seeds, c) && (!c.cut ==> Complete(to, seeds, c))
  }

  function StartQueue(seeds: seq<Url>): seq<Entry> {
    seq(|seeds|, i requires 0 <= i < |seeds| => Entry(seeds[i], 0))
  }

  lemma BfsStart(to: Links, seeds: seq<Url>)
    ensures Bfs(to, seeds, Crawl(StartQueue(seeds), map[], {}, false))
  {
    forall s | s in seeds ensures ReachIn(to, seeds, {}, Defrag(s), 0) { ReachSeed(to, seeds, {}, s); }
    var c := Crawl(StartQueue(seeds), map[], {}, false);
    forall s | s in seeds ensures Due(c, Defrag(s), 0) {
      var i :| 0 <= i < |seeds| && seeds[i] == s;
      assert c.queue[i] == Entry(s, 0);
    }
  }

  /** What popping the head leaves: its page is seen, at its depth unless it already was. */
  function Popped(c: Crawl): Crawl
    requires c.queue != []
  {
    var u := Defrag(c.queue[0].url);
    Crawl(c.queue[1..], if u in c.seen then c.seen else c.seen[u := c.queue[0].depth], c.read, c.cut)
  }

  lemma PopKeepsDue(c: Crawl, v: Url, k: nat)
    requires c.queue != [] && Levelled(c) && Due(c, v, k)
    ensures Due(Popped(c), v, k)
  {
    assert c.queue[0] in c.queue;
    if !(v in c.seen && c.seen[v] <= k) {
      var e :| e in c.queue && Defrag(e.url) == v && e.depth <= k;
      if e != c.queue[0] { assert e in c.queue[1..]; }
    }
  }

  lemma PopKeepsComplete(to: Links, seeds: seq<Url>, c: Crawl)
    requires c.queue != [] && Levelled(c) && c.read <= c.seen.Keys && Complete(to, seeds, c)
    ensures Complete(to, seeds, Popped(c))
  {
    var d := Popped(c);
    forall s | s in seeds ensures Due(d, Defrag(s), 0) { PopKeepsDue(c, Defrag(s), 0); }
    forall u, v | u in d.read && to(u, v) ensures Due(d, v, d.seen[u] + 1) {
      PopKeepsDue(c, v, c.seen[u] + 1);
    }
  }

  lemma PopKeepsLevelled(c: Crawl)
    requires c.queue != [] && Levelled(c)
    ensures Levelled(Popped(c))
  {
    var d, head := Popped(c), c.queue[0];
    assert head in c.queue;
    forall i, j | 0 <= i < j < |d.queue| ensures d.queue[i].depth <= d.queue[j].depth <= d.queue[i].depth + 1 {
      assert d.queue[i] == c.queue[i + 1] && d.queue[j] == c.queue[j + 1];
    }
    forall u, e | u in d.seen && e in d.queue ensures d.seen[u] <= e.depth {
      RestIsDeeper(c, e);
    }
  }

  lemma RestIsDeeper(c: Crawl, e: Entry)
    requires c.queue != [] && Levelled(c) && e in c.queue[1..]
    ensures e in c.queue && c.queue[0].depth <= e.depth <= c.queue[0].depth + 1
  {
    var i :| 0 <= i < |c.queue[1..]| && c.queue[1..][i] == e;
    assert c.queue[i + 1] == e;
  }

  lemma PopKeepsBfs(to: Links, seeds: seq<Url>, c: Crawl)
    requires c.queue != [] && Bfs(to, seeds, c)
    ensures Bfs(to, seeds, Popped(c))
  {
    PopKeepsLevelled(c);
    PopKeepsGrounded(to, seeds, c);
    if !c.cut { PopKeepsComplete(to, seeds, c); }
  }

  lemma PopKeepsGrounded(to: Links, seeds: seq<Url>, c: Crawl)
    requires c.queue != [] && Grounded(to, seeds, c)
    ensures Grounded(to, seeds, Popped(c))
  {
    assert c.queue[0] in c.queue;
    assert forall e | e in Popped(c).queue :: e in c.queue;
  }

  /** Reading `u` appends `more`, one level below it. */
  function Extended(c: Crawl, u: Url, more: seq<Entry>, cutNow: bool): Crawl {
    Crawl(c.queue + more, c.seen, c.read + {u}, c.cut || cutNow)
  }

  /** `more` are relevant links of `u`, one level deeper; if not cut short, all the unseen ones. */
  ghost predicate Follows(to: Links, c: Crawl, u: Url, more: seq<Entry>, cutNow: bool)
    requires u in c.seen
  {
    && (forall e | e in more :: e.depth == c.seen[u] + 1 && Defrag(e.url) == e.url && to(u, e.url))
    && (!cutNow ==> forall v | to(u, v) :: v in c.seen || Entry(v, c.seen[u] + 1) in more)
  }

  lemma ReadKeepsLevelled(to: Links, c: Crawl, u: Url, more: seq<Entry>, cutNow: bool)
    requires Levelled(c) && u in c.seen && Follows(to, c, u, more, cutNow)
    requires forall v | v in c.seen :: c.seen[v] <= c.seen[u]
    requires forall e | e in c.queue :: e.depth <= c.seen[u] + 1
    ensures Levelled(Extended(c, u, more, cutNow))
  {
    var q := c.queue + more;
    forall i, j | 0 <= i < j < |q| ensures q[i].depth <= q[j].depth <= q[i].depth + 1 {
      if i < |c.queue| {
        assert c.queue[i] in c.queue && c.seen[u] <= c.queue[i].depth <= c.seen[u] + 1;
      } else {
        assert q[i] in more;
      }
      if j >= |c.queue| { assert q[j] in more; }
    }
  }

  lemma ReadKeepsGrounded(to: Links, seeds: seq<Url>, c: Crawl, u: Url, more: seq<Entry>, cutNow: bool)
    requires Grounded(to, seeds, c) && u in c.seen && Follows(to, c, u, more, cutNow)
    ensures Grounded(to, seeds, Extended(c, u, more, cutNow))
  {
    var d := Extended(c, u, more, cutNow);
    forall v | v in d.seen ensures ReachIn(to, seeds, d.read, v, d.seen[v]) {
      ReachMonotone(to, seeds, c.read, d.read, v, c.seen[v]);
    }
    forall e | e in d.queue ensures ReachIn(to, seeds, d.read, Defrag(e.url), e.depth) {
      if e in c.queue {
        ReachMonotone(to, seeds, c.read, d.read, Defrag(e.url), e.depth);
      } else {
        assert e in more;
        StepBehind(to, seeds, c.read, u, e.url, c.seen[u]);
      }
    }
  }

  /** A link of a page just read is one step further than the page. */
  lemma StepBehind(to: Links, seeds: seq<Url>, read: set<Url>, u: Url, v: Url, k: nat)
    requires ReachIn(to, seeds, read, u, k) && to(u, v)
    ensures ReachIn(to, seeds, read + {u}, v, k + 1)
  {
    ReachMonotone(to, seeds, read, read + {u}, u, k);
    ReachStep(to, seeds, read + {u}, u, v, k);
  }

  lemma ReadKeepsComplete(to: Links, seeds: seq<Url>, c: Crawl, u: Url, more: seq<Entry>)
    requires c.read <= c.seen.Keys && Complete(to, seeds, c) && u in c.seen && Follows(to, c, u, more, false)
    requires forall v | v in c.seen :: c.seen[v] <= c.seen[u]
    ensures Complete(to, seeds, Extended(c, u, more, false))
  {
    var d := Extended(c, u, more, false);
    forall v, k | Due(c, v, k) ensures Due(d, v, k) {
      if !(v in c.seen && c.seen[v] <= k) {
        var e :| e in c.queue && Defrag(e.url) == v && e.depth <= k;
        assert e in d.queue;
      }
    }
    forall x, v | x in d.read && to(x, v) ensures Due(d, v, d.seen[x] + 1) {
      if x in c.read {
        assert Due(c, v, c.seen[x] + 1);
      } else if v !in c.seen {
        var e := Entry(v, c.seen[u] + 1);
        assert e in more && e in d.queue && Defrag(e.url) == v;
      }
    }
  }

  lemma ReadKeepsBfs(to: Links, seeds: seq<Url>, c: Crawl, u: Url, more: seq<Entry>, cutNow: bool)
    requires Bfs(to, seeds, c) && u in c.seen && Follows(to, c, u, more, cutNow)
    requires forall v | v in c.seen :: c.seen[v] <= c.seen[u]
    requires forall e | e in c.queue :: e.depth <= c.seen[u] + 1
    ensures Bfs(to, seeds, Extended(c, u, more, cutNow))
  {
    ReadKeepsLevelled(to, c, u, more, cutNow);
    ReadKeepsGrounded(to, seeds, c, u, more, cutNow);
    if !c.cut && !cutNow { ReadKeepsComplete(to, seeds, c, u, more); }
  }

  // --------------------------------------------------------------- theorems

  lemma {:induction false} ChainIsDue(to: Links, seeds: seq<Url>, c: Crawl, chain: seq<Url>)
    requires Levelled(c) && c.read <= c.seen.Keys && Complete(to, seeds, c)
    requires IsChain(to, seeds, c.read, chain)
    ensures Due(c, chain[|chain| - 1], |chain| - 1)
  {
    if |chain| == 1 {
      var s :| s in seeds && Defrag(s) == chain[0];
      assert Due(c, Defrag(s), 0);
    } else {
      var k := |chain| - 2;
      var u, v := chain[k], chain[k + 1];
      var shorter := chain[..k + 1];
      assert LeadsOn(to, c.read, chain, k);
      forall i: nat | i + 1 < |shorter| ensures LeadsOn(to, c.read, shorter, i) {
        assert LeadsOn(to, c.read, chain, i);
      }
      assert IsChain(to, seeds, c.read, shorter);
      ChainIsDue(to, seeds, c, shorter);
      SeenIsEarliest(c, u, k);
      DueLater(c, v, c.seen[u] + 1, k + 1);
    }
  }

  lemma DueLater(c: Crawl, v: Url, k: nat, m: nat)
    requires Due(c, v, k) && k <= m
    ensures Due(c, v, m)
  {
  }

  lemma ReachIsDue(to: Links, seeds: seq<Url>, c: Crawl, v: Url, k: nat)
    requires Bfs(to, seeds, c) && !c.cut && ReachIn(to, seeds, c.read, v, k)
    ensures Due(c, v, k)
  {
    var chain :| IsChain(to, seeds, c.read, chain) && |chain| == k + 1 && chain[k] == v;
    ChainIsDue(to, seeds, c, chain);
  }

  lemma SeenIsEarliest(c: Crawl, v: Url, k: nat)
    requires Levelled(c) && v in c.seen && Due(c, v, k)
    ensures c.seen[v] <= k
  {
  }

  /** Unless the queue cap cut a list, a page is first popped at its least distance from the
      seeds through the pages actually read. */
  lemma FirstPopIsShortest(to: Links, seeds: seq<Url>, c: Crawl, v: Url)
    requires Bfs(to, seeds, c) && !c.cut && v in c.seen
    ensures ReachIn(to, seeds, c.read, v, c.seen[v])
    ensures forall k: nat :: ReachIn(to, seeds, c.read, v, k) ==> c.seen[v] <= k
  {
    forall k: nat | ReachIn(to, seeds, c.read, v, k) ensures c.seen[v] <= k {
      ReachIsDue(to, seeds, c, v, k);
      SeenIsEarliest(c, v, k);
    }
  }

  /** A crawl that ran its queue empty without a cut has popped exactly what is reachable
      through the pages it read. */
  lemma CompletedSawEverything(to: Links, seeds: seq<Url>, c: Crawl, v: Url)
    requires Bfs(to, seeds, c) && !c.cut && c.queue == []
    ensures v in c.seen <==> exists k: nat :: ReachIn(to, seeds, c.read, v, k)
    ensures forall u | u in c.read && to(u, v) :: v in c.seen
  {
    if v in c.seen { assert ReachIn(to, seeds, c.read, v, c.seen[v]); }
    forall k: nat | ReachIn(to, seeds, c.read, v, k) ensures v in c.seen {
      ReachIsDue(to, seeds, c, v, k);
    }
    forall u | u in c.read && to(u, v) ensures v in c.seen {
      assert Due(c, v, c.seen[u] + 1);
    }
  }
}
