# ATANOR verification models

A Dafny model of the parts of ATANOR that make decisions step by step, with proofs of what those
decisions guarantee. `dafny verify dfyconfig.toml` checks everything.

| file | what it models |
|---|---|
| `Wrappers`, `TextSearch`, `Ordering`, `Rounding`, `Graph` | shared small types, substrings, identifier order, Python's `round`, and weighted walks: the vocabulary the router is judged in |
| `RouterModel`, `RouterSearch`, `RouterRun`, `RouterSpec`, `Router`, `RouterTheorems`, `RouterTraps`, `RouterLaws` | the Atlas trust router: policy-gated Dijkstra with lazy deletion, re-pushes on ties, a lexicographic tie-break and an early stop |
| `CrawlSpec`, `CrawlBooks`, `CrawlRun`, `CrawlTheorems`, `CrawlLaws`, `WebExplorer` | the bounded open-web explorer: a breadth-first search over an arbitrary web, its books, its loop as a function of its start, and the objects that run it and the store they fill |
| `GateSpec`, `GateLaws`, `PermissionGate` | the tiered permission gate: expiring session, signed delegations, audit log, counters, emergency latch |
| `PatchSpec`, `PatchTheorems`, `PatchLaws`, `PatchExample`, `ScopedPatchExecutor` | plan, apply and roll back text patches over a file map, under that gate |
| `TextNormaliser` | the space branch of the shield's normaliser and the printer it undoes |
| `DriftMonitor` | the CUSUM of the measurement drift monitor, its baseline and its verdict |
| `TemporalVerdict` | the interval consistency check |
| `DurableIngest` | idempotent ingest of fact rows |
| `EvidenceLedger` | the host-voiced evidence ledger |
| `EvolutionWorld`, `WorldLaws` | the chemotaxis arena |
| `ReviewQueue`, `ReviewLaws` | the review queue |

Where the source updates fields, the model is a class whose methods are proved against a pure
specification (`GateSpec`, `PatchSpec`, `CrawlRun`, `IngestRow`, `Fold`, `Steps`); the theorems are
lemmas about those specifications, for every input, every run and every oracle. The modules whose names
end in `Laws` say what the specifications mean in terms of the inputs alone: nodes, policies, switches,
texts and numbers, without the names of the functions they are about.

How to read the models:

- Router costs are whole numbers of 1e-9, which is where `round(cost, 9)` puts them, so the
  additions of the main loop are exact. Identifiers are strings compared by code point. The heap
  is a multiset of (cost, node) entries of which the least is popped.
- `NeverReturns` is what the model of the back-walk answers where the source's loop would go round
  a closed chain of `previous` for ever. That the back-walk ends is false in general
  (`RouterTraps.RouterCanRunForEver` names inputs that the validating constructors accept);
  it is proved to end whenever no admitted closed walk is free, in particular when every admitted
  edge costs something; on every graph it fails exactly when a closed chain of `previous` leads into
  the target, and for targets that no free edge enters that is a closed chain of least tight edges.
- `Strict` says that no admitted edge enters the target for free. Then every edge of the
  path is the least tight one into its head; otherwise the early stop may leave a free edge into
  the target untried. Determinism and independence of the edge order hold without it.
- Fetching, robots rules, link extraction, elapsed time and the answers of the capability kernel
  and the brain road are arbitrary functions given to the explorer. The clock is a monotone
  sequence of readings. Path resolution, lower-casing, hashes, fresh ids and the size of a diff
  are arbitrary functions given to the patch executor, of which only freshness of the ids actually drawn is assumed.
  Canonical hashing, the sentence gate (of the whole payload: text, source id, license and source
  type) and decomposition are functions given to the ingester, the judge to the
  ledger, lower-casing of characters and the tokens of titles to the review queue, the net and the random draws to the arena.
- Patch texts are sequences of characters. `plan` reads raw bytes while `apply` and `rollback`
  read with newline translation; both readings are modelled, and exact restoration is proved to
  hold exactly for texts without carriage returns. A nested history needs nothing of its
  replacement texts or of files it does not patch.
- A patch whose expected old text holds a carriage return can be applied and replaces nothing: `plan`
  finds the text in the raw file, `apply` looks for it after the line ends were translated. An
  applied patch does replace if and only if its old text holds no carriage return
  (`PatchLaws.AppliedText`; `PatchExample.CarriageReturnReplacesNothing` names an input).
- The docstring of `to_gate_items` (packages/atanor_browser/browser_ingest.py:112) puts the
  confidence at 0.5 for `min_hosts` voices; the code gives 0.6 there, and the model follows it.
- Promotion of a triple needs a judge verdict other than `contradicted` and `type_conflict`;
  `Judge` in the ledger is that test.

## Model

| member | source | states |
|---|---|---|
| `Rounding.HalfEvenNear` | packages/atlas_router/cost.py:64 | rounding to the cost grid moves a cost by at most half a unit |
| `Rounding.HalfEvenMonotone` | packages/atlas_router/cost.py:64 | rounding never reverses the order of two costs |
| `RouterModel.LooserAdmitsMore` | packages/atlas_router/cost.py:35-49 | opening any gate only adds admitted edges, at unchanged cost |
| `RouterModel.DiscountBounds` | packages/atlas_router/cost.py:51-64 | the local discount never blocks an edge or raises its cost and keeps nine tenths of it up to one unit |
| `Router.SortEdges` | packages/atlas_router/dijkstra.py:28 | sorting keeps every edge with its multiplicity |
| `RouterTheorems.SortSorts` | packages/atlas_router/dijkstra.py:28 | the result is sorted by (source, target, edge id) |
| `RouterTheorems.SortedIsUnique` | packages/atlas_router/dijkstra.py:28 | edge lists whose keys identify edges have one sorted order |
| `Router.NodeMapOf` | packages/atlas_router/dijkstra.py:11-15 | the dictionary knows exactly the ids of the list and maps each to a node of the list with that id |
| `Router.BuildNodeMap` | packages/atlas_router/dijkstra.py:11-15 | the loop builds that dictionary, a later node replacing an earlier one |
| `Router.BuildAdjacency` | packages/atlas_router/dijkstra.py:34-48 | adjacency lists hold exactly the admitted edges, each under its source; every other edge is reported blocked, once, in order, with the gate's reason |
| `Router.PopLeast` | packages/atlas_router/dijkstra.py:56 | a heap entry that no other precedes by (cost, node) is removed, once |
| `Router.Relax` | packages/atlas_router/dijkstra.py:62-74 | the distance becomes the lower of the old and the offer; distance, predecessor and heap change exactly when the offer is lower, or equal with a smaller (predecessor, edge id), and then one entry is pushed |
| `Router.Expand` | packages/atlas_router/dijkstra.py:61-74 | after the inner loop no edge out of the popped node offers its target a lower distance or a smaller tie, the labels only moved forward, and each moved label comes from such an edge |
| `Router.Search` | packages/atlas_router/dijkstra.py:50-76 | the loop ends for all costs, zero included; the target is labelled with its least walk cost by the run the graph decides, or no admitted walk reaches it |
| `RouterSearch.TakeIsLater` | packages/atlas_router/dijkstra.py:66-74 | every push, ties and free edges included, strictly lowers the (distance, predecessor rank) measure or labels a new node |
| `RouterSearch.TakeSound` | packages/atlas_router/dijkstra.py:68-73 | a push keeps every distance the cost of a real admitted walk and every predecessor an admitted edge that accounts for it; the source is never re-entered |
| `RouterSearch.TakeRelaxed` | packages/atlas_router/dijkstra.py:68-73 | a push leaves no settled edge with a better offer, though the label it was compared with may have moved |
| `RouterSearch.TakeQueued` | packages/atlas_router/dijkstra.py:72-74 | after a push every unsettled node is still queued under its current distance, whatever stale entries remain |
| `RouterSearch.ExpandStep` | packages/atlas_router/dijkstra.py:61-74 | the invariant of the inner loop over one edge, taken or not |
| `RouterSearch.SkipKeeps` | packages/atlas_router/dijkstra.py:57-58 | dropping a stale entry loses no queued node |
| `RouterSearch.WalkBound` | packages/atlas_router/dijkstra.py:55-74 | a walk either ends at a node whose label is at most its cost or costs at least the frontier |
| `RouterSearch.SettledIsShortest` | packages/atlas_router/dijkstra.py:55-60 | when the loop stops at the target, every label not above the target's is the least walk cost |
| `RouterSearch.ParentIsLeast` | packages/atlas_router/dijkstra.py:67-73 | `previous` of a node below the target is the least (node, edge id) among all edges lying on a cheapest walk into it |
| `RouterSearch.ParentWalkCanonical` | packages/atlas_router/dijkstra.py:92-97 | a chain of `previous` into a target that no free edge enters uses only such least edges |
| `Router.WalkBack` | packages/atlas_router/dijkstra.py:90-106 | the reconstruction yields one simple cheapest walk with its nodes, edge ids and cost, or is caught in a free closed chain that leads into the target |
| `Router.FindLowestTrustCostPath` | packages/atlas_router/dijkstra.py:18-112 | bad inputs raise in the order of the source; otherwise the route is a cheapest admitted walk, `no_route` means there is none, and blocked edges and the working-memory flag are right |
| `Graph.PotentialBound` | packages/atlas_router/dijkstra.py:68-73 | a labelling that no edge can lower bounds every walk from below |
| `Graph.Backwards` | packages/atlas_router/dijkstra.py:92-99 | following one predecessor for each node, there is one walk from the source into a node, and no other walk into it is longer |
| `Graph.NoWalkAndLasso` | packages/atlas_router/dijkstra.py:92-99 | following one predecessor for each node, a walk from the source and a closed chain cannot both lead into the target |
| `Graph.LeastTightUnique` | packages/atlas_router/dijkstra.py:67-73 | the least tight edge into a node is unique, its cost included |
| `RouterRun.ExpandedUnique` | packages/atlas_router/dijkstra.py:61-74 | the labels after a node is expanded do not depend on the order in which its edges are tried |
| `RouterRun.CameBack` | packages/atlas_router/dijkstra.py:57-74 | expanding a node a second time, after a re-push on a tie, changes no label |
| `RouterRun.PicksUnique` | packages/atlas_router/dijkstra.py:56 | the node expanded next is determined by the labels |
| `RouterRun.FinalUnique` | packages/atlas_router/dijkstra.py:50-74 | the graph decides with which labels the search stops at the target |
| `RouterRun.ChosenNotBoth` | packages/atlas_router/dijkstra.py:92-97 | `previous` cannot both lead from the target to the source and go round in circles |
| `Router.RunGoesOn` | packages/atlas_router/dijkstra.py:55-74 | each expansion of the loop, stale and repeated entries included, is the next step of that run or none |
| `RouterSpec.ReturnsExactly` | packages/atlas_router/dijkstra.py:76-112 | on every graph a route is returned exactly when `previous` leads back to the source, and the loop never ends exactly when a closed chain of it leads into the target |
| `RouterSpec.ReturnsWithoutFreeCycles` | packages/atlas_router/dijkstra.py:76-112 | without free closed walks the router returns, with a route exactly when one exists |
| `RouterSpec.ReturnsWithoutFreeTightCircle` | packages/atlas_router/dijkstra.py:76-112 | on every graph: unless a free closed chain of tight edges leads into the target, the router returns, with a route exactly when one exists; free cycles elsewhere do no harm |
| `RouterSpec.NoFreeCycleNoCircle` | packages/atlas_router/dijkstra.py:76-112 | without free closed walks there is no such chain |
| `RouterSpec.NeverReturnsExactly` | packages/atlas_router/dijkstra.py:92-97 | for targets no free edge enters, the back-walk fails to end if and only if a closed chain of least tight edges leads into the target |
| `RouterSpec.AnswerIsDetermined` | packages/atlas_router/dijkstra.py:18-112 | on every graph, ties and free edges included, the admitted edges alone decide path, edge ids, cost and termination |
| `RouterSpec.MoreArcsCostNoMore` | packages/atlas_router/dijkstra.py:55-112 | adding admitted edges never brings `no_route` where there was a route, and never raises the cost of a returned one |
| `RouterTheorems.RouteIgnoresEdgeOrder` | packages/atlas_router/dijkstra.py:28 | two calls on permuted edge lists agree on path, edge ids, cost, termination and working-memory flag, whatever the costs |
| `RouterTheorems.OutcomeIgnoresEdgeOrder` | packages/atlas_router/dijkstra.py:25-112 | if keys identify edges the whole outcome, blocked list included, is the same for every permutation |
| `RouterTheorems.LooserPolicyCostsNoMore` | packages/atlas_router/cost.py:35-64 | loosening any gate with `prefer_local` fixed never brings `no_route` where there was a route, and never raises the cost of a returned one |
| `RouterTheorems.LooserPolicyKeepsRoute` | packages/atlas_router/cost.py:35-64 | a returned route is followed by one at no higher cost if no free closed chain of tight edges then leads into the target |
| `RouterTheorems.LooserPolicyLosesRouteExactly` | packages/atlas_router/dijkstra.py:55-112 | for a target that no edge enters for free, a returned route is lost if and only if a closed chain of least tight edges then leads into the target |
| `RouterTraps.OpeningAGateLosesTheRoute` | packages/atlas_router/cost.py:44-45 | a concrete call that returns a route while atlas peers are refused and never returns once they are admitted |
| `RouterTheorems.LocalDiscountBounds` | packages/atlas_router/cost.py:62-64 | turning `prefer_local` on leaves `no_route` as it was; the cost of a returned route falls by at most a tenth, up to one unit for each edge of the new one |
| `RouterTheorems.LocalDiscountKeepsRoute` | packages/atlas_router/cost.py:62-64 | a returned route stays one, within these bounds, if no free closed chain of tight discounted edges leads into the target |
| `RouterTheorems.LocalDiscountLosesRouteExactly` | packages/atlas_router/cost.py:62-64 | for a target that no discounted edge enters for free, it is lost if and only if a closed chain of least tight discounted edges leads into the target |
| `RouterTraps.PreferringLocalLosesTheRoute` | packages/atlas_router/cost.py:62-64 | a concrete call whose one-unit edges the discount rounds to nothing: it returns a route without `prefer_local` and never returns with it |
| `RouterTheorems.PositiveCostsAlwaysReturn` | packages/atlas_router/dijkstra.py:92-97 | if every admitted edge costs a unit or more the router always returns, with a route exactly when one exists |
| `RouterTraps.TrapNeverReturns` | packages/atlas_router/dijkstra.py:67-74 | on every graph z→b, b⇄a free, b→t with a before z in the id order, the answer is a back-walk that never ends |
| `RouterTraps.RouterCanRunForEver` | packages/atlas_router/models.py:71-80 | concrete calls with valid nodes of any types, valid edges and the default policy on which a route exists but is never returned |
| `RouterLaws.AdmittedIsLawful` | packages/atlas_router/cost.py:35-49 | the gate admits an edge if and only if both endpoints are known, no risk passes its limit, there is no privacy risk where public routes are required, and the target is neither a private node, an atlas peer, a cloud brain nor a graph hub that the policy refuses |
| `RouterLaws.RefusedForFirstReason` | packages/atlas_router/cost.py:35-49 | the reason given is the first of the seven, in the order of the source, that holds |
| `RouterLaws.BlockedExactly` | packages/atlas_router/dijkstra.py:34-48 | the report lists just the edges that break a rule, each as often as given, sorted by source, target and edge id, each with a missing endpoint or the first reason against it |
| `RouterLaws.RouteIsLawful` | packages/atlas_router/dijkstra.py:18-112 | a returned route follows given edges from source to target; none passes a limit, no node after the source is one the policy refuses, and no chain of such edges is cheaper |
| `RouterLaws.NoRouteExactly` | packages/atlas_router/dijkstra.py:76-88 | `no_route` is answered if and only if no chain of such edges leads to the target |
| `RouterLaws.LastNodeCounts` | packages/atlas_router/dijkstra.py:11-15 | of several nodes with one id the last counts |
| `RouterLaws.PriceIsWorth` | packages/atlas_router/cost.py:51-64 | what a unit of each field is worth in bandwidth cost: compute cost, failure risk and a second of latency 1, stale data 1.5, license 2, trust 3, privacy 5; the price is the sum to the nearest billionth, less a tenth for a preferred local target |
| `RouterLaws.SameWorthSamePrice` | packages/atlas_router/cost.py:51-64 | edges of one worth into one node cost the same |
| `RouterLaws.BandwidthIsThePrice` | packages/atlas_router/cost.py:51-64 | an edge with nothing but a bandwidth cost of k billionths costs just k |
| `Ordering.LessMeans` | packages/atlas_router/dijkstra.py:28 | identifiers are ordered by the first character in which they differ, a prefix first |
| `WebExplorer.WebCollectionStore.constructor` | packages/agentic_micro_os/web_collection_store.py:71-75 | a new store is empty |
| `WebExplorer.WebCollectionStore.AddSource` | packages/agentic_micro_os/web_collection_store.py:77-80 | a source is appended unless its content hash is stored; hashes stay distinct and the hash is stored afterwards |
| `WebExplorer.WebCollectionStore.CreateCandidateDraft` | packages/agentic_micro_os/web_collection_store.py:82-95 | drafts are numbered by position |
| `CrawlSpec.BfsStart` | packages/agentic_micro_os/web_explorer_loop.py:328-330 | the seed queue meets the search invariant |
| `CrawlSpec.PopKeepsBfs` | packages/agentic_micro_os/web_explorer_loop.py:350-354 | a pop keeps the queue sorted over two levels, depths real link distances, and nothing forgotten |
| `CrawlSpec.ReadKeepsBfs` | packages/agentic_micro_os/web_explorer_loop.py:411-415 | so does reading a page and appending its unseen relevant links one level deeper |
| `CrawlSpec.ReachIsDue` | packages/agentic_micro_os/web_explorer_loop.py:343-415 | a page some links away from a seed is popped no later than that depth or waiting no deeper |
| `CrawlSpec.FirstPopIsShortest` | packages/agentic_micro_os/web_explorer_loop.py:350-354 | until a link is lost to the queue cap, a page is first popped at its least link distance from the seeds through pages read |
| `CrawlSpec.CompletedSawEverything` | packages/agentic_micro_os/web_explorer_loop.py:343-415 | a run that emptied its queue without losing a link popped exactly the reachable pages, all links of read pages among them |
| `CrawlBooks.PopsAddUp` | packages/agentic_micro_os/web_explorer_loop.py:350-415 | pops are reads, rejections and repeats |
| `CrawlBooks.NothingFetchedTwice` | packages/agentic_micro_os/web_explorer_loop.py:351-375 | two fetches of a run have different URLs |
| `CrawlBooks.ChronicleAdds` | packages/agentic_micro_os/web_explorer_loop.py:350-358 | after each pop: depths never fall, seen and read pages are those of the log, a page is handled at its first pop only, and no read is deeper than the limit |
| `CrawlBooks.JudgedAdds` | packages/agentic_micro_os/web_explorer_loop.py:355-410 | after each pop: every page so far was read, fetched, rejected and drafted exactly as the guards demand, given the pops before it |
| `CrawlBooks.AccountsAdd` | packages/agentic_micro_os/web_explorer_loop.py:355-410 | after each pop: counters, drafts, errors, blocks and domain counts agree with the log, and no domain passes its cap |
| `CrawlBooks.CappedAdds` | packages/agentic_micro_os/web_explorer_loop.py:411-415 | after each pop: the queue holds no more than seeds and links read, so a link has been lost to the cap only if these could fill it |
| `CrawlBooks.SearchesUntilCut` | packages/agentic_micro_os/web_explorer_loop.py:343-415 | until a link is lost to the cap, every page seen was first popped at its least distance |
| `CrawlBooks.EmptyQueueSawEverything` | packages/agentic_micro_os/web_explorer_loop.py:343-415 | and once the queue is empty everything reachable through pages read has been seen |
| `CrawlBooks.FewLinks` | packages/agentic_micro_os/web_explorer_loop.py:411-415 | with at most m links on a page, m times the pages read bounds the links read |
| `CrawlRun.AppendedShape` | packages/agentic_micro_os/web_explorer_loop.py:411-415 | what a page appends: relevant links to pages not yet seen, one level deeper, no more than there is room for; one is left out only if no room is left |
| `CrawlRun.PopProgresses` | packages/agentic_micro_os/web_explorer_loop.py:343-415 | every pop reads a page or shortens the queue |
| `CrawlRun.ExploredEnds` | packages/agentic_micro_os/web_explorer_loop.py:343-415 | the loop ends on every web, after as many pops as it logged and just where a stop reason holds |
| `CrawlRun.OutcomeIsJudged` | packages/agentic_micro_os/web_explorer_loop.py:355-410 | the head of the queue is read, rejected, fetched and drafted exactly as the guards demand |
| `CrawlRun.PopKeepsRunning` | packages/agentic_micro_os/web_explorer_loop.py:350-415 | one pop keeps order, log, judgement, accounts, queue bound, store and safety blocks together |
| `CrawlRun.PopKeepsBudgets` | packages/agentic_micro_os/web_explorer_loop.py:344-382 | one pop keeps the page, time and error budgets |
| `CrawlTheorems.EveryStateIsSound` | packages/agentic_micro_os/web_explorer_loop.py:343-415 | after any number of pops: breadth-first order, exact log and accounts, budgets, the queue within max(seeds, 4 * max_pages), stored sources and drafts those of the pages read, safety blocks those of the verdicts |
| `CrawlTheorems.ExploredRanWell` | packages/agentic_micro_os/web_explorer_loop.py:343-415 | the same of a whole run; and unless a relevant link to an unseen page was left out of the queue, every page seen was first popped at its least distance, and a completed run saw all that is reachable through pages read |
| `CrawlTheorems.FewLinksLoseNothing` | packages/agentic_micro_os/web_explorer_loop.py:411-415 | with at most m links on a page and seeds + m * max_pages < 4 * max_pages no link is lost |
| `WebExplorer.OpenWebExplorerLoop.Enqueue` | packages/agentic_micro_os/web_explorer_loop.py:411-415 | the queue grows by just the entries of the specification for the room it has |
| `WebExplorer.OpenWebExplorerLoop.Keep` | packages/agentic_micro_os/web_explorer_loop.py:396-410 | sources, drafts, safety blocks and domain counts after a page was stored; a draft of it is made exactly when allowed and in budget |
| `WebExplorer.OpenWebExplorerLoop.Handle` | packages/agentic_micro_os/web_explorer_loop.py:355-415 | one new page: outcome, queue, content keys and every field are those of one pop of the specification |
| `WebExplorer.OpenWebExplorerLoop.Pop` | packages/agentic_micro_os/web_explorer_loop.py:350-415 | one pop: the loop's variables and every field are those of the specification; a page seen before leaves all but the queue alone |
| `WebExplorer.OpenWebExplorerLoop.Explore` | packages/agentic_micro_os/web_explorer_loop.py:343-415 | the loop ends against any web with the fields, the counters and the stop reason that the specification gives |
| `WebExplorer.OpenWebExplorerLoop.Run` | packages/agentic_micro_os/web_explorer_loop.py:325-453 | whole runs: result and all fields are those of a sound run (blocks = rejections + reads without a draft + 1, plus one if reading is denied) that ended well: before each pop a page was left to read, time left and errors left, and at the end the reason given holds (`max_pages`: that many read, `max_runtime_sec`: the clock past its limit with pages left, `completed`: an empty queue); a denied run touches nothing else |
| `CrawlLaws.StopsForItsReason` | packages/agentic_micro_os/web_explorer_loop.py:343-382 | the loop stops for a reason exactly when it holds: as many pages read as allowed, the clock past its limit with pages left, the last fetch failed with the errors used up, or nothing left to pop |
| `CrawlLaws.EveryPopWasDue` | packages/agentic_micro_os/web_explorer_loop.py:343-382 | before every pop of a run there was a page left to read, time left, and errors left |
| `CrawlLaws.RunStopsOnTime` | packages/agentic_micro_os/web_explorer_loop.py:325-415 | a run stops neither sooner nor later than its budgets say, and for the reason it gives |
| `CrawlLaws.AppendsFirstCandidates` | packages/agentic_micro_os/web_explorer_loop.py:411-415 | a page appends its relevant links to unseen pages in order, the first ones as far as there is room |
| `CrawlLaws.BlocksTell` | packages/agentic_micro_os/web_explorer_loop.py:355-410 | each line of the safety log names a page popped and the guard that stopped it there, no earlier guard having done so; a repeat and a drafted read leave none |
| `CrawlLaws.StartsFromSeeds` | packages/agentic_micro_os/web_explorer_loop.py:328 | the queue starts with the seeds given, in order, or with six of its own if none are given |
| `CrawlLaws.PagesFetchedOnce` | packages/agentic_micro_os/web_explorer_loop.py:350-354 | no page is fetched twice in a run, whatever fragments the links to it carry |
| `CrawlLaws.StoreTells` | packages/agentic_micro_os/web_explorer_loop.py:388-410 | a run stores pages it read and no others, under the URL they ended up at; the hash of each is in the store afterwards; drafts are numbered on, each of a page read with one |
| `GateSpec.ReachableSound` | packages/agentic_micro_os/permission_gate.py:126-323 | after any calls the tier is full host exactly while a session exists, and its counters are the allowed audit records since it was enabled |
| `GateSpec.StepSound` | packages/agentic_micro_os/permission_gate.py:126-262 | every call keeps that invariant, with a session of at most six hours begun in the past |
| `GateSpec.AllowedSound` | packages/agentic_micro_os/permission_gate.py:258-266 | an allowed action logs first, reads the clock again and raises the counters only of a session that survived, and counters and log still agree |
| `GateSpec.FullHostSound` | packages/agentic_micro_os/permission_gate.py:233-262 | an allowed full-host action is decided inside [start, start + 6 h) |
| `GateSpec.Tier4AllowsInsideWindow` | packages/agentic_micro_os/permission_gate.py:233-262 | in every reachable state a full-host allow means a live session, its switch on, no stop file and a clock within the session |
| `GateSpec.StopLatches` | packages/agentic_micro_os/permission_gate.py:150-198 | once the stop file exists no call removes it, nothing is verified, nothing is enabled, and a session can only end |
| `GateSpec.EmergencyStopIsFinal` | packages/agentic_micro_os/permission_gate.py:181-186 | after an emergency stop no continuation has a session or full-host tier again |
| `GateSpec.DelegationsWereIssued` | packages/agentic_micro_os/permission_gate.py:136-140 | every delegation on file goes back to an issuing call, with its scopes and a life of one second to one hour from that call |
| `GateSpec.SignedAllowsWereIssued` | packages/agentic_micro_os/permission_gate.py:114-212 | a signed-tier allow means its token was issued for that scope less than an hour before |
| `PermissionGate.HostAuthoritySession.constructor` | packages/agentic_micro_os/permission_gate.py:161-172 | a session starts with zero counters |
| `PermissionGate.HostAuthoritySession.Raise` | packages/agentic_micro_os/permission_gate.py:267-280 | exactly the counters the scope belongs to go up by one |
| `PermissionGate.Gatekeeper.constructor` | packages/agentic_micro_os/permission_gate.py:118-124 | a new gate is in the draft tier with nothing issued |
| `PermissionGate.Gatekeeper.Status` | packages/agentic_micro_os/permission_gate.py:215-231 | a status report drops an expired session and is the refresh step of the state machine |
| `PermissionGate.Gatekeeper.AllowOrDeny` | packages/agentic_micro_os/permission_gate.py:282-323 | one record with the verdict and the tier, then the refresh step |
| `PermissionGate.Gatekeeper.SetTier` | packages/agentic_micro_os/permission_gate.py:126-134 | refines the machine's tier step: full host is refused, any other tier ends the session |
| `PermissionGate.Gatekeeper.IssueSignedDelegation` | packages/agentic_micro_os/permission_gate.py:136-140 | refines the issuing step |
| `PermissionGate.Gatekeeper.EnableFullHost` | packages/agentic_micro_os/permission_gate.py:142-173 | refines the enabling step; allowed exactly without stop file, with the phrase and 0 < duration <= 6 h |
| `PermissionGate.Gatekeeper.DisableFullHost` | packages/agentic_micro_os/permission_gate.py:175-179 | refines the disabling step and leaves no session |
| `PermissionGate.Gatekeeper.TriggerEmergencyStop` | packages/agentic_micro_os/permission_gate.py:181-186 | refines the stop step and leaves no session |
| `PermissionGate.Gatekeeper.VerifyAction` | packages/agentic_micro_os/permission_gate.py:188-213 | refines the verification step of all four tiers, verdict and state |
| `PermissionGate.Gatekeeper.VerifyDelegated` | packages/agentic_micro_os/permission_gate.py:209-212 | refines the signed-token branch, reading the clock only for a token of that scope |
| `PermissionGate.Gatekeeper.VerifyFullHostAction` | packages/agentic_micro_os/permission_gate.py:233-262 | refines the full-host branch |
| `PermissionGate.Gatekeeper.IncrementCounters` | packages/agentic_micro_os/permission_gate.py:264-280 | refines the counter step, which finds no session when the report just dropped it |
| `GateLaws.SwitchesStandGuard` | packages/agentic_micro_os/permission_gate.py:240-257 | which switch field each scope asks for |
| `GateLaws.AllowedExactly` | packages/agentic_micro_os/permission_gate.py:188-262 | an action is allowed if and only if there is no stop file and the tier permits it: reading summaries when observing, the three harmless scopes when drafting, an unexpired token for the scope, or an unexpired session with its switch on |
| `GateLaws.BeyondHarmless` | packages/agentic_micro_os/permission_gate.py:188-262 | in every reachable state an allowed action beyond the harmless three rests on a live session of at most six hours with its switch on, or on a token issued for its scope within the hour |
| `GateLaws.DecisionIsLogged` | packages/agentic_micro_os/permission_gate.py:282-323 | every decision adds one line to the log, with its verdict and its scope |
| `GateLaws.EnabledExactly` | packages/agentic_micro_os/permission_gate.py:142-173 | a session begins if and only if there is no stop file, the phrase is right and the duration lies within six hours; then it lasts that long with the switches asked for and zero counters |
| `GateLaws.DroppedExactly` | packages/agentic_micro_os/permission_gate.py:214-218 | a status report drops a session exactly when it has expired |
| `GateLaws.TierSetExactly` | packages/agentic_micro_os/permission_gate.py:126-134 | the full-host tier cannot be set; any other one can, and ends the session |
| `GateLaws.EndedExactly` | packages/agentic_micro_os/permission_gate.py:175-186 | disabling and stopping end the session and the full-host tier, and keep other tiers |
| `GateLaws.TokenLife` | packages/agentic_micro_os/permission_gate.py:136-140 | a token lives as long as asked, between a second and an hour |
| `GateLaws.CountersCountRecords` | packages/agentic_micro_os/permission_gate.py:264-280 | while a session lives its counters are the numbers of allowed mutating, shell, file-write and git records since it began |
| `TextSearch.Find` | packages/agentic_micro_os/scoped_patch_executor.py:140-142 | the first occurrence, or none anywhere |
| `PatchSpec.ReadTextFaithful` | packages/agentic_micro_os/scoped_patch_executor.py:183 | reading with newline translation returns the text exactly when it holds no carriage return, and never yields one |
| `PatchSpec.TargetIsNoBackup` | packages/agentic_micro_os/scoped_patch_executor.py:282-321 | no valid target lies in the backup directory |
| `PatchSpec.HexIdsAreFresh` | packages/agentic_micro_os/scoped_patch_executor.py:129 | sixteen hexadecimal digits keep up to 16^16 draws apart |
| `PatchSpec.FreshHostsExist` | packages/agentic_micro_os/scoped_patch_executor.py:129 | every host with its ids so replaced draws fresh ones that often |
| `PatchSpec.BackupPathsDiffer` | packages/agentic_micro_os/scoped_patch_executor.py:352-358 | backups of different plans, their ids among the fresh ones, have different paths, whatever the targets |
| `PatchSpec.ApplyKeepsBackups` | packages/agentic_micro_os/scoped_patch_executor.py:168-208 | no apply alters or removes an existing backup |
| `PatchSpec.RollbackKeepsBackups` | packages/agentic_micro_os/scoped_patch_executor.py:210-260 | nor does any rollback |
| `PatchSpec.DeniedTouchesNothing` | packages/agentic_micro_os/scoped_patch_executor.py:168-260 | a denied or failing call changes no file, and with the stop file every call is denied |
| `PatchSpec.AppliedMeansPermitted` | packages/agentic_micro_os/scoped_patch_executor.py:262-280 | an applied patch means the live session's id, its write switch, the phrase, a clock before expiry, and an allowed file-write record in the log |
| `PatchTheorems.ApplyEffect` | packages/agentic_micro_os/scoped_patch_executor.py:182-186 | an applied patch changes two files: the backup gets the text read, the target the text with the first occurrence replaced |
| `PatchTheorems.RollbackEffect` | packages/agentic_micro_os/scoped_patch_executor.py:236-239 | a rollback changes the target alone, to the text of the backup |
| `PatchTheorems.RollbackRestoresExactlyWhen` | packages/agentic_micro_os/scoped_patch_executor.py:168-260 | whatever happened in between, rolling back an apply restores its target if and only if the original held no carriage return |
| `PatchTheorems.AppliedCanBeUndone` | packages/agentic_micro_os/scoped_patch_executor.py:210-260 | an applied patch can be rolled back while its target is text, the session permits it and its backup is named |
| `PatchTheorems.WrapUndone` | packages/agentic_micro_os/scoped_patch_executor.py:168-260 | an apply, anything undone in between, and its rollback leave the tree as it was but for translated line ends in the files patched |
| `PatchTheorems.StackUndone` | packages/agentic_micro_os/scoped_patch_executor.py:168-260 | any properly nested run of applies and rollbacks of their own backups translates the line ends of the files it patched, leaves every other file alone and keeps every backup |
| `PatchTheorems.StackRestoresExactlyWhen` | packages/agentic_micro_os/scoped_patch_executor.py:168-260 | such a run restores the whole tree if and only if no file it patched held a carriage return at the start |
| `PatchExample.HistoryRuns` | packages/agentic_micro_os/scoped_patch_executor.py:168-260 | a concrete run, a document patched in a live session and rolled back, meets all premises of that theorem, whatever the document holds |
| `PatchExample.HistoryRestoresExactlyWhen` | packages/agentic_micro_os/scoped_patch_executor.py:168-260 | that run restores its document if and only if it holds no carriage return |
| `PatchExample.RestoredAndNot` | packages/agentic_micro_os/scoped_patch_executor.py:183 | a document it restores and one it does not |
| `PatchLaws.AppliedText` | packages/agentic_micro_os/scoped_patch_executor.py:182-186 | an applied patch writes the text read with the replacement where the old text first stands, if and only if the old text holds no carriage return; otherwise it writes the text as read |
| `PatchExample.CarriageReturnReplacesNothing` | packages/agentic_micro_os/scoped_patch_executor.py:182-186 | a concrete patch that is applied and replaces nothing |
| `PatchLaws.ReadLineEnd` | packages/agentic_micro_os/scoped_patch_executor.py:183 | reading turns each line end, of either kind, into one line feed |
| `PatchLaws.ReadKeepsOccurrence` | packages/agentic_micro_os/scoped_patch_executor.py:183 | reading loses no occurrence of a text without carriage returns |
| `PatchLaws.TargetsExactly` | packages/agentic_micro_os/scoped_patch_executor.py:282-321 | a target is accepted if and only if no part of it is `..`, it resolves into one of the five places with the right kind and depth, and is neither off limits nor a lock file |
| `PatchLaws.ClimbsExactly` | packages/agentic_micro_os/scoped_patch_executor.py:286 | a path climbs exactly when `..` is one of its parts |
| `PatchLaws.SuffixMeans` | packages/agentic_micro_os/scoped_patch_executor.py:303 | the suffix is what follows the last dot of a name, a leading or trailing dot apart |
| `PatchLaws.Utf8LengthMeans` | packages/agentic_micro_os/scoped_patch_executor.py:326 | the size of a text: a byte a character, and one more from each of 128, 2048 and 65536 on |
| `PatchLaws.PlansExactly` | packages/agentic_micro_os/scoped_patch_executor.py:128-166 | a plan is accepted if and only if target and file are good: text of the size allowed, no null character, holding the old text, not too long a diff |
| `PatchLaws.PermitsExactly` | packages/agentic_micro_os/scoped_patch_executor.py:262-280 | the permission chain passes if and only if the switch is listed, the phrase right, and the session named is live at both readings of the clock, may write files, and nothing stops it |
| `PatchLaws.AppliedExactly` | packages/agentic_micro_os/scoped_patch_executor.py:168-208 | a patch is applied if and only if all of this holds, and denied otherwise |
| `PatchLaws.DeniedBecause` | packages/agentic_micro_os/scoped_patch_executor.py:128-208 | every refusal of a patch gives a reason that holds |
| `PatchLaws.BackupsExactly` | packages/agentic_micro_os/scoped_patch_executor.py:336-350 | a backup is accepted if and only if it resolves to a file of the backup directory |
| `PatchLaws.RolledBackExactly` | packages/agentic_micro_os/scoped_patch_executor.py:210-260 | a rollback is applied if and only if target, backup, phrase and session are good and both files are text |
| `PatchLaws.RollbackRaisesExactly` | packages/agentic_micro_os/scoped_patch_executor.py:210-260 | with all else good it raises if and only if one of the files is missing or not text |
| `PatchLaws.OnlyGoodPathsRaise` | packages/agentic_micro_os/scoped_patch_executor.py:210-260 | it never raises for a refused target or backup |
| `PatchLaws.RollbackDeniedBecause` | packages/agentic_micro_os/scoped_patch_executor.py:210-260 | every refusal of a rollback gives a reason that holds |
| `ScopedPatchExecutor.Executor.Plan` | packages/agentic_micro_os/scoped_patch_executor.py:128-166 | planning reaches the verdict of the specification, uses one id and one audit line and changes no file |
| `ScopedPatchExecutor.Executor.VerifyPermission` | packages/agentic_micro_os/scoped_patch_executor.py:262-280 | refines the permission chain, gate state included |
| `ScopedPatchExecutor.Executor.Apply` | packages/agentic_micro_os/scoped_patch_executor.py:168-208 | refines the apply step: result, files, ids and gate state |
| `ScopedPatchExecutor.Executor.Rollback` | packages/agentic_micro_os/scoped_patch_executor.py:210-260 | refines the rollback step, a read that raises included |
| `TextNormaliser.TakeRun` | packages/atanor_ecosystem/adversarial_coevo.py:131-134 | the inner loop collects exactly the letters of the longest run of (letter, space) pairs |
| `TextNormaliser.Normalize` | packages/atanor_ecosystem/adversarial_coevo.py:128-141 | the index loops compute the recursive normal form of every text |
| `TextNormaliser.NormKeepsText` | packages/atanor_ecosystem/adversarial_coevo.py:128-141 | no visible character is lost, added or moved, and the text never grows |
| `TextNormaliser.NormFixesExactly` | packages/atanor_ecosystem/adversarial_coevo.py:130-140 | a text is left alone if and only if it holds no spaced-out triple; otherwise it gets shorter |
| `TextNormaliser.NormIdempotent` | packages/atanor_ecosystem/adversarial_coevo.py:128-141 | normalising twice is normalising once |
| `TextNormaliser.NormOfPairs` | packages/atanor_ecosystem/adversarial_coevo.py:131-139 | a spelled-out word of three letters is joined with the single characters after it and one space |
| `TextNormaliser.RoundTripExactly` | packages/atanor_ecosystem/adversarial_coevo.py:79-141 | the normaliser undoes the printer if and only if the text has a space and: a first word of at most one letter and no spaced triple, or one of three or more, no single letter next, and a normal tail |
| `DriftMonitor.CusumIsMaxSuffix` | scripts/measurement_drift_monitor.py:99-104 | the running value is the largest of all suffix sums of deviations, the empty one included |
| `DriftMonitor.RunMonitor` | scripts/measurement_drift_monitor.py:90-123 | the monitor fires exactly when some stretch of samples adds up to the threshold, and the verdict is a regression, an isolation drift, a shift or stable in that order |
| `DriftMonitor.StretchesAreWindows` | scripts/measurement_drift_monitor.py:99-107 | a stretch of samples reaches the threshold exactly when it adds up to 5 more than its length times baseline plus 0.05 |
| `DriftMonitor.WindowMeanIsNear` | scripts/measurement_drift_monitor.py:91 | the default baseline is the mean to within half of the fourth digit |
| `DriftMonitor.DefaultDriftBound` | scripts/measurement_drift_monitor.py:91-104 | against its own rounded mean no stretch of n rates gains more than 0.22565 n |
| `DriftMonitor.DefaultBaselineCanFireExactlyFrom23` | scripts/measurement_drift_monitor.py:91-107 | with the default baseline some n rates make it fire if and only if n >= 23 |
| `TemporalVerdict.OverlapMeansSharedInstant` | scripts/temporal_4d_shadow.py:41-50 | two half-open intervals with open ends share an instant if and only if they pass the test and neither is empty |
| `TemporalVerdict.TcvCheck` | scripts/temporal_4d_shadow.py:53-74 | the pair scan gives one of the three verdicts by value, conflict and number of confident claims |
| `TemporalVerdict.ContradictionMeansClashExactly` | scripts/temporal_4d_shadow.py:62-69 | "contradiction" means two confident values at one instant, except exactly on clash-free slots with an empty claim strictly inside another |
| `TemporalVerdict.NonEmptyContradictionIsClash` | scripts/temporal_4d_shadow.py:62-69 | for non-empty intervals the two are the same |
| `TemporalVerdict.VerdictMeans` | scripts/temporal_4d_shadow.py:53-74 | for non-empty confident intervals: a contradiction is a clash; without one the slot is consistent if and only if all values agree or two claims are confident; otherwise it needs review |
| `TemporalVerdict.EmptyClaimIsMisjudged` | scripts/temporal_4d_shadow.py:48-50 | an input with a reversed interval that is called a contradiction though no instant is claimed twice |
| `TemporalVerdict.ConsistentIsFunctionOfTime` | scripts/temporal_4d_shadow.py:59-72 | a consistent slot of confident claims has one value at each instant |
| `TemporalVerdict.VerdictIgnoresOrder` | scripts/temporal_4d_shadow.py:53-74 | the verdict is the same for every permutation of the claims |
| `DurableIngest.Ingester.constructor` | scripts/durable_ingest.py:73-79 | a new ingester starts from an empty store |
| `DurableIngest.Ingester.Accumulate` | scripts/durable_ingest.py:107-112 | adding a batch makes its keys known and changes nothing else |
| `DurableIngest.Ingester.IngestOne` | scripts/durable_ingest.py:85-110 | one row is skipped with a provenance line, rejected, or indexed, listed and batched, as the specification says |
| `DurableIngest.Ingester.Ingest` | scripts/durable_ingest.py:73-116 | index, manifest, known keys and the three counts are those of the row-by-row specification |
| `DurableIngest.CountsAddUp` | scripts/durable_ingest.py:81-106 | new + duplicates + rejected = rows; one index line for each new row, one manifest line for each row not rejected |
| `DurableIngest.RowFate` | scripts/durable_ingest.py:85-107 | a row is a duplicate if its hash is indexed, else rejected if the gate refuses its payload, else new; how each of these is counted, listed and indexed |
| `DurableIngest.PayloadMeans` | scripts/durable_ingest.py:50-58 | what the payload of a row is, an approved public corpus being its source type unless it names one |
| `DurableIngest.FlushAddsBatch` | scripts/durable_ingest.py:107-112 | a flush makes known all keys of the batch and no others |
| `DurableIngest.BatchesOfTwoHundred` | scripts/durable_ingest.py:107-112 | as many new rows wait as have come since the last multiple of 200, and until there are 200 the known keys are those of the start |
| `DurableIngest.RunsRegistered` | scripts/durable_ingest.py:88-106 | after any runs each hash has one index line and one `new: true` manifest line, in the same order |
| `DurableIngest.IngestSettles` | scripts/durable_ingest.py:84-112 | after a run every row given is indexed or still refused by the gate |
| `DurableIngest.SecondRunAddsNothing` | scripts/durable_ingest.py:88-112 | for a gate that never accepts more with more known, a second run on any of the same rows adds no fact, despite batching |
| `EvidenceLedger.FoldMeaning` | packages/atanor_browser/browser_ingest.py:55-73 | the index holds a triple exactly when the log does, with the distinct non-empty hosts and URLs it was asserted with |
| `EvidenceLedger.FirstSeenIsFirst` | packages/atanor_browser/browser_ingest.py:66-69 | the time kept for a triple is that of the first event about it |
| `EvidenceLedger.BrowserEvidenceLedger.constructor` | packages/atanor_browser/browser_ingest.py:48-62 | reopening on a file rebuilds the index from its lines, and the threshold is at least one |
| `EvidenceLedger.BrowserEvidenceLedger.Record` | packages/atanor_browser/browser_ingest.py:75-83 | index and log stay in agreement, the log growing by the event |
| `EvidenceLedger.BrowserEvidenceLedger.Cleared` | packages/atanor_browser/browser_ingest.py:85-131 | exactly the triples with enough distinct hosts that the judge does not contradict, each with its voices and a confidence in [0.6, 0.9] |
| `EvidenceLedger.ClearedMeans` | packages/atanor_browser/browser_ingest.py:93-101 | a triple is cleared if and only if enough distinct hosts asserted it and the judge lets it through |
| `EvidenceLedger.ConfidenceMeans` | packages/atanor_browser/browser_ingest.py:118 | confidence is 0.6 at the threshold and 0.1 more for each further voice up to 0.9 |
| `EvidenceLedger.OrderAndRepetitionDoNotMatter` | packages/atanor_browser/browser_ingest.py:64-108 | logs with the same events in any order and number clear the same triples with the same voices |
| `EvidenceLedger.EvidenceOnlyGrows` | packages/atanor_browser/browser_ingest.py:64-118 | a host already counted changes no voice; with a fixed judge no event ends a promotability or lowers a confidence |
| `EvolutionWorld.SpeedBounded` | packages/atanor_ecosystem/evolution_world.py:208 | speed lies in [0.25, 2.45] |
| `EvolutionWorld.ReflectionContainsExactly` | packages/atanor_ecosystem/evolution_world.py:213-216 | one reflection brings every step back inside if and only if the arena is at least 2.45 wide |
| `EvolutionWorld.KeptAndDropped` | packages/atanor_ecosystem/evolution_world.py:237 | upkeep splits the food: amounts and numbers kept and thrown away add up |
| `EvolutionWorld.DroppedAreCrumbs` | packages/atanor_ecosystem/evolution_world.py:237 | each patch thrown away holds a crumb at most |
| `EvolutionWorld.WorthIs` | packages/atanor_ecosystem/evolution_world.py:170-174 | n patches of one amount are worth n times that amount |
| `EvolutionWorld.World.constructor` | packages/atanor_ecosystem/evolution_world.py:142-156 | a new world of any size is empty and within its bounds |
| `EvolutionWorld.World.Restock` | packages/atanor_ecosystem/evolution_world.py:170-239 | patches of the size the difficulty allows are put down until the density is reached, and each is booked as spawned |
| `EvolutionWorld.World.Bite` | packages/atanor_ecosystem/evolution_world.py:223-229 | a patch in reach loses a bite and the worm gains just that in fitness |
| `EvolutionWorld.World.Eat` | packages/atanor_ecosystem/evolution_world.py:222-229 | every patch in reach is bitten, and the worm gains in fitness what all patches together lose, energy capped at 3 |
| `EvolutionWorld.World.Act` | packages/atanor_ecosystem/evolution_world.py:205-234 | one worm's turn: it stays inside, eats where it has moved, pays, and may die; the dead do not come back |
| `EvolutionWorld.World.Upkeep` | packages/atanor_ecosystem/evolution_world.py:236-239 | what is thrown away is booked patch by patch, and the density is restored |
| `EvolutionWorld.World.ActedConserves` | packages/atanor_ecosystem/evolution_world.py:205-234 | one worm's turn moves food into fitness and loses none |
| `EvolutionWorld.World.UpkeptConserves` | packages/atanor_ecosystem/evolution_world.py:236-239 | upkeep loses only what it books as crumbs, and adds what the new patches are worth |
| `EvolutionWorld.World.StepsConserve` | packages/atanor_ecosystem/evolution_world.py:187-240 | over any number of steps: patches put down, counted at their size, = eaten + left + crumbs, the crumbs at most 0.05 for each patch thrown away |
| `EvolutionWorld.World.TakeTurns` | packages/atanor_ecosystem/evolution_world.py:190-234 | every living worm has its turn, in order |
| `EvolutionWorld.World.Tick` | packages/atanor_ecosystem/evolution_world.py:187-240 | worms, food and the totals of food put down and thrown away are those of the step-by-step specification, so food is conserved; worms stay inside arenas wide enough, energy is at most 3, the dead stay dead and fitness never falls |
| `EvolutionWorld.World.Seed` | packages/atanor_ecosystem/evolution_world.py:158-164 | founders are rested, unfed and inside; the field is full of patches of the size of difficulty 1 |
| `EvolutionWorld.World.Breed` | packages/atanor_ecosystem/evolution_world.py:242-272 | survivors are replaced by newborns up to twice their number between `start` and `cap` on a fresh field at a difficulty set by the fittest; without survivors founders return on the old field at the old difficulty; the cap is passed only by founders |
| `EvolutionWorld.World.TopFitnessIsTop` | packages/atanor_ecosystem/evolution_world.py:246-255 | the fitness the difficulty is taken from is that of a survivor, and none is fitter |
| `EvolutionWorld.World.PopulationWithinCap` | packages/atanor_ecosystem/evolution_world.py:242-270 | a new generation passes the cap if and only if nobody survived and there are more founders than it allows; within it every survivor has a place |
| `WorldLaws.SpeedMeans` | packages/atanor_ecosystem/evolution_world.py:208 | speed grows evenly from 0.25 without spikes to 2.45 with all of them |
| `WorldLaws.MovesBySpeed` | packages/atanor_ecosystem/evolution_world.py:209-216 | a worm moves by its speed in its direction, and to just there if that is inside |
| `WorldLaws.ReflectionMeans` | packages/atanor_ecosystem/evolution_world.py:213-216 | reflection is at the wall passed, as far inside as the worm would have been outside |
| `WorldLaws.BitesMean` | packages/atanor_ecosystem/evolution_world.py:222-227 | within four units a worm takes a quarter of a unit, or what there is; farther off nothing |
| `WorldLaws.EatingMeans` | packages/atanor_ecosystem/evolution_world.py:226-229 | what was eaten is added to fitness, and 2.8 times that to energy up to 3 |
| `WorldLaws.MovesCostEnergy` | packages/atanor_ecosystem/evolution_world.py:231-234 | a move costs 0.008 and 0.005 times the speed in energy; a living worm dies of it exactly when none is left |
| `WorldLaws.MoveCostBounds` | packages/atanor_ecosystem/evolution_world.py:231-234 | so it costs between 0.00925 and 0.02025 |
| `WorldLaws.TurnsMean` | packages/atanor_ecosystem/evolution_world.py:190-234 | in a step a dead worm is passed over; a living one moves from where it stands on the food its predecessors left, and no later turn touches it |
| `WorldLaws.DrawsMean` | packages/atanor_ecosystem/evolution_world.py:190-207 | one drive is asked for each living worm |
| `WorldLaws.KeptMeans` | packages/atanor_ecosystem/evolution_world.py:237 | upkeep keeps a patch exactly when it holds more than 0.05 |
| `WorldLaws.RestockingMeans` | packages/atanor_ecosystem/evolution_world.py:238-239 | restocking leaves what is there and puts down the missing patches |
| `WorldLaws.PatchSizeMeans` | packages/atanor_ecosystem/evolution_world.py:173 | a new patch holds 2.4 over the difficulty, at least 0.4 |
| `WorldLaws.SurvivorsMean` | packages/atanor_ecosystem/evolution_world.py:245-246 | survivors are the worms alive, each as often as it was there |
| `WorldLaws.HarderMeans` | packages/atanor_ecosystem/evolution_world.py:255-257 | difficulty is 1 and 0.15 for each unit of the top fitness, up to 4 |
| `WorldLaws.NewbornMeans` | packages/atanor_ecosystem/evolution_world.py:103-138 | a newborn lies in the middle four fifths of the arena, with one unit of energy, unfed |
| `WorldLaws.NextSizeMeans` | packages/atanor_ecosystem/evolution_world.py:256-270 | a generation has twice as many worms as there were survivors, between `start` and `cap` |
| `ReviewQueue.BoundedComplement` | packages/agentic_micro_os/review_queue.py:108 | novelty and duplicate scores add up to one, in units of 1e-4 |
| `ReviewQueue.CountItems` | packages/agentic_micro_os/review_queue.py:184-195 | the loop's dictionary holds, for each status, the number of items with it, and the counts sum to the items passed |
| `ReviewQueue.CountedIsReport` | packages/agentic_micro_os/review_queue.py:196-209 | read out as the report, each count is the number of items the decision log leaves in that status |
| `ReviewQueue.Queue.Status` | packages/agentic_micro_os/review_queue.py:183-209 | the report tells, for each status, how many items the decision log leaves in it; the five counts sum to the total; high risks and duplicate warnings are counted right |
| `ReviewQueue.DecideSound` | packages/agentic_micro_os/review_queue.py:159-181 | a logged decision keeps: status = last decision, nothing forbidden approved, complementary scores |
| `ReviewQueue.ImportSound` | packages/agentic_micro_os/review_queue.py:114-122 | so does an import, new or repeated |
| `ReviewQueue.ScanForDuplicates` | packages/agentic_micro_os/review_queue.py:267-278 | the score is the largest similarity to anything queued, zero for a title without tokens |
| `ReviewQueue.Queue.constructor` | packages/agentic_micro_os/review_queue.py:86-88 | a new queue is empty and sound |
| `ReviewQueue.Queue.DuplicateScore` | packages/agentic_micro_os/review_queue.py:264-278 | one for an id already queued, otherwise that largest similarity |
| `ReviewQueue.Queue.ImportPayload` | packages/agentic_micro_os/review_queue.py:90-122 | one item changes: a new pending one at the end, or the old one with full duplicate score, a note and its status kept |
| `ReviewQueue.Queue.Decide` | packages/agentic_micro_os/review_queue.py:159-181 | errors change nothing; otherwise one decision is logged and one item stamped, an approval of a forbidden item becoming a draft-only call for evidence |
| `ReviewQueue.Queue.Save` | packages/agentic_micro_os/review_queue.py:221-233 | what is saved loads back as the same items, in the same order, with the same decisions |
| `ReviewQueue.Queue.Load` | packages/agentic_micro_os/review_queue.py:236-262 | a later record of the same id replaces the earlier in its place, and records without an id are passed over |
| `ReviewQueue.Queue.SaveThenLoad` | packages/agentic_micro_os/review_queue.py:221-262 | what a queue saves loads back as the same items in the same order |
| `ReviewLaws.ApprovedIsHarmless` | packages/agentic_micro_os/review_queue.py:170 | in every sound queue an approved item is not critical, and none of the fourteen terms stands in its title, summary or sources |
| `ReviewLaws.DecidedExactly` | packages/agentic_micro_os/review_queue.py:159-181 | an approval of an item that is critical or mentions a term anywhere is logged as a call for evidence for a draft only; anything else as it was asked for |
| `ReviewLaws.RiskExactly` | packages/agentic_micro_os/review_queue.py:362-377 | a first import is critical exactly if its text mentions a term, else high without sources, else medium if something is unknown or confidence is below 0.35, else low |
| `ReviewLaws.MentionIsCritical` | packages/agentic_micro_os/review_queue.py:370-372 | a term in title, summary, any source or the rest of the payload makes the item critical |
| `ReviewLaws.RiskStays` | packages/agentic_micro_os/review_queue.py:114-181 | no later import or decision changes an item's texts, sources or risk |
| `ReviewLaws.SimilarityMeans` | packages/agentic_micro_os/review_queue.py:264-278 | similarity is 1 exactly for the same content or the same title tokens, and 0 exactly for other content without a common token |
| `ReviewLaws.BoundedMeans` | packages/agentic_micro_os/review_queue.py:398-399 | a score is the measure to within half of the fourth digit, cut off at 0 and 1 |
| `ReviewLaws.SameItemExactly` | packages/agentic_micro_os/review_queue.py:96 | payloads of one type are one item exactly when the first sixteen characters of their hashes agree |
| `ReviewLaws.LastRecordCounts` | packages/agentic_micro_os/review_queue.py:236-262 | after loading, an item is what the last record of its id says |
| `ReviewLaws.LoadedInOrder` | packages/agentic_micro_os/review_queue.py:236-262 | the items loaded are those with a record and an id, in the order of their first records |

## Left out

- Router: labels, trust scores, regions and metadata of nodes and edges, which the search does not read; the internals of `heapq`; `edge_cost` without a target node, which the router never asks for; floating-point error before rounding to nine digits; edge fields that are infinite or NaN, which the validating constructors let through.
- Explorer: the page text and the wording of log lines; skill drafts, trajectories and the report trigger; the delay between reads of one domain; the loop body is split into several methods here. A malformed link (`http://[`) on which joining URLs raises outside the loop's handler and ends the run with an exception.
- Explorer: the Hermes explorer and the fixture loops of the same file are not part of this model.
- Gate: operator names, reasons and action texts of audit records; the further clock reading of `session.to_dict()` inside a status report, which decides nothing; a corrupt or unwritable log file.
- Patch executor: diff texts beyond their length; symbolic links beyond what path resolution returns; the content of the executor's own audit lines, which appear only as readings of the clock; a backup directory other than the default; newline translation on writing, which POSIX hosts do not do; files that appear, change or vanish between two calls on their own; replacement texts with lone surrogates, on which writing fails after the target was truncated.
- Normaliser: NFKC and the confusable fold, which run before the space branch; the other printer options (synonyms, confusables, quotes).
- Drift monitor: taking the samples, and floating-point error in the sums.
- Temporal check: fact extraction and the coverage measurement around it.
- Ingest: a crash between the writes of one row; provenance fields and the per-source counts; unreadable index lines.
- Ledger: the sorted order of the promotable list, the cap of five listed URLs, unreadable log lines; the hashed key is taken to identify its triple.
- Arena: worms and patches are values in lists, so object identity is not captured; spiking nets, headings and inheritance are the given motor drives; placement of food is arbitrary; negative sizes, caps and densities. In arenas narrower than 2.45 containment is false, and only the rest is claimed.
- Review queue: lower-casing that depends on neighbouring characters (the Greek final sigma); the counts by item type; listing and sorting, usefulness scores and how confidence is measured, the web-run and report exports, corrupt state files, approvals' effects outside the queue.
