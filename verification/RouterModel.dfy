/** Nodes, edges, policies and the policy-gated cost of one edge
    (packages/atlas_router/models.py, packages/atlas_router/cost.py). */
module RouterModel {
  import opened Ordering
  import opened Rounding
  import opened Graph

  datatype NodeType =
    | LocalBrain | WorkingMemory | CloudBrain | GraphHub
    | Cartridge | AtlasPeer | Broker | PublicSource

  datatype PrivacyLevel = Public | Restricted | Private

  datatype Node = Node(nodeId: Id, nodeType: NodeType, privacyLevel: PrivacyLevel)

  predicate UnitInterval(x: real) { 0.0 <= x <= 1.0 }

  datatype RawEdge = RawEdge(
    edgeId: Id, sourceId: Id, targetId: Id,
    latencyMs: real, bandwidthCost: real, trustPenalty: real, licenseRisk: real,
    privacyRisk: real, staleDataRisk: real, computeCost: real, failureRisk: real)
  {
    /** What the constructor accepts. */
    predicate Valid() {
      && edgeId != [] && sourceId != [] && targetId != []
      && 0.0 <= latencyMs && 0.0 <= bandwidthCost && 0.0 <= computeCost
      && UnitInterval(trustPenalty) && UnitInterval(licenseRisk) && UnitInterval(privacyRisk)
      && UnitInterval(staleDataRisk) && UnitInterval(failureRisk)
    }
  }

  type Edge = e: RawEdge | e.Valid()
    witness RawEdge("e", "a", "b", 0.0, 0.0, 0.0, 0.0, 0.0, 0.0, 0.0, 0.0)

  datatype RawPolicy = RawPolicy(
    maxPrivacyRisk: real, maxLicenseRisk: real, requirePublicOnly: bool, preferLocal: bool,
    allowAtlasPeers: bool, allowCloudBrain: bool, allowGraphHub: bool, allowPrivateNodes: bool)
  {
    predicate Valid() {
      UnitInterval(maxPrivacyRisk) && UnitInterval(maxLicenseRisk)
    }
  }

  const DEFAULT_POLICY := RawPolicy(0.2, 0.2, true, true, true, true, true, false)

  type Policy = p: RawPolicy | p.Valid() witness DEFAULT_POLICY

  datatype Refusal =
    | PublicOnly | PrivacyAboveLimit | LicenseAboveLimit
    | PrivateNode | AtlasPeerRefused | CloudBrainRefused | GraphHubRefused

  /** Costs are whole numbers of 1e-9, the grid `round(cost, 9)` leaves them on. */
  datatype EdgeCost = Allowed(cost: nat) | Refused(reason: Refusal)

  const TRUST_WEIGHT := 3.0
  const PRIVACY_WEIGHT := 5.0
  const LICENSE_WEIGHT := 2.0
  const STALE_WEIGHT := 1.5
  const LOCAL_DISCOUNT := 0.9
  const UNITS := 1000000000.0

  function RawCost(e: Edge): real {
    e.latencyMs / 1000.0 + e.bandwidthCost + e.computeCost + e.staleDataRisk * STALE_WEIGHT
    + e.failureRisk + e.licenseRisk * LICENSE_WEIGHT + e.privacyRisk * PRIVACY_WEIGHT
    + e.trustPenalty * TRUST_WEIGHT
  }

  predicate IsLocal(n: Node) {
    n.nodeType == LocalBrain || n.nodeType == WorkingMemory
  }

  function Discounted(raw: real, p: Policy, target: Node): real {
    if p.preferLocal && IsLocal(target) then raw * LOCAL_DISCOUNT else raw
  }

  function Units(cost: real): nat {
    var positive := if cost < 0.0 then 0.0 else cost;
    HalfEvenMonotone(0.0, positive * UNITS);
    HalfEven(positive * UNITS)
  }

  /** The chain of guards in the order the source tries them. */
  function CostOf(e: Edge, p: Policy, target: Node): EdgeCost {
    if p.requirePublicOnly && e.privacyRisk > 0.0 then Refused(PublicOnly)
    else if e.privacyRisk > p.maxPrivacyRisk then Refused(PrivacyAboveLimit)
    else if e.licenseRisk > p.maxLicenseRisk then Refused(LicenseAboveLimit)
    else if target.privacyLevel == Private && !p.allowPrivateNodes then Refused(PrivateNode)
    else if target.nodeType == AtlasPeer && !p.allowAtlasPeers then Refused(AtlasPeerRefused)
    else if target.nodeType == CloudBrain && !p.allowCloudBrain then Refused(CloudBrainRefused)
    else if target.nodeType == GraphHub && !p.allowGraphHub then Refused(GraphHubRefused)
    else Allowed(Units(Discounted(RawCost(e), p, target)))
  }

  // ----------------------------------------------------------- the admitted graph

  type NodeMap = map<Id, Node>

  predicate Admitted(e: Edge, nodes: NodeMap, p: Policy) {
    e.sourceId in nodes && e.targetId in nodes && CostOf(e, p, nodes[e.targetId]).Allowed?
  }

  function ArcOf(e: Edge, nodes: NodeMap, p: Policy): Arc
    requires Admitted(e, nodes, p)
  {
    Arc(e.sourceId, e.targetId, e.edgeId, CostOf(e, p, nodes[e.targetId]).cost)
  }

  /** What the policy leaves of the edge list. */
  ghost function AdmittedArcs(edges: seq<Edge>, nodes: NodeMap, p: Policy): set<Arc> {
    set e | e in edges && Admitted(e, nodes, p) :: ArcOf(e, nodes, p)
  }

  /** `q` opens every gate that `p` opens, and prices edges the same way. */
  ghost predicate Looser(q: Policy, p: Policy) {
    && p.maxPrivacyRisk <= q.maxPrivacyRisk && p.maxLicenseRisk <= q.maxLicenseRisk
    && (q.requirePublicOnly ==> p.requirePublicOnly)
    && (p.allowAtlasPeers ==> q.allowAtlasPeers) && (p.allowCloudBrain ==> q.allowCloudBrain)
    && (p.allowGraphHub ==> q.allowGraphHub) && (p.allowPrivateNodes ==> q.allowPrivateNodes)
    && p.preferLocal == q.preferLocal
  }

  lemma LooserAdmitsMore(edges: seq<Edge>, nodes: NodeMap, p: Policy, q: Policy)
    requires Looser(q, p)
    ensures AdmittedArcs(edges, nodes, p) <= AdmittedArcs(edges, nodes, q)
  {
    forall a | a in AdmittedArcs(edges, nodes, p) ensures a in AdmittedArcs(edges, nodes, q) {
      var e :| e in edges && Admitted(e, nodes, p) && ArcOf(e, nodes, p) == a;
      assert Admitted(e, nodes, q) && ArcOf(e, nodes, q) == a;
    }
  }

  /** The discount keeps at least nine tenths of a cost, up to one unit of rounding. */
  lemma DiscountBounds(e: Edge, p: Policy, target: Node)
    requires !p.preferLocal && CostOf(e, p, target).Allowed?
    ensures CostOf(e, p.(preferLocal := true), target).Allowed?
    ensures var on, off := CostOf(e, p.(preferLocal := true), target).cost, CostOf(e, p, target).cost;
      on <= off && 9 * off <= 10 * on + 9
  {
    var raw := RawCost(e);
    assert raw >= 0.0;
    if IsLocal(target) {
      assert raw * LOCAL_DISCOUNT * UNITS == 0.9 * (raw * UNITS);
      HalfEvenMonotone(raw * LOCAL_DISCOUNT * UNITS, raw * UNITS);
      HalfEvenNear(raw * LOCAL_DISCOUNT * UNITS);
      HalfEvenNear(raw * UNITS);
    }
  }
}
