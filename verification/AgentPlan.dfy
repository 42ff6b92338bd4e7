/**
 * The durable plan of src/core/agent-plan.js: a dependency graph of nodes with states, reconciled after every
 * change. Identities and texts are taken after their own validation; instants are epoch milliseconds.
 */
module AgentPlan {
  import opened Common
  import opened Graph

  datatype NodeState = PENDING | READY | RUNNING | VERIFIED | FAILED | BLOCKED | CANCELLED

  datatype Budget = Budget(maxModelCalls: nat, maxRuntimeSeconds: nat, maxCostUsdMicros: nat)

  /** `work` stands for the title, objective, owner, execution plane and acceptance criteria. */
  datatype Node = Node(
    nodeId: Id, work: Text, dependsOn: seq<Id>, conflictKeys: seq<Id>, budget: Budget, state: NodeState,
    evidence: Text, updatedAt: int)

  /** `identity` stands for the plan, job, objective and success criteria. */
  datatype Plan = Plan(identity: Text, nodes: seq<Node>, createdAt: int, updatedAt: int, revision: int)

  datatype Error =
    | NodeCount | DuplicateNodeId | UnknownDependency(node: Id, dependency: Id) | DependencyCycle
    | InvalidRevision | InvalidNode | Chronology | MutationPrecedesCurrent | RevisionConflict
    | ExtensionNode | BudgetExceeded | NodeNotFound | TerminalNode | NotReady | VerifiedNeedsEvidence
    | IdentityReplaced | NothingAppended | ExistingNodeReplaced

  const MAX_NODES: nat := 128
  const MAX_EXTENSION: nat := 32
  const MAX_LIST: nat := 128
  const MAX_EVIDENCE: nat := 8000

  predicate Terminal(s: NodeState) { s.VERIFIED? || s.FAILED? || s.CANCELLED? }

  /** Left alone by reconciliation. */
  predicate Frozen(s: NodeState) { Terminal(s) || s.RUNNING? }

  // ---------------------------------------------------------- validation

  predicate BudgetValid(b: Budget) {
    b.maxModelCalls <= 1_000_000 && b.maxRuntimeSeconds <= 31_536_000 && b.maxCostUsdMicros <= MAX_SAFE_INTEGER
  }

  predicate NodeValid(n: Node) {
    && Distinct(n.dependsOn) && |n.dependsOn| <= MAX_LIST
    && Distinct(n.conflictKeys) && |n.conflictKeys| <= MAX_LIST
    && BudgetValid(n.budget) && |n.evidence| <= MAX_EVIDENCE
  }

  predicate DistinctNodes(nodes: seq<Node>) {
    forall i, j | 0 <= i < j < |nodes| :: nodes[i].nodeId != nodes[j].nodeId
  }

  function NodeIds(nodes: seq<Node>): (ids: seq<Id>)
    ensures |ids| == |nodes| && forall i | 0 <= i < |ids| :: ids[i] == nodes[i].nodeId
  {
    seq(|nodes|, i requires 0 <= i < |nodes| => nodes[i].nodeId)
  }

  /** What each node depends on. */
  function DepsOf(nodes: seq<Node>): Deps {
    if nodes == [] then map[] else DepsOf(nodes[1..])[nodes[0].nodeId := nodes[0].dependsOn]
  }

  lemma {:induction false} DepsNode(nodes: seq<Node>, id: Id)
    ensures id in DepsOf(nodes) <==> exists n <- nodes :: n.nodeId == id
  {
    if nodes != [] {
      DepsNode(nodes[1..], id);
      assert nodes == [nodes[0]] + nodes[1..];
    }
  }

  lemma {:induction false} DepsAt(nodes: seq<Node>, n: Node)
    requires DistinctNodes(nodes) && n in nodes
    ensures n.nodeId in DepsOf(nodes) && DepsOf(nodes)[n.nodeId] == n.dependsOn
  {
    if nodes[0] != n {
      var i :| 0 < i < |nodes| && nodes[i] == n;
      assert nodes[1..][i - 1] == n;
      DepsAt(nodes[1..], n);
    }
  }

  predicate DependenciesKnown(nodes: seq<Node>) {
    forall n, d | n in nodes && d in n.dependsOn :: exists m <- nodes :: m.nodeId == d
  }

  ghost predicate WellGraphed(nodes: seq<Node>) {
    DistinctNodes(nodes) && DependenciesKnown(nodes) && !Cyclic(DepsOf(nodes))
  }

  ghost predicate WellFormed(p: Plan) {
    && 1 <= |p.nodes| <= MAX_NODES
    && (forall n <- p.nodes :: NodeValid(n))
    && WellGraphed(p.nodes)
    && 1 <= p.revision <= MAX_SAFE_INTEGER
    && p.createdAt <= p.updatedAt
    && forall n <- p.nodes :: p.createdAt <= n.updatedAt <= p.updatedAt
  }

  lemma KnownIsClosed(nodes: seq<Node>)
    requires DistinctNodes(nodes)
    ensures DependenciesKnown(nodes) <==> Closed(DepsOf(nodes))
  {
    var g := DepsOf(nodes);
    if Closed(g) {
      forall n, d | n in nodes && d in n.dependsOn ensures exists m <- nodes :: m.nodeId == d {
        DepsAt(nodes, n);
        DepsNode(nodes, d);
      }
    }
    if DependenciesKnown(nodes) {
      forall id, d | id in g && d in g[id] ensures d in g {
        DepsNode(nodes, id);
        var n :| n in nodes && n.nodeId == id;
        DepsAt(nodes, n);
        DepsNode(nodes, d);
      }
    }
  }

  ghost predicate AllIn(ids: seq<Id>, g: Deps) {
    forall d <- ids :: d in g
  }

  lemma AllKnown(nodes: seq<Node>)
    requires DistinctNodes(nodes)
    ensures DependenciesKnown(nodes) <==> forall i | 0 <= i < |nodes| :: AllIn(nodes[i].dependsOn, DepsOf(nodes))
  {
    var g := DepsOf(nodes);
    if forall i | 0 <= i < |nodes| :: AllIn(nodes[i].dependsOn, g) {
      forall n, d | n in nodes && d in n.dependsOn ensures exists m <- nodes :: m.nodeId == d {
        var i :| 0 <= i < |nodes| && nodes[i] == n;
        assert d in g;
        DepsNode(nodes, d);
      }
    }
    if DependenciesKnown(nodes) {
      forall i, d | 0 <= i < |nodes| && d in nodes[i].dependsOn ensures d in g {
        assert nodes[i] in nodes;
        DepsNode(nodes, d);
      }
    }
  }

  lemma NodeIdsListed(nodes: seq<Node>)
    ensures forall id :: id in DepsOf(nodes) <==> id in NodeIds(nodes)
  {
    forall id ensures id in DepsOf(nodes) <==> id in NodeIds(nodes) {
      DepsNode(nodes, id);
      if n :| n in nodes && n.nodeId == id {
        var i :| 0 <= i < |nodes| && nodes[i] == n;
        assert NodeIds(nodes)[i] == id;
      }
      if id in NodeIds(nodes) {
        var i :| 0 <= i < |nodes| && NodeIds(nodes)[i] == id;
        assert nodes[i] in nodes;
      }
    }
  }

  /** Throws exactly when a dependency is unknown or the dependencies form a cycle. */
  method AssertAcyclic(nodes: seq<Node>) returns (error: Option<Error>)
    requires DistinctNodes(nodes)
    ensures error.None? <==> DependenciesKnown(nodes) && !Cyclic(DepsOf(nodes))
    ensures error == Some(DependencyCycle) ==> DependenciesKnown(nodes) && Cyclic(DepsOf(nodes))
  {
    var g := DepsOf(nodes);
    AllKnown(nodes);
    for i := 0 to |nodes|
      invariant forall k | 0 <= k < i :: AllIn(nodes[k].dependsOn, g)
    {
      var unknown := FirstUnknown(nodes[i].dependsOn, g);
      if unknown.Some? { return Some(UnknownDependency(nodes[i].nodeId, unknown.value)); }
    }
    KnownIsClosed(nodes);
    NodeIdsListed(nodes);
    var ok := IsAcyclic(g, NodeIds(nodes));
    return if ok then None else Some(DependencyCycle);
  }

  method FirstUnknown(ids: seq<Id>, g: Deps) returns (unknown: Option<Id>)
    ensures unknown.None? <==> AllIn(ids, g)
  {
    for j := 0 to |ids|
      invariant AllIn(ids[..j], g)
    {
      if ids[j] !in g { return Some(ids[j]); }
      assert ids[..j + 1] == ids[..j] + [ids[j]];
    }
    assert ids[..|ids|] == ids;
    return None;
  }

  method Normalize(p: Plan) returns (error: Option<Error>)
    ensures error.None? <==> WellFormed(p)
  {
    if !(1 <= |p.nodes| <= MAX_NODES) { return Some(NodeCount); }
    if exists n <- p.nodes :: !NodeValid(n) { return Some(InvalidNode); }
    if !DistinctNodes(p.nodes) { return Some(DuplicateNodeId); }
    var graph := AssertAcyclic(p.nodes);
    if graph.Some? { return graph; }
    if !(1 <= p.revision <= MAX_SAFE_INTEGER) { return Some(InvalidRevision); }
    if p.updatedAt < p.createdAt { return Some(Chronology); }
    if exists n <- p.nodes :: n.updatedAt < p.createdAt || n.updatedAt > p.updatedAt { return Some(Chronology); }
    return None;
  }

  // ------------------------------------------------------ reconciliation

  /** The state of the first node with this id; dependencies are always known, so one exists. */
  function StateOf(nodes: seq<Node>, id: Id): NodeState {
    if nodes == [] then PENDING
    else if nodes[0].nodeId == id then nodes[0].state
    else StateOf(nodes[1..], id)
  }

  predicate RunningKey(nodes: seq<Node>, key: Id) {
    exists n <- nodes :: n.state.RUNNING? && key in n.conflictKeys
  }

  predicate Conflicts(nodes: seq<Node>, n: Node) {
    exists key <- n.conflictKeys :: RunningKey(nodes, key)
  }

  predicate DependencyFailed(nodes: seq<Node>, n: Node) {
    exists d <- n.dependsOn :: var s := StateOf(nodes, d); s.FAILED? || s.CANCELLED? || s.BLOCKED?
  }

  predicate DependenciesVerified(nodes: seq<Node>, n: Node) {
    forall d <- n.dependsOn :: StateOf(nodes, d).VERIFIED?
  }

  function NextState(nodes: seq<Node>, n: Node): NodeState {
    if Frozen(n.state) then n.state
    else if DependencyFailed(nodes, n) || Conflicts(nodes, n) then BLOCKED
    else if DependenciesVerified(nodes, n) then READY
    else PENDING
  }

  /** Node i brought up to date; its time moves only when its state does. */
  function Touch(nodes: seq<Node>, i: nat, at: int): seq<Node>
    requires i < |nodes|
  {
    var next := NextState(nodes, nodes[i]);
    if nodes[i].state == next then nodes else nodes[i := nodes[i].(state := next, updatedAt := at)]
  }

  /** The pass from node i on, in list order, each node seeing the states the earlier ones were just given. */
  function PassFrom(nodes: seq<Node>, i: nat, at: int): (after: seq<Node>)
    requires i <= |nodes|
    ensures |after| == |nodes|
    decreases |nodes| - i
  {
    if i == |nodes| then nodes else PassFrom(Touch(nodes, i, at), i + 1, at)
  }

  function Pass(nodes: seq<Node>, at: int): seq<Node> { PassFrom(nodes, 0, at) }

  function Reconciled(p: Plan, at: int): Plan {
    p.(nodes := Pass(p.nodes, at), updatedAt := at, revision := p.revision + 1)
  }

  ghost predicate CanReconcile(p: Plan, at: int) {
    WellFormed(p) && at >= p.updatedAt && p.revision < MAX_SAFE_INTEGER
  }

  /** The same node up to what reconciliation may change. */
  predicate SameWork(a: Node, b: Node) {
    && a.(state := b.state, updatedAt := b.updatedAt) == b
    && (Frozen(a.state) || Frozen(b.state) ==> a == b)
  }

  ghost predicate SameSkeleton(a: seq<Node>, b: seq<Node>) {
    |a| == |b| && forall i | 0 <= i < |a| :: SameWork(a[i], b[i])
  }

  lemma TouchKeepsSkeleton(nodes: seq<Node>, i: nat, at: int)
    requires i < |nodes|
    ensures SameSkeleton(nodes, Touch(nodes, i, at))
  {
  }

  lemma {:induction false} PassKeepsSkeleton(nodes: seq<Node>, i: nat, at: int)
    requires i <= |nodes|
    ensures SameSkeleton(nodes, PassFrom(nodes, i, at))
    ensures forall k | 0 <= k < i :: PassFrom(nodes, i, at)[k] == nodes[k]
    decreases |nodes| - i
  {
    if i < |nodes| {
      TouchKeepsSkeleton(nodes, i, at);
      PassKeepsSkeleton(Touch(nodes, i, at), i + 1, at);
    }
  }

  lemma {:induction false} SkeletonKeepsDeps(a: seq<Node>, b: seq<Node>)
    requires SameSkeleton(a, b)
    ensures DepsOf(a) == DepsOf(b)
  {
    if a != [] { SkeletonKeepsDeps(a[1..], b[1..]); }
  }

  lemma SkeletonKeepsGraph(a: seq<Node>, b: seq<Node>)
    requires SameSkeleton(a, b) && WellGraphed(a)
    ensures WellGraphed(b)
  {
    SkeletonKeepsDeps(a, b);
    KnownIsClosed(a);
    KnownIsClosed(b);
  }

  lemma {:induction false} PassTimes(nodes: seq<Node>, i: nat, at: int, k: nat)
    requires i <= |nodes| && k < |nodes|
    ensures var n := PassFrom(nodes, i, at)[k]; n.updatedAt == at || n.updatedAt == nodes[k].updatedAt
    decreases |nodes| - i
  {
    if i < |nodes| { PassTimes(Touch(nodes, i, at), i + 1, at, k); }
  }

  /** What reconciliation returns is a plan again. */
  lemma ReconciledIsWellFormed(p: Plan, at: int)
    requires CanReconcile(p, at)
    ensures WellFormed(Reconciled(p, at))
  {
    var q := Reconciled(p, at);
    PassKeepsSkeleton(p.nodes, 0, at);
    SkeletonKeepsGraph(p.nodes, q.nodes);
    forall n | n in q.nodes ensures NodeValid(n) && p.createdAt <= n.updatedAt <= at {
      var k :| 0 <= k < |q.nodes| && q.nodes[k] == n;
      PassTimes(p.nodes, 0, at, k);
      assert p.nodes[k] in p.nodes;
    }
  }

  lemma KeysDecideConflict(nodes: seq<Node>, n: Node, keys: set<Id>)
    requires forall key :: key in keys <==> RunningKey(nodes, key)
    ensures (exists key <- n.conflictKeys :: key in keys) <==> Conflicts(nodes, n)
  {
  }

  /** The loop of one pass: conflict keys are collected once, states are read as they change. */
  method PassOverNodes(original: seq<Node>, at: int) returns (nodes: seq<Node>)
    ensures nodes == Pass(original, at)
  {
    nodes := original;
    var runningKeys := RunningKeys(nodes);
    for i := 0 to |original|
      invariant |nodes| == |original|
      invariant PassFrom(nodes, i, at) == Pass(original, at)
      invariant forall key :: key in runningKeys <==> RunningKey(nodes, key)
    {
      var node := nodes[i];
      TouchKeepsRunning(nodes, i, at);
      if Frozen(node.state) { continue; }
      var dependencyFailed := DependencyFailed(nodes, node);
      var dependenciesReady := DependenciesVerified(nodes, node);
      var conflict := exists key <- node.conflictKeys :: key in runningKeys;
      KeysDecideConflict(nodes, node, runningKeys);
      var next := if dependencyFailed || conflict then BLOCKED else if dependenciesReady then READY else PENDING;
      if node.state != next {
        nodes := nodes[i := node.(state := next, updatedAt := at)];
      }
    }
  }

  method Reconcile(p: Plan, at: int) returns (r: Result<Plan, Error>)
    ensures r.Ok? <==> CanReconcile(p, at)
    ensures r.Ok? ==> r.value == Reconciled(p, at)
  {
    var error := Normalize(p);
    if error.Some? { return Err(error.value); }
    if at < p.updatedAt { return Err(MutationPrecedesCurrent); }
    var nodes := PassOverNodes(p.nodes, at);
    var q := p.(nodes := nodes, updatedAt := at, revision := p.revision + 1);
    if p.revision < MAX_SAFE_INTEGER { ReconciledIsWellFormed(p, at); }
    var again := Normalize(q);
    if again.Some? { return Err(again.value); }
    return Ok(q);
  }

  lemma TouchKeepsRunning(nodes: seq<Node>, i: nat, at: int)
    requires i < |nodes|
    ensures forall key :: RunningKey(nodes, key) <==> RunningKey(Touch(nodes, i, at), key)
  {
    TouchKeepsSkeleton(nodes, i, at);
    SkeletonKeepsRunning(nodes, Touch(nodes, i, at));
  }

  lemma SkeletonKeepsRunning(a: seq<Node>, b: seq<Node>)
    requires SameSkeleton(a, b)
    ensures forall key :: RunningKey(a, key) <==> RunningKey(b, key)
  {
    forall key ensures RunningKey(a, key) <==> RunningKey(b, key) {
      if RunningKey(a, key) {
        var n :| n in a && n.state.RUNNING? && key in n.conflictKeys;
        var i :| 0 <= i < |a| && a[i] == n;
        assert SameWork(a[i], b[i]);
        assert b[i] in b;
      }
      if RunningKey(b, key) {
        var n :| n in b && n.state.RUNNING? && key in n.conflictKeys;
        var i :| 0 <= i < |b| && b[i] == n;
        assert SameWork(a[i], b[i]);
        assert a[i] in a;
      }
    }
  }

  function RunningKeys(nodes: seq<Node>): (keys: set<Id>)
    ensures forall key :: key in keys <==> RunningKey(nodes, key)
  {
    set n, key | n in nodes && n.state.RUNNING? && key in n.conflictKeys :: key
  }
}
