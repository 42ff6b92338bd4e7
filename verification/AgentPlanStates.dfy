/** What READY, BLOCKED and PENDING say about the states of the other nodes. */
module AgentPlanStates {
  import opened Common
  import opened Graph
  import opened AgentPlan
  import opened AgentPlanMeaning
  import opened AgentPlanOrder

  /** One of these nodes failed or was cancelled, and n needs it. */
  ghost predicate NeedsDead(nodes: seq<Node>, n: Node) {
    exists m <- nodes :: m.nodeId in n.dependsOn && (m.state.FAILED? || m.state.CANCELLED?)
  }

  /** One of these nodes is running on something n also claims. */
  ghost predicate SharesWithRunning(nodes: seq<Node>, n: Node) {
    exists m, key | m in nodes && m.state.RUNNING? && key in m.conflictKeys :: key in n.conflictKeys
  }

  ghost predicate NeedsBlocked(nodes: seq<Node>, n: Node) {
    exists m <- nodes :: m.nodeId in n.dependsOn && m.state.BLOCKED?
  }

  ghost predicate NeedsOnlyVerified(nodes: seq<Node>, n: Node) {
    forall m <- nodes :: m.nodeId in n.dependsOn ==> m.state.VERIFIED?
  }

  predicate Open(s: NodeState) { s.PENDING? || s.READY? || s.BLOCKED? }

  /** A state the reconciliation is at rest with. */
  ghost predicate AtRest(nodes: seq<Node>, n: Node) {
    var blocked := NeedsDead(nodes, n) || SharesWithRunning(nodes, n) || NeedsBlocked(nodes, n);
    && (n.state.BLOCKED? <==> blocked)
    && (n.state.READY? <==> !blocked && NeedsOnlyVerified(nodes, n))
    && (n.state.PENDING? <==> !blocked && !NeedsOnlyVerified(nodes, n))
  }

  lemma KnownStates(nodes: seq<Node>, n: Node)
    requires DistinctNodes(nodes) && DependenciesKnown(nodes) && n in nodes
    ensures forall d <- n.dependsOn :: exists m <- nodes :: m.nodeId == d && StateOf(nodes, d) == m.state
    ensures forall m <- nodes :: StateOf(nodes, m.nodeId) == m.state
  {
    forall m | m in nodes ensures StateOf(nodes, m.nodeId) == m.state { StateOfMember(nodes, m); }
  }

  /** What the program looks at, said of the nodes themselves. */
  lemma CausesMean(nodes: seq<Node>, n: Node)
    requires DistinctNodes(nodes) && DependenciesKnown(nodes) && n in nodes
    ensures DependencyFailed(nodes, n) <==> NeedsDead(nodes, n) || NeedsBlocked(nodes, n)
    ensures Conflicts(nodes, n) <==> SharesWithRunning(nodes, n)
    ensures DependenciesVerified(nodes, n) <==> NeedsOnlyVerified(nodes, n)
  {
    KnownStates(nodes, n);
    hide StateOf, DistinctNodes, DependenciesKnown;
    if NeedsDead(nodes, n) {
      var m :| m in nodes && m.nodeId in n.dependsOn && (m.state.FAILED? || m.state.CANCELLED?);
      assert StateOf(nodes, m.nodeId) == m.state;
    }
    if NeedsBlocked(nodes, n) {
      var m :| m in nodes && m.nodeId in n.dependsOn && m.state.BLOCKED?;
      assert StateOf(nodes, m.nodeId) == m.state;
    }
    if SharesWithRunning(nodes, n) {
      var m, key :| m in nodes && m.state.RUNNING? && key in m.conflictKeys && key in n.conflictKeys;
      assert RunningKey(nodes, key);
    }
  }

  lemma StableMeans(nodes: seq<Node>, n: Node)
    requires WellGraphed(nodes) && n in nodes && Open(n.state) && LocallyStable(nodes, n)
    ensures AtRest(nodes, n)
  {
    CausesMean(nodes, n);
    hide DependencyFailed, Conflicts, DependenciesVerified, NeedsDead, NeedsBlocked, SharesWithRunning, NeedsOnlyVerified;
  }

  /** The dead and the running stay what they are, so what they cause does not change. */
  lemma CausesStay(a: seq<Node>, b: seq<Node>, k: nat)
    requires SameSkeleton(a, b) && k < |a|
    ensures NeedsDead(a, a[k]) <==> NeedsDead(b, b[k])
    ensures SharesWithRunning(a, a[k]) <==> SharesWithRunning(b, b[k])
  {
    assert SameWork(a[k], b[k]);
    CausesCarry(a, b, k);
    CausesCarry(b, a, k);
  }

  lemma CausesCarry(a: seq<Node>, b: seq<Node>, k: nat)
    requires |a| == |b| && (forall i | 0 <= i < |a| :: SameWork(a[i], b[i]) || SameWork(b[i], a[i])) && k < |a|
    requires a[k].dependsOn == b[k].dependsOn && a[k].conflictKeys == b[k].conflictKeys
    ensures NeedsDead(a, a[k]) ==> NeedsDead(b, b[k])
    ensures SharesWithRunning(a, a[k]) ==> SharesWithRunning(b, b[k])
  {
    if NeedsDead(a, a[k]) {
      var m :| m in a && m.nodeId in a[k].dependsOn && (m.state.FAILED? || m.state.CANCELLED?);
      var i :| 0 <= i < |a| && a[i] == m;
      assert b[i] == m && b[i] in b;
    }
    if SharesWithRunning(a, a[k]) {
      var m, key :| m in a && m.state.RUNNING? && key in m.conflictKeys && key in a[k].conflictKeys;
      var i :| 0 <= i < |a| && a[i] == m;
      assert b[i] == m && b[i] in b;
    }
  }

  /**
   * After one pass, in any list order, a node that is neither running nor finished is blocked if it needs failed or
   * cancelled work or claims what a running node claims.
   */
  lemma DeadWorkBlocksAtOnce(nodes: seq<Node>, at: int, k: nat)
    requires WellGraphed(nodes) && k < |nodes| && Open(nodes[k].state)
    requires NeedsDead(nodes, nodes[k]) || SharesWithRunning(nodes, nodes[k])
    ensures k < |Pass(nodes, at)| && Pass(nodes, at)[k].state.BLOCKED?
  {
    var mid := PassSees(nodes, 0, at, k);
    SkeletonKeepsGraph(nodes, mid);
    assert mid[k] == mid[k..][0] == nodes[k..][0] == nodes[k];
    CausesStay(nodes, mid, k);
    CausesMean(mid, mid[k]);
  }

  lemma {:induction false} PassesKeepSkeleton(nodes: seq<Node>, ats: seq<int>)
    ensures SameSkeleton(nodes, Passes(nodes, ats))
    decreases |ats|
  {
    if ats != [] {
      var mid := Pass(nodes, ats[0]);
      PassKeepsSkeleton(nodes, 0, ats[0]);
      PassesKeepSkeleton(mid, ats[1..]);
      var after := Passes(mid, ats[1..]);
      forall i | 0 <= i < |nodes| ensures SameWork(nodes[i], after[i]) {
        assert SameWork(nodes[i], mid[i]) && SameWork(mid[i], after[i]);
      }
    }
  }

  /**
   * In the limit of reconciliation, in any list order: what runs or is finished is untouched, and any other node is
   * blocked exactly if it needs failed, cancelled or blocked work or claims what a running node claims, ready exactly
   * if it does not and everything it needs is verified, and pending otherwise.
   */
  lemma LimitMeans(nodes: seq<Node>, ats: seq<int>, k: nat)
    requires WellGraphed(nodes) && |ats| >= |nodes| && k < |nodes|
    ensures var after := Passes(nodes, ats);
            && k < |after| && after[k].nodeId == nodes[k].nodeId
            && (!Open(nodes[k].state) ==> after[k] == nodes[k])
            && (Open(nodes[k].state) ==> Open(after[k].state) && AtRest(after, after[k]))
            && (NeedsDead(after, after[k]) <==> NeedsDead(nodes, nodes[k]))
            && (SharesWithRunning(after, after[k]) <==> SharesWithRunning(nodes, nodes[k]))
  {
    var after := Passes(nodes, ats);
    PassesConverge(nodes, ats, 0);
    PassesKeepSkeleton(nodes, ats);
    SkeletonKeepsGraph(nodes, after);
    CausesStay(nodes, after, k);
    assert SameWork(nodes[k], after[k]);
    assert after[k] in after;
    if Open(nodes[k].state) { StableMeans(after, after[k]); }
  }

  // ------------------------------------------------------ accepted plans

  /** Each node needs the one after it, and the last is the first again. */
  ghost predicate NodeCycle(nodes: seq<Node>, p: seq<Node>) {
    && |p| > 1 && p[0] == p[|p| - 1] && (forall n <- p :: n in nodes)
    && forall i | 0 <= i < |p| - 1 :: p[i + 1].nodeId in p[i].dependsOn
  }

  function IdsOf(p: seq<Node>): (ids: seq<Id>)
    ensures |ids| == |p| && forall i | 0 <= i < |p| :: ids[i] == p[i].nodeId
  {
    seq(|p|, i requires 0 <= i < |p| => p[i].nodeId)
  }

  lemma {:induction false} NodesOfPath(nodes: seq<Node>, ids: seq<Id>) returns (p: seq<Node>)
    requires DistinctNodes(nodes) && forall id <- ids :: id in DepsOf(nodes)
    ensures |p| == |ids|
    ensures forall i | 0 <= i < |p| :: p[i] in nodes && p[i].nodeId == ids[i] && DepsOf(nodes)[ids[i]] == p[i].dependsOn
  {
    if ids == [] {
      p := [];
    } else {
      var rest := NodesOfPath(nodes, ids[1..]);
      assert ids[0] in ids;
      var k := GraphOfNode(nodes, ids[0]);
      p := [nodes[k]] + rest;
    }
  }

  lemma CyclesMean(nodes: seq<Node>)
    requires DistinctNodes(nodes)
    ensures Cyclic(DepsOf(nodes)) <==> exists p: seq<Node> :: NodeCycle(nodes, p)
  {
    var g := DepsOf(nodes);
    if Cyclic(g) {
      var ids: seq<Id> :| Cycle(g, ids);
      forall id | id in ids ensures id in g { var i :| 0 <= i < |ids| && ids[i] == id; }
      var p := NodesOfPath(nodes, ids);
      SameIdSameNode(nodes, p[0], p[|p| - 1]);
      forall i | 0 <= i < |p| - 1 ensures p[i + 1].nodeId in p[i].dependsOn { assert ids[i + 1] in g[ids[i]]; }
      assert NodeCycle(nodes, p);
    }
    if p: seq<Node> :| NodeCycle(nodes, p) {
      var ids := IdsOf(p);
      forall i | 0 <= i < |p| ensures ids[i] in g && g[ids[i]] == p[i].dependsOn {
        assert p[i] in p;
        DepsAt(nodes, p[i]);
      }
      assert Cycle(g, ids);
    }
  }

  lemma SameIdSameNode(nodes: seq<Node>, a: Node, b: Node)
    requires DistinctNodes(nodes) && a in nodes && b in nodes && a.nodeId == b.nodeId
    ensures a == b
  {
    var i :| 0 <= i < |nodes| && nodes[i] == a;
    var j :| 0 <= j < |nodes| && nodes[j] == b;
  }

  ghost predicate NoRepeats(ids: seq<Id>) { forall i, j | 0 <= i < |ids| && 0 <= j < |ids| && ids[i] == ids[j] :: i == j }

  /** The budget lies within what the program counts: a million calls, a year, a safe integer of micros. */
  predicate GoodBudget(b: Budget) {
    b.maxModelCalls <= 1000000 && b.maxRuntimeSeconds <= 365 * 24 * 60 * 60 && b.maxCostUsdMicros < 0x20_0000_0000_0000
  }

  ghost predicate GoodNode(n: Node) {
    && NoRepeats(n.dependsOn) && |n.dependsOn| <= 128 && NoRepeats(n.conflictKeys) && |n.conflictKeys| <= 128
    && GoodBudget(n.budget) && |n.evidence| <= 8000
  }

  /** A plan the program accepts. */
  ghost predicate GoodPlan(p: Plan) {
    && 1 <= |p.nodes| <= 128 && (forall n <- p.nodes :: GoodNode(n))
    && (forall i, j | 0 <= i < |p.nodes| && 0 <= j < |p.nodes| && p.nodes[i].nodeId == p.nodes[j].nodeId :: i == j)
    && (forall n, d | n in p.nodes && d in n.dependsOn :: exists m <- p.nodes :: m.nodeId == d)
    && (!exists c :: NodeCycle(p.nodes, c))
    && 1 <= p.revision < 0x20_0000_0000_0000
    && forall n <- p.nodes :: p.createdAt <= n.updatedAt <= p.updatedAt
  }

  lemma NodeMeans(n: Node)
    ensures NodeValid(n) <==> GoodNode(n)
  {
    RepeatsMean(n.dependsOn);
    RepeatsMean(n.conflictKeys);
    hide Distinct, NoRepeats;
  }

  lemma RepeatsMean(ids: seq<Id>)
    ensures Distinct(ids) <==> NoRepeats(ids)
  {
  }

  /** A plan is accepted exactly if it is good. */
  lemma PlanMeans(p: Plan)
    ensures WellFormed(p) <==> GoodPlan(p)
  {
    forall n | n in p.nodes ensures NodeValid(n) <==> GoodNode(n) { NodeMeans(n); }
    if DistinctNodes(p.nodes) { CyclesMean(p.nodes); }
    if p.nodes != [] { assert p.nodes[0] in p.nodes; }
    hide NodeValid, GoodNode, Cyclic, NodeCycle, DepsOf;
  }
}
