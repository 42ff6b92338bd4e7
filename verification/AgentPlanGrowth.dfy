/** When a live plan may grow, said of its nodes, its budgets and its envelope. */
module AgentPlanGrowth {
  import opened Common
  import opened Graph
  import opened AgentPlan
  import opened AgentPlanRuns
  import opened AgentPlanStates

  function Spent(nodes: seq<Node>, part: Budget -> nat): nat {
    if nodes == [] then 0 else part(nodes[0].budget) + Spent(nodes[1..], part)
  }

  /** Calls, seconds and micros are added up apart. */
  lemma {:induction false} TotalsMean(nodes: seq<Node>)
    ensures var total := TotalBudget(nodes);
            && total.maxModelCalls == Spent(nodes, (b: Budget) => b.maxModelCalls)
            && total.maxRuntimeSeconds == Spent(nodes, (b: Budget) => b.maxRuntimeSeconds)
            && total.maxCostUsdMicros == Spent(nodes, (b: Budget) => b.maxCostUsdMicros)
  {
    if nodes != [] { TotalsMean(nodes[1..]); }
  }

  /** New nodes as the program lets them in: some but not many, untouched, each good. */
  ghost predicate FreshNodes(additions: seq<Node>) {
    && 1 <= |additions| <= 32
    && forall n <- additions :: n.state.PENDING? && n.evidence == [] && GoodNode(n)
  }

  /** The plan with the new nodes behind the old ones, as of now. */
  function Joined(p: Plan, additions: seq<Node>, at: int): Plan {
    p.(nodes := p.nodes + seq(|additions|, i requires 0 <= i < |additions| => additions[i].(updatedAt := at)), updatedAt := at)
  }

  lemma JoinedIsAppended(p: Plan, additions: seq<Node>, at: int)
    requires FreshNodes(additions)
    ensures Appended(p, additions, at) == Joined(p, additions, at)
  {
    var dated := seq(|additions|, i requires 0 <= i < |additions| => additions[i].(updatedAt := at));
    forall i | 0 <= i < |additions| ensures Stamped(additions, at)[i] == dated[i] { assert additions[i] in additions; }
    assert Stamped(additions, at) == dated;
  }

  /**
   * A plan may be extended exactly if it is the good and current one, the new nodes are fresh, the whole is a good plan
   * again, and calls, seconds and micros of all nodes together stay inside the envelope.
   */
  lemma ExtendsExactly(p: Plan, expectedRevision: int, additions: seq<Node>, envelope: Budget, at: int)
    ensures CanExtend(p, expectedRevision, additions, envelope, at) <==>
              && GoodPlan(p) && at >= p.updatedAt && p.revision == expectedRevision < MAX_SAFE_INTEGER
              && FreshNodes(additions) && GoodPlan(Joined(p, additions, at)) && GoodBudget(envelope)
              && var all := Joined(p, additions, at).nodes;
                 && Spent(all, (b: Budget) => b.maxModelCalls) <= envelope.maxModelCalls
                 && Spent(all, (b: Budget) => b.maxRuntimeSeconds) <= envelope.maxRuntimeSeconds
                 && Spent(all, (b: Budget) => b.maxCostUsdMicros) <= envelope.maxCostUsdMicros
  {
    PlanMeans(p);
    forall n ensures NodeValid(n) <==> GoodNode(n) { NodeMeans(n); }
    hide WellFormed, GoodPlan, NodeValid, GoodNode;
    assert AdditionsAllowed(p, additions) <==> FreshNodes(additions);
    if FreshNodes(additions) {
      JoinedIsAppended(p, additions, at);
      PlanMeans(Joined(p, additions, at));
      TotalsMean(Joined(p, additions, at).nodes);
      assert Appended(p, additions, at).nodes == p.nodes + Stamped(additions, at);
    }
  }

  /** Which changes of one node are let through, of the node itself. */
  lemma BecomesExactly(p: Plan, id: Id, next: NodeState, evidence: Text, at: int)
    ensures CanTransition(p, id, next, evidence, at) <==>
              && GoodPlan(p) && at >= p.updatedAt && p.revision + 2 <= MAX_SAFE_INTEGER
              && exists n <- p.nodes ::
                   && n.nodeId == id && n.state in {PENDING, READY, RUNNING, BLOCKED}
                   && (next == RUNNING ==> n.state == READY)
                   && (next == VERIFIED ==> n.state == RUNNING && 1 <= |evidence| <= 8000)
  {
    PlanMeans(p);
    var i := IndexOf(p.nodes, id);
    if i < |p.nodes| {
      assert p.nodes[i] in p.nodes;
      if WellFormed(p) {
        forall n | n in p.nodes && n.nodeId == id ensures n == p.nodes[i] { SameIdSameNode(p.nodes, n, p.nodes[i]); }
      }
    }
    hide WellFormed, GoodPlan;
  }
}
