/** In which list orders a plan needs one reconciliation only. */
module AgentPlanOrder {
  import opened Common
  import opened Graph
  import opened AgentPlan
  import opened AgentPlanMeaning

  /** The same nodes, in whatever states. */
  ghost predicate SameButStates(a: seq<Node>, b: seq<Node>) {
    |a| == |b| && forall i | 0 <= i < |a| :: b[i] == a[i].(state := b[i].state)
  }

  lemma {:induction false} StatesKeepDeps(a: seq<Node>, b: seq<Node>)
    requires SameButStates(a, b)
    ensures DepsOf(a) == DepsOf(b)
  {
    if a != [] { StatesKeepDeps(a[1..], b[1..]); }
  }

  lemma StatesKeepGraph(a: seq<Node>, b: seq<Node>)
    requires SameButStates(a, b) && WellGraphed(a)
    ensures WellGraphed(b) && (DependenciesFirst(a) ==> DependenciesFirst(b))
  {
    StatesKeepDeps(a, b);
    KnownIsClosed(a);
    KnownIsClosed(b);
    if DependenciesFirst(a) {
      forall i, d | 0 <= i < |b| && d in b[i].dependsOn ensures exists j :: 0 <= j < i && b[j].nodeId == d {
        var j :| 0 <= j < i && a[j].nodeId == d;
        assert b[j].nodeId == d;
      }
    }
  }

  /** A node is judged before the pass has touched it or anything listed after it. */
  lemma {:induction false} PassSees(nodes: seq<Node>, i: nat, at: int, k: nat) returns (mid: seq<Node>)
    requires i <= k < |nodes|
    ensures SameSkeleton(nodes, mid) && mid[k..] == nodes[k..]
    ensures PassFrom(nodes, i, at)[k].state == NextState(mid, nodes[k])
    decreases |nodes| - i
  {
    if i < k {
      var after := Touch(nodes, i, at);
      TouchKeepsSkeleton(nodes, i, at);
      mid := PassSees(after, i + 1, at, k);
      forall m | 0 <= m < |nodes| ensures SameWork(nodes[m], mid[m]) {
        assert SameWork(nodes[m], after[m]) && SameWork(after[m], mid[m]);
      }
      assert after[k..] == nodes[k..] && after[k] == nodes[k];
    } else {
      mid := nodes;
      PassKeepsSkeleton(Touch(nodes, i, at), i + 1, at);
    }
  }

  /** A node listed before one it depends on. */
  ghost predicate OutOfOrder(nodes: seq<Node>, i: nat, j: nat) {
    i < j < |nodes| && nodes[j].nodeId in nodes[i].dependsOn
  }

  lemma SomethingIsOutOfOrder(nodes: seq<Node>) returns (i: nat, j: nat)
    requires WellGraphed(nodes) && !DependenciesFirst(nodes)
    ensures OutOfOrder(nodes, i, j)
  {
    var k, d :| 0 <= k < |nodes| && d in nodes[k].dependsOn && !exists j :: 0 <= j < k && nodes[j].nodeId == d;
    assert nodes[k] in nodes;
    var m :| m in nodes && m.nodeId == d;
    i := k;
    j :| 0 <= j < |nodes| && nodes[j] == m;
    AcyclicHasNoSelfDependency(nodes);
    assert j != k;
  }

  /** Every node pending except one, which is blocked. */
  function OneBlocked(nodes: seq<Node>, j: nat): (b: seq<Node>)
    ensures SameButStates(nodes, b)
    ensures forall k | 0 <= k < |b| :: b[k].state == if k == j then BLOCKED else PENDING
  {
    seq(|nodes|, k requires 0 <= k < |nodes| => nodes[k].(state := if k == j then BLOCKED else PENDING))
  }

  ghost predicate NothingFrozen(nodes: seq<Node>) { forall n <- nodes :: !Frozen(n.state) }

  lemma NothingFreezes(b: seq<Node>, at: int)
    requires NothingFrozen(b)
    ensures NothingFrozen(Pass(b, at))
  {
    var after := Pass(b, at);
    PassKeepsSkeleton(b, 0, at);
    forall n | n in after ensures !Frozen(n.state) {
      var k :| 0 <= k < |after| && after[k] == n;
      assert SameWork(b[k], after[k]) && b[k] in b;
    }
  }

  /** A node listed before a blocked dependency of its own is blocked. */
  lemma BlockIsInherited(b: seq<Node>, i: nat, j: nat, at: int)
    requires DistinctNodes(b) && OutOfOrder(b, i, j) && b[j].state.BLOCKED? && !Frozen(b[i].state)
    ensures i < |Pass(b, at)| && Pass(b, at)[i].state.BLOCKED?
  {
    var mid := PassSees(b, 0, at, i);
    hide PassFrom, StateOf, Conflicts;
    assert mid[j] == mid[i..][j - i] == b[i..][j - i] == b[j];
    assert DistinctNodes(mid) by {
      forall k, m | 0 <= k < m < |mid| ensures mid[k].nodeId != mid[m].nodeId {
        assert SameWork(b[k], mid[k]) && SameWork(b[m], mid[m]);
      }
    }
    StateOfMember(mid, mid[j]);
    assert DependencyFailed(mid, b[i]);
  }

  /** Nothing running, failed or cancelled: a blocked node in a stable list blames a blocked dependency. */
  lemma BlameIsShared(nodes: seq<Node>, n: Node) returns (m: Node)
    requires WellGraphed(nodes) && NothingFrozen(nodes) && n in nodes && n.state.BLOCKED? && LocallyStable(nodes, n)
    ensures m in nodes && m.state.BLOCKED? && m.nodeId in n.dependsOn
  {
    assert !Conflicts(nodes, n);
    var d :| d in n.dependsOn && var s := StateOf(nodes, d); s.FAILED? || s.CANCELLED? || s.BLOCKED?;
    m :| m in nodes && m.nodeId == d;
    StateOfMember(nodes, m);
  }

  lemma StableHasNoBlocked(nodes: seq<Node>)
    requires WellGraphed(nodes) && NothingFrozen(nodes) && Stable(nodes)
    ensures forall n <- nodes :: !n.state.BLOCKED?
  {
    var blocked := set n | n in nodes && n.state.BLOCKED? :: n.nodeId;
    hide StateOf, NextState;
    forall id | id in blocked ensures id in DepsOf(nodes) && exists d <- DepsOf(nodes)[id] :: d in blocked {
      var n :| n in nodes && n.state.BLOCKED? && n.nodeId == id;
      DepsAt(nodes, n);
      var m := BlameIsShared(nodes, n);
      assert m.nodeId in blocked;
    }
    assert forall n <- nodes :: n.state.BLOCKED? ==> n.nodeId in blocked;
    if blocked != {} { StuckIsCyclic(DepsOf(nodes), blocked); }
  }

  /**
   * One reconciliation settles these nodes, whatever their states, exactly when they are listed with dependencies
   * first.
   */
  lemma OnePassSettlesExactly(nodes: seq<Node>, at: int)
    requires WellGraphed(nodes)
    ensures (forall b | SameButStates(nodes, b) :: Stable(Pass(b, at))) <==> DependenciesFirst(nodes)
  {
    if DependenciesFirst(nodes) {
      forall b | SameButStates(nodes, b) ensures Stable(Pass(b, at)) {
        StatesKeepGraph(nodes, b);
        OrderedPlanNeedsOnePass(b, at);
      }
    } else {
      var i, j := SomethingIsOutOfOrder(nodes);
      var b := OneBlocked(nodes, j);
      NotSettled(nodes, i, j, at);
      assert SameButStates(nodes, b) && !Stable(Pass(b, at));
    }
  }

  lemma NotSettled(nodes: seq<Node>, i: nat, j: nat, at: int)
    requires WellGraphed(nodes) && OutOfOrder(nodes, i, j)
    ensures !Stable(Pass(OneBlocked(nodes, j), at))
  {
    var b := OneBlocked(nodes, j);
    var after := Pass(b, at);
    hide PassFrom, Cyclic, DepsOf, DependenciesFirst, LocallyStable;
    StatesKeepGraph(nodes, b);
    PassKeepsSkeleton(b, 0, at);
    SkeletonKeepsGraph(b, after);
    assert OutOfOrder(b, i, j);
    BlockIsInherited(b, i, j, at);
    NothingFreezes(b, at);
    assert after[i] in after;
    if Stable(after) { StableHasNoBlocked(after); }
  }
}
