/** What reconciliation means apart from the order in which a plan lists its nodes. */
module AgentPlanMeaning {
  import opened Common
  import opened Graph
  import opened AgentPlan

  /** This node's state already is what its dependencies and the running conflicts call for. */
  predicate LocallyStable(nodes: seq<Node>, n: Node) {
    NextState(nodes, n) == n.state
  }

  ghost predicate Stable(nodes: seq<Node>) {
    forall n <- nodes :: LocallyStable(nodes, n)
  }

  function IdSet(nodes: seq<Node>): set<Id> {
    set n | n in nodes :: n.nodeId
  }

  lemma {:induction false} StateOfMember(nodes: seq<Node>, n: Node)
    requires DistinctNodes(nodes) && n in nodes
    ensures StateOf(nodes, n.nodeId) == n.state
  {
    if nodes[0] != n {
      assert n in nodes[1..];
      var k :| 0 <= k < |nodes| && nodes[k] == n;
      StateOfMember(nodes[1..], n);
    }
  }

  lemma {:induction false} StateAfterUpdate(nodes: seq<Node>, i: nat, n: Node, id: Id)
    requires i < |nodes| && n.nodeId == nodes[i].nodeId && id != n.nodeId
    ensures StateOf(nodes[i := n], id) == StateOf(nodes, id)
  {
    if i > 0 {
      assert nodes[i := n][1..] == nodes[1..][i - 1 := n];
      StateAfterUpdate(nodes[1..], i - 1, n, id);
    }
  }

  /** Stability is exactly what a pass leaves alone, times included. */
  lemma {:induction false} StableIsFixpoint(nodes: seq<Node>, i: nat, at: int)
    requires i <= |nodes|
    requires forall k | i <= k < |nodes| :: LocallyStable(nodes, nodes[k])
    ensures PassFrom(nodes, i, at) == nodes
    decreases |nodes| - i
  {
    if i < |nodes| { StableIsFixpoint(nodes, i + 1, at); }
  }

  // --------------------------------------------------- settled from below

  /** The nodes of `t` are stable and depend on nothing outside `t`. */
  ghost predicate Settled(nodes: seq<Node>, t: set<Id>) {
    forall n | n in nodes && n.nodeId in t :: LocallyStable(nodes, n) && forall d <- n.dependsOn :: d in t
  }

  predicate Supported(n: Node, t: set<Id>) { forall d <- n.dependsOn :: d in t }

  /** The nodes known settled once a pass from node i has ended. */
  function Grow(nodes: seq<Node>, i: nat, t: set<Id>): set<Id>
    requires i <= |nodes|
    decreases |nodes| - i
  {
    if i == |nodes| then t
    else Grow(nodes, i + 1, if Supported(nodes[i], t) then t + {nodes[i].nodeId} else t)
  }

  lemma NextStateDependsOn(a: seq<Node>, b: seq<Node>, n: Node)
    requires forall d <- n.dependsOn :: StateOf(a, d) == StateOf(b, d)
    requires forall key :: RunningKey(a, key) <==> RunningKey(b, key)
    ensures NextState(a, n) == NextState(b, n)
  {
  }

  /** Touching one node disturbs no settled node, and settles this one when its dependencies are. */
  lemma TouchSettles(nodes: seq<Node>, i: nat, at: int, t: set<Id>)
    requires i < |nodes| && DistinctNodes(nodes) && Settled(nodes, t)
    requires nodes[i].nodeId !in nodes[i].dependsOn
    ensures var t' := if Supported(nodes[i], t) then t + {nodes[i].nodeId} else t;
            Settled(Touch(nodes, i, at), t')
  {
    var n := nodes[i];
    var next := NextState(nodes, n);
    if n.state != next {
      assert n in nodes;
      assert n.nodeId !in t;
      var n' := n.(state := next, updatedAt := at);
      var nodes' := nodes[i := n'];
      TouchKeepsRunning(nodes, i, at);
      forall m | m in nodes' && (m.nodeId in t || m.nodeId == n.nodeId)
        ensures m.nodeId != n.nodeId ==> m in nodes
        ensures m.nodeId == n.nodeId ==> m == n'
      {
        var k :| 0 <= k < |nodes'| && nodes'[k] == m;
        if k != i { assert nodes[k] == m; }
      }
      forall m | m in nodes' && m.nodeId in t ensures LocallyStable(nodes', m) && forall d <- m.dependsOn :: d in t {
        forall d | d in m.dependsOn ensures StateOf(nodes', d) == StateOf(nodes, d) {
          StateAfterUpdate(nodes, i, n', d);
        }
        NextStateDependsOn(nodes, nodes', m);
      }
      forall d | d in n.dependsOn ensures StateOf(nodes', d) == StateOf(nodes, d) {
        StateAfterUpdate(nodes, i, n', d);
      }
      NextStateDependsOn(nodes, nodes', n);
      assert NextState(nodes', n') == next;
    } else {
      forall m | m in nodes && m.nodeId == n.nodeId ensures m == n {
        var k :| 0 <= k < |nodes| && nodes[k] == m;
      }
    }
  }

  ghost predicate NoSelfDependency(nodes: seq<Node>) {
    forall i | 0 <= i < |nodes| :: nodes[i].nodeId !in nodes[i].dependsOn
  }

  lemma AcyclicHasNoSelfDependency(nodes: seq<Node>)
    requires WellGraphed(nodes)
    ensures NoSelfDependency(nodes)
  {
    forall i | 0 <= i < |nodes| ensures nodes[i].nodeId !in nodes[i].dependsOn {
      var id := nodes[i].nodeId;
      assert nodes[i] in nodes;
      DepsAt(nodes, nodes[i]);
      if id in nodes[i].dependsOn { assert Cycle(DepsOf(nodes), [id, id]); }
    }
  }

  lemma {:induction false} GrowIgnoresStates(a: seq<Node>, b: seq<Node>, i: nat, t: set<Id>)
    requires SameSkeleton(a, b) && i <= |a|
    ensures Grow(a, i, t) == Grow(b, i, t)
    decreases |a| - i
  {
    if i < |a| {
      assert SameWork(a[i], b[i]);
      GrowIgnoresStates(a, b, i + 1, if Supported(a[i], t) then t + {a[i].nodeId} else t);
    }
  }

  lemma {:induction false} PassSettles(nodes: seq<Node>, i: nat, at: int, t: set<Id>)
    requires i <= |nodes| && DistinctNodes(nodes) && NoSelfDependency(nodes) && Settled(nodes, t)
    ensures Settled(PassFrom(nodes, i, at), Grow(nodes, i, t))
    decreases |nodes| - i
  {
    if i < |nodes| {
      var t' := if Supported(nodes[i], t) then t + {nodes[i].nodeId} else t;
      TouchSettles(nodes, i, at, t);
      TouchKeepsSkeleton(nodes, i, at);
      PassSettles(Touch(nodes, i, at), i + 1, at, t');
      GrowIgnoresStates(nodes, Touch(nodes, i, at), i + 1, t');
    }
  }

  lemma {:induction false} GrowAdds(nodes: seq<Node>, i: nat, t: set<Id>, k: nat)
    requires i <= |nodes|
    ensures t <= Grow(nodes, i, t)
    ensures i <= k < |nodes| && Supported(nodes[k], t) ==> nodes[k].nodeId in Grow(nodes, i, t)
    ensures t <= IdSet(nodes) ==> Grow(nodes, i, t) <= IdSet(nodes)
    decreases |nodes| - i
  {
    if i < |nodes| {
      assert nodes[i] in nodes;
      GrowAdds(nodes, i + 1, if Supported(nodes[i], t) then t + {nodes[i].nodeId} else t, k);
    }
  }

  lemma GraphOfNode(nodes: seq<Node>, id: Id) returns (k: nat)
    requires DistinctNodes(nodes) && id in DepsOf(nodes)
    ensures k < |nodes| && nodes[k].nodeId == id && DepsOf(nodes)[id] == nodes[k].dependsOn
  {
    DepsNode(nodes, id);
    var n :| n in nodes && n.nodeId == id;
    DepsAt(nodes, n);
    k :| 0 <= k < |nodes| && nodes[k] == n;
  }

  lemma GraphIds(nodes: seq<Node>)
    ensures DepsOf(nodes).Keys == IdSet(nodes)
  {
    forall id ensures id in DepsOf(nodes) <==> id in IdSet(nodes) { DepsNode(nodes, id); }
  }

  /** Unless everything is settled, some node outside depends only on settled ones. */
  lemma SomeoneIsSupported(nodes: seq<Node>, t: set<Id>) returns (k: nat)
    requires WellGraphed(nodes) && t < IdSet(nodes)
    ensures k < |nodes| && nodes[k].nodeId !in t && Supported(nodes[k], t)
  {
    KnownIsClosed(nodes);
    GraphIds(nodes);
    var id := FreeNode(DepsOf(nodes), t);
    k := GraphOfNode(nodes, id);
  }

  lemma GrowProgresses(nodes: seq<Node>, t: set<Id>)
    requires WellGraphed(nodes) && t <= IdSet(nodes)
    ensures t <= Grow(nodes, 0, t) <= IdSet(nodes)
    ensures t == IdSet(nodes) || |Grow(nodes, 0, t)| > |t|
  {
    GrowAdds(nodes, 0, t, 0);
    if t != IdSet(nodes) {
      var k := SomeoneIsSupported(nodes, t);
      GrowAdds(nodes, 0, t, k);
      assert t + {nodes[k].nodeId} <= Grow(nodes, 0, t);
      SubsetIsSmaller(t + {nodes[k].nodeId}, Grow(nodes, 0, t));
    }
  }

  lemma {:induction false} IdSetSize(nodes: seq<Node>)
    ensures |IdSet(nodes)| <= |nodes|
  {
    if nodes != [] {
      IdSetSize(nodes[1..]);
      assert nodes == [nodes[0]] + nodes[1..];
      assert IdSet(nodes) == {nodes[0].nodeId} + IdSet(nodes[1..]);
    }
  }

  // ----------------------------------------------------------- convergence

  /** Repeated passes, one instant each. */
  function Passes(nodes: seq<Node>, ats: seq<int>): seq<Node>
    decreases |ats|
  {
    if ats == [] then nodes else Passes(Pass(nodes, ats[0]), ats[1..])
  }

  lemma OnePassSettles(nodes: seq<Node>, at: int, t: set<Id>)
    requires WellGraphed(nodes) && Settled(nodes, t) && t <= IdSet(nodes)
    ensures var (after, t') := (Pass(nodes, at), Grow(nodes, 0, t));
            && WellGraphed(after) && IdSet(after) == IdSet(nodes) && Settled(after, t') && t' <= IdSet(nodes)
            && (t' == IdSet(nodes) || |t'| > |t|)
  {
    AcyclicHasNoSelfDependency(nodes);
    PassSettles(nodes, 0, at, t);
    GrowProgresses(nodes, t);
    PassKeepsSkeleton(nodes, 0, at);
    SkeletonKeepsGraph(nodes, Pass(nodes, at));
    SkeletonKeepsIds(nodes, Pass(nodes, at));
  }

  lemma EveryoneSettled(nodes: seq<Node>, t: set<Id>)
    requires Settled(nodes, t) && t <= IdSet(nodes) && |t| >= |IdSet(nodes)|
    ensures Stable(nodes)
  {
    if t != IdSet(nodes) {
      var x :| x in IdSet(nodes) && x !in t;
      SubsetIsSmaller(t + {x}, IdSet(nodes));
    }
  }

  lemma {:induction false} PassesSettle(nodes: seq<Node>, ats: seq<int>, t: set<Id>)
    requires WellGraphed(nodes) && Settled(nodes, t) && t <= IdSet(nodes)
    requires |t| + |ats| >= |IdSet(nodes)|
    ensures Stable(Passes(nodes, ats))
    decreases |ats|
  {
    if ats == [] {
      EveryoneSettled(nodes, t);
    } else {
      OnePassSettles(nodes, ats[0], t);
      PassesSettle(Pass(nodes, ats[0]), ats[1..], Grow(nodes, 0, t));
    }
  }

  lemma SkeletonKeepsIds(a: seq<Node>, b: seq<Node>)
    requires SameSkeleton(a, b)
    ensures IdSet(a) == IdSet(b)
  {
    forall id ensures id in IdSet(a) <==> id in IdSet(b) {
      if id in IdSet(a) {
        var n :| n in a && n.nodeId == id;
        var i :| 0 <= i < |a| && a[i] == n;
        assert SameWork(a[i], b[i]) && b[i] in b;
      }
      if id in IdSet(b) {
        var n :| n in b && n.nodeId == id;
        var i :| 0 <= i < |b| && b[i] == n;
        assert SameWork(a[i], b[i]) && a[i] in a;
      }
    }
  }

  /** However the nodes are listed, as many passes as there are nodes reach a state that no pass changes. */
  lemma PassesConverge(nodes: seq<Node>, ats: seq<int>, at: int)
    requires WellGraphed(nodes) && |ats| >= |nodes|
    ensures Stable(Passes(nodes, ats))
    ensures Pass(Passes(nodes, ats), at) == Passes(nodes, ats)
  {
    IdSetSize(nodes);
    PassesSettle(nodes, ats, {});
    StableIsFixpoint(Passes(nodes, ats), 0, at);
  }

  /** Listed with dependencies first. */
  ghost predicate DependenciesFirst(nodes: seq<Node>) {
    forall i, d | 0 <= i < |nodes| && d in nodes[i].dependsOn :: exists j :: 0 <= j < i && nodes[j].nodeId == d
  }

  lemma {:induction false} GrowInOrder(nodes: seq<Node>, i: nat, t: set<Id>)
    requires i <= |nodes| && DependenciesFirst(nodes)
    requires forall k | 0 <= k < i :: nodes[k].nodeId in t
    ensures forall k | 0 <= k < |nodes| :: nodes[k].nodeId in Grow(nodes, i, t)
    decreases |nodes| - i
  {
    if i < |nodes| {
      assert Supported(nodes[i], t);
      GrowInOrder(nodes, i + 1, t + {nodes[i].nodeId});
    }
  }

  /** A list in dependency order is stable after a single pass. */
  lemma OrderedPlanNeedsOnePass(nodes: seq<Node>, at: int)
    requires WellGraphed(nodes) && DependenciesFirst(nodes)
    ensures Stable(Pass(nodes, at))
  {
    AcyclicHasNoSelfDependency(nodes);
    PassSettles(nodes, 0, at, {});
    GrowInOrder(nodes, 0, {});
    PassKeepsSkeleton(nodes, 0, at);
    var after := Pass(nodes, at);
    forall n | n in after ensures LocallyStable(after, n) {
      var k :| 0 <= k < |after| && after[k] == n;
      assert SameWork(nodes[k], after[k]);
    }
  }

  /** The same nodes by identity, in any list order, agreeing on what is running or finished. */
  ghost predicate SamePlan(a: seq<Node>, b: seq<Node>) {
    && IdSet(a) == IdSet(b)
    && forall x, y | x in a && y in b && x.nodeId == y.nodeId ::
         && x.dependsOn == y.dependsOn && x.conflictKeys == y.conflictKeys
         && (Frozen(x.state) || Frozen(y.state) ==> x.state == y.state)
  }

  lemma SamePlanSameRunning(a: seq<Node>, b: seq<Node>, key: Id)
    requires SamePlan(a, b) && RunningKey(a, key)
    ensures RunningKey(b, key)
  {
    var x :| x in a && x.state.RUNNING? && key in x.conflictKeys;
    assert x.nodeId in IdSet(b);
    var y :| y in b && y.nodeId == x.nodeId;
  }

  ghost predicate SameRunning(a: seq<Node>, b: seq<Node>) {
    forall key :: RunningKey(a, key) <==> RunningKey(b, key)
  }

  lemma SamePlanSharesRunning(a: seq<Node>, b: seq<Node>)
    requires SamePlan(a, b)
    ensures SameRunning(a, b)
  {
    forall key ensures RunningKey(a, key) <==> RunningKey(b, key) {
      if RunningKey(a, key) { SamePlanSameRunning(a, b, key); }
      if RunningKey(b, key) { SamePlanSameRunning(b, a, key); }
    }
  }

  /** A node on which two stable lists disagree depends on another one. */
  lemma DisagreementIsInherited(a: seq<Node>, b: seq<Node>, id: Id) returns (d: Id)
    requires WellGraphed(a) && WellGraphed(b) && SamePlan(a, b) && Stable(a) && Stable(b) && SameRunning(a, b)
    requires id in IdSet(a) && StateOf(a, id) != StateOf(b, id)
    ensures id in DepsOf(a) && d in DepsOf(a)[id] && d in IdSet(a) && StateOf(a, d) != StateOf(b, d)
  {
    hide Cyclic, StateOf, RunningKey, DepsOf, SameRunning;
    var x :| x in a && x.nodeId == id;
    DepsAt(a, x);
    assert id in IdSet(b);
    var y :| y in b && y.nodeId == id;
    StateOfMember(a, x);
    StateOfMember(b, y);
    if forall d <- x.dependsOn :: StateOf(a, d) == StateOf(b, d) { AgreementIsInherited(a, b, x, y); }
    d :| d in x.dependsOn && StateOf(a, d) != StateOf(b, d);
    assert exists m <- a :: m.nodeId == d;
  }

  lemma StableAgree(a: seq<Node>, b: seq<Node>, id: Id)
    requires WellGraphed(a) && WellGraphed(b) && SamePlan(a, b) && Stable(a) && Stable(b) && id in IdSet(a)
    ensures StateOf(a, id) == StateOf(b, id)
  {
    hide Stable, StateOf, SamePlan, DepsOf;
    SamePlanSharesRunning(a, b);
    var differ := set id | id in IdSet(a) && StateOf(a, id) != StateOf(b, id);
    forall id | id in differ ensures id in DepsOf(a) && exists d <- DepsOf(a)[id] :: d in differ {
      var d := DisagreementIsInherited(a, b, id);
      assert d in differ;
    }
    if differ != {} { StuckIsCyclic(DepsOf(a), differ); }
    assert id !in differ;
  }

  /** READY, BLOCKED and PENDING have one meaning: two stable lists of the same plan agree on every node. */
  lemma StableIsUnique(a: seq<Node>, b: seq<Node>)
    requires WellGraphed(a) && WellGraphed(b) && SamePlan(a, b) && Stable(a) && Stable(b)
    ensures forall x, y | x in a && y in b && x.nodeId == y.nodeId :: x.state == y.state
  {
    hide Stable, StateOf, SamePlan, Cyclic;
    forall x, y | x in a && y in b && x.nodeId == y.nodeId ensures x.state == y.state {
      StateOfMember(a, x);
      StateOfMember(b, y);
      assert x.nodeId in IdSet(a);
      StableAgree(a, b, x.nodeId);
    }
  }

  lemma AgreementIsInherited(a: seq<Node>, b: seq<Node>, x: Node, y: Node)
    requires SameRunning(a, b)
    requires LocallyStable(a, x) && LocallyStable(b, y)
    requires x.dependsOn == y.dependsOn && x.conflictKeys == y.conflictKeys
    requires Frozen(x.state) || Frozen(y.state) ==> x.state == y.state
    requires forall d <- x.dependsOn :: StateOf(a, d) == StateOf(b, d)
    ensures x.state == y.state
  {
  }

  // ------------------------------------------------ one pass is not enough

  function Bare(id: Id, dependsOn: seq<Id>, state: NodeState): Node {
    Node(id, [], dependsOn, [], Budget(0, 0, 0), state, [], 0)
  }

  /** A chain whose failure stands at the end of the list: the third node waits for the second, that for the failed one. */
  function Backwards(): seq<Node> {
    [Bare([3], [[2]], PENDING), Bare([2], [[1]], PENDING), Bare([1], [], FAILED)]
  }

  lemma StatesOfThree(a: Node, b: Node, c: Node, id: Id)
    ensures StateOf([a, b, c], id)
            == if a.nodeId == id then a.state else if b.nodeId == id then b.state else if c.nodeId == id then c.state else PENDING
  {
    assert [a, b, c][1..] == [b, c] && [b, c][1..] == [c] && [c][1..] == [];
    assert StateOf([b, c], id) == if b.nodeId == id then b.state else StateOf([c], id);
  }

  lemma PassOfThree(a: Node, b: Node, c: Node, at: int)
    ensures Pass([a, b, c], at) == Touch(Touch(Touch([a, b, c], 0, at), 1, at), 2, at)
  {
    var first := Touch([a, b, c], 0, at);
    var second := Touch(first, 1, at);
    var third := Touch(second, 2, at);
    assert PassFrom(third, 3, at) == third;
    assert PassFrom(second, 2, at) == third;
    assert PassFrom(first, 1, at) == third;
  }

  /** Listed against its dependencies a plan can need a second pass: the block reaches the next node only then. */
  lemma OnePassMayNotSettle(at: int)
    ensures Pass(Backwards(), at) == [Bare([3], [[2]], PENDING), Bare([2], [[1]], BLOCKED).(updatedAt := at), Bare([1], [], FAILED)]
    ensures !Stable(Pass(Backwards(), at))
  {
    var c, b, a := Bare([3], [[2]], PENDING), Bare([2], [[1]], PENDING), Bare([1], [], FAILED);
    var b' := Bare([2], [[1]], BLOCKED).(updatedAt := at);
    PassOfThree(c, b, a, at);
    StatesOfThree(c, b, a, [1]);
    StatesOfThree(c, b, a, [2]);
    StatesOfThree(c, b', a, [2]);
    hide StateOf, PassFrom;
    assert NextState(Backwards(), c) == PENDING && NextState(Backwards(), b) == BLOCKED by {
      assert [2] in c.dependsOn && [1] in b.dependsOn;
    }
    assert Touch(Backwards(), 1, at) == [c, b', a];
    assert NextState([c, b', a], c) == BLOCKED by { assert [2] in c.dependsOn; }
    var after := [c, b', a];
    assert Pass(Backwards(), at) == after;
    NotStable(after);
  }

  lemma NotStable(nodes: seq<Node>)
    requires |nodes| > 0 && NextState(nodes, nodes[0]) != nodes[0].state
    ensures !Stable(nodes)
  {
    assert !LocallyStable(nodes, nodes[0]);
  }
}
