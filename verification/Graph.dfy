/** Finite dependency graphs: a graph maps each node to the nodes it depends on. */
module Graph {
  import opened Common

  type Id = Text

  type Deps = map<Id, seq<Id>>

  ghost predicate Closed(g: Deps) {
    forall n, d | n in g && d in g[n] :: d in g
  }

  /** Each element depends on the next one. */
  ghost predicate Path(g: Deps, p: seq<Id>) {
    && |p| > 0
    && (forall i | 0 <= i < |p| :: p[i] in g)
    && (forall i | 0 <= i < |p| - 1 :: p[i + 1] in g[p[i]])
  }

  ghost predicate Cycle(g: Deps, p: seq<Id>) {
    Path(g, p) && |p| > 1 && p[0] == p[|p| - 1]
  }

  ghost predicate Cyclic(g: Deps) {
    exists p :: Cycle(g, p)
  }

  /** Every node stands above the nodes it depends on. */
  ghost predicate Ranks(g: Deps, rank: map<Id, nat>) {
    && (forall n | n in g :: n in rank)
    && (forall n, d | n in g && d in g[n] && d in g :: rank[d] < rank[n])
  }

  lemma {:induction false} PathDescends(g: Deps, rank: map<Id, nat>, p: seq<Id>, j: nat)
    requires Ranks(g, rank) && Path(g, p) && 0 < j < |p|
    ensures rank[p[j]] < rank[p[0]]
  {
    if j > 1 { PathDescends(g, rank, p, j - 1); }
    assert p[j - 1 + 1] in g[p[j - 1]];
  }

  lemma RankedIsAcyclic(g: Deps, rank: map<Id, nat>)
    requires Ranks(g, rank)
    ensures !Cyclic(g)
  {
    forall p | Path(g, p) && |p| > 1 ensures p[0] != p[|p| - 1] {
      PathDescends(g, rank, p, |p| - 1);
    }
  }

  /** A closed path from a position of a path back to the same node. */
  lemma CycleFromRepeat(g: Deps, p: seq<Id>, i: nat, j: nat)
    requires Path(g, p) && i < j < |p| && p[i] == p[j]
    ensures Cyclic(g)
  {
    var q := p[i..j + 1];
    forall k | 0 <= k < |q| - 1 ensures q[k + 1] in g[q[k]] {
      assert p[i + k + 1] in g[p[i + k]];
    }
    assert Cycle(g, q);
  }

  lemma {:induction false} Pigeonhole(p: seq<Id>, s: set<Id>) returns (i: nat, j: nat)
    requires |p| > |s| && forall x <- p :: x in s
    ensures i < j < |p| && p[i] == p[j]
  {
    var x := p[0];
    assert x in s;
    if x in p[1..] {
      var k :| 0 <= k < |p[1..]| && p[1..][k] == x;
      i, j := 0, k + 1;
    } else {
      var a, b := Pigeonhole(p[1..], s - {x});
      i, j := a + 1, b + 1;
    }
  }

  /** A non-empty set in which every node depends on another of the set holds a cycle. */
  lemma StuckIsCyclic(g: Deps, s: set<Id>)
    requires s != {} && forall n <- s :: n in g && exists d <- g[n] :: d in s
    ensures Cyclic(g)
  {
    var start :| start in s;
    var p := [start];
    while |p| <= |s|
      invariant Path(g, p) && forall x <- p :: x in s
      decreases |s| + 1 - |p|
    {
      var last := p[|p| - 1];
      assert last in s;
      var d :| d in g[last] && d in s;
      p := p + [d];
    }
    var i, j := Pigeonhole(p, s);
    CycleFromRepeat(g, p, i, j);
  }

  /** Some node of an acyclic graph is needed by no other. */
  lemma TopNode(g: Deps) returns (n: Id)
    requires !Cyclic(g) && g != map[]
    ensures n in g && forall m | m in g :: n !in g[m]
  {
    if forall n | n in g :: exists m :: m in g && n in g[m] { NeededIsCyclic(g); }
    n :| n in g && forall m | m in g :: n !in g[m];
  }

  lemma NeededIsCyclic(g: Deps)
    requires g != map[] && forall n | n in g :: exists m :: m in g && n in g[m]
    ensures Cyclic(g)
  {
    var start :| start in g;
    var p := [start];
    while |p| <= |g.Keys|
      invariant Path(g, p)
      decreases |g.Keys| + 1 - |p|
    {
      assert p[0] in g;
      var m :| m in g && p[0] in g[m];
      p := [m] + p;
    }
    var i, j := Pigeonhole(p, g.Keys);
    CycleFromRepeat(g, p, i, j);
  }

  lemma SubgraphIsAcyclic(g: Deps, h: Deps)
    requires !Cyclic(h) && forall n | n in g :: n in h && g[n] == h[n]
    ensures !Cyclic(g)
  {
    if p :| Cycle(g, p) { assert Cycle(h, p); }
  }

  /** In an acyclic graph some node outside a set depends only on nodes inside it, until the set is everything. */
  lemma FreeNode(g: Deps, inside: set<Id>) returns (n: Id)
    requires Closed(g) && !Cyclic(g) && inside < g.Keys
    ensures n in g && n !in inside && forall d <- g[n] :: d in inside
  {
    var outside := g.Keys - inside;
    if forall n <- outside :: exists d <- g[n] :: d in outside {
      var x :| x in g.Keys && x !in inside;
      assert x in outside;
      StuckIsCyclic(g, outside);
    }
    n :| n in outside && forall d <- g[n] :: d !in outside;
  }

  /** A new node that depends on old ones only cannot close a cycle. */
  lemma NewNodeKeepsAcyclic(g: Deps, n: Id, deps: seq<Id>)
    requires Closed(g) && !Cyclic(g) && n !in g && forall d <- deps :: d in g
    ensures Closed(g[n := deps]) && !Cyclic(g[n := deps])
  {
    var g' := g[n := deps];
    if p :| Cycle(g', p) {
      forall i | 0 <= i < |p| ensures p[i] != n {
        NotReached(g, n, deps, p, if i == 0 then |p| - 1 else i);
      }
      assert Cycle(g, p);
    }
  }

  lemma NotReached(g: Deps, n: Id, deps: seq<Id>, p: seq<Id>, i: nat)
    requires Closed(g) && n !in g && (forall d <- deps :: d in g) && Path(g[n := deps], p) && 0 < i < |p|
    ensures p[i] != n
  {
    assert p[i - 1 + 1] in g[n := deps][p[i - 1]];
  }

  /** A list without repetition in which everything a node depends on comes earlier. */
  ghost predicate Topological(g: Deps, order: seq<Id>)
    decreases |order|
  {
    order == [] ||
    var n := |order| - 1;
    && Topological(g, order[..n])
    && order[n] !in order[..n]
    && (order[n] in g ==> forall d <- g[order[n]] :: d in g ==> d in order[..n])
  }

  lemma {:induction false} TopologicalRanks(g: Deps, order: seq<Id>) returns (rank: map<Id, nat>)
    requires Topological(g, order)
    ensures rank.Keys == (set n | n in order) && forall n | n in rank :: rank[n] < |order|
    ensures forall n, d | n in order && n in g && d in g[n] && d in g :: d in rank && rank[d] < rank[n]
  {
    if order == [] {
      rank := map[];
    } else {
      var n := |order| - 1;
      rank := TopologicalRanks(g, order[..n]);
      assert order == order[..n] + [order[n]];
      rank := rank[order[n] := n];
    }
  }

  lemma CompleteOrderIsAcyclic(g: Deps, order: seq<Id>)
    requires Topological(g, order) && forall n | n in g :: n in order
    ensures !Cyclic(g)
  {
    var rank := TopologicalRanks(g, order);
    RankedIsAcyclic(g, rank);
  }

  lemma {:induction false} TopologicalIsDistinct(g: Deps, order: seq<Id>)
    requires Topological(g, order)
    ensures Distinct(order)
    decreases |order|
  {
    if order != [] {
      var n := |order| - 1;
      TopologicalIsDistinct(g, order[..n]);
      forall i | 0 <= i < n ensures order[i] != order[n] { assert order[..n][i] == order[i]; }
    }
  }

  lemma FinishNode(g: Deps, order: seq<Id>, n: Id)
    requires Topological(g, order) && n in g && n !in order
    requires forall d <- g[n] :: d in order
    ensures Topological(g, order + [n])
  {
    assert (order + [n])[..|order|] == order;
  }

  // ------------------------------------------------- depth-first check

  /** The depth-first search behind assertAcyclic, with its two sets. */
  class CycleWalker {
    const g: Deps
    var visiting: set<Id>
    var visited: set<Id>
    ghost var stack: seq<Id>
    ghost var order: seq<Id>

    constructor (g: Deps)
      ensures this.g == g && visiting == {} && visited == {} && stack == [] && order == []
    {
      this.g := g;
      visiting, visited := {}, {};
      stack, order := [], [];
    }

    ghost predicate Valid()
      reads this
    {
      && Closed(g)
      && (forall x :: x in visiting <==> x in stack)
      && (forall x :: x in visited <==> x in order)
      && (forall x <- stack :: x in g)
      && (forall x <- order :: x in g && x !in stack)
      && (stack != [] ==> Path(g, stack))
      && Topological(g, order)
    }

    /** False means the program threw: there is a dependency cycle. */
    method Walk(nodeId: Id) returns (ok: bool)
      requires Valid() && nodeId in g
      requires stack != [] ==> nodeId in g[stack[|stack| - 1]]
      modifies this`visiting, this`visited, this`stack, this`order
      ensures ok ==> Valid() && stack == old(stack) && visiting == old(visiting)
      ensures ok ==> nodeId in visited && old(visited) <= visited
      ensures !ok ==> Cyclic(g)
      decreases g.Keys - visiting
    {
      hide Topological, Cyclic;
      if nodeId in visited { return true; }
      if nodeId in visiting {
        ghost var i :| 0 <= i < |stack| && stack[i] == nodeId;
        assert Path(g, stack + [nodeId]);
        CycleFromRepeat(g, stack + [nodeId], i, |stack|);
        return false;
      }
      ghost var outer := stack;
      visiting := visiting + {nodeId};
      stack := stack + [nodeId];
      assert Path(g, stack);
      var dependencies := g[nodeId];
      for k := 0 to |dependencies|
        invariant Valid() && stack == outer + [nodeId] && visiting == old(visiting) + {nodeId}
        invariant old(visited) <= visited
        invariant forall d <- dependencies[..k] :: d in visited
      {
        assert dependencies[k] in g[nodeId];
        var fine := Walk(dependencies[k]);
        if !fine { return false; }
        assert dependencies[..k + 1] == dependencies[..k] + [dependencies[k]];
      }
      assert dependencies[..|dependencies|] == dependencies;
      FinishNode(g, order, nodeId);
      visiting := visiting - {nodeId};
      visited := visited + {nodeId};
      stack := outer;
      order := order + [nodeId];
      return true;
    }
  }

  method IsAcyclic(g: Deps, nodes: seq<Id>) returns (ok: bool)
    requires Closed(g) && forall n :: n in g <==> n in nodes
    ensures ok <==> !Cyclic(g)
  {
    var walker := new CycleWalker(g);
    for k := 0 to |nodes|
      invariant walker.g == g && walker.Valid() && walker.stack == []
      invariant forall n <- nodes[..k] :: n in walker.visited
    {
      var fine := walker.Walk(nodes[k]);
      if !fine { return false; }
      assert nodes[..k + 1] == nodes[..k] + [nodes[k]];
    }
    assert nodes[..|nodes|] == nodes;
    CompleteOrderIsAcyclic(g, walker.order);
    return true;
  }

  // --------------------------------------------------------- Kahn's check

  function Members(ids: seq<Id>): set<Id> { set x | x in ids }

  lemma {:induction false} DistinctSize(ids: seq<Id>)
    requires Distinct(ids)
    ensures |Members(ids)| == |ids|
  {
    if ids != [] {
      DistinctSize(ids[1..]);
      assert ids == [ids[0]] + ids[1..];
      assert Members(ids) == {ids[0]} + Members(ids[1..]);
    }
  }

  /** How many of these dependencies are not done yet. */
  ghost function Unmet(deps: seq<Id>, done: set<Id>): nat {
    if deps == [] then 0 else (if deps[0] in done then 0 else 1) + Unmet(deps[1..], done)
  }

  lemma {:induction false} UnmetStep(deps: seq<Id>, done: set<Id>, x: Id)
    requires x !in done && Distinct(deps)
    ensures Unmet(deps, done + {x}) == Unmet(deps, done) - if x in deps then 1 else 0
  {
    if deps != [] {
      UnmetStep(deps[1..], done, x);
      assert x in deps[1..] ==> x != deps[0];
    }
  }

  lemma {:induction false} UnmetZero(deps: seq<Id>, done: set<Id>)
    ensures Unmet(deps, done) == 0 <==> forall d <- deps :: d in done
  {
    if deps != [] {
      UnmetZero(deps[1..], done);
      assert deps == [deps[0]] + deps[1..];
    }
  }

  lemma {:induction false} UnmetAtStart(deps: seq<Id>)
    ensures Unmet(deps, {}) == |deps|
  {
    if deps != [] { UnmetAtStart(deps[1..]); }
  }

  ghost predicate NodeList(g: Deps, nodes: seq<Id>) {
    && Closed(g) && Distinct(nodes) && (forall n :: n in g <==> n in nodes)
    && forall n | n in g :: Distinct(g[n])
  }

  /** `dependents` turns the edges round: v is listed once under d exactly when v depends on d. */
  ghost predicate Reversed(g: Deps, dependents: Deps, upto: seq<Id>) {
    && dependents.Keys == g.Keys
    && forall d | d in dependents ::
         Distinct(dependents[d]) && forall v :: v in dependents[d] <==> v in upto && v in g && d in g[v]
  }

  /** One node's dependencies entered in both tables. */
  method EnterNode(g: Deps, v: Id, indegree: map<Id, nat>, dependents: Deps)
    returns (indegree': map<Id, nat>, dependents': Deps)
    requires v in g && forall d <- g[v] :: d in g
    requires Distinct(g[v]) && indegree.Keys == g.Keys && dependents.Keys == g.Keys && indegree[v] == 0
    ensures indegree' == indegree[v := |g[v]|]
    ensures dependents'.Keys == g.Keys
    ensures forall d | d in g :: dependents'[d] == dependents[d] + if d in g[v] then [v] else []
  {
    indegree', dependents' := indegree, dependents;
    for j := 0 to |g[v]|
      invariant indegree' == indegree[v := j]
      invariant dependents'.Keys == g.Keys
      invariant forall d | d in g :: dependents'[d] == dependents[d] + if d in g[v][..j] then [v] else []
    {
      var d := g[v][j];
      assert d !in g[v][..j];
      assert g[v][..j + 1] == g[v][..j] + [d];
      indegree' := indegree'[v := indegree'[v] + 1];
      dependents' := dependents'[d := dependents'[d] + [v]];
    }
    assert g[v][..|g[v]|] == g[v];
  }

  lemma ReversedGrows(g: Deps, before: Deps, after: Deps, upto: seq<Id>, v: Id)
    requires Reversed(g, before, upto) && v in g && v !in upto && after.Keys == g.Keys
    requires forall d | d in g :: after[d] == before[d] + if d in g[v] then [v] else []
    ensures Reversed(g, after, upto + [v])
  {
    forall d | d in after
      ensures Distinct(after[d]) && forall w :: w in after[d] <==> w in upto + [v] && w in g && d in g[w]
    {
      assert v !in before[d];
    }
  }

  ghost predicate Entered(g: Deps, indegree: map<Id, nat>, upto: seq<Id>) {
    indegree.Keys == g.Keys && forall v | v in g :: indegree[v] == if v in upto then |g[v]| else 0
  }

  lemma EnteredGrows(g: Deps, indegree: map<Id, nat>, upto: seq<Id>, v: Id)
    requires Entered(g, indegree, upto) && v in g
    ensures Entered(g, indegree[v := |g[v]|], upto + [v])
  {
  }

  method CountEdges(g: Deps, nodes: seq<Id>) returns (indegree: map<Id, nat>, dependents: Deps)
    requires NodeList(g, nodes)
    ensures Entered(g, indegree, nodes) && Reversed(g, dependents, nodes)
  {
    indegree := map n | n in nodes :: 0;
    dependents := map n | n in nodes :: [];
    for i := 0 to |nodes|
      invariant Entered(g, indegree, nodes[..i]) && Reversed(g, dependents, nodes[..i])
    {
      var v := nodes[i];
      ghost var before := dependents;
      NextInList(g, nodes, i);
      EnteredGrows(g, indegree, nodes[..i], v);
      indegree, dependents := EnterNode(g, v, indegree, dependents);
      ReversedGrows(g, before, dependents, nodes[..i], v);
    }
    assert nodes[..|nodes|] == nodes;
  }

  lemma NextInList(g: Deps, nodes: seq<Id>, i: nat)
    requires NodeList(g, nodes) && i < |nodes|
    ensures nodes[i] in g && nodes[i] !in nodes[..i] && Distinct(g[nodes[i]])
    ensures forall d <- g[nodes[i]] :: d in g
    ensures nodes[..i + 1] == nodes[..i] + [nodes[i]]
  {
    assert nodes[i] in nodes;
  }

  ghost predicate CountsAll(g: Deps, indegree: map<Id, nat>, done: set<Id>) {
    indegree.Keys == g.Keys && forall v | v in g :: indegree[v] == Unmet(g[v], done)
  }

  /** The counters of the inner loop: the `handled` dependents of x have already been told that x is done. */
  ghost predicate Counts(g: Deps, indegree: map<Id, nat>, done: set<Id>, x: Id, handled: seq<Id>) {
    && indegree.Keys == g.Keys
    && forall v | v in g :: indegree[v] == Unmet(g[v], if v in handled then done + {x} else done)
  }

  /** The queue: a topological list of exactly the nodes whose counter has reached zero. */
  ghost predicate Queue(g: Deps, indegree: map<Id, nat>, ready: seq<Id>) {
    && indegree.Keys == g.Keys && Topological(g, ready)
    && forall v :: v in ready <==> v in g && indegree[v] == 0
  }

  lemma InitialCounts(g: Deps, nodes: seq<Id>, indegree: map<Id, nat>)
    requires NodeList(g, nodes) && Entered(g, indegree, nodes)
    ensures CountsAll(g, indegree, {})
  {
    forall v | v in g ensures indegree[v] == Unmet(g[v], {}) {
      UnmetAtStart(g[v]);
    }
  }

  /** Telling one dependent: its counter drops, and at zero all it depends on is done. */
  lemma TellOne(g: Deps, indegree: map<Id, nat>, done: set<Id>, x: Id, handled: seq<Id>, v: Id)
    requires Counts(g, indegree, done, x, handled) && x !in done
    requires v in g && v !in handled && x in g[v] && Distinct(g[v])
    ensures indegree[v] > 0
    ensures Counts(g, indegree[v := indegree[v] - 1], done, x, handled + [v])
    ensures indegree[v] == 1 ==> forall d <- g[v] :: d in done + {x}
  {
    UnmetStep(g[v], done, x);
    UnmetZero(g[v], done + {x});
  }

  lemma ToldAll(g: Deps, indegree: map<Id, nat>, done: set<Id>, x: Id, told: seq<Id>)
    requires Counts(g, indegree, done, x, told) && x !in done
    requires forall v | v in g :: Distinct(g[v]) && (v in told <==> x in g[v])
    ensures CountsAll(g, indegree, done + {x})
  {
    forall v | v in g ensures indegree[v] == Unmet(g[v], done + {x}) {
      UnmetStep(g[v], done, x);
    }
  }

  lemma QueueKeeps(g: Deps, indegree: map<Id, nat>, ready: seq<Id>, v: Id, next: nat)
    requires Queue(g, indegree, ready) && v in g && indegree[v] == next + 1
    requires next == 0 ==> forall d <- g[v] :: d in ready
    ensures Queue(g, indegree[v := next], if next == 0 then ready + [v] else ready)
  {
    if next == 0 { FinishNode(g, ready, v); }
  }

  /** In the middle of the inner loop: `handled` of the dependents of x have been told. */
  ghost predicate Telling(g: Deps, indegree: map<Id, nat>, ready: seq<Id>, done: set<Id>, x: Id, handled: seq<Id>) {
    && x !in done && x in ready && (forall d <- done :: d in ready)
    && Queue(g, indegree, ready) && Counts(g, indegree, done, x, handled)
  }

  lemma TellStep(g: Deps, indegree: map<Id, nat>, ready: seq<Id>, done: set<Id>, x: Id, handled: seq<Id>, v: Id)
    requires Telling(g, indegree, ready, done, x, handled)
    requires v in g && v !in handled && x in g[v] && Distinct(g[v])
    ensures indegree[v] > 0
    ensures var next := indegree[v] - 1;
            Telling(g, indegree[v := next], if next == 0 then ready + [v] else ready, done, x, handled + [v])
  {
    TellOne(g, indegree, done, x, handled, v);
    QueueKeeps(g, indegree, ready, v, indegree[v] - 1);
  }

  method TellDependents(g: Deps, told: seq<Id>, indegree: map<Id, nat>, ready: seq<Id>, ghost done: set<Id>, x: Id)
    returns (indegree': map<Id, nat>, ready': seq<Id>)
    requires DependentsListed(g, told, x)
    requires forall v | v in g :: Distinct(g[v])
    requires Telling(g, indegree, ready, done, x, [])
    ensures ready <= ready' && Queue(g, indegree', ready')
    ensures CountsAll(g, indegree', done + {x})
  {
    indegree', ready' := indegree, ready;
    for k := 0 to |told|
      invariant ready <= ready' && Telling(g, indegree', ready', done, x, told[..k])
    {
      var dependentId := told[k];
      assert dependentId in told && dependentId !in told[..k];
      assert told[..k + 1] == told[..k] + [dependentId];
      TellStep(g, indegree', ready', done, x, told[..k], dependentId);
      var next := indegree'[dependentId] - 1;
      indegree' := indegree'[dependentId := next];
      if next == 0 { ready' := ready' + [dependentId]; }
    }
    assert told[..|told|] == told;
    ToldAll(g, indegree', done, x, told);
  }

  method InitialQueue(g: Deps, nodes: seq<Id>, indegree: map<Id, nat>) returns (ready: seq<Id>)
    requires NodeList(g, nodes) && CountsAll(g, indegree, {})
    ensures Queue(g, indegree, ready)
  {
    ready := [];
    for i := 0 to |nodes|
      invariant forall v :: v in ready <==> v in nodes[..i] && indegree[v] == 0
      invariant Topological(g, ready)
    {
      assert nodes[..i + 1] == nodes[..i] + [nodes[i]];
      assert nodes[i] in nodes && nodes[i] !in nodes[..i];
      if indegree[nodes[i]] == 0 {
        UnmetZero(g[nodes[i]], {});
        FinishNode(g, ready, nodes[i]);
        ready := ready + [nodes[i]];
      }
    }
    assert nodes[..|nodes|] == nodes;
  }

  /** The outer loop: everything in front of the cursor is done. */
  ghost predicate Visiting(g: Deps, indegree: map<Id, nat>, ready: seq<Id>, cursor: nat) {
    cursor <= |ready| && Queue(g, indegree, ready) && CountsAll(g, indegree, Members(ready[..cursor]))
  }

  lemma StartTelling(g: Deps, indegree: map<Id, nat>, ready: seq<Id>, cursor: nat)
    requires Visiting(g, indegree, ready, cursor) && cursor < |ready|
    ensures Telling(g, indegree, ready, Members(ready[..cursor]), ready[cursor], [])
    ensures Members(ready[..cursor + 1]) == Members(ready[..cursor]) + {ready[cursor]}
  {
    TopologicalIsDistinct(g, ready);
    assert ready[..cursor + 1] == ready[..cursor] + [ready[cursor]];
  }

  lemma NextVisit(g: Deps, indegree: map<Id, nat>, before: seq<Id>, ready: seq<Id>, cursor: nat)
    requires cursor < |before| && before <= ready && Queue(g, indegree, ready)
    requires CountsAll(g, indegree, Members(before[..cursor]) + {before[cursor]})
    ensures Visiting(g, indegree, ready, cursor + 1)
  {
    assert ready[..cursor + 1] == before[..cursor] + [before[cursor]];
    assert Members(ready[..cursor + 1]) == Members(before[..cursor]) + {before[cursor]};
  }

  /** One turn of the outer loop. */
  method VisitNext(g: Deps, told: seq<Id>, indegree: map<Id, nat>, ready: seq<Id>, cursor: nat)
    returns (indegree': map<Id, nat>, ready': seq<Id>)
    requires cursor < |ready| && Visiting(g, indegree, ready, cursor)
    requires DependentsListed(g, told, ready[cursor])
    requires forall v | v in g :: Distinct(g[v])
    ensures Visiting(g, indegree', ready', cursor + 1)
  {
    StartTelling(g, indegree, ready, cursor);
    indegree', ready' := TellDependents(g, told, indegree, ready, Members(ready[..cursor]), ready[cursor]);
    NextVisit(g, indegree', ready, ready', cursor);
  }

  /** The outer loop: the queue grows while it is read, and every node queued is visited once. */
  method DrainQueue(g: Deps, dependents: Deps, start: map<Id, nat>, queue: seq<Id>)
    returns (visited: nat, ghost indegree: map<Id, nat>, ghost ready: seq<Id>)
    requires Visiting(g, start, queue, 0)
    requires dependents.Keys == g.Keys && forall x | x in g :: DependentsListed(g, dependents[x], x)
    requires forall v | v in g :: Distinct(g[v])
    ensures visited == |ready| && Visiting(g, indegree, ready, |ready|)
  {
    var counters, growing := start, queue;
    visited := 0;
    var cursor := 0;
    while cursor < |growing|
      invariant visited == cursor && Visiting(g, counters, growing, cursor)
      decreases |g.Keys| - cursor
    {
      QueueFits(g, counters, growing);
      assert growing[cursor] in growing;
      visited := visited + 1;
      counters, growing := VisitNext(g, dependents[growing[cursor]], counters, growing, cursor);
      cursor := cursor + 1;
    }
    indegree, ready := counters, growing;
  }

  ghost predicate DependentsListed(g: Deps, told: seq<Id>, x: Id) {
    Distinct(told) && forall v :: v in told <==> v in g && x in g[v]
  }

  /** Kahn's loop visits every node exactly when the graph has no cycle. */
  method KahnVisitsAll(g: Deps, nodes: seq<Id>) returns (all: bool)
    requires NodeList(g, nodes)
    ensures all <==> !Cyclic(g)
  {
    var indegree, dependents := CountEdges(g, nodes);
    InitialCounts(g, nodes, indegree);
    var ready := InitialQueue(g, nodes, indegree);
    assert Visiting(g, indegree, ready, 0) by { assert Members(ready[..0]) == {}; }
    forall x | x in g ensures DependentsListed(g, dependents[x], x) { DependentsOf(g, nodes, dependents, x); }
    ghost var counters, queue;
    var visited;
    visited, counters, queue := DrainQueue(g, dependents, indegree, ready);
    assert queue[..|queue|] == queue;
    VisitedAllIffAcyclic(g, nodes, counters, queue);
    return visited == |nodes|;
  }

  lemma DependentsOf(g: Deps, nodes: seq<Id>, dependents: Deps, x: Id)
    requires NodeList(g, nodes) && Reversed(g, dependents, nodes) && x in g
    ensures x in dependents && DependentsListed(g, dependents[x], x)
  {
  }

  lemma QueueFits(g: Deps, indegree: map<Id, nat>, ready: seq<Id>)
    requires Queue(g, indegree, ready)
    ensures |ready| <= |g.Keys|
  {
    TopologicalIsDistinct(g, ready);
    DistinctSize(ready);
    SubsetIsSmaller(Members(ready), g.Keys);
  }

  lemma QueueLeavesCycle(g: Deps, indegree: map<Id, nat>, ready: seq<Id>)
    requires Queue(g, indegree, ready) && CountsAll(g, indegree, Members(ready)) && Closed(g)
    requires Members(ready) < g.Keys
    ensures Cyclic(g)
  {
    var stuck := g.Keys - Members(ready);
    forall n | n in stuck ensures n in g && exists d <- g[n] :: d in stuck {
      UnmetZero(g[n], Members(ready));
      assert n !in ready;
      var d :| d in g[n] && d !in Members(ready);
      assert d in stuck;
    }
    var x :| x in g.Keys && x !in Members(ready);
    assert x in stuck;
    StuckIsCyclic(g, stuck);
  }

  lemma QueueOfAllIsAcyclic(g: Deps, indegree: map<Id, nat>, ready: seq<Id>)
    requires Queue(g, indegree, ready) && Members(ready) == g.Keys
    ensures !Cyclic(g)
  {
    forall n | n in g ensures n in ready { assert n in Members(ready); }
    CompleteOrderIsAcyclic(g, ready);
  }

  lemma VisitedAllIffAcyclic(g: Deps, nodes: seq<Id>, indegree: map<Id, nat>, ready: seq<Id>)
    requires NodeList(g, nodes) && Queue(g, indegree, ready) && CountsAll(g, indegree, Members(ready))
    ensures |ready| == |nodes| <==> !Cyclic(g)
  {
    TopologicalIsDistinct(g, ready);
    DistinctSize(ready);
    DistinctSize(nodes);
    assert Members(nodes) == g.Keys;
    SubsetIsSmaller(Members(ready), g.Keys);
    if |ready| == |nodes| {
      QueueOfAllIsAcyclic(g, indegree, ready);
    } else {
      assert Members(ready) <= g.Keys && Members(ready) != g.Keys;
      QueueLeavesCycle(g, indegree, ready);
    }
  }
}
