/** Growing and advancing a live plan, and what every run of reconcile, extend, evolve and transition keeps. */
module AgentPlanRuns {
  import opened Common
  import opened Graph
  import opened AgentPlan
  import opened AgentPlanMeaning

  // ---------------------------------------------------------- transition

  function IndexOf(nodes: seq<Node>, id: Id): (i: nat)
    ensures i <= |nodes|
    ensures i < |nodes| ==> nodes[i].nodeId == id
    ensures i == |nodes| <==> forall n <- nodes :: n.nodeId != id
  {
    if nodes == [] then 0
    else if nodes[0].nodeId == id then 0
    else
      var i := 1 + IndexOf(nodes[1..], id);
      assert nodes == [nodes[0]] + nodes[1..];
      i
  }

  /** Which changes of one node the program lets through. */
  predicate MayBecome(n: Node, next: NodeState, evidence: Text) {
    && !Terminal(n.state)
    && (next.RUNNING? ==> n.state.READY?)
    && (next.VERIFIED? ==> n.state.RUNNING? && 1 <= |evidence| <= MAX_EVIDENCE)
  }

  function Advanced(p: Plan, i: nat, next: NodeState, evidence: Text, at: int): Plan
    requires i < |p.nodes|
  {
    var n := p.nodes[i].(state := next, evidence := if next.VERIFIED? then evidence else [], updatedAt := at);
    p.(nodes := p.nodes[i := n], updatedAt := at, revision := p.revision + 1)
  }

  ghost predicate CanTransition(p: Plan, id: Id, next: NodeState, evidence: Text, at: int) {
    && WellFormed(p) && at >= p.updatedAt && p.revision + 1 < MAX_SAFE_INTEGER
    && IndexOf(p.nodes, id) < |p.nodes| && MayBecome(p.nodes[IndexOf(p.nodes, id)], next, evidence)
  }

  function Transitioned(p: Plan, id: Id, next: NodeState, evidence: Text, at: int): Plan
    requires IndexOf(p.nodes, id) < |p.nodes|
  {
    Reconciled(Advanced(p, IndexOf(p.nodes, id), next, evidence, at), at)
  }

  lemma {:induction false} UpdateKeepsDeps(nodes: seq<Node>, i: nat, n: Node)
    requires i < |nodes| && n.nodeId == nodes[i].nodeId && n.dependsOn == nodes[i].dependsOn
    ensures DepsOf(nodes[i := n]) == DepsOf(nodes)
  {
    if i > 0 {
      assert nodes[i := n][1..] == nodes[1..][i - 1 := n];
      UpdateKeepsDeps(nodes[1..], i - 1, n);
    }
  }

  lemma AdvancedIsWellFormed(p: Plan, i: nat, next: NodeState, evidence: Text, at: int)
    requires WellFormed(p) && at >= p.updatedAt && p.revision < MAX_SAFE_INTEGER
    requires i < |p.nodes| && MayBecome(p.nodes[i], next, evidence)
    ensures WellFormed(Advanced(p, i, next, evidence, at))
  {
    hide Distinct, BudgetValid, Cyclic, DepsOf;
    var q := Advanced(p, i, next, evidence, at);
    UpdateKeepsDeps(p.nodes, i, q.nodes[i]);
    KnownIsClosed(p.nodes);
    KnownIsClosed(q.nodes);
    forall n | n in q.nodes ensures NodeValid(n) && q.createdAt <= n.updatedAt <= at {
      var k :| 0 <= k < |q.nodes| && q.nodes[k] == n;
      assert p.nodes[k] in p.nodes;
    }
  }

  method Transition(p: Plan, id: Id, next: NodeState, evidence: Text, at: int) returns (r: Result<Plan, Error>)
    ensures r.Ok? <==> CanTransition(p, id, next, evidence, at)
    ensures r.Ok? ==> r.value == Transitioned(p, id, next, evidence, at) && r.value.revision == p.revision + 2
  {
    var error := Normalize(p);
    if error.Some? { return Err(error.value); }
    if at < p.updatedAt { return Err(MutationPrecedesCurrent); }
    var i := IndexOf(p.nodes, id);
    if i == |p.nodes| { return Err(NodeNotFound); }
    var node := p.nodes[i];
    if Terminal(node.state) { return Err(TerminalNode); }
    if next.RUNNING? && !node.state.READY? { return Err(NotReady); }
    if next.VERIFIED? && !(1 <= |evidence| <= MAX_EVIDENCE && node.state.RUNNING?) { return Err(VerifiedNeedsEvidence); }
    if p.revision < MAX_SAFE_INTEGER { AdvancedIsWellFormed(p, i, next, evidence, at); }
    r := Reconcile(Advanced(p, i, next, evidence, at), at);
  }

  // ----------------------------------------------------------- extension

  function TotalBudget(nodes: seq<Node>): Budget {
    if nodes == [] then Budget(0, 0, 0)
    else
      var rest := TotalBudget(nodes[1..]);
      var b := nodes[0].budget;
      Budget(b.maxModelCalls + rest.maxModelCalls, b.maxRuntimeSeconds + rest.maxRuntimeSeconds,
             b.maxCostUsdMicros + rest.maxCostUsdMicros)
  }

  predicate WithinEnvelope(nodes: seq<Node>, envelope: Budget) {
    var total := TotalBudget(nodes);
    && total.maxModelCalls <= envelope.maxModelCalls
    && total.maxRuntimeSeconds <= envelope.maxRuntimeSeconds
    && total.maxCostUsdMicros <= envelope.maxCostUsdMicros
  }

  /** New nodes enter pending, without evidence, at the time of the extension. */
  function Stamped(additions: seq<Node>, at: int): (r: seq<Node>)
    ensures |r| == |additions| && forall i | 0 <= i < |r| :: r[i] == additions[i].(state := PENDING, evidence := [], updatedAt := at)
  {
    seq(|additions|, i requires 0 <= i < |additions| => additions[i].(state := PENDING, evidence := [], updatedAt := at))
  }

  function Appended(p: Plan, additions: seq<Node>, at: int): Plan {
    p.(nodes := p.nodes + Stamped(additions, at), updatedAt := at)
  }

  predicate AdditionsAllowed(p: Plan, additions: seq<Node>) {
    && 1 <= |additions| <= MAX_EXTENSION
    && forall n <- additions :: n.state.PENDING? && n.evidence == [] && NodeValid(n)
  }

  ghost predicate CanExtend(p: Plan, expectedRevision: int, additions: seq<Node>, envelope: Budget, at: int) {
    && WellFormed(p) && at >= p.updatedAt && p.revision == expectedRevision
    && AdditionsAllowed(p, additions) && BudgetValid(envelope)
    && WithinEnvelope(p.nodes + Stamped(additions, at), envelope)
    && CanReconcile(Appended(p, additions, at), at)
  }

  method Extend(p: Plan, expectedRevision: int, additions: seq<Node>, envelope: Budget, at: int)
    returns (r: Result<Plan, Error>)
    ensures r.Ok? <==> CanExtend(p, expectedRevision, additions, envelope, at)
    ensures r.Ok? ==> r.value == Reconciled(Appended(p, additions, at), at) && r.value.revision == p.revision + 1
  {
    var error := Normalize(p);
    if error.Some? { return Err(error.value); }
    if at < p.updatedAt { return Err(MutationPrecedesCurrent); }
    if p.revision != expectedRevision { return Err(RevisionConflict); }
    if !AdditionsAllowed(p, additions) { return Err(ExtensionNode); }
    var nodes := p.nodes + Stamped(additions, at);
    if !DistinctNodes(nodes) { return Err(DuplicateNodeId); }
    if !BudgetValid(envelope) || !WithinEnvelope(nodes, envelope) { return Err(BudgetExceeded); }
    r := Reconcile(Appended(p, additions, at), at);
  }

  ghost predicate CanEvolve(current: Plan, candidate: Plan, envelope: Budget, at: int) {
    && WellFormed(candidate) && candidate.revision == current.revision
    && candidate.identity == current.identity && candidate.createdAt == current.createdAt
    && |candidate.nodes| > |current.nodes| && candidate.nodes[..|current.nodes|] == current.nodes
    && CanExtend(current, current.revision, candidate.nodes[|current.nodes|..], envelope, at)
  }

  /** A model's full replacement is accepted only as append-only growth of the current plan. */
  method Evolve(current: Plan, candidate: Plan, envelope: Budget, at: int) returns (r: Result<Plan, Error>)
    ensures r.Ok? <==> CanEvolve(current, candidate, envelope, at)
    ensures r.Ok? ==> r.value == Reconciled(Appended(current, candidate.nodes[|current.nodes|..], at), at)
  {
    var error := Normalize(current);
    if error.Some? { return Err(error.value); }
    if at < current.updatedAt { return Err(MutationPrecedesCurrent); }
    error := Normalize(candidate);
    if error.Some? { return Err(error.value); }
    if candidate.revision != current.revision { return Err(RevisionConflict); }
    if candidate.identity != current.identity || candidate.createdAt != current.createdAt { return Err(IdentityReplaced); }
    if |candidate.nodes| <= |current.nodes| { return Err(NothingAppended); }
    var echoed := EchoesExactly(current.nodes, candidate.nodes);
    if !echoed { return Err(ExistingNodeReplaced); }
    r := Extend(current, current.revision, candidate.nodes[|current.nodes|..], envelope, at);
  }

  method EchoesExactly(nodes: seq<Node>, candidates: seq<Node>) returns (same: bool)
    requires |nodes| <= |candidates|
    ensures same <==> candidates[..|nodes|] == nodes
  {
    for index := 0 to |nodes|
      invariant candidates[..index] == nodes[..index]
    {
      if candidates[index] != nodes[index] {
        assert candidates[..|nodes|][index] != nodes[index];
        return false;
      }
    }
    return true;
  }

  // ------------------------------------------------------- run invariants

  predicate Disjoint(a: Node, b: Node) { forall key <- a.conflictKeys :: key !in b.conflictKeys }

  /** Running work never overlaps, and nothing runs or is verified before what it depends on. */
  ghost predicate Sound(nodes: seq<Node>) {
    && (forall i, j | 0 <= i < j < |nodes| && nodes[i].state.RUNNING? && nodes[j].state.RUNNING? ::
          Disjoint(nodes[i], nodes[j]))
    && (forall n <- nodes :: n.state.RUNNING? || n.state.VERIFIED? ==> DependenciesVerified(nodes, n))
    && (forall n <- nodes :: n.state.VERIFIED? ==> n.evidence != [])
  }

  /** READY nodes may start at once. */
  ghost predicate ReadyIsTrue(nodes: seq<Node>) {
    forall n <- nodes :: n.state.READY? ==> DependenciesVerified(nodes, n) && !Conflicts(nodes, n)
  }

  lemma {:induction false} SkeletonKeepsVerified(a: seq<Node>, b: seq<Node>, id: Id)
    requires SameSkeleton(a, b)
    ensures StateOf(a, id).VERIFIED? <==> StateOf(b, id).VERIFIED?
  {
    if a != [] {
      assert SameWork(a[0], b[0]);
      SkeletonKeepsVerified(a[1..], b[1..], id);
    }
  }

  lemma SkeletonKeepsReadiness(a: seq<Node>, b: seq<Node>, n: Node, m: Node)
    requires SameSkeleton(a, b) && n.dependsOn == m.dependsOn && n.conflictKeys == m.conflictKeys
    ensures DependenciesVerified(a, n) <==> DependenciesVerified(b, m)
    ensures Conflicts(a, n) <==> Conflicts(b, m)
  {
    forall d | d in n.dependsOn ensures StateOf(a, d).VERIFIED? <==> StateOf(b, d).VERIFIED? {
      SkeletonKeepsVerified(a, b, d);
    }
    SkeletonKeepsRunning(a, b);
  }

  lemma {:induction false} PassReaches(nodes: seq<Node>, i: nat, at: int, k: nat) returns (mid: seq<Node>)
    requires i <= k < |nodes|
    ensures SameSkeleton(nodes, mid) && mid[k].state == nodes[k].state
    ensures PassFrom(nodes, i, at)[k].state == NextState(mid, mid[k])
    decreases |nodes| - i
  {
    if i < k {
      var after := Touch(nodes, i, at);
      TouchKeepsSkeleton(nodes, i, at);
      mid := PassReaches(after, i + 1, at, k);
      SkeletonsCompose(nodes, after, mid);
    } else {
      mid := nodes;
      PassKeepsSkeleton(Touch(nodes, i, at), i + 1, at);
    }
  }

  lemma SkeletonsCompose(a: seq<Node>, b: seq<Node>, c: seq<Node>)
    requires SameSkeleton(a, b) && SameSkeleton(b, c)
    ensures SameSkeleton(a, c)
  {
    forall i | 0 <= i < |a| ensures SameWork(a[i], c[i]) {
      assert SameWork(a[i], b[i]) && SameWork(b[i], c[i]);
    }
  }

  /** After one pass, in any list order, READY is exact: all dependencies verified and no running conflict. */
  lemma ReadyIsExactAfterOnePass(nodes: seq<Node>, at: int, k: nat)
    requires WellGraphed(nodes) && k < |nodes|
    ensures var after := Pass(nodes, at);
            k < |after| &&
            (after[k].state.READY? <==>
               !Frozen(after[k].state) && DependenciesVerified(after, after[k]) && !Conflicts(after, after[k]))
  {
    var after := Pass(nodes, at);
    PassKeepsSkeleton(nodes, 0, at);
    assert SameWork(nodes[k], after[k]);
    var mid := PassReaches(nodes, 0, at, k);
    assert SameWork(nodes[k], mid[k]);
    SkeletonKeepsReadiness(nodes, after, nodes[k], after[k]);
    SkeletonKeepsReadiness(nodes, mid, nodes[k], mid[k]);
    if DependenciesVerified(mid, mid[k]) { assert !DependencyFailed(mid, mid[k]); }
  }

  lemma PassKeepsSound(nodes: seq<Node>, at: int)
    requires WellGraphed(nodes) && Sound(nodes)
    ensures Sound(Pass(nodes, at)) && ReadyIsTrue(Pass(nodes, at))
  {
    var after := Pass(nodes, at);
    PassKeepsSkeleton(nodes, 0, at);
    forall n | n in after
      ensures n.state.RUNNING? || n.state.VERIFIED? ==> DependenciesVerified(after, n)
      ensures n.state.VERIFIED? ==> n.evidence != []
      ensures n.state.READY? ==> DependenciesVerified(after, n) && !Conflicts(after, n)
    {
      var k :| 0 <= k < |after| && after[k] == n;
      assert SameWork(nodes[k], after[k]) && nodes[k] in nodes;
      ReadyIsExactAfterOnePass(nodes, at, k);
      SkeletonKeepsReadiness(nodes, after, nodes[k], after[k]);
    }
    forall i, j | 0 <= i < j < |after| && after[i].state.RUNNING? && after[j].state.RUNNING?
      ensures Disjoint(after[i], after[j])
    {
      assert SameWork(nodes[i], after[i]) && SameWork(nodes[j], after[j]);
    }
  }

  lemma UpdateKeepsVerified(nodes: seq<Node>, i: nat, n: Node, id: Id)
    requires DistinctNodes(nodes) && i < |nodes| && n.nodeId == nodes[i].nodeId && !nodes[i].state.VERIFIED?
    requires StateOf(nodes, id).VERIFIED?
    ensures StateOf(nodes[i := n], id).VERIFIED?
  {
    if id == n.nodeId {
      StateOfMember(nodes, nodes[i]);
    } else {
      StateAfterUpdate(nodes, i, n, id);
    }
  }

  /** A node that starts was READY, so it overlaps nothing that already runs. */
  lemma AdvanceKeepsSound(p: Plan, i: nat, next: NodeState, evidence: Text, at: int)
    requires WellGraphed(p.nodes) && Sound(p.nodes) && ReadyIsTrue(p.nodes)
    requires i < |p.nodes| && MayBecome(p.nodes[i], next, evidence)
    ensures Sound(Advanced(p, i, next, evidence, at).nodes)
  {
    var before := p.nodes;
    var n := Advanced(p, i, next, evidence, at).nodes[i];
    var after := before[i := n];
    assert before[i] in before;
    forall m | m in after
      ensures m.state.RUNNING? || m.state.VERIFIED? ==> DependenciesVerified(after, m)
      ensures m.state.VERIFIED? ==> m.evidence != []
    {
      var k :| 0 <= k < |after| && after[k] == m;
      assert before[k] in before;
      if m.state.RUNNING? || m.state.VERIFIED? {
        assert DependenciesVerified(before, before[k]);
        forall d | d in m.dependsOn ensures StateOf(after, d).VERIFIED? {
          UpdateKeepsVerified(before, i, n, d);
        }
      }
    }
    forall a, b | 0 <= a < b < |after| && after[a].state.RUNNING? && after[b].state.RUNNING?
      ensures Disjoint(after[a], after[b])
    {
      if next.RUNNING? && (a == i || b == i) {
        var other := if a == i then b else a;
        assert before[other] in before;
        forall key | key in before[i].conflictKeys ensures key !in before[other].conflictKeys {
          assert key in before[other].conflictKeys ==> RunningKey(before, key);
        }
      }
    }
  }

  lemma {:induction false} StateOfPrefix(nodes: seq<Node>, more: seq<Node>, id: Id)
    requires exists n <- nodes :: n.nodeId == id
    ensures StateOf(nodes + more, id) == StateOf(nodes, id)
  {
    if nodes[0].nodeId != id {
      assert (nodes + more)[1..] == nodes[1..] + more;
      StateOfPrefix(nodes[1..], more, id);
    }
  }

  lemma AppendKeepsSound(p: Plan, additions: seq<Node>, at: int)
    requires WellGraphed(p.nodes) && Sound(p.nodes)
    ensures Sound(Appended(p, additions, at).nodes)
  {
    var nodes := Appended(p, additions, at).nodes;
    forall n | n in nodes
      ensures n.state.RUNNING? || n.state.VERIFIED? ==> DependenciesVerified(nodes, n)
      ensures n.state.VERIFIED? ==> n.evidence != []
    {
      if n in p.nodes {
        if n.state.RUNNING? || n.state.VERIFIED? {
          forall d | d in n.dependsOn ensures StateOf(nodes, d).VERIFIED? {
            StateOfPrefix(p.nodes, Stamped(additions, at), d);
          }
        }
      }
    }
  }

  // ---------------------------------------------------------- whole runs

  datatype Step =
    | DoReconcile(at: int)
    | DoExtend(expectedRevision: int, additions: seq<Node>, envelope: Budget, at: int)
    | DoEvolve(candidate: Plan, envelope: Budget, at: int)
    | DoTransition(id: Id, next: NodeState, evidence: Text, at: int)

  /** One successful operation. */
  ghost predicate Steps(p: Plan, step: Step, q: Plan) {
    match step
    case DoReconcile(at) => CanReconcile(p, at) && q == Reconciled(p, at)
    case DoExtend(expectedRevision, additions, envelope, at) =>
      CanExtend(p, expectedRevision, additions, envelope, at) && q == Reconciled(Appended(p, additions, at), at)
    case DoEvolve(candidate, envelope, at) =>
      && CanEvolve(p, candidate, envelope, at)
      && q == Reconciled(Appended(p, candidate.nodes[|p.nodes|..], at), at)
    case DoTransition(id, next, evidence, at) =>
      CanTransition(p, id, next, evidence, at) && q == Transitioned(p, id, next, evidence, at)
  }

  ghost predicate Inv(p: Plan) { WellFormed(p) && Sound(p.nodes) && ReadyIsTrue(p.nodes) }

  /** Nodes keep their place and their work, and a finished node keeps everything. */
  ghost predicate Grows(a: seq<Node>, b: seq<Node>) {
    && |a| <= |b|
    && forall i | 0 <= i < |a| ::
         && b[i].nodeId == a[i].nodeId && b[i].work == a[i].work && b[i].dependsOn == a[i].dependsOn
         && b[i].conflictKeys == a[i].conflictKeys && b[i].budget == a[i].budget
         && (Terminal(a[i].state) ==> b[i] == a[i])
  }

  lemma ExtendKeepsInv(p: Plan, additions: seq<Node>, at: int)
    requires Inv(p) && CanReconcile(Appended(p, additions, at), at)
    ensures var q := Reconciled(Appended(p, additions, at), at); Inv(q) && Grows(p.nodes, q.nodes)
  {
    var mid := Appended(p, additions, at);
    AppendKeepsSound(p, additions, at);
    ReconcileStep(mid, at);
    assert forall i | 0 <= i < |p.nodes| :: mid.nodes[i] == p.nodes[i];
  }

  lemma TransitionKeepsInv(p: Plan, id: Id, next: NodeState, evidence: Text, at: int)
    requires Inv(p) && CanTransition(p, id, next, evidence, at)
    ensures var q := Transitioned(p, id, next, evidence, at); Inv(q) && Grows(p.nodes, q.nodes)
  {
    var i := IndexOf(p.nodes, id);
    var mid := Advanced(p, i, next, evidence, at);
    AdvancedIsWellFormed(p, i, next, evidence, at);
    AdvanceKeepsSound(p, i, next, evidence, at);
    ReconcileStep(mid, at);
    AdvanceGrows(p, i, next, evidence, at);
    GrowthsCompose(p.nodes, mid.nodes, Reconciled(mid, at).nodes);
  }

  lemma AdvanceGrows(p: Plan, i: nat, next: NodeState, evidence: Text, at: int)
    requires i < |p.nodes| && !Terminal(p.nodes[i].state)
    ensures Grows(p.nodes, Advanced(p, i, next, evidence, at).nodes)
  {
  }

  lemma GrowthsCompose(a: seq<Node>, b: seq<Node>, c: seq<Node>)
    requires Grows(a, b) && Grows(b, c)
    ensures Grows(a, c)
  {
  }

  lemma StepKeepsInv(p: Plan, step: Step, q: Plan)
    requires Inv(p) && Steps(p, step, q)
    ensures Inv(q) && Grows(p.nodes, q.nodes)
  {
    match step
    case DoReconcile(at) => ReconcileStep(p, at);
    case DoExtend(_, additions, _, at) => ExtendKeepsInv(p, additions, at);
    case DoEvolve(candidate, _, at) => ExtendKeepsInv(p, candidate.nodes[|p.nodes|..], at);
    case DoTransition(id, next, evidence, at) => TransitionKeepsInv(p, id, next, evidence, at);
  }

  lemma ReconcileStep(p: Plan, at: int)
    requires CanReconcile(p, at) && Sound(p.nodes)
    ensures Inv(Reconciled(p, at)) && Grows(p.nodes, Reconciled(p, at).nodes)
  {
    ReconciledIsWellFormed(p, at);
    PassKeepsSound(p.nodes, at);
    PassKeepsSkeleton(p.nodes, 0, at);
    forall i | 0 <= i < |p.nodes| ensures SameWork(p.nodes[i], Pass(p.nodes, at)[i]) {}
  }

  ghost predicate Run(plans: seq<Plan>, steps: seq<Step>) {
    && |plans| == |steps| + 1
    && WellFormed(plans[0]) && (forall n <- plans[0].nodes :: n.state.PENDING?)
    && forall k | 0 <= k < |steps| :: Steps(plans[k], steps[k], plans[k + 1])
  }

  lemma FirstIsSound(p: Plan)
    requires WellFormed(p) && forall n <- p.nodes :: n.state.PENDING?
    ensures Inv(p) && Grows(p.nodes, p.nodes)
  {
  }

  lemma GrowsItself(nodes: seq<Node>)
    ensures Grows(nodes, nodes)
  {
  }

  /** Every plan reached from an all-pending one is sound, and whatever finished earlier is still there unchanged. */
  lemma {:induction false} RunsStaySound(plans: seq<Plan>, steps: seq<Step>, i: nat, j: nat)
    requires Run(plans, steps) && i <= j < |plans|
    ensures Inv(plans[j]) && Grows(plans[i].nodes, plans[j].nodes)
    decreases j
  {
    hide Inv, Grows, Steps;
    if j == 0 {
      FirstIsSound(plans[0]);
    } else {
      RunsStaySound(plans, steps, if i < j then i else j - 1, j - 1);
      StepKeepsInv(plans[j - 1], steps[j - 1], plans[j]);
      if i < j {
        GrowthsCompose(plans[i].nodes, plans[j - 1].nodes, plans[j].nodes);
      } else {
        GrowsItself(plans[j].nodes);
      }
    }
  }

  /**
   * No deadlock: after any reconciliation, a plan in which nothing runs, failed or was cancelled is either
   * finished or has a node that can start.
   */
  lemma AlwaysProgress(nodes: seq<Node>, at: int)
    requires WellGraphed(nodes)
    requires forall n <- nodes :: !n.state.RUNNING? && !n.state.FAILED? && !n.state.CANCELLED?
    ensures (forall n <- Pass(nodes, at) :: n.state.VERIFIED?) || exists n <- Pass(nodes, at) :: n.state.READY?
  {
    var after := Pass(nodes, at);
    var done := set n | n in nodes && n.state.VERIFIED? :: n.nodeId;
    PassKeepsSkeleton(nodes, 0, at);
    if done == IdSet(nodes) {
      forall m | m in after ensures m.state.VERIFIED? {
        var k :| 0 <= k < |after| && after[k] == m;
        assert SameWork(nodes[k], after[k]) && nodes[k] in nodes && nodes[k].nodeId in done;
        var n :| n in nodes && n.state.VERIFIED? && n.nodeId == nodes[k].nodeId;
        StateOfMember(nodes, n);
        StateOfMember(nodes, nodes[k]);
      }
    } else {
      var k := SomeoneIsSupported(nodes, done);
      StartsNow(nodes, at, k, done);
      assert after[k] in after;
    }
  }

  lemma StartsNow(nodes: seq<Node>, at: int, k: nat, done: set<Id>)
    requires WellGraphed(nodes) && k < |nodes|
    requires forall n <- nodes :: !n.state.RUNNING? && !n.state.FAILED? && !n.state.CANCELLED?
    requires done == set n | n in nodes && n.state.VERIFIED? :: n.nodeId
    requires nodes[k].nodeId !in done && Supported(nodes[k], done)
    ensures k < |Pass(nodes, at)| && Pass(nodes, at)[k].state.READY?
  {
    var after := Pass(nodes, at);
    PassKeepsSkeleton(nodes, 0, at);
    assert SameWork(nodes[k], after[k]) && nodes[k] in nodes;
    forall d | d in nodes[k].dependsOn ensures StateOf(nodes, d).VERIFIED? {
      var n :| n in nodes && n.state.VERIFIED? && n.nodeId == d;
      StateOfMember(nodes, n);
    }
    SkeletonKeepsReadiness(nodes, after, nodes[k], after[k]);
    ReadyIsExactAfterOnePass(nodes, at, k);
  }
}
