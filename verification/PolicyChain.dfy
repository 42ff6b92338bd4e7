/**
 * What delegation keeps, along chains of any length, and when a stored binding may still be used:
 * src/core/agent-model-policy-binding.js and src/core/agent-model-route-candidate-binding.js.
 */
module PolicyChain {
  import opened Common
  import opened RoutePool
  import opened PolicyBinding

  // --------------------------------------------------- one step of a chain

  lemma CreatedParts(g: Grant)
    requires Create(g).Ok?
    ensures var b := Create(g).value; var own := OwnPolicy(g).value;
            && RequestValid(g) && Inside(g.owner, RouteIds(g.pool)) && ParentError(g).None? && AuthorityOf(g) != []
            && OwnPolicy(g).Ok? && PolicyValid(own) && Project(own, AuthorityOf(g)).Ok?
            && b == Bound(g, Project(own, AuthorityOf(g)).value.0, Project(own, AuthorityOf(g)).value.1)
            && BindingValid(b)
  {
  }

  lemma EffectiveMember(g: Grant, id: Id)
    requires Create(g).Ok? && id in Create(g).value.effective
    ensures id in AuthorityOf(g)
  {
    CreatedParts(g);
    var b := Create(g).value;
    assert Inside(b.effective, b.authority);
  }

  /** A created binding stays inside its owner list, its pool and its parent. */
  lemma EffectiveIsGranted(g: Grant, id: Id)
    requires Create(g).Ok? && id in Create(g).value.effective
    ensures id in g.owner && id in RouteIds(g.pool)
    ensures g.parent.Some? ==> id in g.parent.value.effective
  {
    EffectiveMember(g, id);
    AuthorityMember(g, id);
  }

  lemma ChildIsAsStrict(g: Grant)
    requires Create(g).Ok? && g.parent.Some?
    ensures AtLeastAsStrict(g.parent.value.policy, Create(g).value.policy)
  {
    CreatedParts(g);
    hide Keep, Drop, PolicyValid, BindingValid, Inside;
    var own := OwnPolicy(g).value;
    assert AtLeastAsStrict(g.parent.value.policy, own);
  }

  // ----------------------------------------------------------- whole chains

  /** Bindings created one under the other from one pool: the first is a root. */
  ghost predicate Chain(pool: seq<Route>, grants: seq<Grant>, bindings: seq<Binding>) {
    && |grants| == |bindings| > 0
    && (forall k | 0 <= k < |grants| :: grants[k].pool == pool && Create(grants[k]) == Ok(bindings[k]))
    && grants[0].parent == None
    && (forall k | 0 < k < |grants| :: grants[k].parent == Some(bindings[k - 1]))
  }

  /** What one delegation keeps. */
  ghost predicate Under(parent: Binding, child: Binding) {
    && (forall id <- child.effective :: id in parent.effective) && AtLeastAsStrict(parent.policy, child.policy)
    && child.projectId == parent.projectId && child.routePoolRevision == parent.routePoolRevision
  }

  lemma ChildIsUnder(g: Grant)
    requires Create(g).Ok? && g.parent.Some?
    ensures Under(g.parent.value, Create(g).value)
  {
    forall id | id in Create(g).value.effective ensures id in g.parent.value.effective { EffectiveIsGranted(g, id); }
    ChildIsAsStrict(g);
    ChildSharesScope(g);
  }

  lemma UnderComposes(a: Binding, b: Binding, c: Binding)
    requires Under(a, b) && Under(b, c)
    ensures Under(a, c)
  {
  }

  lemma UnderItself(b: Binding)
    ensures Under(b, b)
  {
  }

  lemma {:induction false} ChainIsUnder(pool: seq<Route>, grants: seq<Grant>, bindings: seq<Binding>, i: nat, j: nat)
    requires Chain(pool, grants, bindings) && i <= j < |bindings|
    ensures Under(bindings[i], bindings[j])
    decreases j
  {
    hide Create, Under;
    if i < j {
      ChainIsUnder(pool, grants, bindings, i, j - 1);
      ChildIsUnder(grants[j]);
      UnderComposes(bindings[i], bindings[j - 1], bindings[j]);
    } else {
      UnderItself(bindings[j]);
    }
  }

  /** Going down a chain routes are only lost and limits only get stricter. */
  lemma ChainNarrows(pool: seq<Route>, grants: seq<Grant>, bindings: seq<Binding>, i: nat, j: nat)
    requires Chain(pool, grants, bindings) && i <= j < |bindings|
    ensures forall id <- bindings[j].effective :: id in bindings[i].effective && id in grants[j].owner
    ensures AtLeastAsStrict(bindings[i].policy, bindings[j].policy)
    ensures bindings[j].projectId == bindings[i].projectId && bindings[j].routePoolRevision == bindings[i].routePoolRevision
  {
    hide Create, AtLeastAsStrict;
    ChainIsUnder(pool, grants, bindings, i, j);
    forall id | id in bindings[j].effective ensures id in grants[j].owner { EffectiveIsGranted(grants[j], id); }
  }

  lemma ChildSharesScope(g: Grant)
    requires Create(g).Ok? && g.parent.Some?
    ensures Create(g).value.projectId == g.parent.value.projectId
    ensures Create(g).value.routePoolRevision == g.parent.value.routePoolRevision
  {
    CreatedParts(g);
  }

  // ----------------------------------------------- what the agents may use

  /** The binding as a selection policy: exactly its effective routes, under its own limits. */
  function Scoped(b: Binding): Policy {
    b.policy.(allow := b.effective, deny := [], ordered := Keep(b.policy.ordered, b.effective))
  }

  function ScopedPool(pool: seq<Route>, b: Binding): seq<Route> { Where(pool, (r: Route) => r.routeId in b.effective) }

  function BoundRoutes(pool: seq<Route>, b: Binding, states: map<Id, RouteState>, q: Request): seq<Route> {
    EligibleRoutes(ScopedPool(pool, b), Scoped(b), states, q)
  }

  lemma BoundRoute(pool: seq<Route>, b: Binding, states: map<Id, RouteState>, q: Request, r: Route)
    requires b.effective != []
    ensures r in BoundRoutes(pool, b, states, q) <==> r in pool && r.routeId in b.effective && Eligible(r, Scoped(b), q)
  {
    WhereMember(pool, (r: Route) => r.routeId in b.effective, r);
    EligibleMember(ScopedPool(pool, b), Scoped(b), states, q, r);
  }

  lemma StricterAllowsLess(a: Binding, b: Binding, q: Request, r: Route)
    requires AtLeastAsStrict(a.policy, b.policy) && b.effective != [] && r.routeId in a.effective
    requires Eligible(r, Scoped(b), q)
    ensures Eligible(r, Scoped(a), q)
  {
  }

  /**
   * Whatever the role, the capabilities, the need for vision and the time: a route an agent may use is a route
   * every agent above it may use.
   */
  lemma ChainNarrowsEligibility(pool: seq<Route>, grants: seq<Grant>, bindings: seq<Binding>, i: nat, j: nat,
                                a: map<Id, RouteState>, b: map<Id, RouteState>, q: Request, r: Route)
    requires Chain(pool, grants, bindings) && i <= j < |bindings| && r in BoundRoutes(pool, bindings[j], b, q)
    ensures r in BoundRoutes(pool, bindings[i], a, q) && r.routeId in grants[j].owner && r.routeId in grants[i].owner
  {
    ChainNarrows(pool, grants, bindings, i, j);
    ChainNarrows(pool, grants, bindings, i, i);
    CreatedParts(grants[i]);
    CreatedParts(grants[j]);
    hide Create, AtLeastAsStrict, Eligible, PolicyValid, Scoped;
    BoundRoute(pool, bindings[j], b, q, r);
    StricterAllowsLess(bindings[i], bindings[j], q, r);
    BoundRoute(pool, bindings[i], a, q, r);
  }

  // --------------------------------------------------- creating it once more

  /** The same grant from a later pool, with the binding's own authority as the owner list. */
  function Again(g: Grant, pool: seq<Route>): Grant { g.(pool := pool, owner := AuthorityOf(g)) }

  predicate PoolKeeps(pool: seq<Route>, authority: seq<Id>) {
    && 1 <= |pool| <= MAX_ROUTES && DistinctRoutes(pool)
    && Inside(authority, RouteIds(pool)) && Keep(RouteIds(pool), authority) == authority
  }

  lemma AuthorityAgain(g: Grant, pool: seq<Route>)
    requires Keep(RouteIds(pool), AuthorityOf(g)) == AuthorityOf(g)
    ensures AuthorityOf(Again(g, pool)) == AuthorityOf(g)
  {
    if g.parent.Some? {
      forall id | id in AuthorityOf(g) ensures id in g.parent.value.effective { AuthorityMember(g, id); }
      KeepAll(AuthorityOf(g), g.parent.value.effective);
    }
  }

  /**
   * Creating a binding again from its own authority list gives the same binding, key included, from any pool
   * that lists its routes in the same order and still knows the parent's; a pool that forgot one of those refuses.
   */
  lemma CreatedAgain(g: Grant, pool: seq<Route>)
    requires Create(g).Ok? && PoolKeeps(pool, Create(g).value.authority)
    ensures Create(Again(g, pool)) == Create(g)
            <==> (g.parent.Some? ==> Inside(g.parent.value.effective, RouteIds(pool)))
    ensures Create(Again(g, pool)).Err? || Create(Again(g, pool)) == Create(g)
  {
    CreatedParts(g);
    AuthorityAgain(g, pool);
    AuthorityIsList(g);
    var h := Again(g, pool);
    assert OwnPolicy(h) == OwnPolicy(g);
    CreationEndsNormal(h);
    hide OwnPolicy, Project, Keep, Drop, AuthorityOf, DistinctRoutes, PolicyValid, Distinct;
    if ParentError(h).None? {
      CreatedParts(h);
    }
  }

  /** In particular the very same pool gives the very same key. */
  lemma CreatedAgainFromItsOwnPool(g: Grant)
    requires Create(g).Ok?
    ensures Create(Again(g, g.pool)) == Create(g)
  {
    CreatedParts(g);
    OwnPoolKeeps(g);
    CreatedAgain(g, g.pool);
  }

  lemma OwnPoolKeeps(g: Grant)
    requires RequestValid(g)
    ensures PoolKeeps(g.pool, AuthorityOf(g))
  {
    forall id | id in AuthorityOf(g) ensures id in RouteIds(g.pool) { AuthorityMember(g, id); }
    KeepTwice(RouteIds(g.pool), g.owner);
    if g.parent.Some? {
      KeepTwice(Keep(RouteIds(g.pool), g.owner), g.parent.value.effective);
      forall id | id in AuthorityOf(g) ensures id in g.owner { AuthorityMember(g, id); }
      KeepNested(RouteIds(g.pool), g.owner, AuthorityOf(g));
    }
  }

  lemma KeepTwice(ids: seq<Id>, scope: seq<Id>)
    ensures Keep(ids, Keep(ids, scope)) == Keep(ids, scope)
  {
    forall id | id in ids ensures id in scope <==> id in Keep(ids, scope) { KeepMember(ids, scope, id); }
    KeepSame(ids, scope, Keep(ids, scope));
  }

  lemma {:induction false} KeepNested(ids: seq<Id>, outer: seq<Id>, inner: seq<Id>)
    requires forall id <- inner :: id in outer
    ensures Keep(Keep(ids, outer), inner) == Keep(ids, inner)
  {
    if ids != [] {
      KeepNested(ids[1..], outer, inner);
      var t := Keep(ids[1..], outer);
      if ids[0] in outer {
        assert ([ids[0]] + t)[1..] == t;
      } else {
        assert ids[0] !in inner && [] + t == t;
      }
    }
  }

  // ----------------------------------------------------- using a binding

  /** The checks of `rankBoundAgentModelRouteCandidatesV1` on the model side, then the selection. */
  function RankBound(b: Binding, pool: seq<Route>, poolRevision: nat, policy: PolicyInput, parent: Option<Binding>,
                     states: map<Id, RouteState>, q: Request, now: nat): Result<Selection, Error>
  {
    if !BindingValid(b) then Err(InvalidBinding)
    else if b.routePoolRevision != poolRevision then Err(Stale)
    else if !(|pool| <= MAX_ROUTES && DistinctRoutes(pool)) then Err(InvalidRequest)
    else if !Inside(b.authority, RouteIds(pool)) then Err(UnknownRoute)
    else if Keep(RouteIds(pool), b.authority) != b.authority then Err(Drifted)
    else if b.parentAgentId.Some? != parent.Some? then Err(ParentMismatch)
    else if parent.Some? && !BindingValid(parent.value) then Err(InvalidBinding)
    else if parent.Some? && (Some(parent.value.agentId) != b.parentAgentId || parent.value.projectId != b.projectId
                             || parent.value.routePoolRevision != poolRevision) then Err(ParentMismatch)
    else
      var again :- Create(Grant(b.projectId, b.agentId, b.policyRevision, poolRevision, pool, b.authority, policy, parent));
      if again.key != b.key then Err(Drifted)
      else Ok(SelectCandidates(ScopedPool(pool, b), Scoped(b), states, q, now))
  }

  /** A candidate offered to an agent is in its binding, inside its parent, and eligible under all its limits. */
  lemma RankedCandidatesAreBound(b: Binding, pool: seq<Route>, poolRevision: nat, policy: PolicyInput, parent: Option<Binding>,
                                 states: map<Id, RouteState>, q: Request, now: nat, r: Route)
    requires RankBound(b, pool, poolRevision, policy, parent, states, q, now).Ok?
    requires r in RankBound(b, pool, poolRevision, policy, parent, states, q, now).value.candidates
    ensures r in pool && r.routeId in b.effective && Eligible(r, Scoped(b), q) && Available(states, now, r)
    ensures parent.Some? ==> r.routeId in parent.value.effective && AtLeastAsStrict(parent.value.policy, b.policy)
  {
    var g := Grant(b.projectId, b.agentId, b.policyRevision, poolRevision, pool, b.authority, policy, parent);
    SelectedIsAvailable(ScopedPool(pool, b), Scoped(b), states, q, now, r);
    BoundRoute(pool, b, states, q, r);
    KeysMatch(g, b);
    EffectiveIsGranted(g, r.routeId);
    if parent.Some? { ChildIsAsStrict(g); }
  }

  /** Equal keys are equal bindings. */
  lemma KeysMatch(g: Grant, b: Binding)
    requires Create(g).Ok? && BindingValid(b) && Create(g).value.key == b.key
    ensures Create(g).value == b
  {
    CreatedParts(g);
  }

  lemma SelectedIsAvailable(pool: seq<Route>, p: Policy, states: map<Id, RouteState>, q: Request, now: nat, r: Route)
    requires r in SelectCandidates(pool, p, states, q, now).candidates
    ensures r in EligibleRoutes(pool, p, states, q) && Available(states, now, r)
  {
    WhereMember(EligibleRoutes(pool, p, states, q), (r: Route) => Available(states, now, r), r);
  }

  /**
   * A binding can be used for as long as its policy, its parent and its routes stand: in the pool revision it was
   * made for it is accepted from any pool that keeps the order of its routes exactly when the parent's are known.
   */
  lemma FreshBindingIsAccepted(g: Grant, pool: seq<Route>, states: map<Id, RouteState>, q: Request, now: nat)
    requires Create(g).Ok? && PoolKeeps(pool, Create(g).value.authority)
    ensures RankBound(Create(g).value, pool, g.routePoolRevision, g.policy, g.parent, states, q, now).Ok?
            <==> (g.parent.Some? ==> Inside(g.parent.value.effective, RouteIds(pool)))
  {
    CreatedParts(g);
    CreatedAgain(g, pool);
    var b := Create(g).value;
    assert Again(g, pool) == Grant(b.projectId, b.agentId, b.policyRevision, g.routePoolRevision, pool, b.authority, g.policy, g.parent);
  }
}
