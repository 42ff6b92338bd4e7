/** In which order a bound agent is offered its routes, and when its binding may be used at all. */
module PolicyUse {
  import opened Common
  import opened RoutePool
  import opened RouteChoice
  import opened PolicyBinding
  import opened PolicyChain
  import opened PolicyMeaning

  lemma IndexBehind(first: Id, rest: seq<Id>, id: Id)
    ensures IndexIn([first] + rest, id) == if id == first then 0 else 1 + IndexIn(rest, id)
  {
    assert ([first] + rest)[1..] == rest;
  }

  lemma {:induction false} KeepIndex(ids: seq<Id>, scope: seq<Id>, a: Id, b: Id)
    requires a in scope && b in scope
    ensures IndexIn(Keep(ids, scope), a) < IndexIn(Keep(ids, scope), b) <==> IndexIn(ids, a) < IndexIn(ids, b)
  {
    hide IndexIn;
    if ids != [] {
      var first, rest := ids[0], Keep(ids[1..], scope);
      KeepIndex(ids[1..], scope, a, b);
      assert ids == [first] + ids[1..];
      IndexBehind(first, ids[1..], a);
      IndexBehind(first, ids[1..], b);
      IndexBehind(first, rest, a);
      IndexBehind(first, rest, b);
      assert [] + rest == rest;
    }
  }

  lemma ListedMeans(p: Policy, a: Id, b: Id)
    ensures ListedBefore(p, a, b) <==> IndexIn(p.ordered, a) < IndexIn(p.ordered, b)
  {
    var ids := p.ordered;
    forall n | 0 <= n <= |ids| ensures a in ids[..n] <==> IndexIn(ids, a) < n ensures b in ids[..n] <==> IndexIn(ids, b) < n {
      PrefixMember(ids, a, n);
      PrefixMember(ids, b, n);
    }
    forall i | 0 <= i < |ids| && ids[i] == a && b !in ids[..i + 1] ensures IndexIn(ids, a) < IndexIn(ids, b) {
      assert ids[..i + 1][i] == a;
    }
    if IndexIn(ids, a) < IndexIn(ids, b) { assert ids[IndexIn(ids, a)] == a; }
  }

  lemma ScopedPrefersAlike(b: Binding, states: map<Id, RouteState>, x: Route, y: Route)
    requires x.routeId in b.effective && y.routeId in b.effective
    ensures Preferred(Scoped(b), states, x, y) <==> Preferred(b.policy, states, x, y)
  {
    ListedMeans(Scoped(b), x.routeId, y.routeId);
    ListedMeans(Scoped(b), y.routeId, x.routeId);
    ListedMeans(b.policy, x.routeId, y.routeId);
    ListedMeans(b.policy, y.routeId, x.routeId);
    KeepIndex(b.policy.ordered, b.effective, x.routeId, y.routeId);
    KeepIndex(b.policy.ordered, b.effective, y.routeId, x.routeId);
    hide Keep, ListedBefore, IndexIn;
  }

  /** The routes offered to an agent come in the order of preference of its own binding. */
  lemma OfferedByPreference(b: Binding, pool: seq<Route>, poolRevision: nat, policy: PolicyInput, parent: Option<Binding>,
                            states: map<Id, RouteState>, q: Request, now: nat, i: nat, j: nat)
    requires RankBound(b, pool, poolRevision, policy, parent, states, q, now).Ok?
    requires b.policy.autoSwitch && forall id <- states :: states[id].lastLatencyMs <= MAX_SAFE_INTEGER
    requires i < j < |RankBound(b, pool, poolRevision, policy, parent, states, q, now).value.candidates|
    ensures var c := RankBound(b, pool, poolRevision, policy, parent, states, q, now).value.candidates;
            Preferred(b.policy, states, c[i], c[j])
  {
    var c := RankBound(b, pool, poolRevision, policy, parent, states, q, now).value.candidates;
    assert c[i] in c && c[j] in c;
    RankedCandidatesAreBound(b, pool, poolRevision, policy, parent, states, q, now, c[i]);
    RankedCandidatesAreBound(b, pool, poolRevision, policy, parent, states, q, now, c[j]);
    RankBoundSelects(b, pool, poolRevision, policy, parent, states, q, now);
    hide RankBound, BindingValid, SelectCandidates, Preferred;
    CandidatesByPreference(ScopedPool(pool, b), Scoped(b), states, q, now, i, j);
    ScopedPrefersAlike(b, states, c[i], c[j]);
  }

  lemma RankBoundSelects(b: Binding, pool: seq<Route>, poolRevision: nat, policy: PolicyInput, parent: Option<Binding>,
                         states: map<Id, RouteState>, q: Request, now: nat)
    requires RankBound(b, pool, poolRevision, policy, parent, states, q, now).Ok?
    ensures DistinctRoutes(ScopedPool(pool, b)) && Scoped(b).autoSwitch == b.policy.autoSwitch
    ensures |Scoped(b).ordered| <= MAX_SAFE_INTEGER
    ensures RankBound(b, pool, poolRevision, policy, parent, states, q, now).value == SelectCandidates(ScopedPool(pool, b), Scoped(b), states, q, now)
  {
    WhereDistinct(pool, (r: Route) => r.routeId in b.effective);
    KeepMember(b.policy.ordered, b.effective, []);
    hide Create, Keep, Inside, SelectCandidates, Where;
  }

  lemma KeptInOrder(b: Binding, pool: seq<Route>)
    requires DistinctRoutes(pool)
    ensures Inside(b.authority, RouteIds(pool)) && Keep(RouteIds(pool), b.authority) == b.authority <==> Sublist(b.authority, RouteIds(pool))
  {
    KeepMeans(b.authority, RouteIds(pool));
    forall id | Sublist(b.authority, RouteIds(pool)) && id in b.authority ensures id in RouteIds(pool) {
      SublistMember(b.authority, RouteIds(pool), id);
    }
  }

  /**
   * A binding may be used exactly if it is a good one, of the current pool revision, in a pool that still lists its routes
   * in order, with its parent's binding if and only if it has a parent, and the same grant would make it again.
   */
  lemma UsableExactly(b: Binding, pool: seq<Route>, poolRevision: nat, policy: PolicyInput, parent: Option<Binding>,
                      states: map<Id, RouteState>, q: Request, now: nat)
    ensures RankBound(b, pool, poolRevision, policy, parent, states, q, now).Ok? <==>
              && GoodBinding(b) && b.routePoolRevision == poolRevision && |pool| <= 32 && DistinctRoutes(pool)
              && Sublist(b.authority, RouteIds(pool))
              && (b.parentAgentId.None? <==> parent.None?)
              && (parent.Some? ==>
                    GoodBinding(parent.value) && b.parentAgentId == Some(parent.value.agentId)
                    && parent.value.projectId == b.projectId && parent.value.routePoolRevision == poolRevision)
              && Create(Grant(b.projectId, b.agentId, b.policyRevision, poolRevision, pool, b.authority, policy, parent)) == Ok(b)
  {
    BindingMeans(b);
    if parent.Some? { BindingMeans(parent.value); }
    if DistinctRoutes(pool) { KeptInOrder(b, pool); }
    var g := Grant(b.projectId, b.agentId, b.policyRevision, poolRevision, pool, b.authority, policy, parent);
    if BindingValid(b) && Create(g).Ok? && Create(g).value.key == b.key { KeysMatch(g, b); }
    hide Create, Keep, Inside, GoodBinding, SelectCandidates, Sublist;
  }
}
