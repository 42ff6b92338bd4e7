/**
 * Model policies handed down from agent to agent: src/core/agent-model-policy-binding.js, and the use of a
 * binding in src/core/agent-model-route-candidate-binding.js. The binding key is the tuple it serialises.
 */
module PolicyBinding {
  import opened Common
  import opened RoutePool

  datatype Key = Key(
    projectId: Id, agentId: Id, parentAgentId: Option<Id>, policyRevision: nat, routePoolRevision: nat,
    authority: seq<Id>, effective: seq<Id>, policy: Policy)

  datatype Binding = Binding(
    projectId: Id, agentId: Id, parentAgentId: Option<Id>, policyRevision: nat, routePoolRevision: nat, key: Key,
    authority: seq<Id>, effective: seq<Id>, policy: Policy)

  /** A policy as an owner writes it: any field may be missing. */
  datatype PolicyInput = PolicyInput(
    autoSwitch: Option<bool>, pinned: Option<Option<Id>>, ordered: Option<seq<Id>>, allow: Option<seq<Id>>,
    deny: Option<seq<Id>>, freeOnly: Option<bool>, locality: Option<Option<Locality>>,
    maxInputPrice: Option<Option<real>>, maxOutputPrice: Option<Option<real>>,
    retryBackoffSeconds: Option<nat>, circuitBreakerFailures: Option<nat>, circuitBreakerSeconds: Option<nat>)

  datatype Grant = Grant(
    projectId: Id, agentId: Id, policyRevision: nat, routePoolRevision: nat, pool: seq<Route>, owner: seq<Id>,
    policy: PolicyInput, parent: Option<Binding>)

  datatype Error =
    | InvalidPolicy | InvalidBinding | InvalidRequest | UnknownRoute | OutsideAuthority | OutsideAllow
    | NoEffectiveRoute | PinnedNotEffective | Widens | ParentMismatch | NoAuthority | Stale | Drifted

  const MAX_ROUTES: nat := 32

  const DEFAULT_POLICY: Policy := Policy(true, None, [], [], [], false, None, None, None, 60, 2, 300)

  // ---------------------------------------------------------------- lists

  predicate Inside(ids: seq<Id>, scope: seq<Id>) { forall id <- ids :: id in scope }

  predicate IdList(ids: seq<Id>) { |ids| <= MAX_ROUTES && Distinct(ids) }

  /** The ids of the list that are in the scope, in list order. */
  function Keep(ids: seq<Id>, scope: seq<Id>): seq<Id> {
    if ids == [] then [] else (if ids[0] in scope then [ids[0]] else []) + Keep(ids[1..], scope)
  }

  function Drop(ids: seq<Id>, scope: seq<Id>): seq<Id> {
    if ids == [] then [] else (if ids[0] in scope then [] else [ids[0]]) + Drop(ids[1..], scope)
  }

  lemma {:induction false} KeepMember(ids: seq<Id>, scope: seq<Id>, id: Id)
    ensures id in Keep(ids, scope) <==> id in ids && id in scope
    ensures |Keep(ids, scope)| <= |ids|
  {
    if ids != [] {
      KeepMember(ids[1..], scope, id);
      assert ids == [ids[0]] + ids[1..];
    }
  }

  lemma {:induction false} DropMember(ids: seq<Id>, scope: seq<Id>, id: Id)
    ensures id in Drop(ids, scope) <==> id in ids && id !in scope
    ensures |Drop(ids, scope)| <= |ids|
  {
    if ids != [] {
      DropMember(ids[1..], scope, id);
      assert ids == [ids[0]] + ids[1..];
    }
  }

  lemma {:induction false} KeepDistinct(ids: seq<Id>, scope: seq<Id>)
    requires Distinct(ids)
    ensures Distinct(Keep(ids, scope))
  {
    if ids != [] {
      KeepDistinct(ids[1..], scope);
      var t := Keep(ids[1..], scope);
      forall j | 0 <= j < |t| ensures t[j] != ids[0] { HeadNotKept(ids, scope, t[j]); }
    }
  }

  lemma HeadNotKept(ids: seq<Id>, scope: seq<Id>, id: Id)
    requires Distinct(ids) && ids != [] && id in Keep(ids[1..], scope)
    ensures id != ids[0]
  {
    KeepMember(ids[1..], scope, id);
    var i :| 0 <= i < |ids[1..]| && ids[1..][i] == id;
    assert ids[i + 1] == id;
  }

  lemma {:induction false} DropDistinct(ids: seq<Id>, scope: seq<Id>)
    requires Distinct(ids)
    ensures Distinct(Drop(ids, scope))
  {
    if ids != [] {
      DropDistinct(ids[1..], scope);
      var t := Drop(ids[1..], scope);
      forall j | 0 <= j < |t| ensures t[j] != ids[0] { HeadNotDropped(ids, scope, t[j]); }
    }
  }

  lemma HeadNotDropped(ids: seq<Id>, scope: seq<Id>, id: Id)
    requires Distinct(ids) && ids != [] && id in Drop(ids[1..], scope)
    ensures id != ids[0]
  {
    DropMember(ids[1..], scope, id);
    var i :| 0 <= i < |ids[1..]| && ids[1..][i] == id;
    assert ids[i + 1] == id;
  }

  /** Keeping depends on the scope through its members only. */
  lemma {:induction false} KeepSame(ids: seq<Id>, a: seq<Id>, b: seq<Id>)
    requires forall id <- ids :: id in a <==> id in b
    ensures Keep(ids, a) == Keep(ids, b)
  {
    if ids != [] {
      assert ids[0] in ids;
      KeepSame(ids[1..], a, b);
    }
  }

  lemma {:induction false} KeepAll(ids: seq<Id>, scope: seq<Id>)
    requires Inside(ids, scope)
    ensures Keep(ids, scope) == ids
  {
    if ids != [] {
      assert ids[0] in ids;
      KeepAll(ids[1..], scope);
    }
  }

  lemma {:induction false} DropSame(ids: seq<Id>, a: seq<Id>, b: seq<Id>)
    requires forall id <- ids :: id in a <==> id in b
    ensures Drop(ids, a) == Drop(ids, b)
  {
    if ids != [] {
      assert ids[0] in ids;
      DropSame(ids[1..], a, b);
    }
  }

  // ------------------------------------------------------------- policies

  function Or<T>(o: Option<T>, d: T): T { if o.Some? then o.value else d }

  predicate PriceValid(cap: Option<real>) { cap.Some? ==> 0.0 <= cap.value <= 1000000.0 }

  predicate PolicyValid(p: Policy) {
    && IdList(p.ordered) && IdList(p.allow) && IdList(p.deny) && PriceValid(p.maxInputPrice) && PriceValid(p.maxOutputPrice)
    && 1 <= p.retryBackoffSeconds <= 86400 && 1 <= p.circuitBreakerFailures <= 100 && 1 <= p.circuitBreakerSeconds <= 86400
  }

  /** The written fields over a base policy. */
  function Overlay(input: PolicyInput, base: Policy): Policy {
    Policy(Or(input.autoSwitch, base.autoSwitch), Or(input.pinned, base.pinned), Or(input.ordered, base.ordered),
           Or(input.allow, base.allow), Or(input.deny, base.deny), Or(input.freeOnly, base.freeOnly),
           Or(input.locality, base.locality), Or(input.maxInputPrice, base.maxInputPrice),
           Or(input.maxOutputPrice, base.maxOutputPrice), Or(input.retryBackoffSeconds, base.retryBackoffSeconds),
           Or(input.circuitBreakerFailures, base.circuitBreakerFailures),
           Or(input.circuitBreakerSeconds, base.circuitBreakerSeconds))
  }

  function NormalizePolicy(p: Policy): Result<Policy, Error> {
    if PolicyValid(p) then Ok(p) else Err(InvalidPolicy)
  }

  /** What a child starts from before its own overrides. */
  function Inherited(parent: Policy, authority: seq<Id>): Policy {
    parent.(ordered := Keep(parent.ordered, authority), allow := authority, deny := [])
  }

  predicate CapKept(parent: Option<real>, child: Option<real>) {
    parent.Some? ==> child.Some? && child.value <= parent.value
  }

  /** Every limit of the parent still holds for the child. */
  predicate AtLeastAsStrict(parent: Policy, child: Policy) {
    && (child.autoSwitch ==> parent.autoSwitch) && (parent.freeOnly ==> child.freeOnly)
    && (parent.locality.Some? ==> child.locality == parent.locality)
    && CapKept(parent.maxInputPrice, child.maxInputPrice) && CapKept(parent.maxOutputPrice, child.maxOutputPrice)
    && (parent.pinned.Some? ==> child.pinned == parent.pinned)
    && child.retryBackoffSeconds >= parent.retryBackoffSeconds
    && child.circuitBreakerFailures <= parent.circuitBreakerFailures
    && child.circuitBreakerSeconds >= parent.circuitBreakerSeconds
  }

  predicate PinnedIn(p: Policy, scope: seq<Id>) { p.pinned.Some? ==> p.pinned.value in scope }

  function RequestedAllow(p: Policy, authority: seq<Id>): seq<Id> { if p.allow != [] then p.allow else authority }

  /** The policy cut down to the agent's authority, and the routes it leaves. */
  function Project(p: Policy, authority: seq<Id>): Result<(Policy, seq<Id>), Error> {
    var requested := RequestedAllow(p, authority);
    if !(Inside(requested, authority) && Inside(p.deny, authority) && Inside(p.ordered, authority) && PinnedIn(p, authority))
    then Err(OutsideAuthority)
    else if !(Inside(p.deny, requested) && Inside(p.ordered, requested) && PinnedIn(p, requested)) then Err(OutsideAllow)
    else
      var allow := Keep(authority, requested);
      var effective := Drop(allow, p.deny);
      if effective == [] then Err(NoEffectiveRoute)
      else if !PinnedIn(p, effective) then Err(PinnedNotEffective)
      else Ok((p.(allow := allow, deny := Keep(authority, p.deny), ordered := Keep(p.ordered, allow)), effective))
  }

  // ------------------------------------------------------------- bindings

  function KeyOf(b: Binding): Key {
    Key(b.projectId, b.agentId, b.parentAgentId, b.policyRevision, b.routePoolRevision, b.authority, b.effective, b.policy)
  }

  predicate RevisionValid(n: nat) { 1 <= n <= MAX_SAFE_INTEGER }

  predicate BindingValid(b: Binding) {
    && b.parentAgentId != Some(b.agentId) && RevisionValid(b.policyRevision) && RevisionValid(b.routePoolRevision)
    && IdList(b.authority) && b.authority != [] && IdList(b.effective) && b.effective != []
    && Inside(b.effective, b.authority) && PolicyValid(b.policy)
    && b.policy.allow != [] && b.policy.allow == Keep(b.authority, b.policy.allow)
    && b.policy.deny == Keep(b.authority, b.policy.deny)
    && Inside(b.policy.allow, b.authority) && Inside(b.policy.deny, b.authority) && Inside(b.policy.ordered, b.authority)
    && PinnedIn(b.policy, b.authority)
    && Inside(b.policy.deny, b.policy.allow) && Inside(b.policy.ordered, b.policy.allow) && PinnedIn(b.policy, b.policy.allow)
    && b.effective == Drop(b.policy.allow, b.policy.deny) && PinnedIn(b.policy, b.effective)
    && b.key == KeyOf(b)
  }

  function Normalize(b: Binding): Result<Binding, Error> {
    if BindingValid(b) then Ok(b) else Err(InvalidBinding)
  }

  /** The routes the owner allows, and the parent too if there is one, in pool order. */
  function AuthorityOf(g: Grant): seq<Id> {
    var owned := Keep(RouteIds(g.pool), g.owner);
    if g.parent.Some? then Keep(owned, g.parent.value.effective) else owned
  }

  function ParentError(g: Grant): Option<Error> {
    match g.parent
    case None => None
    case Some(p) =>
      if !BindingValid(p) then Some(InvalidBinding)
      else if p.projectId != g.projectId || p.agentId == g.agentId || p.routePoolRevision != g.routePoolRevision
      then Some(ParentMismatch)
      else if !Inside(p.effective, RouteIds(g.pool)) then Some(UnknownRoute)
      else None
  }

  predicate RequestValid(g: Grant) {
    && RevisionValid(g.policyRevision) && RevisionValid(g.routePoolRevision)
    && 1 <= |g.pool| <= MAX_ROUTES && DistinctRoutes(g.pool) && IdList(g.owner) && g.owner != []
  }

  /** The agent's own policy: inherited from the parent where there is one, and then never wider. */
  function OwnPolicy(g: Grant): Result<Policy, Error> {
    match g.parent
    case None => NormalizePolicy(Overlay(g.policy, DEFAULT_POLICY))
    case Some(p) =>
      var own :- NormalizePolicy(Overlay(g.policy, Inherited(p.policy, AuthorityOf(g))));
      if AtLeastAsStrict(p.policy, own) then Ok(own) else Err(Widens)
  }

  function Bound(g: Grant, policy: Policy, effective: seq<Id>): Binding {
    var parentAgentId := if g.parent.Some? then Some(g.parent.value.agentId) else None;
    var authority := AuthorityOf(g);
    Binding(g.projectId, g.agentId, parentAgentId, g.policyRevision, g.routePoolRevision,
            Key(g.projectId, g.agentId, parentAgentId, g.policyRevision, g.routePoolRevision, authority, effective, policy),
            authority, effective, policy)
  }

  function Create(g: Grant): Result<Binding, Error> {
    if !RequestValid(g) then Err(InvalidRequest)
    else if !Inside(g.owner, RouteIds(g.pool)) then Err(UnknownRoute)
    else if ParentError(g).Some? then Err(ParentError(g).value)
    else if AuthorityOf(g) == [] then Err(NoAuthority)
    else
      var own :- OwnPolicy(g);
      var projected :- Project(own, AuthorityOf(g));
      Normalize(Bound(g, projected.0, projected.1))
  }

  // ------------------------------------- creation always ends in normal form

  lemma AuthorityMember(g: Grant, id: Id)
    ensures id in AuthorityOf(g)
            <==> id in RouteIds(g.pool) && id in g.owner && (g.parent.Some? ==> id in g.parent.value.effective)
  {
    KeepMember(RouteIds(g.pool), g.owner, id);
    if g.parent.Some? { KeepMember(Keep(RouteIds(g.pool), g.owner), g.parent.value.effective, id); }
  }

  lemma AuthorityIsList(g: Grant)
    requires RequestValid(g)
    ensures IdList(AuthorityOf(g))
  {
    var ids := RouteIds(g.pool);
    KeepDistinct(ids, g.owner);
    KeepMember(ids, g.owner, []);
    if g.parent.Some? {
      KeepDistinct(Keep(ids, g.owner), g.parent.value.effective);
      KeepMember(Keep(ids, g.owner), g.parent.value.effective, []);
    }
  }

  lemma ProjectedLists(p: Policy, authority: seq<Id>)
    requires IdList(authority) && PolicyValid(p)
    requires Inside(RequestedAllow(p, authority), authority) && Inside(p.deny, RequestedAllow(p, authority))
    ensures var allow := Keep(authority, RequestedAllow(p, authority));
            && IdList(allow) && IdList(Keep(authority, p.deny)) && IdList(Keep(p.ordered, allow)) && IdList(Drop(allow, p.deny))
            && Inside(allow, authority) && Inside(RequestedAllow(p, authority), allow)
            && Inside(Keep(authority, p.deny), allow) && Inside(Keep(p.ordered, allow), allow) && Inside(Drop(allow, p.deny), allow)
            && Inside(Keep(authority, p.deny), authority) && Inside(Keep(p.ordered, allow), authority)
            && Inside(Drop(allow, p.deny), authority)
  {
    var requested := RequestedAllow(p, authority);
    var allow := Keep(authority, requested);
    KeepDistinct(authority, requested);
    KeepDistinct(authority, p.deny);
    KeepDistinct(p.ordered, allow);
    DropDistinct(allow, p.deny);
    forall id ensures
        && (id in allow <==> id in authority && id in requested)
        && (id in Keep(authority, p.deny) <==> id in authority && id in p.deny)
        && (id in Keep(p.ordered, allow) <==> id in p.ordered && id in allow)
        && (id in Drop(allow, p.deny) <==> id in allow && id !in p.deny)
    {
      KeepMember(authority, requested, id);
      KeepMember(authority, p.deny, id);
      KeepMember(p.ordered, allow, id);
      DropMember(allow, p.deny, id);
    }
    KeepMember(authority, requested, []);
    KeepMember(authority, p.deny, []);
    KeepMember(p.ordered, allow, []);
    DropMember(allow, p.deny, []);
  }

  lemma ProjectedIsCanonical(p: Policy, authority: seq<Id>)
    requires Inside(RequestedAllow(p, authority), authority) && Inside(p.deny, authority)
    ensures var allow := Keep(authority, RequestedAllow(p, authority)); var deny := Keep(authority, p.deny);
            Keep(authority, allow) == allow && Keep(authority, deny) == deny && Drop(allow, deny) == Drop(allow, p.deny)
  {
    var requested := RequestedAllow(p, authority);
    var allow := Keep(authority, requested);
    var deny := Keep(authority, p.deny);
    forall id | id in authority ensures (id in requested <==> id in allow) && (id in p.deny <==> id in deny) {
      KeepMember(authority, requested, id);
      KeepMember(authority, p.deny, id);
    }
    KeepSame(authority, requested, allow);
    KeepSame(authority, p.deny, deny);
    forall id | id in allow ensures id in p.deny <==> id in deny {
      KeepMember(authority, requested, id);
    }
    DropSame(allow, p.deny, deny);
  }

  /** What the projection returns passes the check of a durable binding. */
  lemma ProjectionIsNormal(g: Grant, p: Policy)
    requires RequestValid(g) && ParentError(g).None? && AuthorityOf(g) != []
    requires PolicyValid(p) && Project(p, AuthorityOf(g)).Ok?
    ensures var (policy, effective) := Project(p, AuthorityOf(g)).value; BindingValid(Bound(g, policy, effective))
  {
    var authority := AuthorityOf(g);
    AuthorityIsList(g);
    ProjectedLists(p, authority);
    ProjectedIsCanonical(p, authority);
    hide Keep, Drop, Distinct, RequestedAllow, AuthorityOf, RequestValid;
    var (policy, effective) := Project(p, authority).value;
    assert effective[0] in effective;
  }

  /** Creation is refused by its own checks or not at all: the closing normalization never adds a refusal. */
  lemma CreationEndsNormal(g: Grant)
    ensures Create(g).Ok?
            <==> && RequestValid(g) && Inside(g.owner, RouteIds(g.pool)) && ParentError(g).None? && AuthorityOf(g) != []
                 && OwnPolicy(g).Ok? && Project(OwnPolicy(g).value, AuthorityOf(g)).Ok?
    ensures Create(g).Ok? ==> Normalize(Create(g).value) == Create(g)
  {
    if RequestValid(g) && ParentError(g).None? && AuthorityOf(g) != [] && OwnPolicy(g).Ok?
       && Project(OwnPolicy(g).value, AuthorityOf(g)).Ok? {
      ProjectionIsNormal(g, OwnPolicy(g).value);
    }
  }
}
