/** What an owner's written policy comes to in the binding, and when it is refused. */
module PolicyMeaning {
  import opened Common
  import opened RoutePool
  import opened PolicyBinding

  /** The routes an agent can be given at all. */
  predicate InReach(g: Grant, id: Id) {
    id in RouteIds(g.pool) && id in g.owner && (g.parent.Some? ==> id in g.parent.value.effective)
  }

  /** An allow list that is not written, or is empty, allows everything in reach. */
  predicate WrittenAllows(g: Grant, id: Id) {
    g.policy.allow.Some? && g.policy.allow.value != [] ==> id in g.policy.allow.value
  }

  predicate WrittenDenies(g: Grant, id: Id) {
    g.policy.deny.Some? && id in g.policy.deny.value
  }

  /** The first list is the second one with some left out. */
  ghost predicate Sublist(a: seq<Id>, b: seq<Id>)
    decreases |b|
  {
    a == [] || (b != [] && ((a[0] == b[0] && Sublist(a[1..], b[1..])) || Sublist(a, b[1..])))
  }

  lemma {:induction false} SublistTransitive(a: seq<Id>, b: seq<Id>, c: seq<Id>)
    requires Sublist(a, b) && Sublist(b, c)
    ensures Sublist(a, c)
    decreases |c|
  {
    if a != [] {
      if b[0] == c[0] && Sublist(b[1..], c[1..]) {
        if a[0] == b[0] && Sublist(a[1..], b[1..]) {
          SublistTransitive(a[1..], b[1..], c[1..]);
        } else {
          SublistTransitive(a, b[1..], c[1..]);
        }
      } else {
        SublistTransitive(a, b, c[1..]);
      }
    }
  }

  lemma {:induction false} KeepIsSublist(ids: seq<Id>, scope: seq<Id>)
    ensures Sublist(Keep(ids, scope), ids)
  {
    if ids != [] {
      KeepIsSublist(ids[1..], scope);
      var rest := Keep(ids[1..], scope);
      if ids[0] in scope { assert ([ids[0]] + rest)[1..] == rest; } else { assert [] + rest == rest; }
    }
  }

  lemma {:induction false} DropIsSublist(ids: seq<Id>, scope: seq<Id>)
    ensures Sublist(Drop(ids, scope), ids)
  {
    if ids != [] {
      DropIsSublist(ids[1..], scope);
      var rest := Drop(ids[1..], scope);
      if ids[0] !in scope { assert ([ids[0]] + rest)[1..] == rest; } else { assert [] + rest == rest; }
    }
  }

  // ----------------------------------------------------- what is in effect

  /** What a created binding is made of. */
  lemma Parts(g: Grant)
    requires Create(g).Ok?
    ensures OwnPolicy(g).Ok?
    ensures var (own, authority, b) := (OwnPolicy(g).value, AuthorityOf(g), Create(g).value);
            var requested := RequestedAllow(own, authority);
            && b.authority == authority && b.policy.allow == Keep(authority, requested)
            && b.policy.deny == Keep(authority, own.deny) && b.policy.ordered == Keep(own.ordered, b.policy.allow)
            && b.effective == Drop(b.policy.allow, own.deny)
            && Inside(own.deny, authority) && Inside(own.ordered, authority) && Inside(own.ordered, requested)
  {
    hide Keep, Drop, RequestValid, ParentError, BindingValid, AuthorityOf, RequestedAllow, AtLeastAsStrict, PolicyValid;
  }

  lemma RequestedMember(g: Grant, id: Id)
    requires OwnPolicy(g).Ok? && InReach(g, id)
    ensures id in RequestedAllow(OwnPolicy(g).value, AuthorityOf(g)) <==> WrittenAllows(g, id)
  {
    AuthorityMember(g, id);
    hide Keep, AuthorityOf, PolicyValid, AtLeastAsStrict, Inside;
  }

  lemma DenyMember(g: Grant, id: Id)
    requires OwnPolicy(g).Ok?
    ensures id in OwnPolicy(g).value.deny <==> WrittenDenies(g, id)
  {
    hide Keep, AuthorityOf, PolicyValid, AtLeastAsStrict;
  }

  /** The routes in effect are exactly those in reach that the written lists allow and do not deny. */
  lemma EffectiveExactly(g: Grant, id: Id)
    requires Create(g).Ok?
    ensures id in Create(g).value.authority <==> InReach(g, id)
    ensures id in Create(g).value.policy.allow <==> InReach(g, id) && WrittenAllows(g, id)
    ensures id in Create(g).value.policy.deny <==> WrittenDenies(g, id)
    ensures id in Create(g).value.effective <==> InReach(g, id) && WrittenAllows(g, id) && !WrittenDenies(g, id)
  {
    Parts(g);
    var authority, own := AuthorityOf(g), OwnPolicy(g).value;
    AuthorityMember(g, id);
    if InReach(g, id) { RequestedMember(g, id); }
    DenyMember(g, id);
    hide Create, Keep, Drop, OwnPolicy, AuthorityOf, RequestedAllow, InReach, WrittenAllows, WrittenDenies;
    var requested := RequestedAllow(own, authority);
    var allow := Keep(authority, requested);
    KeepMember(authority, requested, id);
    KeepMember(authority, own.deny, id);
    DropMember(allow, own.deny, id);
  }

  /** All lists of routes in a binding are in pool order, except the preference order, which is the owner's. */
  lemma ListsInPoolOrder(g: Grant)
    requires Create(g).Ok?
    ensures var b := Create(g).value; var ids := RouteIds(g.pool);
            && Sublist(b.authority, ids) && Sublist(b.policy.allow, ids) && Sublist(b.policy.deny, ids)
            && Sublist(b.effective, ids)
  {
    Parts(g);
    hide Create, OwnPolicy;
    var ids, authority, own := RouteIds(g.pool), AuthorityOf(g), OwnPolicy(g).value;
    var owned := Keep(ids, g.owner);
    KeepIsSublist(ids, g.owner);
    if g.parent.Some? {
      KeepIsSublist(owned, g.parent.value.effective);
      SublistTransitive(authority, owned, ids);
    }
    var allow := Keep(authority, RequestedAllow(own, authority));
    KeepIsSublist(authority, RequestedAllow(own, authority));
    KeepIsSublist(authority, own.deny);
    DropIsSublist(allow, own.deny);
    hide Sublist, Keep, Drop, RequestValid, ParentError, Inside, BindingValid;
    SublistTransitive(allow, authority, ids);
    SublistTransitive(Keep(authority, own.deny), authority, ids);
    SublistTransitive(Drop(allow, own.deny), allow, ids);
  }

  // ------------------------------------------------------- the other fields

  /** A field of the binding is the one written, else the parent's, else the default. */
  predicate Holds<T(==)>(written: Option<T>, parent: Option<T>, default: T, field: T) {
    match written
    case Some(w) => field == w
    case None => field == (match parent case Some(p) => p case None => default)
  }

  function OfParent<T>(g: Grant, field: Policy -> T): Option<T> {
    match g.parent case None => None case Some(b) => Some(field(b.policy))
  }

  /** Who the binding is for, and every limit in it. */
  lemma FieldsExactly(g: Grant)
    requires Create(g).Ok?
    ensures var b := Create(g).value;
            && b.projectId == g.projectId && b.agentId == g.agentId
            && b.parentAgentId == (match g.parent case None => None case Some(p) => Some(p.agentId))
            && b.policyRevision == g.policyRevision && b.routePoolRevision == g.routePoolRevision
    ensures var (p, w) := (Create(g).value.policy, g.policy);
            && Holds(w.autoSwitch, OfParent(g, (x: Policy) => x.autoSwitch), true, p.autoSwitch)
            && Holds(w.pinned, OfParent(g, (x: Policy) => x.pinned), None, p.pinned)
            && Holds(w.freeOnly, OfParent(g, (x: Policy) => x.freeOnly), false, p.freeOnly)
            && Holds(w.locality, OfParent(g, (x: Policy) => x.locality), None, p.locality)
            && Holds(w.maxInputPrice, OfParent(g, (x: Policy) => x.maxInputPrice), None, p.maxInputPrice)
            && Holds(w.maxOutputPrice, OfParent(g, (x: Policy) => x.maxOutputPrice), None, p.maxOutputPrice)
            && Holds(w.retryBackoffSeconds, OfParent(g, (x: Policy) => x.retryBackoffSeconds), 60, p.retryBackoffSeconds)
            && Holds(w.circuitBreakerFailures, OfParent(g, (x: Policy) => x.circuitBreakerFailures), 2, p.circuitBreakerFailures)
            && Holds(w.circuitBreakerSeconds, OfParent(g, (x: Policy) => x.circuitBreakerSeconds), 300, p.circuitBreakerSeconds)
  {
    hide Keep, Drop, AuthorityOf, RequestValid, ParentError, Inside, PolicyValid, AtLeastAsStrict, PinnedIn, BindingValid;
  }

  lemma OwnPreference(g: Grant)
    requires OwnPolicy(g).Ok?
    ensures OwnPolicy(g).value.ordered ==
              if g.policy.ordered.Some? then g.policy.ordered.value
              else if g.parent.Some? then Keep(g.parent.value.policy.ordered, AuthorityOf(g)) else []
  {
    hide Keep, AuthorityOf, PolicyValid, AtLeastAsStrict;
  }

  /** The preference order is the one written, else what the parent's leaves in reach, else empty. */
  lemma PreferenceExactly(g: Grant)
    requires Create(g).Ok?
    ensures var ordered := Create(g).value.policy.ordered;
            && (g.policy.ordered.Some? ==> ordered == g.policy.ordered.value)
            && (g.policy.ordered.None? && g.parent.None? ==> ordered == [])
            && (g.policy.ordered.None? && g.parent.Some? ==>
                  && Sublist(ordered, g.parent.value.policy.ordered)
                  && forall id :: id in ordered <==> id in g.parent.value.policy.ordered && InReach(g, id))
  {
    Parts(g);
    OwnPreference(g);
    hide Create, OwnPolicy, AuthorityOf, RequestedAllow;
    var own := OwnPolicy(g).value;
    var authority := AuthorityOf(g);
    var requested := RequestedAllow(own, authority);
    var allow := Keep(authority, requested);
    forall id | id in own.ordered ensures id in allow { KeepMember(authority, requested, id); }
    KeepAll(own.ordered, allow);
    if g.policy.ordered.None? && g.parent.Some? {
      var parents := g.parent.value.policy.ordered;
      KeepIsSublist(parents, authority);
      forall id ensures id in own.ordered <==> id in parents && InReach(g, id) {
        KeepMember(parents, authority, id);
        AuthorityMember(g, id);
      }
    }
  }

  // ------------------------------------------------------------- refusals

  /** Each written field is of its own right kind. */
  predicate WrittenIsValid(w: PolicyInput) {
    && (w.ordered.Some? ==> IdList(w.ordered.value)) && (w.allow.Some? ==> IdList(w.allow.value))
    && (w.deny.Some? ==> IdList(w.deny.value))
    && (w.maxInputPrice.Some? && w.maxInputPrice.value.Some? ==> 0.0 <= w.maxInputPrice.value.value <= 1000000.0)
    && (w.maxOutputPrice.Some? && w.maxOutputPrice.value.Some? ==> 0.0 <= w.maxOutputPrice.value.value <= 1000000.0)
    && (w.retryBackoffSeconds.Some? ==> 1 <= w.retryBackoffSeconds.value <= 86400)
    && (w.circuitBreakerFailures.Some? ==> 1 <= w.circuitBreakerFailures.value <= 100)
    && (w.circuitBreakerSeconds.Some? ==> 1 <= w.circuitBreakerSeconds.value <= 86400)
  }

  predicate WrittenCapKept(w: Option<Option<real>>, parent: Option<real>) {
    w.Some? && parent.Some? ==> w.value.Some? && w.value.value <= parent.value
  }

  /** No written field loosens what the parent's policy sets. */
  predicate WrittenNarrows(w: PolicyInput, parent: Policy) {
    && (w.autoSwitch == Some(true) ==> parent.autoSwitch)
    && (w.freeOnly == Some(false) ==> !parent.freeOnly)
    && (w.locality.Some? && parent.locality.Some? ==> w.locality.value == parent.locality)
    && (w.pinned.Some? && parent.pinned.Some? ==> w.pinned.value == parent.pinned)
    && WrittenCapKept(w.maxInputPrice, parent.maxInputPrice) && WrittenCapKept(w.maxOutputPrice, parent.maxOutputPrice)
    && (w.retryBackoffSeconds.Some? ==> w.retryBackoffSeconds.value >= parent.retryBackoffSeconds)
    && (w.circuitBreakerFailures.Some? ==> w.circuitBreakerFailures.value <= parent.circuitBreakerFailures)
    && (w.circuitBreakerSeconds.Some? ==> w.circuitBreakerSeconds.value >= parent.circuitBreakerSeconds)
  }

  /** The written lists name routes in reach only, and what is denied or preferred is allowed first. */
  ghost predicate WrittenListsFit(g: Grant) {
    && (g.policy.allow.Some? ==> forall id <- g.policy.allow.value :: InReach(g, id))
    && (forall id | WrittenDenies(g, id) :: InReach(g, id) && WrittenAllows(g, id))
    && (forall id | Prefers(g, id) :: InReach(g, id) && WrittenAllows(g, id))
  }

  predicate Prefers(g: Grant, id: Id) {
    if g.policy.ordered.Some? then id in g.policy.ordered.value
    else g.parent.Some? && id in g.parent.value.policy.ordered && InReach(g, id)
  }

  function PinnedRoute(g: Grant): Option<Id> {
    if g.policy.pinned.Some? then g.policy.pinned.value else if g.parent.Some? then g.parent.value.policy.pinned else None
  }

  predicate InEffect(g: Grant, id: Id) { InReach(g, id) && WrittenAllows(g, id) && !WrittenDenies(g, id) }

  predicate RequestFits(g: Grant) {
    && RequestValid(g) && (forall id <- g.owner :: id in RouteIds(g.pool))
    && (g.parent.Some? ==>
          var p := g.parent.value;
          && BindingValid(p) && p.projectId == g.projectId && p.agentId != g.agentId
          && p.routePoolRevision == g.routePoolRevision && forall id <- p.effective :: id in RouteIds(g.pool))
  }

  lemma InheritedIsValid(g: Grant)
    requires RequestFits(g) && g.parent.Some?
    ensures PolicyValid(Inherited(g.parent.value.policy, AuthorityOf(g)))
  {
    AuthorityIsList(g);
    var ordered := g.parent.value.policy.ordered;
    KeepDistinct(ordered, AuthorityOf(g));
    KeepMember(ordered, AuthorityOf(g), []);
  }

  lemma OwnExactly(g: Grant)
    requires RequestFits(g)
    ensures OwnPolicy(g).Ok? <==> WrittenIsValid(g.policy) && (g.parent.Some? ==> WrittenNarrows(g.policy, g.parent.value.policy))
  {
    if g.parent.Some? { InheritedIsValid(g); }
    hide Keep, AuthorityOf, RequestFits, Distinct;
  }

  lemma ListsExactly(g: Grant)
    requires RequestFits(g) && OwnPolicy(g).Ok?
    ensures var (own, authority) := (OwnPolicy(g).value, AuthorityOf(g)); var requested := RequestedAllow(own, authority);
            (Inside(requested, authority) && Inside(own.deny, authority) && Inside(own.ordered, authority)
             && Inside(own.deny, requested) && Inside(own.ordered, requested)) <==> WrittenListsFit(g)
  {
    var own, authority := OwnPolicy(g).value, AuthorityOf(g);
    var requested := RequestedAllow(own, authority);
    forall id ensures id in authority <==> InReach(g, id) { AuthorityMember(g, id); }
    forall id ensures InReach(g, id) && id in requested <==> InReach(g, id) && WrittenAllows(g, id) {}
    forall id ensures id in own.deny <==> WrittenDenies(g, id) {}
    forall id ensures id in own.ordered <==> Prefers(g, id) {
      if g.parent.Some? { KeepMember(g.parent.value.policy.ordered, authority, id); }
    }
    if g.policy.allow.Some? && g.policy.allow.value != [] { assert requested == g.policy.allow.value; }
  }

  /**
   * A grant is accepted exactly if the request and its parent belong together, every written field is valid and loosens
   * nothing, the written lists fit the reach of the agent, some route is in effect, and a pinned route is among them.
   */
  lemma AcceptedExactly(g: Grant)
    ensures Create(g).Ok? <==>
              && RequestFits(g) && WrittenIsValid(g.policy) && (g.parent.Some? ==> WrittenNarrows(g.policy, g.parent.value.policy))
              && WrittenListsFit(g) && (exists id :: InEffect(g, id))
              && (PinnedRoute(g).Some? ==> InEffect(g, PinnedRoute(g).value))
  {
    CreationEndsNormal(g);
    if RequestFits(g) {
      OwnExactly(g);
      if OwnPolicy(g).Ok? {
        ListsExactly(g);
        if WrittenListsFit(g) { EffectExactly(g); }
      }
    }
  }

  lemma ProjectsExactly(p: Policy, authority: seq<Id>)
    requires var requested := RequestedAllow(p, authority);
             && Inside(requested, authority) && Inside(p.deny, authority) && Inside(p.ordered, authority)
             && Inside(p.deny, requested) && Inside(p.ordered, requested)
    ensures var effective := Drop(Keep(authority, RequestedAllow(p, authority)), p.deny);
            Project(p, authority).Ok? <==> effective != [] && PinnedIn(p, effective)
  {
    var requested := RequestedAllow(p, authority);
    var allow := Keep(authority, requested);
    forall id ensures id in Drop(allow, p.deny) ==> id in authority && id in requested {
      KeepMember(authority, requested, id);
      DropMember(allow, p.deny, id);
    }
    hide Keep, Drop, Inside, RequestedAllow;
  }

  lemma EffectMember(g: Grant, id: Id)
    requires RequestFits(g) && OwnPolicy(g).Ok? && WrittenListsFit(g)
    ensures var (own, authority) := (OwnPolicy(g).value, AuthorityOf(g));
            id in Drop(Keep(authority, RequestedAllow(own, authority)), own.deny) <==> InEffect(g, id)
  {
    var own, authority := OwnPolicy(g).value, AuthorityOf(g);
    var requested := RequestedAllow(own, authority);
    AuthorityMember(g, id);
    KeepMember(authority, requested, id);
    DropMember(Keep(authority, requested), own.deny, id);
  }

  lemma EffectExactly(g: Grant)
    requires RequestFits(g) && OwnPolicy(g).Ok? && WrittenListsFit(g)
    ensures (AuthorityOf(g) != [] && Project(OwnPolicy(g).value, AuthorityOf(g)).Ok?) <==>
              (exists id :: InEffect(g, id)) && (PinnedRoute(g).Some? ==> InEffect(g, PinnedRoute(g).value))
  {
    var own, authority := OwnPolicy(g).value, AuthorityOf(g);
    var effective := Drop(Keep(authority, RequestedAllow(own, authority)), own.deny);
    assert own.pinned == PinnedRoute(g);
    ListsExactly(g);
    ProjectsExactly(own, authority);
    forall id ensures id in effective <==> InEffect(g, id) { EffectMember(g, id); }
    if authority == [] { assert Keep(authority, RequestedAllow(own, authority)) == []; }
    hide Keep, RequestFits, WrittenListsFit, OwnPolicy, AuthorityOf, InEffect, Project;
    if effective != [] { assert effective[0] in effective; }
  }

  // ---------------------------------------------------- durable bindings

  lemma {:induction false} SublistMember(a: seq<Id>, b: seq<Id>, id: Id)
    requires Sublist(a, b) && id in a
    ensures id in b
    decreases |b|
  {
    if a[0] == b[0] && Sublist(a[1..], b[1..]) {
      if id != a[0] { SublistMember(a[1..], b[1..], id); }
    } else {
      SublistMember(a, b[1..], id);
    }
  }

  lemma TailIsDistinct(ids: seq<Id>)
    requires Distinct(ids) && ids != []
    ensures Distinct(ids[1..]) && ids[0] !in ids[1..]
  {
  }

  lemma {:induction false} SublistIsDistinct(a: seq<Id>, b: seq<Id>)
    requires Sublist(a, b) && Distinct(b)
    ensures Distinct(a)
    decreases |b|
  {
    if a != [] {
      TailIsDistinct(b);
      if a[0] == b[0] && Sublist(a[1..], b[1..]) {
        SublistIsDistinct(a[1..], b[1..]);
        forall i | 1 <= i < |a| ensures a[i] != a[0] { SublistMember(a[1..], b[1..], a[1..][i - 1]); }
      } else {
        SublistIsDistinct(a, b[1..]);
      }
    }
  }

  /** Of a list without repeats, only one sublist has given members. */
  lemma {:induction false} SublistIsUnique(a: seq<Id>, c: seq<Id>, b: seq<Id>)
    requires Distinct(b) && Sublist(a, b) && Sublist(c, b) && forall id :: id in a <==> id in c
    ensures a == c
    decreases |b|
  {
    assert c != [] ==> c[0] in c;
    if a != [] {
      assert a[0] in a;
      TailIsDistinct(b);
      SublistIsDistinct(a, b);
      SublistIsDistinct(c, b);
      assert a[0] in c;
      TailIsDistinct(a);
      TailIsDistinct(c);
      if a[0] == b[0] {
        HeadIsFirst(c, b);
        HeadIsFirst(a, b);
        assert a == [a[0]] + a[1..] && c == [c[0]] + c[1..];
        forall id ensures id in a[1..] <==> id in c[1..] { assert id in a <==> id in c; }
        SublistIsUnique(a[1..], c[1..], b[1..]);
      } else {
        if c[0] == b[0] { assert c[0] in c; SublistMember(a, b[1..], b[0]); }
        SublistIsUnique(a, c, b[1..]);
      }
    }
  }

  lemma HeadIsFirst(a: seq<Id>, b: seq<Id>)
    requires Distinct(b) && Sublist(a, b) && a != [] && b[0] in a
    ensures a[0] == b[0] && Sublist(a[1..], b[1..])
  {
    TailIsDistinct(b);
    if !(a[0] == b[0] && Sublist(a[1..], b[1..])) { SublistMember(a, b[1..], b[0]); }
  }

  lemma KeepMeans(a: seq<Id>, b: seq<Id>)
    requires Distinct(b)
    ensures a == Keep(b, a) <==> Sublist(a, b)
  {
    KeepIsSublist(b, a);
    if Sublist(a, b) {
      forall id ensures id in a <==> id in Keep(b, a) {
        KeepMember(b, a, id);
        if id in a { SublistMember(a, b, id); }
      }
      SublistIsUnique(a, Keep(b, a), b);
    }
  }

  lemma DropMeans(e: seq<Id>, a: seq<Id>, d: seq<Id>)
    requires Distinct(a)
    ensures e == Drop(a, d) <==> Sublist(e, a) && forall id :: id in e <==> id in a && id !in d
  {
    DropIsSublist(a, d);
    forall id ensures id in Drop(a, d) <==> id in a && id !in d { DropMember(a, d, id); }
    if Sublist(e, a) && forall id :: id in e <==> id in a && id !in d { SublistIsUnique(e, Drop(a, d), a); }
  }

  predicate InRange(n: nat, low: nat, high: nat) { low <= n <= high }

  predicate GoodPrice(cap: Option<real>) { cap == None || 0.0 <= cap.value <= 1000000.0 }

  /**
   * What a stored binding must be: its lists in the order of its authority, what is denied or preferred allowed first, in
   * effect exactly what is allowed and not denied, a pinned route among it, and a key that names all of it.
   */
  ghost predicate GoodBinding(b: Binding) {
    && (b.parentAgentId.Some? ==> b.parentAgentId.value != b.agentId)
    && InRange(b.policyRevision, 1, MAX_SAFE_INTEGER) && InRange(b.routePoolRevision, 1, MAX_SAFE_INTEGER)
    && Distinct(b.authority) && |b.authority| <= 32
    && Sublist(b.policy.allow, b.authority) && b.policy.allow != []
    && Sublist(b.policy.deny, b.authority) && (forall id <- b.policy.deny :: id in b.policy.allow)
    && Distinct(b.policy.ordered) && |b.policy.ordered| <= 32 && (forall id <- b.policy.ordered :: id in b.policy.allow)
    && Sublist(b.effective, b.policy.allow) && b.effective != []
    && (forall id :: id in b.effective <==> id in b.policy.allow && id !in b.policy.deny)
    && (b.policy.pinned.Some? ==> b.policy.pinned.value in b.effective)
    && GoodPrice(b.policy.maxInputPrice) && GoodPrice(b.policy.maxOutputPrice)
    && InRange(b.policy.retryBackoffSeconds, 1, 86400) && InRange(b.policy.circuitBreakerFailures, 1, 100)
    && InRange(b.policy.circuitBreakerSeconds, 1, 86400)
    && b.key.projectId == b.projectId && b.key.agentId == b.agentId && b.key.parentAgentId == b.parentAgentId
    && b.key.policyRevision == b.policyRevision && b.key.routePoolRevision == b.routePoolRevision
    && b.key.authority == b.authority && b.key.effective == b.effective && b.key.policy == b.policy
  }

  lemma {:induction false} SublistSize(a: seq<Id>, b: seq<Id>)
    requires Sublist(a, b)
    ensures |a| <= |b|
    decreases |b|
  {
    if a != [] {
      if a[0] == b[0] && Sublist(a[1..], b[1..]) { SublistSize(a[1..], b[1..]); } else { SublistSize(a, b[1..]); }
    }
  }

  /** The lists that come from a good one are good. */
  lemma GoodListsFollow(b: Binding)
    requires GoodBinding(b)
    ensures IdList(b.authority) && IdList(b.policy.allow) && IdList(b.policy.deny) && IdList(b.effective) && b.authority != []
    ensures Inside(b.policy.allow, b.authority) && Inside(b.policy.deny, b.authority) && Inside(b.effective, b.authority)
    ensures Inside(b.policy.ordered, b.authority) && PinnedIn(b.policy, b.policy.allow) && PinnedIn(b.policy, b.authority)
  {
    SublistIsDistinct(b.policy.allow, b.authority);
    SublistIsDistinct(b.policy.deny, b.authority);
    SublistTransitive(b.effective, b.policy.allow, b.authority);
    SublistIsDistinct(b.effective, b.authority);
    SublistSize(b.policy.allow, b.authority);
    SublistSize(b.policy.deny, b.authority);
    SublistSize(b.effective, b.authority);
    forall id | id in b.policy.allow ensures id in b.authority { SublistMember(b.policy.allow, b.authority, id); }
  }

  /** A stored binding is accepted exactly if it is good. */
  lemma BindingMeans(b: Binding)
    ensures BindingValid(b) <==> GoodBinding(b)
  {
    if GoodBinding(b) { GoodListsFollow(b); }
    if Distinct(b.authority) {
      KeepMeans(b.policy.allow, b.authority);
      KeepMeans(b.policy.deny, b.authority);
    }
    if Distinct(b.policy.allow) { DropMeans(b.effective, b.policy.allow, b.policy.deny); }
    hide Keep, Drop, Sublist, Distinct;
  }
}
