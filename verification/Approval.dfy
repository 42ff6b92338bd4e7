/**
 * The approval tickets of src/core/approval-contract.js. A ticket carries a fingerprint of the canonical
 * JSON of one policy decision, one invocation and the ticket's own timing.
 *
 * Records are taken after normalization: identities are non-empty texts, and timestamps are canonical texts
 * that `Clock.parse` orders. SHA-256 over UTF-8 is a function that never maps two well-formed texts to one
 * fingerprint.
 */
module Approval {
  import opened Common
  import opened CanonicalJson
  import JsNumber
  import Sorting

  type Fingerprint = Text

  datatype PolicyKind = ALLOW | DENY_DECISION | REQUIRE_APPROVAL

  datatype PolicyDecision = PolicyDecision(
    decisionId: Text, invocationId: Text, decision: PolicyKind, reasonCode: Text, reason: Text,
    approvalId: Option<Text>, decidedAt: Text)

  datatype Invocation = Invocation(
    invocationId: Text, toolId: Text, providerId: Text, requestedCapabilityIds: seq<Text>,
    policyDecisionId: Text, arguments: Json, createdAt: Text, parentInvocationId: Option<Text>)

  datatype Status = PENDING | APPROVED | DENIED

  datatype Decision = APPROVE | DENY

  datatype Resolution = Resolution(
    approvalId: Text, expectedRevision: nat, resolutionId: Text, decision: Decision, resolvedBy: Text,
    resolvedAt: Text)

  datatype Resolved = Resolved(resolutionId: Text, decision: Decision, resolvedBy: Text, resolvedAt: Text)

  /** `expiresAt` is the empty text when the ticket never expires. */
  datatype Ticket = Ticket(
    revision: nat, approvalId: Text, invocationId: Text, policyDecisionId: Text,
    bindingFingerprint: Fingerprint, requestedAt: Text, expiresAt: Text, status: Status,
    resolution: Option<Resolved>)

  datatype Error =
    | NotRequired | MissingApprovalId | InvocationMismatch | DecisionMismatch | RequestedAtMismatch
    | ExpiryNotAfterRequest | BadTicket | NotPending | NotApproved | ApprovalIdMismatch | RevisionMismatch
    | ResolvedTooEarly | Expired | IdentityMismatch | FingerprintMismatch | CheckedTooEarly

  /** The two pieces of the platform a ticket depends on. */
  datatype Platform = Platform(parse: Text -> int, digest: Text -> Fingerprint)

  ghost predicate CollisionFree(digest: Text -> Fingerprint) {
    forall a: Text, b: Text :: WellFormedUtf16(a) && WellFormedUtf16(b) && digest(a) == digest(b) ==> a == b
  }

  // ------------------------------------------------------------- payload

  /** An ASCII literal as code units. */
  function Key(s: string): Text {
    seq(|s|, i requires 0 <= i < |s| => (s[i] as int % 0x80) as CodeUnit)
  }

  const VERSION: Json := Num(JsNumber.NonZero(false, [49], 1))

  function KindText(k: PolicyKind): Text {
    match k
    case ALLOW => Key("ALLOW")
    case DENY_DECISION => Key("DENY")
    case REQUIRE_APPROVAL => Key("REQUIRE_APPROVAL")
  }

  function OptionalText(t: Option<Text>): Json {
    match t
    case None => Null
    case Some(text) => Str(text)
  }

  function Identity(t: Text): Text { t }

  function StrItems(ts: seq<Text>): (r: seq<Json>)
    ensures |r| == |ts| && forall i | 0 <= i < |r| :: r[i] == Str(ts[i])
  {
    seq(|ts|, i requires 0 <= i < |ts| => Str(ts[i]))
  }

  /** An object literal: its keys in source order, and the values they get. */
  function Record(keys: seq<string>, values: seq<Json>): (fields: seq<Field>)
    requires |keys| == |values|
    ensures |fields| == |keys|
    ensures forall i | 0 <= i < |fields| :: fields[i] == Field(Key(keys[i]), values[i])
  {
    seq(|keys|, i requires 0 <= i < |keys| => Field(Key(keys[i]), values[i]))
  }

  const TIMING_KEYS := ["requestedAt", "expiresAt"]

  const POLICY_KEYS :=
    ["schemaVersion", "decisionId", "invocationId", "decision", "reasonCode", "reason", "approvalId", "decidedAt"]

  const INVOCATION_KEYS :=
    [ "schemaVersion", "invocationId", "toolId", "providerId", "requestedCapabilityIds", "policyDecisionId",
      "arguments", "createdAt", "parentInvocationId"]

  const PAYLOAD_KEYS := ["tag", "ticketTiming", "policyDecision", "invocation"]

  function TimingValues(requestedAt: Text, expiresAt: Text): seq<Json> {
    [Str(requestedAt), Str(expiresAt)]
  }

  function PolicyValues(p: PolicyDecision): seq<Json> {
    [ VERSION, Str(p.decisionId), Str(p.invocationId), Str(KindText(p.decision)), Str(p.reasonCode),
      Str(p.reason), OptionalText(p.approvalId), Str(p.decidedAt)]
  }

  function CapabilityList(v: Invocation): Json {
    Arr(StrItems(Sorting.Sort(v.requestedCapabilityIds, Identity)))
  }

  function InvocationValues(v: Invocation): seq<Json> {
    [ VERSION, Str(v.invocationId), Str(v.toolId), Str(v.providerId), CapabilityList(v),
      Str(v.policyDecisionId), v.arguments, Str(v.createdAt), OptionalText(v.parentInvocationId)]
  }

  function PayloadValues(p: PolicyDecision, v: Invocation, requestedAt: Text, expiresAt: Text): seq<Json> {
    [ Str(Key("chatgpt-autopilot-approval-binding-v1")),
      Obj(Record(TIMING_KEYS, TimingValues(requestedAt, expiresAt))),
      Obj(Record(POLICY_KEYS, PolicyValues(p))),
      Obj(Record(INVOCATION_KEYS, InvocationValues(v)))]
  }

  function BindingPayload(p: PolicyDecision, v: Invocation, requestedAt: Text, expiresAt: Text): Json {
    Obj(Record(PAYLOAD_KEYS, PayloadValues(p, v, requestedAt, expiresAt)))
  }

  // ----------------------------------------------------------- operations

  function AssertApprovalBinding(p: PolicyDecision, v: Invocation): Option<Error> {
    if p.decision != REQUIRE_APPROVAL then Some(NotRequired)
    else if p.approvalId.None? then Some(MissingApprovalId)
    else if p.invocationId != v.invocationId then Some(InvocationMismatch)
    else if v.policyDecisionId != p.decisionId then Some(DecisionMismatch)
    else None
  }

  function CreateFingerprint(env: Platform, p: PolicyDecision, v: Invocation, requestedAt: Text, expiresAt: Text)
    : Result<Fingerprint, Error>
  {
    match AssertApprovalBinding(p, v)
    case Some(e) => Err(e)
    case None =>
      var requested := if requestedAt == [] then p.decidedAt else requestedAt;
      if requested != p.decidedAt then Err(RequestedAtMismatch)
      else if expiresAt != [] && env.parse(expiresAt) <= env.parse(requested) then Err(ExpiryNotAfterRequest)
      else Ok(env.digest(Print(BindingPayload(p, v, requested, expiresAt))))
  }

  predicate TicketValid(env: Platform, t: Ticket) {
    && (t.expiresAt != [] ==> env.parse(t.expiresAt) > env.parse(t.requestedAt))
    && (t.status.PENDING? ==> t.revision == 1 && t.resolution.None?)
    && (!t.status.PENDING? ==>
          && t.revision == 2 && t.resolution.Some?
          && t.resolution.value.decision == (if t.status.APPROVED? then APPROVE else DENY)
          && env.parse(t.resolution.value.resolvedAt) >= env.parse(t.requestedAt))
  }

  function Normalize(env: Platform, t: Ticket): Result<Ticket, Error> {
    if TicketValid(env, t) then Ok(t) else Err(BadTicket)
  }

  function CreateTicket(env: Platform, p: PolicyDecision, v: Invocation, expiresAt: Text): Result<Ticket, Error> {
    match AssertApprovalBinding(p, v)
    case Some(e) => Err(e)
    case None =>
      if expiresAt != [] && env.parse(expiresAt) <= env.parse(p.decidedAt) then Err(ExpiryNotAfterRequest)
      else
        match CreateFingerprint(env, p, v, p.decidedAt, expiresAt)
        case Err(e) => Err(e)
        case Ok(fingerprint) =>
          Normalize(env, Ticket(1, p.approvalId.value, v.invocationId, p.decisionId, fingerprint,
                                p.decidedAt, expiresAt, PENDING, None))
  }

  function AssertTicketBinding(env: Platform, t: Ticket, p: PolicyDecision, v: Invocation): Option<Error> {
    match AssertApprovalBinding(p, v)
    case Some(e) => Some(e)
    case None =>
      if t.approvalId != p.approvalId.value || t.invocationId != v.invocationId || t.policyDecisionId != p.decisionId
      then Some(IdentityMismatch)
      else if t.requestedAt != p.decidedAt then Some(RequestedAtMismatch)
      else
        match CreateFingerprint(env, p, v, t.requestedAt, t.expiresAt)
        case Err(e) => Some(e)
        case Ok(fingerprint) => if fingerprint != t.bindingFingerprint then Some(FingerprintMismatch) else None
  }

  function Resolve(env: Platform, ticket: Ticket, r: Resolution, p: PolicyDecision, v: Invocation): Result<Ticket, Error> {
    match Normalize(env, ticket)
    case Err(e) => Err(e)
    case Ok(t) =>
      if !t.status.PENDING? then Err(NotPending)
      else if r.approvalId != t.approvalId then Err(ApprovalIdMismatch)
      else if r.expectedRevision != t.revision then Err(RevisionMismatch)
      else if env.parse(r.resolvedAt) < env.parse(t.requestedAt) then Err(ResolvedTooEarly)
      else if t.expiresAt != [] && env.parse(r.resolvedAt) > env.parse(t.expiresAt) then Err(Expired)
      else
        match AssertTicketBinding(env, t, p, v)
        case Some(e) => Err(e)
        case None =>
          Normalize(env, t.(revision := 2, status := if r.decision.APPROVE? then APPROVED else DENIED,
                            resolution := Some(Resolved(r.resolutionId, r.decision, r.resolvedBy, r.resolvedAt))))
  }

  function AssertApproved(env: Platform, ticket: Ticket, p: PolicyDecision, v: Invocation, at: Text): Result<Ticket, Error> {
    match Normalize(env, ticket)
    case Err(e) => Err(e)
    case Ok(t) =>
      if !t.status.APPROVED? then Err(NotApproved)
      else if env.parse(at) < env.parse(t.resolution.value.resolvedAt) then Err(CheckedTooEarly)
      else
        match AssertTicketBinding(env, t, p, v)
        case Some(e) => Err(e)
        case None => Ok(t)
  }

  // ---------------------------------------------------- one-to-one binding

  predicate InvocationValid(v: Invocation) {
    Distinct(v.requestedCapabilityIds) && WellFormed(v.arguments)
  }

  /** The same invocation, whatever the order of capabilities and of keys inside the arguments. */
  ghost predicate SameInvocation(a: Invocation, b: Invocation) {
    && a.invocationId == b.invocationId && a.toolId == b.toolId && a.providerId == b.providerId
    && a.policyDecisionId == b.policyDecisionId && a.createdAt == b.createdAt
    && a.parentInvocationId == b.parentInvocationId
    && multiset(a.requestedCapabilityIds) == multiset(b.requestedCapabilityIds)
    && Same(a.arguments, b.arguments)
  }

  lemma KeysDiffer(a: string, b: string)
    requires |a| != |b| || (|a| > 0 && a[0] as int < 0x80 && b[0] as int < 0x80 && a[0] != b[0])
    ensures Key(a) != Key(b)
  {
    if |a| == |b| { assert Key(a)[0] != Key(b)[0]; }
  }

  ghost predicate DistinctNames(keys: seq<string>) {
    forall i, j | 0 <= i < j < |keys| :: Key(keys[i]) != Key(keys[j])
  }

  lemma PayloadNamesDistinct()
    ensures DistinctNames(TIMING_KEYS) && DistinctNames(POLICY_KEYS)
    ensures DistinctNames(INVOCATION_KEYS) && DistinctNames(PAYLOAD_KEYS)
  {
    KeysDiffer("decisionId", "reasonCode");
    KeysDiffer("decisionId", "approvalId");
    KeysDiffer("reasonCode", "approvalId");
    KeysDiffer("arguments", "createdAt");
  }

  ghost predicate AllSame(xs: seq<Json>, ys: seq<Json>) {
    |xs| == |ys| && forall i | 0 <= i < |xs| :: Same(xs[i], ys[i])
  }

  lemma SameKeySameField(y: seq<Field>, g: Field, i: nat)
    requires UniqueKeys(y) && i < |y| && g in y && y[i].key == g.key
    ensures y[i] == g
  {
    var j :| 0 <= j < |y| && y[j] == g;
  }

  lemma Partner(x: seq<Field>, y: seq<Field>, f: Field) returns (g: Field)
    requires Same(Obj(x), Obj(y)) && f in x
    ensures g in y && f.key == g.key && Same(f.value, g.value)
  {
    g :| g in y && f.key == g.key && Same(f.value, g.value);
  }

  lemma SameRecordAt(keys: seq<string>, xs: seq<Json>, ys: seq<Json>, i: nat)
    requires |keys| == |xs| == |ys| && DistinctNames(keys) && i < |keys|
    requires Same(Obj(Record(keys, xs)), Obj(Record(keys, ys)))
    ensures Same(xs[i], ys[i])
  {
    var x, y := Record(keys, xs), Record(keys, ys);
    assert UniqueKeys(y);
    assert x[i] in x;
    var g := Partner(x, y, x[i]);
    SameKeySameField(y, g, i);
  }

  lemma AllSameRecords(keys: seq<string>, xs: seq<Json>, ys: seq<Json>)
    requires |keys| == |xs| == |ys| && AllSame(xs, ys)
    ensures Same(Obj(Record(keys, xs)), Obj(Record(keys, ys)))
  {
    var x, y := Record(keys, xs), Record(keys, ys);
    forall f | f in x ensures exists g <- y :: f.key == g.key && Same(f.value, g.value) {
      var i :| 0 <= i < |x| && x[i] == f;
      assert y[i] in y;
    }
    forall g | g in y ensures exists f <- x :: f.key == g.key && Same(f.value, g.value) {
      var i :| 0 <= i < |y| && y[i] == g;
      assert x[i] in x;
    }
  }

  /** Two objects with the same keys are the same exactly when their values are, place by place. */
  lemma RecordBinds(keys: seq<string>, xs: seq<Json>, ys: seq<Json>)
    requires |keys| == |xs| == |ys| && DistinctNames(keys)
    ensures Same(Obj(Record(keys, xs)), Obj(Record(keys, ys))) <==> AllSame(xs, ys)
  {
    if Same(Obj(Record(keys, xs)), Obj(Record(keys, ys))) {
      forall i | 0 <= i < |xs| ensures Same(xs[i], ys[i]) { SameRecordAt(keys, xs, ys, i); }
    }
    if AllSame(xs, ys) { AllSameRecords(keys, xs, ys); }
  }

  lemma RecordWellFormed(keys: seq<string>, xs: seq<Json>)
    requires |keys| == |xs| && DistinctNames(keys)
    requires forall i | 0 <= i < |xs| :: WellFormed(xs[i])
    ensures WellFormed(Obj(Record(keys, xs)))
  {
  }

  lemma TimingBinds(ra: Text, ea: Text, ra': Text, ea': Text)
    ensures AllSame(TimingValues(ra, ea), TimingValues(ra', ea')) <==> ra == ra' && ea == ea'
  {
    var x, y := TimingValues(ra, ea), TimingValues(ra', ea');
    assert Same(x[0], y[0]) <==> ra == ra';
    assert Same(x[1], y[1]) <==> ea == ea';
  }

  lemma KindTextInjective(a: PolicyKind, b: PolicyKind)
    ensures KindText(a) == KindText(b) <==> a == b
  {
    KeysDiffer("ALLOW", "DENY");
    KeysDiffer("ALLOW", "REQUIRE_APPROVAL");
    KeysDiffer("DENY", "REQUIRE_APPROVAL");
  }

  lemma EightSame(x: seq<Json>, y: seq<Json>)
    requires |x| == |y| == 8
    ensures AllSame(x, y) <==>
              && Same(x[0], y[0]) && Same(x[1], y[1]) && Same(x[2], y[2]) && Same(x[3], y[3])
              && Same(x[4], y[4]) && Same(x[5], y[5]) && Same(x[6], y[6]) && Same(x[7], y[7])
  {
  }

  lemma SameScalars(a: Option<Text>, b: Option<Text>)
    ensures Same(OptionalText(a), OptionalText(b)) <==> a == b
    ensures Same(VERSION, VERSION)
  {
  }

  lemma PolicyPlaces(p: PolicyDecision)
    ensures var x := PolicyValues(p);
            && |x| == 8 && x[0] == VERSION && x[1] == Str(p.decisionId) && x[2] == Str(p.invocationId)
            && x[3] == Str(KindText(p.decision)) && x[4] == Str(p.reasonCode) && x[5] == Str(p.reason)
            && x[6] == OptionalText(p.approvalId) && x[7] == Str(p.decidedAt)
  {
  }

  lemma SameTexts(a: Text, b: Text)
    ensures Same(Str(a), Str(b)) <==> a == b
  {
  }

  lemma PolicyBinds(p: PolicyDecision, q: PolicyDecision)
    ensures AllSame(PolicyValues(p), PolicyValues(q)) <==> p == q
  {
    hide *;
    PolicyPlaces(p);
    PolicyPlaces(q);
    EightSame(PolicyValues(p), PolicyValues(q));
    SameScalars(p.approvalId, q.approvalId);
    KindTextInjective(p.decision, q.decision);
    SameTexts(p.decisionId, q.decisionId);
    SameTexts(p.invocationId, q.invocationId);
    SameTexts(KindText(p.decision), KindText(q.decision));
    SameTexts(p.reasonCode, q.reasonCode);
    SameTexts(p.reason, q.reason);
    SameTexts(p.decidedAt, q.decidedAt);
  }

  lemma SameLists(xs: seq<Text>, ys: seq<Text>)
    ensures Same(Arr(StrItems(xs)), Arr(StrItems(ys))) <==> xs == ys
  {
    if Same(Arr(StrItems(xs)), Arr(StrItems(ys))) {
      forall i | 0 <= i < |xs| ensures xs[i] == ys[i] {
        assert Same(StrItems(xs)[i], StrItems(ys)[i]);
      }
    }
    if xs == ys {
      forall i | 0 <= i < |xs| ensures Same(StrItems(xs)[i], StrItems(ys)[i]) {}
    }
  }

  /** Sorting makes the order of capabilities irrelevant, and nothing more. */
  lemma SortForgetsOrder(a: seq<Text>, b: seq<Text>)
    requires Distinct(a) && Distinct(b)
    ensures Sorting.Sort(a, Identity) == Sorting.Sort(b, Identity) <==> multiset(a) == multiset(b)
  {
    var sa, sb := Sorting.Sort(a, Identity), Sorting.Sort(b, Identity);
    Sorting.SortPermutes(a, Identity);
    Sorting.SortPermutes(b, Identity);
    if multiset(a) == multiset(b) {
      Sorting.SortOrders(a, Identity);
      Sorting.SortOrders(b, Identity);
      forall t: Text ensures t in sa <==> t in sb {
        assert t in multiset(sa) <==> t in multiset(sb);
      }
      Sorting.OrderedIsUnique(sa, sb, Identity);
    }
  }

  lemma CapabilitiesBind(v: Invocation, w: Invocation)
    requires InvocationValid(v) && InvocationValid(w)
    ensures Same(CapabilityList(v), CapabilityList(w))
            <==> multiset(v.requestedCapabilityIds) == multiset(w.requestedCapabilityIds)
  {
    SortForgetsOrder(v.requestedCapabilityIds, w.requestedCapabilityIds);
    SameLists(Sorting.Sort(v.requestedCapabilityIds, Identity), Sorting.Sort(w.requestedCapabilityIds, Identity));
  }

  lemma NineSame(x: seq<Json>, y: seq<Json>)
    requires |x| == |y| == 9
    ensures AllSame(x, y) <==>
              && Same(x[0], y[0]) && Same(x[1], y[1]) && Same(x[2], y[2]) && Same(x[3], y[3]) && Same(x[4], y[4])
              && Same(x[5], y[5]) && Same(x[6], y[6]) && Same(x[7], y[7]) && Same(x[8], y[8])
  {
  }

  lemma InvocationPlaces(v: Invocation)
    ensures var x := InvocationValues(v);
            && |x| == 9 && x[0] == VERSION && x[1] == Str(v.invocationId) && x[2] == Str(v.toolId)
            && x[3] == Str(v.providerId) && x[4] == CapabilityList(v) && x[5] == Str(v.policyDecisionId)
            && x[6] == v.arguments && x[7] == Str(v.createdAt) && x[8] == OptionalText(v.parentInvocationId)
  {
  }

  lemma InvocationBinds(v: Invocation, w: Invocation)
    requires InvocationValid(v) && InvocationValid(w)
    ensures AllSame(InvocationValues(v), InvocationValues(w)) <==> SameInvocation(v, w)
  {
    hide AllSame, Same, InvocationValues, CapabilityList, InvocationValid, OptionalText, VERSION;
    InvocationPlaces(v);
    InvocationPlaces(w);
    NineSame(InvocationValues(v), InvocationValues(w));
    CapabilitiesBind(v, w);
    SameScalars(v.parentInvocationId, w.parentInvocationId);
    SameTexts(v.invocationId, w.invocationId);
    SameTexts(v.toolId, w.toolId);
    SameTexts(v.providerId, w.providerId);
    SameTexts(v.policyDecisionId, w.policyDecisionId);
    SameTexts(v.createdAt, w.createdAt);
  }

  /** The payload pins the decision, the timing, and the invocation up to order. */
  lemma PayloadBinds(p: PolicyDecision, v: Invocation, ra: Text, ea: Text, q: PolicyDecision, w: Invocation, ra': Text, ea': Text)
    requires InvocationValid(v) && InvocationValid(w)
    ensures Same(BindingPayload(p, v, ra, ea), BindingPayload(q, w, ra', ea'))
            <==> p == q && SameInvocation(v, w) && ra == ra' && ea == ea'
  {
    hide Same, SameInvocation, Record, DistinctNames;
    var x, y := PayloadValues(p, v, ra, ea), PayloadValues(q, w, ra', ea');
    PayloadNamesDistinct();
    RecordBinds(PAYLOAD_KEYS, x, y);
    RecordBinds(TIMING_KEYS, TimingValues(ra, ea), TimingValues(ra', ea'));
    RecordBinds(POLICY_KEYS, PolicyValues(p), PolicyValues(q));
    RecordBinds(INVOCATION_KEYS, InvocationValues(v), InvocationValues(w));
    TimingBinds(ra, ea, ra', ea');
    PolicyBinds(p, q);
    InvocationBinds(v, w);
    hide TimingValues, PolicyValues, InvocationValues;
    FourSame(x, y);
  }

  lemma FourSame(x: seq<Json>, y: seq<Json>)
    requires |x| == |y| == 4 && x[0] == y[0] && x[0].Str?
    ensures AllSame(x, y) <==> Same(x[1], y[1]) && Same(x[2], y[2]) && Same(x[3], y[3])
  {
  }

  lemma PayloadWellFormed(p: PolicyDecision, v: Invocation, ra: Text, ea: Text)
    requires InvocationValid(v)
    ensures WellFormed(BindingPayload(p, v, ra, ea))
  {
    PayloadNamesDistinct();
    assert WellFormed(CapabilityList(v));
    RecordWellFormed(TIMING_KEYS, TimingValues(ra, ea));
    RecordWellFormed(POLICY_KEYS, PolicyValues(p));
    RecordWellFormed(INVOCATION_KEYS, InvocationValues(v));
    RecordWellFormed(PAYLOAD_KEYS, PayloadValues(p, v, ra, ea));
  }

  /** With a collision-free digest, two payloads share a fingerprint exactly when they bind the same things. */
  lemma FingerprintBinds(env: Platform, p: PolicyDecision, v: Invocation, ra: Text, ea: Text, q: PolicyDecision, w: Invocation, ra': Text, ea': Text)
    requires CollisionFree(env.digest)
    requires InvocationValid(v) && InvocationValid(w)
    ensures env.digest(Print(BindingPayload(p, v, ra, ea))) == env.digest(Print(BindingPayload(q, w, ra', ea')))
            <==> p == q && SameInvocation(v, w) && ra == ra' && ea == ea'
  {
    var a, b := BindingPayload(p, v, ra, ea), BindingPayload(q, w, ra', ea');
    PayloadWellFormed(p, v, ra, ea);
    PayloadWellFormed(q, w, ra', ea');
    PrintIsEncodable(a);
    PrintIsEncodable(b);
    PrintsAlike(a, b);
    PayloadBinds(p, v, ra, ea, q, w, ra', ea');
  }

  /**
   * The resume check: a ticket issued for (p, v) and then approved passes for (q, w) exactly when q is that
   * very decision, w that very invocation up to order, and the check is not before the approval. Expiry only
   * bounded the owner's answer, so it plays no part here.
   */
  lemma ApprovedOnlyForItsOwn(env: Platform, p: PolicyDecision, v: Invocation, expiresAt: Text,
                              r: Resolution, q: PolicyDecision, w: Invocation, at: Text)
    requires CollisionFree(env.digest)
    requires InvocationValid(v) && InvocationValid(w)
    requires CreateTicket(env, p, v, expiresAt).Ok?
    requires Resolve(env, CreateTicket(env, p, v, expiresAt).value, r, p, v).Ok?
    ensures var approved := Resolve(env, CreateTicket(env, p, v, expiresAt).value, r, p, v).value;
            AssertApproved(env, approved, q, w, at).Ok?
            <==> && r.decision.APPROVE? && q == p && SameInvocation(v, w)
                 && env.parse(at) >= env.parse(r.resolvedAt)
  {
    hide InvocationValid, BindingPayload, Print;
    FingerprintBinds(env, q, w, q.decidedAt, expiresAt, p, v, p.decidedAt, expiresAt);
    if SameInvocation(v, w) { SameInvocationSymmetric(v, w); }
    if SameInvocation(w, v) { SameInvocationSymmetric(w, v); }
    hide SameInvocation;
  }

  lemma SameInvocationSymmetric(v: Invocation, w: Invocation)
    requires InvocationValid(v) && InvocationValid(w) && SameInvocation(v, w)
    ensures SameInvocation(w, v)
  {
    SameIsSameCanon(v.arguments, w.arguments);
    SameIsSameCanon(w.arguments, v.arguments);
  }

  /** A pending ticket is answered only for its own request, and never after it expired. */
  lemma ResolvedOnlyForItsOwn(env: Platform, p: PolicyDecision, v: Invocation, expiresAt: Text,
                              r: Resolution, q: PolicyDecision, w: Invocation)
    requires CollisionFree(env.digest)
    requires InvocationValid(v) && InvocationValid(w)
    requires CreateTicket(env, p, v, expiresAt).Ok?
    ensures var t := CreateTicket(env, p, v, expiresAt).value;
            Resolve(env, t, r, q, w).Ok?
            <==> && q == p && SameInvocation(v, w)
                 && r.approvalId == t.approvalId && r.expectedRevision == 1
                 && env.parse(r.resolvedAt) >= env.parse(p.decidedAt)
                 && (expiresAt != [] ==> env.parse(r.resolvedAt) <= env.parse(expiresAt))
  {
    hide InvocationValid, BindingPayload, Print;
    FingerprintBinds(env, q, w, q.decidedAt, expiresAt, p, v, p.decidedAt, expiresAt);
    if SameInvocation(v, w) { SameInvocationSymmetric(v, w); }
    if SameInvocation(w, v) { SameInvocationSymmetric(w, v); }
    hide SameInvocation;
  }

  // ------------------------------------------------------ a ticket's life

  /** A binding is computed only for an approval that is asked for, as of its own decision; no time given means that one. */
  lemma FingerprintExactly(env: Platform, p: PolicyDecision, v: Invocation, requestedAt: Text, expiresAt: Text)
    ensures CreateFingerprint(env, p, v, requestedAt, expiresAt).Ok? <==>
              && p.decision.REQUIRE_APPROVAL? && p.approvalId.Some? && p.invocationId == v.invocationId
              && v.policyDecisionId == p.decisionId
              && (requestedAt == [] || requestedAt == p.decidedAt)
              && (expiresAt != [] ==> env.parse(expiresAt) > env.parse(p.decidedAt))
    ensures CreateFingerprint(env, p, v, requestedAt, expiresAt).Ok? ==>
              CreateFingerprint(env, p, v, requestedAt, expiresAt).value == env.digest(Print(BindingPayload(p, v, p.decidedAt, expiresAt)))
  {
    hide BindingPayload, Print;
  }

  /** A stored ticket is accepted exactly if it expires after it was made, and its answer, if any, fits its status. */
  lemma TicketMeans(env: Platform, t: Ticket)
    ensures Normalize(env, t) == Ok(t) <==>
              && (t.expiresAt == [] || env.parse(t.requestedAt) < env.parse(t.expiresAt))
              && match t.resolution
                 case None => t.status.PENDING? && t.revision == 1
                 case Some(answer) =>
                   && t.revision == 2 && env.parse(answer.resolvedAt) >= env.parse(t.requestedAt)
                   && ((t.status.APPROVED? && answer.decision.APPROVE?) || (t.status.DENIED? && answer.decision.DENY?))
  {
  }

  /** A new ticket is pending in its first revision and carries the identities and times of what it was made for. */
  lemma CreatedTicket(env: Platform, p: PolicyDecision, v: Invocation, expiresAt: Text)
    ensures CreateTicket(env, p, v, expiresAt).Ok? <==>
              && p.decision.REQUIRE_APPROVAL? && p.approvalId.Some? && p.invocationId == v.invocationId
              && v.policyDecisionId == p.decisionId && (expiresAt != [] ==> env.parse(expiresAt) > env.parse(p.decidedAt))
    ensures CreateTicket(env, p, v, expiresAt).Ok? ==>
              var t := CreateTicket(env, p, v, expiresAt).value;
              && t.revision == 1 && t.status.PENDING? && t.resolution.None?
              && Some(t.approvalId) == p.approvalId && t.invocationId == v.invocationId && t.policyDecisionId == p.decisionId
              && t.requestedAt == p.decidedAt && t.expiresAt == expiresAt
              && CreateFingerprint(env, p, v, p.decidedAt, expiresAt) == Ok(t.bindingFingerprint)
  {
    hide BindingPayload, Print;
  }

  /** An answer is written into the ticket as given; nothing else of it changes but revision and status. */
  lemma ResolvedTicket(env: Platform, t: Ticket, r: Resolution, p: PolicyDecision, v: Invocation)
    requires Resolve(env, t, r, p, v).Ok?
    ensures var after := Resolve(env, t, r, p, v).value;
            && t.status.PENDING? && t.revision == 1
            && after == t.(revision := 2, status := after.status, resolution := after.resolution)
            && (after.status.APPROVED? <==> r.decision.APPROVE?) && (after.status.DENIED? <==> r.decision.DENY?)
            && after.resolution.Some?
            && var answer := after.resolution.value;
               && answer.resolutionId == r.resolutionId && answer.decision == r.decision
               && answer.resolvedBy == r.resolvedBy && answer.resolvedAt == r.resolvedAt
  {
    hide AssertTicketBinding;
  }

  /**
   * An answered ticket is answered once. If it was approved its own request passes the check from the answer on; if it
   * was denied no request ever does.
   */
  lemma AnsweredOnce(env: Platform, t: Ticket, r: Resolution, p: PolicyDecision, v: Invocation,
                     again: Resolution, q: PolicyDecision, w: Invocation, at: Text)
    requires Resolve(env, t, r, p, v).Ok?
    ensures var after := Resolve(env, t, r, p, v).value;
            && Resolve(env, after, again, q, w) == Err(NotPending)
            && (r.decision.APPROVE? ==>
                  (AssertApproved(env, after, p, v, at) == if env.parse(at) >= env.parse(r.resolvedAt) then Ok(after) else Err(CheckedTooEarly)))
            && (r.decision.DENY? ==> AssertApproved(env, after, q, w, at) == Err(NotApproved))
  {
    hide CreateFingerprint;
  }
}
