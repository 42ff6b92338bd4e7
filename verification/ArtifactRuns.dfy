/** What every sequence of puts keeps: src/core/artifact-registry.js, `putArtifactVersionV1` and the getters. */
module ArtifactRuns {
  import opened Common
  import opened Graph
  import opened ArtifactRegistry
  import Sorting

  // ------------------------------------------- the versions as a multiset

  lemma {:induction false} InsertVersions(e: Entry, s: seq<Entry>)
    ensures multiset(AllVersions(Sorting.Insert(e, s, EntryKey))) == multiset(e.versions) + multiset(AllVersions(s))
  {
    if s == [] || !Sorting.Less(EntryKey(s[0]), EntryKey(e)) {
      assert ([e] + s)[1..] == s;
    } else {
      InsertVersions(e, s[1..]);
      var t := Sorting.Insert(e, s[1..], EntryKey);
      assert ([s[0]] + t)[1..] == t;
    }
  }

  lemma {:induction false} SortVersions(s: seq<Entry>)
    ensures multiset(AllVersions(Sorting.Sort(s, EntryKey))) == multiset(AllVersions(s))
  {
    if s != [] {
      SortVersions(s[1..]);
      InsertVersions(s[0], Sorting.Sort(s[1..], EntryKey));
    }
  }

  lemma {:induction false} AppendVersions(s: seq<Entry>, e: Entry)
    ensures AllVersions(s + [e]) == AllVersions(s) + e.versions
  {
    if s == [] {
      assert AllVersions([e]) == e.versions + AllVersions([]);
    } else {
      AppendVersions(s[1..], e);
      assert (s + [e])[1..] == s[1..] + [e];
    }
  }

  lemma {:induction false} ReplaceVersions(s: seq<Entry>, e: Entry, v: Version)
    requires DistinctArtifacts(s) && FindEntry(s, e.artifactId).Some?
    requires e.versions == FindEntry(s, e.artifactId).value.versions + [v]
    ensures multiset(AllVersions(ReplaceEntry(s, e))) == multiset(AllVersions(s)) + multiset{v}
  {
    var t := ReplaceEntry(s, e);
    assert t[1..] == ReplaceEntry(s[1..], e);
    if s[0].artifactId == e.artifactId {
      assert ReplaceEntry(s[1..], e) == s[1..];
      assert multiset(e.versions) == multiset(s[0].versions) + multiset{v};
    } else {
      ReplaceVersions(s[1..], e, v);
    }
  }

  lemma PutAddsOneVersion(artifacts: seq<Entry>, v: Version)
    requires DistinctArtifacts(artifacts)
    ensures multiset(AllVersions(Sorting.Sort(WithVersion(artifacts, v), EntryKey))) == multiset(AllVersions(artifacts)) + multiset{v}
  {
    SortVersions(WithVersion(artifacts, v));
    FindEntryMember(artifacts, v.artifactId);
    match FindEntry(artifacts, v.artifactId)
    case None => AppendVersions(artifacts, GrownEntry(artifacts, v));
    case Some(e) => ReplaceVersions(artifacts, GrownEntry(artifacts, v), v);
  }

  lemma {:induction false} DistinctCount(versions: seq<Version>, x: Version)
    requires DistinctVersions(versions)
    ensures multiset(versions)[x] <= 1
  {
    if versions != [] {
      DistinctCount(versions[1..], x);
      assert versions == [versions[0]] + versions[1..];
      if versions[0] == x { assert forall w <- versions[1..] :: w.versionId != x.versionId; }
    }
  }

  lemma RepeatCount(versions: seq<Version>, i: nat, j: nat)
    requires i < j < |versions| && versions[i] == versions[j]
    ensures multiset(versions)[versions[i]] >= 2
  {
    assert versions == versions[..j] + versions[j..];
    assert versions[..j][i] in multiset(versions[..j]) && versions[j..][0] in multiset(versions[j..]);
  }

  /** `after` holds the versions of `before` and one more. */
  ghost predicate OneMore(before: seq<Version>, after: seq<Version>, v: Version) {
    multiset(after) == multiset(before) + multiset{v}
  }

  lemma OneMoreMembers(before: seq<Version>, after: seq<Version>, v: Version)
    requires OneMore(before, after, v)
    ensures |after| == |before| + 1
    ensures forall w :: w in after <==> w in before || w == v
  {
    assert |multiset(after)| == |multiset(before)| + 1;
    forall w ensures w in after <==> w in before || w == v {
      assert w in multiset(after) <==> w in multiset(before) || w == v;
    }
  }

  ghost predicate Fresh(versions: seq<Version>, versionId: Id) {
    forall w <- versions :: w.versionId != versionId
  }

  lemma SameIdSameVersion(versions: seq<Version>, x: Version, y: Version)
    requires DistinctVersions(versions) && x in versions && y in versions && x.versionId == y.versionId
    ensures x == y
  {
    var i :| 0 <= i < |versions| && versions[i] == x;
    var j :| 0 <= j < |versions| && versions[j] == y;
  }

  lemma FreshCount(versions: seq<Version>, v: Version)
    requires Fresh(versions, v.versionId)
    ensures multiset(versions)[v] == 0
  {
    assert v !in versions;
  }

  lemma NoRepeat(before: seq<Version>, after: seq<Version>, v: Version, i: nat, j: nat)
    requires DistinctVersions(before) && OneMore(before, after, v) && Fresh(before, v.versionId) && i < j < |after|
    ensures after[i] != after[j]
  {
    FreshCount(before, v);
    DistinctCount(before, after[i]);
    if after[i] == after[j] { RepeatCount(after, i, j); }
  }

  lemma DistinctGrows(before: seq<Version>, after: seq<Version>, v: Version)
    requires DistinctVersions(before) && OneMore(before, after, v) && Fresh(before, v.versionId)
    ensures DistinctVersions(after)
  {
    OneMoreMembers(before, after, v);
    forall i, j | 0 <= i < j < |after| ensures after[i].versionId != after[j].versionId {
      var x, y := after[i], after[j];
      assert x in after && y in after;
      NoRepeat(before, after, v, i, j);
      if x in before && y in before && x.versionId == y.versionId { SameIdSameVersion(before, x, y); }
    }
  }

  lemma GraphNodes(before: seq<Version>, after: seq<Version>, v: Version, lineage: bool, id: Id)
    requires OneMore(before, after, v)
    ensures id in GraphOf(after, lineage) <==> id in GraphOf(before, lineage) || id == v.versionId
  {
    OneMoreMembers(before, after, v);
    GraphNode(before, lineage, id);
    GraphNode(after, lineage, id);
    assert v in after;
    if w :| w in before && w.versionId == id { assert w in after; }
    if w :| w in after && w.versionId == id { assert w in before || w == v; }
  }

  lemma GraphSame(before: seq<Version>, after: seq<Version>, v: Version, lineage: bool, id: Id)
    requires DistinctVersions(before) && DistinctVersions(after) && OneMore(before, after, v)
    requires id in GraphOf(before, lineage) && id in GraphOf(after, lineage)
    ensures GraphOf(after, lineage)[id] == GraphOf(before, lineage)[id]
  {
    OneMoreMembers(before, after, v);
    GraphNode(before, lineage, id);
    var w :| w in before && w.versionId == id;
    GraphAt(before, w, lineage);
    GraphAt(after, w, lineage);
  }

  lemma GraphGrows(before: seq<Version>, after: seq<Version>, v: Version, lineage: bool)
    requires DistinctVersions(before) && DistinctVersions(after) && OneMore(before, after, v)
    ensures GraphOf(after, lineage) == GraphOf(before, lineage)[v.versionId := Sources(v, lineage)]
  {
    var g, g' := GraphOf(before, lineage), GraphOf(after, lineage);
    OneMoreMembers(before, after, v);
    GraphAt(after, v, lineage);
    forall id ensures id in g' <==> id in g || id == v.versionId { GraphNodes(before, after, v, lineage, id); }
    forall id | id in g && id != v.versionId ensures g'[id] == g[id] { GraphSame(before, after, v, lineage, id); }
  }

  // ------------------------------------------------ what one put changes

  /** The put that really adds: accepted, and the version was not there. */
  ghost predicate Adds(r: Registry, v: Version) {
    && Belongs(v, r.projectId, v.artifactId) && InputsResolve(r.artifacts, v)
    && Fresh(AllVersions(r.artifacts), v.versionId) && Refusal(r, v).None?
  }

  function Grown(r: Registry, v: Version): Registry {
    Registry(r.projectId, r.revision + 1, Sorting.Sort(WithVersion(r.artifacts, v), EntryKey))
  }

  lemma {:induction false} OwnerMember(artifacts: seq<Entry>, id: Id)
    ensures match OwnerOf(artifacts, id)
            case Some(e) => e in artifacts && FindVersion(e.versions, id).Some?
            case None => forall e <- artifacts :: FindVersion(e.versions, id).None?
  {
    if artifacts != [] {
      OwnerMember(artifacts[1..], id);
      assert artifacts == [artifacts[0]] + artifacts[1..];
    }
  }

  lemma FoundBelongs(artifacts: seq<Entry>, projectId: Id, e: Entry, id: Id)
    requires EntriesValid(artifacts, projectId) && e in artifacts && FindVersion(e.versions, id).Some?
    ensures var w := FindVersion(e.versions, id).value;
            w in AllVersions(artifacts) && w.versionId == id && w.artifactId == e.artifactId
  {
    var w := FindVersion(e.versions, id).value;
    FindVersionMember(e.versions, id);
    AllVersionsMember(artifacts, w);
    MemberBelongs(artifacts, projectId, e, w);
  }

  /** With no owner elsewhere and no such version at home the version id is new to the whole registry. */
  lemma IdIsFresh(artifacts: seq<Entry>, projectId: Id, artifactId: Id, id: Id)
    requires EntriesValid(artifacts, projectId)
    requires OwnerOf(artifacts, id).Some? ==> OwnerOf(artifacts, id).value.artifactId == artifactId
    requires Lookup(artifacts, artifactId, id).None?
    ensures Fresh(AllVersions(artifacts), id)
  {
    OwnerMember(artifacts, id);
    if OwnerOf(artifacts, id).Some? {
      var e := OwnerOf(artifacts, id).value;
      FoundBelongs(artifacts, projectId, e, id);
      LookupFinds(artifacts, projectId, artifactId, id, FindVersion(e.versions, id).value);
    }
    forall w | w in AllVersions(artifacts) ensures w.versionId != id {
      AllVersionsMember(artifacts, w);
      var e :| e in artifacts && w in e.versions;
      FindVersionMember(e.versions, id);
    }
  }

  /** An accepted put either changes nothing, the version being there already, or adds it. */
  lemma PutOutcome(r: Registry, input: Version)
    requires EntriesValid(r.artifacts, r.projectId) && PutInto(r, input).Ok?
    ensures var v := SortedVersion(input);
            ExactVersion(input) == Ok(v) && v.projectId == r.projectId && InputsResolve(r.artifacts, v) &&
            if Get(r, v.artifactId, v.versionId) == Ok(v) then PutInto(r, input) == Ok(r)
            else Adds(r, v) && PutInto(r, input) == Ok(Grown(r, v))
  {
    var v := SortedVersion(input);
    ExactVersionIsStable(input);
    if Lookup(r.artifacts, v.artifactId, v.versionId).None? {
      IdIsFresh(r.artifacts, r.projectId, v.artifactId, v.versionId);
    }
  }

  lemma NewEntryValid(projectId: Id, v: Version)
    requires Belongs(v, projectId, v.artifactId) && v.parentVersionId.None?
    ensures EntryValid(Entry(v.artifactId, v.versionId, [v]), projectId)
  {
    hide Belongs;
    ChainGrows([], v, projectId, v.artifactId);
    assert [] + [v] == [v];
  }

  lemma LongerEntryValid(e: Entry, projectId: Id, v: Version)
    requires EntryValid(e, projectId) && |e.versions| < MAX_VERSIONS && Continues(e.versions, v, projectId, e.artifactId)
    ensures EntryValid(Entry(e.artifactId, v.versionId, e.versions + [v]), projectId)
  {
    hide Continues;
    ChainGrows(e.versions, v, projectId, e.artifactId);
  }

  lemma GrownEntryValid(r: Registry, v: Version)
    requires EntriesValid(r.artifacts, r.projectId) && Adds(r, v)
    ensures EntryValid(GrownEntry(r.artifacts, v), r.projectId)
  {
    FindEntryMember(r.artifacts, v.artifactId);
    match FindEntry(r.artifacts, v.artifactId)
    case None => NewEntryValid(r.projectId, v);
    case Some(e) =>
      hide Belongs, InputsResolve, Chain;
      forall w | w in e.versions ensures w.versionId != v.versionId { AllVersionsMember(r.artifacts, w); }
      LongerEntryValid(e, r.projectId, v);
  }

  lemma WithVersionMembers(artifacts: seq<Entry>, v: Version, e: Entry)
    ensures e in WithVersion(artifacts, v)
            <==> (e in artifacts && e.artifactId != v.artifactId) || e == GrownEntry(artifacts, v)
  {
    FindEntryMember(artifacts, v.artifactId);
    var g := GrownEntry(artifacts, v);
    var t := WithVersion(artifacts, v);
    if FindEntry(artifacts, v.artifactId).Some? {
      if e in t {
        var i :| 0 <= i < |t| && t[i] == e;
        assert artifacts[i] in artifacts;
      }
      if e in artifacts && e.artifactId != v.artifactId {
        var i :| 0 <= i < |artifacts| && artifacts[i] == e;
        assert t[i] == e;
      }
      var found := FindEntry(artifacts, v.artifactId).value;
      var i :| 0 <= i < |artifacts| && artifacts[i] == found;
      assert t[i] == g;
    }
  }

  lemma WithVersionDistinct(artifacts: seq<Entry>, v: Version)
    requires DistinctArtifacts(artifacts)
    ensures Sorting.DistinctKeys(WithVersion(artifacts, v), EntryKey)
  {
    FindEntryMember(artifacts, v.artifactId);
    var t := WithVersion(artifacts, v);
    if FindEntry(artifacts, v.artifactId).None? {
      forall i | 0 <= i < |artifacts| ensures artifacts[i].artifactId != v.artifactId { assert artifacts[i] in artifacts; }
    } else {
      forall i | 0 <= i < |artifacts| ensures t[i].artifactId == artifacts[i].artifactId { }
    }
  }

  lemma GrownMembers(r: Registry, v: Version, e: Entry)
    ensures e in Grown(r, v).artifacts
            <==> (e in r.artifacts && e.artifactId != v.artifactId) || e == GrownEntry(r.artifacts, v)
  {
    Sorting.SortKeepsMembers(WithVersion(r.artifacts, v), EntryKey);
    WithVersionMembers(r.artifacts, v, e);
  }

  lemma GrownEntriesValid(r: Registry, v: Version)
    requires EntriesValid(r.artifacts, r.projectId) && Adds(r, v)
    ensures EntriesValid(Grown(r, v).artifacts, r.projectId)
  {
    OrderedIsDistinct(r.artifacts);
    WithVersionDistinct(r.artifacts, v);
    Sorting.SortOrders(WithVersion(r.artifacts, v), EntryKey);
    GrownEntryValid(r, v);
    forall e | e in Grown(r, v).artifacts ensures EntryValid(e, r.projectId) { GrownMembers(r, v, e); }
  }

  lemma InputStaysOk(before: seq<Entry>, after: seq<Entry>, projectId: Id, v: Version, b: InputBinding)
    requires EntriesValid(before, projectId) && EntriesValid(after, projectId)
    requires forall w <- AllVersions(before) :: w in AllVersions(after)
    requires InputOk(before, v, b)
    ensures InputOk(after, v, b)
  {
    var d := Lookup(before, b.artifactId, b.versionId).value;
    LookupFinds(before, projectId, b.artifactId, b.versionId, d);
    LookupFinds(after, projectId, b.artifactId, b.versionId, d);
  }

  lemma InputsStayResolved(before: seq<Entry>, after: seq<Entry>, projectId: Id, v: Version)
    requires EntriesValid(before, projectId) && EntriesValid(after, projectId)
    requires forall w <- AllVersions(before) :: w in AllVersions(after)
    requires InputsResolve(before, v)
    ensures InputsResolve(after, v)
  {
    forall b | b in v.inputArtifactBindings ensures InputOk(after, v, b) {
      InputStaysOk(before, after, projectId, v, b);
    }
  }

  lemma {:induction false} VersionCount(artifacts: seq<Entry>)
    requires forall e <- artifacts :: |e.versions| <= MAX_VERSIONS
    ensures |AllVersions(artifacts)| <= MAX_VERSIONS * |artifacts|
  {
    if artifacts != [] {
      assert artifacts[0] in artifacts;
      VersionCount(artifacts[1..]);
    }
  }

  // --------------------------------------------------------- the lineage

  lemma SourceIsThere(r: Registry, v: Version, lineage: bool, d: Id)
    requires EntriesValid(r.artifacts, r.projectId) && IsExact(v) && InputsResolve(r.artifacts, v)
    requires v.parentVersionId.Some? ==> !Fresh(AllVersions(r.artifacts), v.parentVersionId.value)
    requires d in Sources(v, lineage)
    ensures d in GraphOf(AllVersions(r.artifacts), lineage)
  {
    InputIdsResolve(r.artifacts, r.projectId, v);
    GraphNode(AllVersions(r.artifacts), lineage, d);
  }

  lemma ParentIsThere(r: Registry, v: Version)
    requires EntriesValid(r.artifacts, r.projectId) && v in AllVersions(r.artifacts) && v.parentVersionId.Some?
    ensures !Fresh(AllVersions(r.artifacts), v.parentVersionId.value)
  {
    AllVersionsMember(r.artifacts, v);
    var e :| e in r.artifacts && v in e.versions;
    var i :| 0 <= i < |e.versions| && e.versions[i] == v;
    ChainMember(e.versions, r.projectId, e.artifactId, i);
    AllVersionsMember(r.artifacts, e.versions[i - 1]);
  }

  lemma GraphIsClosed(r: Registry, lineage: bool)
    requires RegistryValid(r)
    ensures Closed(GraphOf(AllVersions(r.artifacts), lineage))
  {
    var versions := AllVersions(r.artifacts);
    var g := GraphOf(versions, lineage);
    forall n, d | n in g && d in g[n] ensures d in g {
      GraphNode(versions, lineage, n);
      var v :| v in versions && v.versionId == n;
      GraphAt(versions, v, lineage);
      AllVersionsBelong(r.artifacts, r.projectId, v);
      if v.parentVersionId.Some? { ParentIsThere(r, v); }
      SourceIsThere(r, v, lineage, d);
    }
  }

  lemma NewParentIsThere(r: Registry, v: Version)
    requires EntriesValid(r.artifacts, r.projectId) && Adds(r, v) && v.parentVersionId.Some?
    ensures !Fresh(AllVersions(r.artifacts), v.parentVersionId.value)
  {
    FindEntryMember(r.artifacts, v.artifactId);
    var e := FindEntry(r.artifacts, v.artifactId).value;
    var p := e.versions[|e.versions| - 1];
    assert p in e.versions;
    AllVersionsMember(r.artifacts, p);
  }

  lemma GrownGraph(r: Registry, v: Version, lineage: bool)
    requires RegistryValid(r) && Adds(r, v) && !Cyclic(GraphOf(AllVersions(r.artifacts), lineage))
    requires DistinctVersions(AllVersions(Grown(r, v).artifacts))
    ensures !Cyclic(GraphOf(AllVersions(Grown(r, v).artifacts), lineage))
  {
    var before, after := AllVersions(r.artifacts), AllVersions(Grown(r, v).artifacts);
    OrderedIsDistinct(r.artifacts);
    PutAddsOneVersion(r.artifacts, v);
    GraphGrows(before, after, v, lineage);
    GraphIsClosed(r, lineage);
    GraphNode(before, lineage, v.versionId);
    forall d | d in Sources(v, lineage) ensures d in GraphOf(before, lineage) {
      if v.parentVersionId.Some? { NewParentIsThere(r, v); }
      SourceIsThere(r, v, lineage, d);
    }
    NewNodeKeepsAcyclic(GraphOf(before, lineage), v.versionId, Sources(v, lineage));
  }

  // ------------------------------------------------------ all runs of puts

  lemma GrownVersionsValid(r: Registry, v: Version)
    requires RegistryValid(r) && Adds(r, v)
    ensures VersionsValid(Grown(r, v).artifacts, r.revision + 1)
    ensures OneMore(AllVersions(r.artifacts), AllVersions(Grown(r, v).artifacts), v)
  {
    var before, after := AllVersions(r.artifacts), AllVersions(Grown(r, v).artifacts);
    OrderedIsDistinct(r.artifacts);
    PutAddsOneVersion(r.artifacts, v);
    OneMoreMembers(before, after, v);
    DistinctGrows(before, after, v);
    GrownEntriesValid(r, v);
    forall w | w in after ensures InputsResolve(Grown(r, v).artifacts, w) {
      InputsStayResolved(r.artifacts, Grown(r, v).artifacts, r.projectId, w);
    }
    GrownGraph(r, v, false);
    VersionCount(r.artifacts);
  }

  lemma GrownFits(r: Registry, v: Version)
    requires |r.artifacts| <= MAX_ARTIFACTS && Refusal(r, v).None?
    ensures |Grown(r, v).artifacts| <= MAX_ARTIFACTS
  {
    Sorting.SortKeepsMembers(WithVersion(r.artifacts, v), EntryKey);
  }

  /** A put keeps a registry valid, so the result is its own normal form, and keeps the lineage free of cycles. */
  lemma PutKeepsValid(r: Registry, input: Version)
    requires RegistryValid(r) && PutInto(r, input).Ok?
    ensures var r' := PutInto(r, input).value;
            && RegistryValid(r') && Normalized(r') == r'
            && (!Cyclic(Lineage(r)) ==> !Cyclic(Lineage(r')))
  {
    var v := SortedVersion(input);
    PutOutcome(r, input);
    if Get(r, v.artifactId, v.versionId) != Ok(v) {
      GrownEntriesValid(r, v);
      GrownVersionsValid(r, v);
      GrownFits(r, v);
      if !Cyclic(Lineage(r)) { GrownGraph(r, v, true); }
    }
    ValidIsNormal(PutInto(r, input).value);
  }

  /** What a put finds afterwards: the version put, and everything that was there before. */
  lemma PutKeepsVersions(r: Registry, input: Version, w: Version)
    requires RegistryValid(r) && PutInto(r, input).Ok?
    ensures var r' := PutInto(r, input).value;
            Get(r', w.artifactId, w.versionId) == Ok(w)
            <==> Get(r, w.artifactId, w.versionId) == Ok(w) || w == SortedVersion(input)
  {
    var v, r' := SortedVersion(input), PutInto(r, input).value;
    PutOutcome(r, input);
    PutKeepsValid(r, input);
    if Get(r, v.artifactId, v.versionId) != Ok(v) {
      GrownVersionsValid(r, v);
      OneMoreMembers(AllVersions(r.artifacts), AllVersions(r'.artifacts), v);
      LookupFinds(r.artifacts, r.projectId, w.artifactId, w.versionId, w);
      LookupFinds(r'.artifacts, r.projectId, w.artifactId, w.versionId, w);
    }
  }

  /** The revision counts the versions: it grows by one exactly when the put adds one. */
  lemma PutCounts(r: Registry, input: Version)
    requires RegistryValid(r) && PutInto(r, input).Ok?
    ensures var v := SortedVersion(input);
            PutInto(r, input).value.revision == r.revision + (if Get(r, v.artifactId, v.versionId) == Ok(v) then 0 else 1)
  {
    PutOutcome(r, input);
  }

  /** The registry after a sequence of puts; a put that is refused leaves it alone. */
  function After(projectId: Id, inputs: seq<Version>): Registry
    decreases |inputs|
  {
    if inputs == [] then Empty(projectId)
    else
      var r := After(projectId, inputs[..|inputs| - 1]);
      match PutInto(r, inputs[|inputs| - 1])
      case Ok(next) => next
      case Err(_) => r
  }

  lemma EmptyIsValid(projectId: Id)
    ensures RegistryValid(Empty(projectId)) && !Cyclic(Lineage(Empty(projectId)))
  {
    RankedIsAcyclic(map[], map[]);
  }

  lemma {:induction false} RunsStayValid(projectId: Id, inputs: seq<Version>)
    ensures RegistryValid(After(projectId, inputs)) && !Cyclic(Lineage(After(projectId, inputs)))
    ensures Normalized(After(projectId, inputs)) == After(projectId, inputs)
    decreases |inputs|
  {
    if inputs == [] {
      EmptyIsValid(projectId);
      ValidIsNormal(Empty(projectId));
    } else {
      var n := |inputs| - 1;
      RunsStayValid(projectId, inputs[..n]);
      if PutInto(After(projectId, inputs[..n]), inputs[n]).Ok? {
        PutKeepsValid(After(projectId, inputs[..n]), inputs[n]);
      }
    }
  }

  lemma LastPutKeeps(projectId: Id, inputs: seq<Version>, artifactId: Id, versionId: Id)
    requires inputs != [] && Get(After(projectId, inputs[..|inputs| - 1]), artifactId, versionId).Ok?
    ensures Get(After(projectId, inputs), artifactId, versionId) == Get(After(projectId, inputs[..|inputs| - 1]), artifactId, versionId)
  {
    hide Get;
    var n := |inputs| - 1;
    var r := After(projectId, inputs[..n]);
    RunsStayValid(projectId, inputs[..n]);
    if PutInto(r, inputs[n]).Ok? { GetStays(r, inputs[n], artifactId, versionId); }
  }

  /** Whatever could be read at some point of a run reads the same at every later point. */
  lemma {:induction false} NothingIsLost(projectId: Id, inputs: seq<Version>, k: nat, artifactId: Id, versionId: Id)
    requires k <= |inputs| && Get(After(projectId, inputs[..k]), artifactId, versionId).Ok?
    ensures Get(After(projectId, inputs), artifactId, versionId) == Get(After(projectId, inputs[..k]), artifactId, versionId)
    decreases |inputs|
  {
    hide Get, After;
    if k == |inputs| {
      assert inputs[..k] == inputs;
    } else {
      var n := |inputs| - 1;
      assert inputs[..n][..k] == inputs[..k];
      NothingIsLost(projectId, inputs[..n], k, artifactId, versionId);
      LastPutKeeps(projectId, inputs, artifactId, versionId);
    }
  }

  lemma GetStays(r: Registry, input: Version, artifactId: Id, versionId: Id)
    requires RegistryValid(r) && PutInto(r, input).Ok? && Get(r, artifactId, versionId).Ok?
    ensures Get(PutInto(r, input).value, artifactId, versionId) == Get(r, artifactId, versionId)
  {
    var w := Get(r, artifactId, versionId).value;
    LookupFinds(r.artifacts, r.projectId, artifactId, versionId, w);
    PutKeepsVersions(r, input, w);
  }

  /** Putting a version that can already be read changes nothing. */
  lemma ReputIsNoOp(r: Registry, input: Version)
    requires RegistryValid(r)
    requires Get(r, input.artifactId, input.versionId) == Ok(SortedVersion(input))
    ensures PutInto(r, input) == Ok(r)
  {
    var v := SortedVersion(input);
    LookupFinds(r.artifacts, r.projectId, v.artifactId, v.versionId, v);
    AllVersionsBelong(r.artifacts, r.projectId, v);
    AllVersionsMember(r.artifacts, v);
    assert ExactVersion(input) == Ok(v);
    OwnerIsHome(r, v);
  }

  lemma OwnerIsHome(r: Registry, v: Version)
    requires RegistryValid(r) && v in AllVersions(r.artifacts)
    ensures OwnerOf(r.artifacts, v.versionId).Some? ==> OwnerOf(r.artifacts, v.versionId).value.artifactId == v.artifactId
  {
    OwnerMember(r.artifacts, v.versionId);
    if OwnerOf(r.artifacts, v.versionId).Some? {
      var e := OwnerOf(r.artifacts, v.versionId).value;
      FoundBelongs(r.artifacts, r.projectId, e, v.versionId);
      SameIdSameVersion(AllVersions(r.artifacts), v, FindVersion(e.versions, v.versionId).value);
    }
  }

  /** A put once accepted is a no-op ever after, and its version stays readable as it was put. */
  lemma AcceptedOnceIsKept(projectId: Id, inputs: seq<Version>, k: nat)
    requires k < |inputs| && PutInto(After(projectId, inputs[..k]), inputs[k]).Ok?
    ensures var v := SortedVersion(inputs[k]);
            Get(After(projectId, inputs), v.artifactId, v.versionId) == Ok(v)
    ensures PutInto(After(projectId, inputs), inputs[k]) == Ok(After(projectId, inputs))
  {
    var v := SortedVersion(inputs[k]);
    RunsStayValid(projectId, inputs[..k]);
    PutKeepsVersions(After(projectId, inputs[..k]), inputs[k], v);
    assert inputs[..k + 1][..k] == inputs[..k];
    NothingIsLost(projectId, inputs, k + 1, v.artifactId, v.versionId);
    RunsStayValid(projectId, inputs);
    ReputIsNoOp(After(projectId, inputs), inputs[k]);
  }

  // -------------------------------------------------- puts that commute

  /** The entry of an artifact after a put, from the entry before. */
  function PutEntry(found: Option<Entry>, v: Version): Entry {
    match found
    case None => Entry(v.artifactId, v.versionId, [v])
    case Some(e) => if FindVersion(e.versions, v.versionId).Some? then e else Entry(e.artifactId, v.versionId, e.versions + [v])
  }

  lemma FindEntryIs(artifacts: seq<Entry>, e: Entry)
    requires Sorting.Ordered(artifacts, EntryKey)
    ensures e in artifacts <==> FindEntry(artifacts, e.artifactId) == Some(e)
  {
    FindEntryMember(artifacts, e.artifactId);
    if e in artifacts { OneEntryPerArtifact(artifacts, e, FindEntry(artifacts, e.artifactId).value); }
  }

  lemma PutFinds(r: Registry, input: Version, artifactId: Id)
    requires RegistryValid(r) && PutInto(r, input).Ok?
    ensures FindEntry(PutInto(r, input).value.artifacts, artifactId)
            == if artifactId == input.artifactId then Some(PutEntry(FindEntry(r.artifacts, artifactId), SortedVersion(input)))
               else FindEntry(r.artifacts, artifactId)
  {
    var v, r' := SortedVersion(input), PutInto(r, input).value;
    PutOutcome(r, input);
    PutKeepsValid(r, input);
    if Get(r, v.artifactId, v.versionId) != Ok(v) {
      AddedFinds(r, v, artifactId);
    }
  }

  lemma GrownIsPutEntry(r: Registry, v: Version)
    requires Fresh(AllVersions(r.artifacts), v.versionId)
    ensures GrownEntry(r.artifacts, v) == PutEntry(FindEntry(r.artifacts, v.artifactId), v)
  {
    FindEntryMember(r.artifacts, v.artifactId);
    if FindEntry(r.artifacts, v.artifactId).Some? {
      var e := FindEntry(r.artifacts, v.artifactId).value;
      FindVersionMember(e.versions, v.versionId);
      forall w | w in e.versions ensures w.versionId != v.versionId { AllVersionsMember(r.artifacts, w); }
    }
  }

  lemma OthersFound(r: Registry, v: Version, artifactId: Id)
    requires Sorting.Ordered(r.artifacts, EntryKey) && Sorting.Ordered(Grown(r, v).artifacts, EntryKey)
    requires artifactId != v.artifactId
    ensures FindEntry(Grown(r, v).artifacts, artifactId) == FindEntry(r.artifacts, artifactId)
  {
    var artifacts := Grown(r, v).artifacts;
    FindEntryMember(r.artifacts, v.artifactId);
    FindEntryMember(artifacts, artifactId);
    FindEntryMember(r.artifacts, artifactId);
    if FindEntry(r.artifacts, artifactId).Some? {
      var e := FindEntry(r.artifacts, artifactId).value;
      GrownMembers(r, v, e);
      FindEntryIs(artifacts, e);
    } else {
      forall e | e in artifacts ensures e.artifactId != artifactId { GrownMembers(r, v, e); }
    }
  }

  lemma AddedFinds(r: Registry, v: Version, artifactId: Id)
    requires RegistryValid(r) && Adds(r, v) && Sorting.Ordered(Grown(r, v).artifacts, EntryKey)
    ensures FindEntry(Grown(r, v).artifacts, artifactId)
            == if artifactId == v.artifactId then Some(PutEntry(FindEntry(r.artifacts, artifactId), v))
               else FindEntry(r.artifacts, artifactId)
  {
    if artifactId == v.artifactId {
      FindEntryMember(r.artifacts, v.artifactId);
      GrownIsPutEntry(r, v);
      GrownMembers(r, v, GrownEntry(r.artifacts, v));
      FindEntryIs(Grown(r, v).artifacts, GrownEntry(r.artifacts, v));
    } else {
      OthersFound(r, v, artifactId);
    }
  }

  lemma SameEntries(x: seq<Entry>, y: seq<Entry>)
    requires Sorting.Ordered(x, EntryKey) && Sorting.Ordered(y, EntryKey)
    requires forall artifactId :: FindEntry(x, artifactId) == FindEntry(y, artifactId)
    ensures x == y
  {
    forall e ensures e in x <==> e in y {
      FindEntryIs(x, e);
      FindEntryIs(y, e);
    }
    Sorting.OrderedIsUnique(x, y, EntryKey);
  }

  /** Two puts on different artifacts that are accepted in both orders lead to the same registry. */
  lemma PutsCommute(r: Registry, a: Version, b: Version)
    requires RegistryValid(r) && a.artifactId != b.artifactId
    requires PutInto(r, a).Ok? && PutInto(PutInto(r, a).value, b).Ok?
    requires PutInto(r, b).Ok? && PutInto(PutInto(r, b).value, a).Ok?
    ensures PutInto(PutInto(r, a).value, b) == PutInto(PutInto(r, b).value, a)
  {
    var ra, rb := PutInto(r, a).value, PutInto(r, b).value;
    PutKeepsValid(r, a);
    PutKeepsValid(r, b);
    PutKeepsValid(ra, b);
    PutKeepsValid(rb, a);
    PutKeepsProject(r, a);
    PutKeepsProject(r, b);
    PutKeepsProject(ra, b);
    PutKeepsProject(rb, a);
    var x, y := PutInto(ra, b).value, PutInto(rb, a).value;
    forall artifactId ensures FindEntry(x.artifacts, artifactId) == FindEntry(y.artifacts, artifactId) {
      SameEntry(r, a, b, artifactId);
    }
    hide PutInto, FindEntry;
    SameEntries(x.artifacts, y.artifacts);
  }

  lemma PutKeepsProject(r: Registry, input: Version)
    requires PutInto(r, input).Ok?
    ensures PutInto(r, input).value.projectId == r.projectId
  {
  }

  lemma SameEntry(r: Registry, a: Version, b: Version, artifactId: Id)
    requires RegistryValid(r) && a.artifactId != b.artifactId
    requires PutInto(r, a).Ok? && PutInto(PutInto(r, a).value, b).Ok?
    requires PutInto(r, b).Ok? && PutInto(PutInto(r, b).value, a).Ok?
    ensures FindEntry(PutInto(PutInto(r, a).value, b).value.artifacts, artifactId)
            == FindEntry(PutInto(PutInto(r, b).value, a).value.artifacts, artifactId)
  {
    PutKeepsValid(r, a);
    PutKeepsValid(r, b);
    PutFinds(r, a, artifactId);
    PutFinds(r, b, artifactId);
    PutFinds(PutInto(r, a).value, b, artifactId);
    PutFinds(PutInto(r, b).value, a, artifactId);
  }
}
