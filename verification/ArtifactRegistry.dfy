/**
 * The artifact registry of src/core/artifact-registry.js: immutable version chains with content-bound inputs.
 * Identities, digests and texts are taken after their own validation; instants are epoch milliseconds.
 */
module ArtifactRegistry {
  import opened Common
  import opened Graph
  import Sorting

  datatype SourceBinding = SourceBinding(sourceId: Id, revisionId: Id, contentSha256: Text)

  datatype InputBinding = InputBinding(artifactId: Id, versionId: Id, sha256: Text)

  /** `material` stands for the remaining fields of the artifact reference, `createdAt` is when it was made. */
  datatype Version = Version(
    projectId: Id, versionId: Id, parentVersionId: Option<Id>, artifactId: Id, sha256: Text, material: Text,
    createdAt: int, sourceBindings: seq<SourceBinding>, inputArtifactIds: seq<Id>,
    inputArtifactBindings: seq<InputBinding>, provenanceAt: int, registeredAt: int)

  datatype Entry = Entry(artifactId: Id, currentVersionId: Id, versions: seq<Version>)

  datatype Registry = Registry(projectId: Id, revision: int, artifacts: seq<Entry>)

  datatype Error =
    | BadVersion | BadEntry | TooMany | DuplicateArtifact | DuplicateVersion | BadRevision | BadInput
    | InputCycle | ProjectMismatch | OwnedElsewhere | DivergentCollision | VersionLimit | WrongParent
    | TimeRegressed | ArtifactLimit | NotFound

  const MAX_ARTIFACTS: nat := 256
  const MAX_VERSIONS: nat := 128
  const MAX_LIST: nat := 128

  function SourceKey(b: SourceBinding): Text { b.sourceId }

  function InputKey(b: InputBinding): Text { b.artifactId }

  function EntryKey(e: Entry): Text { e.artifactId }

  function IdKey(id: Id): Text { id }

  // ------------------------------------------------------------ versions

  /** Normalization sorts the three lists of the provenance. */
  function SortedVersion(v: Version): Version {
    v.(sourceBindings := Sorting.Sort(v.sourceBindings, SourceKey),
       inputArtifactIds := Sorting.Sort(v.inputArtifactIds, IdKey),
       inputArtifactBindings := Sorting.Sort(v.inputArtifactBindings, InputKey))
  }

  predicate DistinctSources(s: seq<SourceBinding>) {
    forall i, j | 0 <= i < j < |s| :: s[i].sourceId != s[j].sourceId
  }

  predicate DistinctInputs(s: seq<InputBinding>) {
    forall i, j | 0 <= i < j < |s| :: s[i].artifactId != s[j].artifactId && s[i].versionId != s[j].versionId
  }

  /** Bindings, when present, bind exactly the declared input artifacts. */
  predicate BindsExactly(ids: seq<Id>, bindings: seq<InputBinding>) {
    bindings == [] || (|bindings| == |ids| && forall i | 0 <= i < |ids| :: bindings[i].artifactId == ids[i])
  }

  predicate SortedVersionValid(v: Version) {
    && |v.sourceBindings| <= MAX_LIST && |v.inputArtifactIds| <= MAX_LIST && |v.inputArtifactBindings| <= MAX_LIST
    && DistinctSources(v.sourceBindings) && Distinct(v.inputArtifactIds) && DistinctInputs(v.inputArtifactBindings)
    && BindsExactly(v.inputArtifactIds, v.inputArtifactBindings)
    && v.createdAt <= v.provenanceAt <= v.registeredAt
  }

  function ExactVersion(v: Version): Result<Version, Error> {
    if SortedVersionValid(SortedVersion(v)) then Ok(SortedVersion(v)) else Err(BadVersion)
  }

  /** Already in normal form. */
  predicate IsExact(v: Version) { SortedVersion(v) == v && SortedVersionValid(v) }

  lemma ExactVersionIsStable(v: Version)
    requires ExactVersion(v).Ok?
    ensures IsExact(ExactVersion(v).value)
  {
    var w := SortedVersion(v);
    Sorting.SortIsSortedAgain(v.sourceBindings, SourceKey);
    Sorting.SortIsSortedAgain(v.inputArtifactIds, IdKey);
    Sorting.SortIsSortedAgain(v.inputArtifactBindings, InputKey);
  }

  // ------------------------------------------------------------- entries

  /** One chain: every version extends the one before it, and time never goes back. */
  predicate ChainedTo(previous: Option<Version>, v: Version) {
    match previous
    case None => v.parentVersionId == None
    case Some(p) => v.parentVersionId == Some(p.versionId) && v.registeredAt >= p.registeredAt
  }

  predicate Belongs(v: Version, projectId: Id, artifactId: Id) {
    IsExact(v) && v.projectId == projectId && v.artifactId == artifactId
  }

  function Last(versions: seq<Version>): Option<Version> {
    if versions == [] then None else Some(versions[|versions| - 1])
  }

  /** May be the next version of this chain. */
  predicate Continues(versions: seq<Version>, v: Version, projectId: Id, artifactId: Id) {
    && Belongs(v, projectId, artifactId)
    && (forall w <- versions :: w.versionId != v.versionId)
    && ChainedTo(Last(versions), v)
  }

  predicate Chain(versions: seq<Version>, projectId: Id, artifactId: Id)
    decreases |versions|
  {
    versions == [] ||
    var n := |versions| - 1;
    Chain(versions[..n], projectId, artifactId) && Continues(versions[..n], versions[n], projectId, artifactId)
  }

  predicate EntryValid(e: Entry, projectId: Id) {
    && 1 <= |e.versions| <= MAX_VERSIONS
    && Chain(e.versions, projectId, e.artifactId)
    && e.currentVersionId == e.versions[|e.versions| - 1].versionId
  }

  lemma ChainGrows(versions: seq<Version>, v: Version, projectId: Id, artifactId: Id)
    ensures Chain(versions + [v], projectId, artifactId)
            <==> Chain(versions, projectId, artifactId) && Continues(versions, v, projectId, artifactId)
  {
    assert (versions + [v])[..|versions|] == versions;
  }

  lemma {:induction false} ChainPrefix(versions: seq<Version>, k: nat, projectId: Id, artifactId: Id)
    requires k <= |versions| && Chain(versions, projectId, artifactId)
    ensures Chain(versions[..k], projectId, artifactId)
    decreases |versions|
  {
    if k < |versions| {
      var n := |versions| - 1;
      ChainPrefix(versions[..n], k, projectId, artifactId);
      assert versions[..n][..k] == versions[..k];
    } else {
      assert versions[..k] == versions;
    }
  }

  /** What a chain says of every version in it. */
  lemma ChainMember(versions: seq<Version>, projectId: Id, artifactId: Id, i: nat)
    requires Chain(versions, projectId, artifactId) && i < |versions|
    ensures Belongs(versions[i], projectId, artifactId)
    ensures versions[i].parentVersionId == if i == 0 then None else Some(versions[i - 1].versionId)
    ensures forall j | 0 <= j < i :: versions[j].versionId != versions[i].versionId
  {
    hide Belongs;
    ChainPrefix(versions, i + 1, projectId, artifactId);
    var prefix := versions[..i + 1];
    assert prefix[..i] == versions[..i] && prefix[i] == versions[i];
    assert Continues(versions[..i], versions[i], projectId, artifactId);
    forall j | 0 <= j < i ensures versions[j].versionId != versions[i].versionId {
      assert versions[..i][j] in versions[..i];
    }
  }

  function SortedVersions(vs: seq<Version>): (r: seq<Version>)
    ensures |r| == |vs| && forall i | 0 <= i < |r| :: r[i] == SortedVersion(vs[i])
  {
    seq(|vs|, i requires 0 <= i < |vs| => SortedVersion(vs[i]))
  }

  function SortedEntry(e: Entry): Entry { e.(versions := SortedVersions(e.versions)) }

  lemma NextLink(versions: seq<Version>, i: nat, projectId: Id, artifactId: Id)
    requires i < |versions|
    ensures Chain(versions[..i + 1], projectId, artifactId)
            <==> Chain(versions[..i], projectId, artifactId) && Continues(versions[..i], versions[i], projectId, artifactId)
    ensures Chain(versions, projectId, artifactId) ==> Chain(versions[..i + 1], projectId, artifactId)
  {
    assert versions[..i + 1] == versions[..i] + [versions[i]];
    ChainGrows(versions[..i], versions[i], projectId, artifactId);
    if Chain(versions, projectId, artifactId) { ChainPrefix(versions, i + 1, projectId, artifactId); }
  }

  method ExactEntry(e: Entry, projectId: Id) returns (r: Result<Entry, Error>)
    ensures r.Ok? <==> EntryValid(SortedEntry(e), projectId)
    ensures r.Ok? ==> r.value == SortedEntry(e)
  {
    var versions := SortedVersions(e.versions);
    if !(1 <= |versions| <= MAX_VERSIONS) { return Err(TooMany); }
    var previous: Option<Version> := None;
    for i := 0 to |versions|
      invariant previous == Last(versions[..i])
      invariant Chain(versions[..i], projectId, e.artifactId)
    {
      var version := versions[i];
      var exact := ExactVersion(e.versions[i]);
      NextLink(versions, i, projectId, e.artifactId);
      if exact.Err? { return Err(exact.error); }
      ExactVersionIsStable(e.versions[i]);
      if version.projectId != projectId || version.artifactId != e.artifactId { return Err(BadEntry); }
      if exists w <- versions[..i] :: w.versionId == version.versionId { return Err(DuplicateVersion); }
      if !ChainedTo(previous, version) { return Err(BadEntry); }
      previous := Some(version);
    }
    assert versions[..|versions|] == versions;
    if e.currentVersionId != versions[|versions| - 1].versionId { return Err(BadEntry); }
    return Ok(e.(versions := versions));
  }

  // ------------------------------------------------------ whole registry

  function AllVersions(artifacts: seq<Entry>): seq<Version> {
    if artifacts == [] then [] else artifacts[0].versions + AllVersions(artifacts[1..])
  }

  function FindEntry(artifacts: seq<Entry>, artifactId: Id): Option<Entry> {
    if artifacts == [] then None
    else if artifacts[0].artifactId == artifactId then Some(artifacts[0])
    else FindEntry(artifacts[1..], artifactId)
  }

  function FindVersion(versions: seq<Version>, versionId: Id): Option<Version> {
    if versions == [] then None
    else if versions[0].versionId == versionId then Some(versions[0])
    else FindVersion(versions[1..], versionId)
  }

  function Lookup(artifacts: seq<Entry>, artifactId: Id, versionId: Id): Option<Version> {
    match FindEntry(artifacts, artifactId)
    case None => None
    case Some(e) => FindVersion(e.versions, versionId)
  }

  /** The bound input exists, is other than the version itself, has the bound content, and is not from its future. */
  predicate InputOk(artifacts: seq<Entry>, v: Version, b: InputBinding) {
    match Lookup(artifacts, b.artifactId, b.versionId)
    case None => false
    case Some(d) =>
      && d.versionId != v.versionId && d.sha256 == b.sha256
      && d.createdAt <= v.createdAt && d.registeredAt <= v.createdAt
  }

  predicate InputsResolve(artifacts: seq<Entry>, v: Version) {
    && |v.inputArtifactIds| == |v.inputArtifactBindings|
    && forall b <- v.inputArtifactBindings :: InputOk(artifacts, v, b)
  }

  predicate DistinctVersions(versions: seq<Version>) {
    forall i, j | 0 <= i < j < |versions| :: versions[i].versionId != versions[j].versionId
  }

  function VersionIds(versions: seq<Version>): (ids: seq<Id>)
    ensures |ids| == |versions| && forall i | 0 <= i < |ids| :: ids[i] == versions[i].versionId
  {
    seq(|versions|, i requires 0 <= i < |versions| => versions[i].versionId)
  }

  function InputIds(v: Version): (ids: seq<Id>)
    ensures |ids| == |v.inputArtifactBindings|
    ensures forall i | 0 <= i < |ids| :: ids[i] == v.inputArtifactBindings[i].versionId
  {
    seq(|v.inputArtifactBindings|, i requires 0 <= i < |v.inputArtifactBindings| => v.inputArtifactBindings[i].versionId)
  }

  /** The bound inputs of a version and, in the lineage, its parent too. */
  function Sources(v: Version, lineage: bool): seq<Id> {
    InputIds(v) + if lineage && v.parentVersionId.Some? then [v.parentVersionId.value] else []
  }

  function GraphOf(versions: seq<Version>, lineage: bool): Deps {
    if versions == [] then map[]
    else GraphOf(versions[1..], lineage)[versions[0].versionId := Sources(versions[0], lineage)]
  }

  lemma {:induction false} GraphNode(versions: seq<Version>, lineage: bool, id: Id)
    ensures id in GraphOf(versions, lineage) <==> exists v <- versions :: v.versionId == id
  {
    if versions != [] {
      GraphNode(versions[1..], lineage, id);
      assert versions == [versions[0]] + versions[1..];
    }
  }

  lemma {:induction false} GraphAt(versions: seq<Version>, w: Version, lineage: bool)
    requires DistinctVersions(versions) && w in versions
    ensures w.versionId in GraphOf(versions, lineage) && GraphOf(versions, lineage)[w.versionId] == Sources(w, lineage)
  {
    if versions[0] != w {
      var i :| 0 < i < |versions| && versions[i] == w;
      assert versions[1..][i - 1] == w;
      GraphAt(versions[1..], w, lineage);
    }
  }

  function Lineage(r: Registry): Deps { GraphOf(AllVersions(r.artifacts), true) }

  ghost predicate EntriesValid(artifacts: seq<Entry>, projectId: Id) {
    (forall e <- artifacts :: EntryValid(e, projectId)) && Sorting.Ordered(artifacts, EntryKey)
  }

  ghost predicate VersionsValid(artifacts: seq<Entry>, revision: int) {
    && DistinctVersions(AllVersions(artifacts))
    && revision == |AllVersions(artifacts)| <= MAX_SAFE_INTEGER
    && (forall v <- AllVersions(artifacts) :: InputsResolve(artifacts, v))
    && !Cyclic(GraphOf(AllVersions(artifacts), false))
  }

  ghost predicate RegistryValid(r: Registry) {
    |r.artifacts| <= MAX_ARTIFACTS && EntriesValid(r.artifacts, r.projectId) && VersionsValid(r.artifacts, r.revision)
  }

  function SortedEntries(es: seq<Entry>): (r: seq<Entry>)
    ensures |r| == |es| && forall i | 0 <= i < |r| :: r[i] == SortedEntry(es[i])
  {
    seq(|es|, i requires 0 <= i < |es| => SortedEntry(es[i]))
  }

  function Normalized(r: Registry): Registry {
    r.(artifacts := Sorting.Sort(SortedEntries(r.artifacts), EntryKey))
  }

  lemma {:induction false} AllVersionsMember(artifacts: seq<Entry>, v: Version)
    ensures v in AllVersions(artifacts) <==> exists e <- artifacts :: v in e.versions
  {
    if artifacts != [] {
      AllVersionsMember(artifacts[1..], v);
      assert artifacts == [artifacts[0]] + artifacts[1..];
    }
  }

  lemma {:induction false} FindEntryMember(artifacts: seq<Entry>, artifactId: Id)
    ensures match FindEntry(artifacts, artifactId)
            case Some(e) => e in artifacts && e.artifactId == artifactId
            case None => forall e <- artifacts :: e.artifactId != artifactId
  {
    if artifacts != [] {
      FindEntryMember(artifacts[1..], artifactId);
      assert artifacts == [artifacts[0]] + artifacts[1..];
    }
  }

  lemma {:induction false} FindVersionMember(versions: seq<Version>, versionId: Id)
    ensures match FindVersion(versions, versionId)
            case Some(v) => v in versions && v.versionId == versionId
            case None => forall v <- versions :: v.versionId != versionId
  {
    if versions != [] {
      FindVersionMember(versions[1..], versionId);
      assert versions == [versions[0]] + versions[1..];
    }
  }

  lemma OneEntryPerArtifact(artifacts: seq<Entry>, e: Entry, f: Entry)
    requires Sorting.Ordered(artifacts, EntryKey) && e in artifacts && f in artifacts && e.artifactId == f.artifactId
    ensures e == f
  {
    Sorting.OrderedKeysDistinct(artifacts, EntryKey);
    var i :| 0 <= i < |artifacts| && artifacts[i] == e;
    var j :| 0 <= j < |artifacts| && artifacts[j] == f;
    assert EntryKey(artifacts[i]) == EntryKey(artifacts[j]);
  }

  lemma MemberBelongs(artifacts: seq<Entry>, projectId: Id, e: Entry, v: Version)
    requires EntriesValid(artifacts, projectId) && e in artifacts && v in e.versions
    ensures Belongs(v, projectId, e.artifactId)
  {
    var i :| 0 <= i < |e.versions| && e.versions[i] == v;
    ChainMember(e.versions, projectId, e.artifactId, i);
  }

  /** Looking up finds exactly the one version with that artifact and version id. */
  lemma LookupFinds(artifacts: seq<Entry>, projectId: Id, artifactId: Id, versionId: Id, v: Version)
    requires EntriesValid(artifacts, projectId)
    ensures Lookup(artifacts, artifactId, versionId) == Some(v)
            <==> v in AllVersions(artifacts) && v.artifactId == artifactId && v.versionId == versionId
  {
    AllVersionsMember(artifacts, v);
    FindEntryMember(artifacts, artifactId);
    match FindEntry(artifacts, artifactId)
    case None =>
      forall e | e in artifacts && v in e.versions ensures e.artifactId == v.artifactId {
        MemberBelongs(artifacts, projectId, e, v);
      }
    case Some(e) =>
      FindVersionMember(e.versions, versionId);
      forall f | f in artifacts && v in f.versions ensures f.artifactId == v.artifactId && (f.artifactId == artifactId ==> f == e) {
        MemberBelongs(artifacts, projectId, f, v);
        if f.artifactId == artifactId { OneEntryPerArtifact(artifacts, e, f); }
      }
      if v in e.versions && v.versionId == versionId { FoundIsUnique(e, projectId, v); }
  }

  lemma FoundIsUnique(e: Entry, projectId: Id, v: Version)
    requires EntryValid(e, projectId) && v in e.versions
    ensures FindVersion(e.versions, v.versionId) == Some(v)
  {
    hide Belongs, Chain;
    FindVersionMember(e.versions, v.versionId);
    var w := FindVersion(e.versions, v.versionId).value;
    var i :| 0 <= i < |e.versions| && e.versions[i] == v;
    var j :| 0 <= j < |e.versions| && e.versions[j] == w;
    ChainMember(e.versions, projectId, e.artifactId, i);
    ChainMember(e.versions, projectId, e.artifactId, j);
  }

  /** A valid registry is its own normal form. */
  lemma ValidIsNormal(r: Registry)
    requires RegistryValid(r)
    ensures Normalized(r) == r
  {
    forall i | 0 <= i < |r.artifacts| ensures SortedEntry(r.artifacts[i]) == r.artifacts[i] {
      var e := r.artifacts[i];
      assert e in r.artifacts;
      forall k | 0 <= k < |e.versions| ensures SortedVersion(e.versions[k]) == e.versions[k] {
        ChainMember(e.versions, r.projectId, e.artifactId, k);
      }
      assert SortedVersions(e.versions) == e.versions;
    }
    assert SortedEntries(r.artifacts) == r.artifacts;
    Sorting.SortIsIdempotent(r.artifacts, EntryKey);
  }

  lemma DistinctSortIsOrdered(entries: seq<Entry>)
    requires DistinctArtifacts(Sorting.Sort(entries, EntryKey))
    ensures Sorting.Ordered(Sorting.Sort(entries, EntryKey), EntryKey)
  {
    var s := Sorting.Sort(entries, EntryKey);
    Sorting.SortWeaklyOrders(entries, EntryKey);
    forall i, j | 0 <= i < j < |s| ensures Sorting.Less(EntryKey(s[i]), EntryKey(s[j])) {
      assert s[i].artifactId != s[j].artifactId;
      Sorting.LessIsTotal(EntryKey(s[i]), EntryKey(s[j]));
    }
  }

  lemma AllVersionsBelong(artifacts: seq<Entry>, projectId: Id, v: Version)
    requires EntriesValid(artifacts, projectId) && v in AllVersions(artifacts)
    ensures Belongs(v, projectId, v.artifactId)
  {
    AllVersionsMember(artifacts, v);
    var e :| e in artifacts && v in e.versions;
    MemberBelongs(artifacts, projectId, e, v);
  }

  /** Resolved inputs make the input graph closed, with no node listed twice. */
  lemma InputGraphIsListed(artifacts: seq<Entry>, projectId: Id)
    requires EntriesValid(artifacts, projectId)
    requires DistinctVersions(AllVersions(artifacts))
    requires forall v <- AllVersions(artifacts) :: InputsResolve(artifacts, v)
    ensures NodeList(GraphOf(AllVersions(artifacts), false), VersionIds(AllVersions(artifacts)))
  {
    var versions := AllVersions(artifacts);
    var g := GraphOf(versions, false);
    forall n | n in g ensures Distinct(g[n]) && forall d <- g[n] :: d in g {
      GraphNode(versions, false, n);
      var v :| v in versions && v.versionId == n;
      GraphAt(versions, v, false);
      AllVersionsBelong(artifacts, projectId, v);
      InputIdsResolve(artifacts, projectId, v);
      assert g[n] == InputIds(v);
      forall d | d in g[n] ensures d in g { GraphNode(versions, false, d); }
    }
    forall n ensures n in g <==> n in VersionIds(versions) {
      GraphNode(versions, false, n);
      if n in g {
        var v :| v in versions && v.versionId == n;
        var i :| 0 <= i < |versions| && versions[i] == v;
        assert VersionIds(versions)[i] == n;
      }
      if n in VersionIds(versions) {
        var i :| 0 <= i < |versions| && VersionIds(versions)[i] == n;
        assert versions[i] in versions;
      }
    }
  }

  lemma InputIdsResolve(artifacts: seq<Entry>, projectId: Id, v: Version)
    requires EntriesValid(artifacts, projectId) && IsExact(v) && InputsResolve(artifacts, v)
    ensures Distinct(InputIds(v))
    ensures forall d <- InputIds(v) :: d != v.versionId && exists w <- AllVersions(artifacts) :: w.versionId == d
  {
    forall d | d in InputIds(v) ensures d != v.versionId && exists w <- AllVersions(artifacts) :: w.versionId == d {
      var i :| 0 <= i < |InputIds(v)| && InputIds(v)[i] == d;
      var b := v.inputArtifactBindings[i];
      assert b in v.inputArtifactBindings;
      var w := Lookup(artifacts, b.artifactId, b.versionId).value;
      LookupFinds(artifacts, projectId, b.artifactId, b.versionId, w);
    }
  }

  /** Every entry is valid once its versions are in normal form. */
  predicate AllExact(es: seq<Entry>, projectId: Id)
    decreases |es|
  {
    es == [] || (AllExact(es[..|es| - 1], projectId) && EntryValid(SortedEntry(es[|es| - 1]), projectId))
  }

  lemma {:induction false} AllExactPrefix(es: seq<Entry>, k: nat, projectId: Id)
    requires k <= |es| && AllExact(es, projectId)
    ensures AllExact(es[..k], projectId)
    decreases |es|
  {
    if k < |es| {
      AllExactPrefix(es[..|es| - 1], k, projectId);
      assert es[..|es| - 1][..k] == es[..k];
    } else {
      assert es[..k] == es;
    }
  }

  lemma NextEntry(es: seq<Entry>, i: nat, projectId: Id)
    requires i < |es|
    ensures AllExact(es[..i + 1], projectId) <==> AllExact(es[..i], projectId) && EntryValid(SortedEntry(es[i]), projectId)
    ensures AllExact(es, projectId) ==> AllExact(es[..i + 1], projectId)
  {
    assert es[..i + 1][..i] == es[..i];
    if AllExact(es, projectId) { AllExactPrefix(es, i + 1, projectId); }
  }

  lemma {:induction false} AllExactAt(es: seq<Entry>, projectId: Id, i: nat)
    requires AllExact(es, projectId) && i < |es|
    ensures EntryValid(SortedEntry(es[i]), projectId)
  {
    AllExactPrefix(es, i + 1, projectId);
  }

  lemma {:induction false} AllExactFrom(es: seq<Entry>, projectId: Id)
    requires forall e <- es :: EntryValid(SortedEntry(e), projectId)
    ensures AllExact(es, projectId)
    decreases |es|
  {
    if es != [] { AllExactFrom(es[..|es| - 1], projectId); }
  }

  method ExactEntries(es: seq<Entry>, projectId: Id) returns (r: Result<seq<Entry>, Error>)
    ensures r.Ok? <==> AllExact(es, projectId)
    ensures r.Ok? ==> r.value == SortedEntries(es)
  {
    hide EntryValid;
    var entries: seq<Entry> := [];
    for i := 0 to |es|
      invariant |entries| == i && forall k | 0 <= k < i :: entries[k] == SortedEntry(es[k])
      invariant AllExact(es[..i], projectId)
    {
      NextEntry(es, i, projectId);
      var entry := ExactEntry(es[i], projectId);
      if entry.Err? { return Err(entry.error); }
      entries := entries + [entry.value];
    }
    assert es[..|es|] == es;
    return Ok(entries);
  }

  /** Kahn's check on the input dependencies of all versions. */
  method AssertAcyclicInputDependencies(artifacts: seq<Entry>, projectId: Id) returns (ok: bool)
    requires EntriesValid(artifacts, projectId)
    requires DistinctVersions(AllVersions(artifacts))
    requires forall v <- AllVersions(artifacts) :: InputsResolve(artifacts, v)
    ensures ok <==> !Cyclic(GraphOf(AllVersions(artifacts), false))
  {
    InputGraphIsListed(artifacts, projectId);
    var versions := AllVersions(artifacts);
    ok := KahnVisitsAll(GraphOf(versions, false), VersionIds(versions));
  }

  lemma SortedEntriesValid(es: seq<Entry>, projectId: Id)
    ensures AllExact(es, projectId) <==> forall e <- Sorting.Sort(SortedEntries(es), EntryKey) :: EntryValid(e, projectId)
  {
    var entries := SortedEntries(es);
    var sorted := Sorting.Sort(entries, EntryKey);
    Sorting.SortKeepsMembers(entries, EntryKey);
    if AllExact(es, projectId) {
      forall e | e in sorted ensures EntryValid(e, projectId) {
        var i :| 0 <= i < |entries| && entries[i] == e;
        AllExactAt(es, projectId, i);
      }
    }
    if forall e <- sorted :: EntryValid(e, projectId) {
      forall e | e in es ensures EntryValid(SortedEntry(e), projectId) {
        var i :| 0 <= i < |es| && es[i] == e;
        assert entries[i] in entries;
      }
      AllExactFrom(es, projectId);
    }
  }

  predicate DistinctArtifacts(artifacts: seq<Entry>) {
    forall i, j | 0 <= i < j < |artifacts| :: artifacts[i].artifactId != artifacts[j].artifactId
  }

  lemma OrderedIsDistinct(artifacts: seq<Entry>)
    requires Sorting.Ordered(artifacts, EntryKey)
    ensures DistinctArtifacts(artifacts)
  {
    Sorting.OrderedKeysDistinct(artifacts, EntryKey);
    forall i, j | 0 <= i < j < |artifacts| ensures artifacts[i].artifactId != artifacts[j].artifactId {
      assert EntryKey(artifacts[i]) != EntryKey(artifacts[j]);
    }
  }

  method NormalizeEntries(es: seq<Entry>, projectId: Id) returns (r: Result<seq<Entry>, Error>)
    ensures r.Ok? <==> |es| <= MAX_ARTIFACTS && EntriesValid(Sorting.Sort(SortedEntries(es), EntryKey), projectId)
    ensures r.Ok? ==> r.value == Sorting.Sort(SortedEntries(es), EntryKey)
  {
    SortedEntriesValid(es, projectId);
    if |es| > MAX_ARTIFACTS { return Err(TooMany); }
    var entries := ExactEntries(es, projectId);
    if entries.Err? { return Err(entries.error); }
    var artifacts := Sorting.Sort(entries.value, EntryKey);
    if !DistinctArtifacts(artifacts) {
      if Sorting.Ordered(artifacts, EntryKey) { OrderedIsDistinct(artifacts); }
      return Err(DuplicateArtifact);
    }
    DistinctSortIsOrdered(entries.value);
    return Ok(artifacts);
  }

  method CheckVersions(artifacts: seq<Entry>, projectId: Id, revision: int) returns (refused: Option<Error>)
    requires EntriesValid(artifacts, projectId)
    ensures refused.None? <==> VersionsValid(artifacts, revision)
  {
    var versions := AllVersions(artifacts);
    if !DistinctVersions(versions) { return Some(DuplicateVersion); }
    if !(0 <= revision <= MAX_SAFE_INTEGER) || revision != |versions| { return Some(BadRevision); }
    if exists v <- versions :: !InputsResolve(artifacts, v) { return Some(BadInput); }
    var acyclic := AssertAcyclicInputDependencies(artifacts, projectId);
    return if acyclic then None else Some(InputCycle);
  }

  method NormalizeArtifactRegistry(raw: Registry) returns (r: Result<Registry, Error>)
    ensures r.Ok? <==> RegistryValid(Normalized(raw))
    ensures r.Ok? ==> r.value == Normalized(raw)
  {
    Sorting.SortKeepsMembers(SortedEntries(raw.artifacts), EntryKey);
    var artifacts := NormalizeEntries(raw.artifacts, raw.projectId);
    if artifacts.Err? { return Err(artifacts.error); }
    var refused := CheckVersions(artifacts.value, raw.projectId, raw.revision);
    if refused.Some? { return Err(refused.value); }
    return Ok(raw.(artifacts := artifacts.value));
  }

  // ----------------------------------------------------------------- put

  function Empty(projectId: Id): Registry { Registry(projectId, 0, []) }

  function OwnerOf(artifacts: seq<Entry>, versionId: Id): Option<Entry> {
    if artifacts == [] then None
    else if FindVersion(artifacts[0].versions, versionId).Some? then Some(artifacts[0])
    else OwnerOf(artifacts[1..], versionId)
  }

  /** The entry of the version's artifact once the version is in. */
  function GrownEntry(artifacts: seq<Entry>, v: Version): Entry {
    match FindEntry(artifacts, v.artifactId)
    case Some(e) => Entry(e.artifactId, v.versionId, e.versions + [v])
    case None => Entry(v.artifactId, v.versionId, [v])
  }

  /** The array before it is sorted again: the entry is replaced in place, or appended. */
  function WithVersion(artifacts: seq<Entry>, v: Version): seq<Entry> {
    if FindEntry(artifacts, v.artifactId).None? then artifacts + [GrownEntry(artifacts, v)]
    else ReplaceEntry(artifacts, GrownEntry(artifacts, v))
  }

  function ReplaceEntry(artifacts: seq<Entry>, e: Entry): (r: seq<Entry>)
    ensures |r| == |artifacts|
    ensures forall i | 0 <= i < |r| :: r[i] == if artifacts[i].artifactId == e.artifactId then e else artifacts[i]
  {
    seq(|artifacts|, i requires 0 <= i < |artifacts| => if artifacts[i].artifactId == e.artifactId then e else artifacts[i])
  }

  /** Why a new version cannot be put, if it cannot. */
  function Refusal(r: Registry, v: Version): Option<Error> {
    match FindEntry(r.artifacts, v.artifactId)
    case Some(e) =>
      if |e.versions| >= MAX_VERSIONS then Some(VersionLimit)
      else if v.parentVersionId != Some(e.currentVersionId) then Some(WrongParent)
      else if e.versions != [] && v.registeredAt < e.versions[|e.versions| - 1].registeredAt then Some(TimeRegressed)
      else None
    case None =>
      if |r.artifacts| >= MAX_ARTIFACTS then Some(ArtifactLimit)
      else if v.parentVersionId != None then Some(WrongParent)
      else None
  }

  /** Putting into a registry that is already normal. */
  function PutInto(r: Registry, input: Version): Result<Registry, Error> {
    match ExactVersion(input)
    case Err(e) => Err(e)
    case Ok(v) =>
      if v.projectId != r.projectId then Err(ProjectMismatch)
      else if !InputsResolve(r.artifacts, v) then Err(BadInput)
      else if OwnerOf(r.artifacts, v.versionId).Some? && OwnerOf(r.artifacts, v.versionId).value.artifactId != v.artifactId
      then Err(OwnedElsewhere)
      else
        match Lookup(r.artifacts, v.artifactId, v.versionId)
        case Some(existing) => if existing != v then Err(DivergentCollision) else Ok(r)
        case None =>
          match Refusal(r, v)
          case Some(e) => Err(e)
          case None =>
            Ok(Registry(r.projectId, r.revision + 1, Sorting.Sort(WithVersion(r.artifacts, v), EntryKey)))
  }

  method PutArtifactVersion(raw: Registry, input: Version) returns (r: Result<Registry, Error>)
    ensures r.Ok? <==> RegistryValid(Normalized(raw)) && PutInto(Normalized(raw), input).Ok?
    ensures r.Ok? ==> r == PutInto(Normalized(raw), input)
  {
    var registry :- NormalizeArtifactRegistry(raw);
    return PutInto(registry, input);
  }

  function Get(r: Registry, artifactId: Id, versionId: Id): Result<Version, Error> {
    match Lookup(r.artifacts, artifactId, versionId)
    case None => Err(NotFound)
    case Some(v) => Ok(v)
  }

  method GetArtifactVersion(raw: Registry, artifactId: Id, versionId: Id) returns (r: Result<Version, Error>)
    ensures r.Ok? <==> RegistryValid(Normalized(raw)) && Get(Normalized(raw), artifactId, versionId).Ok?
    ensures r.Ok? ==> r == Get(Normalized(raw), artifactId, versionId)
  {
    var registry :- NormalizeArtifactRegistry(raw);
    return Get(registry, artifactId, versionId);
  }
}
