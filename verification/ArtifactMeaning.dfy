/** What an accepted registry is, and when a put is accepted, said of entries and versions themselves. */
module ArtifactMeaning {
  import opened Common
  import opened Graph
  import opened ArtifactRegistry
  import opened ArtifactRuns
  import Sorting

  // ------------------------------------------------------- one version

  /** Strictly ascending, so without duplicates. */
  ghost predicate Ascending(ids: seq<Id>) { forall i, j | 0 <= i < j < |ids| :: Sorting.Less(ids[i], ids[j]) }

  ghost predicate NoTwoInputsShare(b: seq<InputBinding>) {
    forall i, j | 0 <= i < j < |b| :: b[i].artifactId != b[j].artifactId && b[i].versionId != b[j].versionId
  }

  /** A version in normal form: bounded sorted provenance, bindings for all inputs or none, made before it is registered. */
  ghost predicate GoodVersion(v: Version) {
    && |v.sourceBindings| <= 128 && |v.inputArtifactIds| <= 128
    && (forall i, j | 0 <= i < j < |v.sourceBindings| ::
          Sorting.Less(v.sourceBindings[i].sourceId, v.sourceBindings[j].sourceId))
    && Ascending(v.inputArtifactIds) && NoTwoInputsShare(v.inputArtifactBindings)
    && (v.inputArtifactBindings == []
        || (|v.inputArtifactBindings| == |v.inputArtifactIds|
            && forall i | 0 <= i < |v.inputArtifactIds| :: v.inputArtifactBindings[i].artifactId == v.inputArtifactIds[i]))
    && v.createdAt <= v.provenanceAt && v.provenanceAt <= v.registeredAt
  }

  lemma SortedDistinctAscends<T>(s: seq<T>, key: T -> Text)
    ensures Sorting.Sort(s, key) == s && Sorting.DistinctKeys(s, key) <==> Sorting.Ordered(s, key)
  {
    if Sorting.DistinctKeys(s, key) { Sorting.SortOrders(s, key); }
    if Sorting.Ordered(s, key) {
      Sorting.OrderedKeysDistinct(s, key);
      Sorting.SortIsIdempotent(s, key);
    }
  }

  lemma AlignedIsOrdered(ids: seq<Id>, b: seq<InputBinding>)
    requires b == [] || (|b| == |ids| && forall i | 0 <= i < |ids| :: b[i].artifactId == ids[i])
    requires Ascending(ids)
    ensures Sorting.Ordered(b, InputKey)
  {
  }

  lemma ExactMeans(v: Version)
    ensures IsExact(v) <==> GoodVersion(v)
  {
    SortedDistinctAscends(v.sourceBindings, SourceKey);
    SortedDistinctAscends(v.inputArtifactIds, IdKey);
    SortedDistinctAscends(v.inputArtifactBindings, InputKey);
    if GoodVersion(v) { AlignedIsOrdered(v.inputArtifactIds, v.inputArtifactBindings); }
    hide Sorting.Sort;
  }

  // ---------------------------------------------------------- one entry

  /** A version stands at place i of its chain. */
  ghost predicate GoodLink(versions: seq<Version>, projectId: Id, artifactId: Id, i: nat)
    requires i < |versions|
  {
    var v := versions[i];
    && GoodVersion(v) && v.projectId == projectId && v.artifactId == artifactId
    && (if i == 0 then v.parentVersionId == None
        else v.parentVersionId == Some(versions[i - 1].versionId) && versions[i - 1].registeredAt <= v.registeredAt)
    && (forall j | 0 <= j < i :: versions[j].versionId != v.versionId)
  }

  ghost predicate GoodEntry(e: Entry, projectId: Id) {
    && 1 <= |e.versions| <= 128
    && (forall i | 0 <= i < |e.versions| :: GoodLink(e.versions, projectId, e.artifactId, i))
    && e.currentVersionId == e.versions[|e.versions| - 1].versionId
  }

  lemma LinkMeans(versions: seq<Version>, projectId: Id, artifactId: Id, i: nat)
    requires i < |versions|
    ensures Continues(versions[..i], versions[i], projectId, artifactId) <==> GoodLink(versions, projectId, artifactId, i)
  {
    ExactMeans(versions[i]);
    hide IsExact, GoodVersion;
    forall j | 0 <= j < i ensures versions[..i][j] == versions[j] && versions[j] in versions[..i] {
      assert versions[..i][j] in versions[..i];
    }
    if i > 0 { assert Last(versions[..i]) == Some(versions[i - 1]); }
  }

  lemma {:induction false} ChainMeans(versions: seq<Version>, projectId: Id, artifactId: Id, n: nat)
    requires n <= |versions|
    ensures Chain(versions[..n], projectId, artifactId) <==> forall i | 0 <= i < n :: GoodLink(versions, projectId, artifactId, i)
  {
    hide GoodLink, Continues;
    if n > 0 {
      ChainMeans(versions, projectId, artifactId, n - 1);
      NextLink(versions, n - 1, projectId, artifactId);
      LinkMeans(versions, projectId, artifactId, n - 1);
    }
  }

  lemma EntryMeans(e: Entry, projectId: Id)
    ensures EntryValid(e, projectId) <==> GoodEntry(e, projectId)
  {
    ChainMeans(e.versions, projectId, e.artifactId, |e.versions|);
    assert e.versions[..|e.versions|] == e.versions;
    hide GoodLink, Chain;
  }

  // ------------------------------------------------------- the registry

  /** The bound input is there, is another version, has the bound content, and was registered before this was made. */
  ghost predicate InputIsThere(artifacts: seq<Entry>, v: Version, b: InputBinding) {
    exists e, d | e in artifacts && d in e.versions ::
      && d.artifactId == b.artifactId && d.versionId == b.versionId && d.sha256 == b.sha256
      && d.versionId != v.versionId && d.createdAt <= v.createdAt && d.registeredAt <= v.createdAt
  }

  /** Each version takes the one after it as an input, and the last is the first again. */
  ghost predicate InputCycleOf(versions: seq<Version>, p: seq<Version>) {
    && |p| > 1 && p[0] == p[|p| - 1] && (forall v <- p :: v in versions)
    && forall i | 0 <= i < |p| - 1 :: exists b <- p[i].inputArtifactBindings :: b.versionId == p[i + 1].versionId
  }

  lemma InputMeans(r: Registry, v: Version, b: InputBinding)
    requires EntriesValid(r.artifacts, r.projectId)
    ensures InputOk(r.artifacts, v, b) <==> InputIsThere(r.artifacts, v, b)
  {
    var found := Lookup(r.artifacts, b.artifactId, b.versionId);
    hide Lookup, EntriesValid;
    if found.Some? {
      LookupFinds(r.artifacts, r.projectId, b.artifactId, b.versionId, found.value);
      AllVersionsMember(r.artifacts, found.value);
    }
    forall e, d | e in r.artifacts && d in e.versions && d.artifactId == b.artifactId && d.versionId == b.versionId
      ensures found == Some(d)
    {
      AllVersionsMember(r.artifacts, d);
      LookupFinds(r.artifacts, r.projectId, b.artifactId, b.versionId, d);
    }
  }

  lemma InputsMean(r: Registry, v: Version)
    requires EntriesValid(r.artifacts, r.projectId)
    ensures InputsResolve(r.artifacts, v) <==>
              && |v.inputArtifactIds| == |v.inputArtifactBindings|
              && forall b <- v.inputArtifactBindings :: InputIsThere(r.artifacts, v, b)
  {
    forall b | b in v.inputArtifactBindings ensures InputOk(r.artifacts, v, b) <==> InputIsThere(r.artifacts, v, b) {
      InputMeans(r, v, b);
    }
    hide InputOk, InputIsThere;
  }

  function IdsOf(p: seq<Version>): (ids: seq<Id>)
    ensures |ids| == |p| && forall i | 0 <= i < |p| :: ids[i] == p[i].versionId
  {
    seq(|p|, i requires 0 <= i < |p| => p[i].versionId)
  }

  lemma CycleOfVersions(versions: seq<Version>, p: seq<Version>)
    requires DistinctVersions(versions) && InputCycleOf(versions, p)
    ensures Cyclic(GraphOf(versions, false))
  {
    var g := GraphOf(versions, false);
    var ids := IdsOf(p);
    forall i | 0 <= i < |p| ensures ids[i] in g && g[ids[i]] == InputIds(p[i]) {
      assert p[i] in p;
      GraphAt(versions, p[i], false);
      assert Sources(p[i], false) == InputIds(p[i]);
    }
    forall i | 0 <= i < |p| - 1 ensures ids[i + 1] in g[ids[i]] {
      var b :| b in p[i].inputArtifactBindings && b.versionId == p[i + 1].versionId;
      var k :| 0 <= k < |p[i].inputArtifactBindings| && p[i].inputArtifactBindings[k] == b;
      assert InputIds(p[i])[k] == ids[i + 1];
    }
    assert Cycle(g, ids);
  }

  lemma {:induction false} VersionsOfPath(versions: seq<Version>, ids: seq<Id>) returns (p: seq<Version>)
    requires DistinctVersions(versions) && forall id <- ids :: id in GraphOf(versions, false)
    ensures |p| == |ids| && forall i | 0 <= i < |p| :: p[i] in versions && p[i].versionId == ids[i]
  {
    if ids == [] {
      p := [];
    } else {
      var rest := VersionsOfPath(versions, ids[1..]);
      assert ids[0] in ids;
      GraphNode(versions, false, ids[0]);
      var v :| v in versions && v.versionId == ids[0];
      p := [v] + rest;
    }
  }

  lemma VersionsOfCycle(versions: seq<Version>)
    requires DistinctVersions(versions) && Cyclic(GraphOf(versions, false))
    ensures exists p :: InputCycleOf(versions, p)
  {
    var g := GraphOf(versions, false);
    var ids :| Cycle(g, ids);
    forall id | id in ids ensures id in g { var i :| 0 <= i < |ids| && ids[i] == id; }
    var p := VersionsOfPath(versions, ids);
    SameIdSameVersion(versions, p[0], p[|p| - 1]);
    forall i | 0 <= i < |p| - 1 ensures exists b <- p[i].inputArtifactBindings :: b.versionId == p[i + 1].versionId {
      GraphAt(versions, p[i], false);
      assert Sources(p[i], false) == InputIds(p[i]);
      assert ids[i + 1] in g[ids[i]];
      var k :| 0 <= k < |InputIds(p[i])| && InputIds(p[i])[k] == ids[i + 1];
      assert p[i].inputArtifactBindings[k] in p[i].inputArtifactBindings;
    }
    assert InputCycleOf(versions, p);
  }

  lemma SameIdSameVersion(versions: seq<Version>, a: Version, b: Version)
    requires DistinctVersions(versions) && a in versions && b in versions && a.versionId == b.versionId
    ensures a == b
  {
    var i :| 0 <= i < |versions| && versions[i] == a;
    var j :| 0 <= j < |versions| && versions[j] == b;
  }

  /** An accepted registry, in its normal form. */
  ghost predicate GoodRegistry(r: Registry) {
    && |r.artifacts| <= 256
    && (forall i, j | 0 <= i < j < |r.artifacts| :: Sorting.Less(r.artifacts[i].artifactId, r.artifacts[j].artifactId))
    && (forall e <- r.artifacts :: GoodEntry(e, r.projectId))
    && DistinctVersions(AllVersions(r.artifacts))
    && r.revision == |AllVersions(r.artifacts)| <= MAX_SAFE_INTEGER
    && (forall v <- AllVersions(r.artifacts) ::
          |v.inputArtifactIds| == |v.inputArtifactBindings| && forall b <- v.inputArtifactBindings :: InputIsThere(r.artifacts, v, b))
    && !exists p :: InputCycleOf(AllVersions(r.artifacts), p)
  }

  /**
   * Normalization accepts exactly the registries of well-formed chains with distinct version ids, a revision that counts
   * them, and inputs that are there, unchanged, older, and free of cycles.
   */
  lemma RegistryMeans(r: Registry)
    ensures RegistryValid(r) <==> GoodRegistry(r)
  {
    forall e | e in r.artifacts ensures EntryValid(e, r.projectId) <==> GoodEntry(e, r.projectId) { EntryMeans(e, r.projectId); }
    var all := AllVersions(r.artifacts);
    hide EntryValid, GoodEntry, InputIsThere, InputsResolve, Cyclic, DistinctVersions, InputCycleOf;
    assert EntriesValid(r.artifacts, r.projectId) <==>
           && (forall i, j | 0 <= i < j < |r.artifacts| :: Sorting.Less(r.artifacts[i].artifactId, r.artifacts[j].artifactId))
           && (forall e <- r.artifacts :: GoodEntry(e, r.projectId));
    if EntriesValid(r.artifacts, r.projectId) {
      forall v | v in all
        ensures InputsResolve(r.artifacts, v) <==>
                  |v.inputArtifactIds| == |v.inputArtifactBindings| && forall b <- v.inputArtifactBindings :: InputIsThere(r.artifacts, v, b)
      {
        InputsMean(r, v);
      }
      if DistinctVersions(all) {
        CyclesMean(all);
      }
    }
  }

  lemma CyclesMean(versions: seq<Version>)
    requires DistinctVersions(versions)
    ensures Cyclic(GraphOf(versions, false)) <==> exists p :: InputCycleOf(versions, p)
  {
    if Cyclic(GraphOf(versions, false)) { VersionsOfCycle(versions); }
    if p :| InputCycleOf(versions, p) { CycleOfVersions(versions, p); }
  }

  // ---------------------------------------------------------------- put

  /** The same version up to the order of the three lists of its provenance. */
  ghost predicate Reordered(input: Version, v: Version) {
    && v == input.(sourceBindings := v.sourceBindings, inputArtifactIds := v.inputArtifactIds,
                   inputArtifactBindings := v.inputArtifactBindings)
    && multiset(v.sourceBindings) == multiset(input.sourceBindings)
    && multiset(v.inputArtifactIds) == multiset(input.inputArtifactIds)
    && multiset(v.inputArtifactBindings) == multiset(input.inputArtifactBindings)
  }

  /** A new version fits: it heads a new artifact, or extends the last version of its own. */
  ghost predicate Extends(r: Registry, v: Version) {
    if forall e <- r.artifacts :: e.artifactId != v.artifactId then |r.artifacts| < 256 && v.parentVersionId == None
    else
      exists e <- r.artifacts ::
        && e.artifactId == v.artifactId && 1 <= |e.versions| < 128
        && v.parentVersionId == Some(e.versions[|e.versions| - 1].versionId)
        && e.versions[|e.versions| - 1].registeredAt <= v.registeredAt
  }

  lemma NormalFormOf(input: Version)
    ensures Reordered(input, SortedVersion(input))
  {
    Sorting.SortPermutes(input.sourceBindings, SourceKey);
    Sorting.SortPermutes(input.inputArtifactIds, IdKey);
    Sorting.SortPermutes(input.inputArtifactBindings, InputKey);
  }

  lemma RefusalMeans(r: Registry, v: Version)
    requires RegistryValid(r)
    ensures Refusal(r, v).None? <==> Extends(r, v)
  {
    FindEntryMember(r.artifacts, v.artifactId);
    forall e | e in r.artifacts ensures GoodEntry(e, r.projectId) { EntryMeans(e, r.projectId); }
    var found := FindEntry(r.artifacts, v.artifactId);
    forall e | e in r.artifacts && e.artifactId == v.artifactId ensures found == Some(e) {
      OneEntryPerArtifact(r.artifacts, e, found.value);
    }
    hide GoodLink, EntryValid, VersionsValid;
  }

  /**
   * A put is accepted exactly if the version, in normal form, is good, belongs to the project, has inputs that are
   * there, unchanged and older, and either is already in the registry or has a new id and fits.
   */
  lemma PutExactly(r: Registry, input: Version)
    requires RegistryValid(r)
    ensures var v := SortedVersion(input);
            PutInto(r, input).Ok? <==>
              && GoodVersion(v) && v.projectId == r.projectId
              && |v.inputArtifactIds| == |v.inputArtifactBindings|
              && (forall b <- v.inputArtifactBindings :: InputIsThere(r.artifacts, v, b))
              && (v in AllVersions(r.artifacts)
                  || ((forall w <- AllVersions(r.artifacts) :: w.versionId != v.versionId) && Extends(r, v)))
  {
    var v := SortedVersion(input);
    ExactMeans(v);
    InputsMean(r, v);
    RefusalMeans(r, v);
    OwnersMean(r, v);
    var found := Lookup(r.artifacts, v.artifactId, v.versionId);
    FoundMeans(r, v);
    if ExactVersion(input).Ok? { ExactVersionIsStable(input); } 
    SortedTwice(input);
    hide GoodVersion, InputsResolve, InputIsThere, Refusal, Extends, OwnerOf, Lookup, RegistryValid, SortedVersion;
  }

  lemma SortedTwice(input: Version)
    ensures SortedVersion(SortedVersion(input)) == SortedVersion(input)
  {
    Sorting.SortIsSortedAgain(input.sourceBindings, SourceKey);
    Sorting.SortIsSortedAgain(input.inputArtifactIds, IdKey);
    Sorting.SortIsSortedAgain(input.inputArtifactBindings, InputKey);
  }

  lemma FoundMeans(r: Registry, v: Version)
    requires RegistryValid(r)
    ensures var found := Lookup(r.artifacts, v.artifactId, v.versionId);
            && (found == Some(v) <==> v in AllVersions(r.artifacts))
            && (found.Some? ==> found.value in AllVersions(r.artifacts) && found.value.versionId == v.versionId)
            && (found.None? ==> forall w <- AllVersions(r.artifacts) :: w.versionId == v.versionId ==> w.artifactId != v.artifactId)
  {
    var found := Lookup(r.artifacts, v.artifactId, v.versionId);
    LookupFinds(r.artifacts, r.projectId, v.artifactId, v.versionId, v);
    if found.Some? { LookupFinds(r.artifacts, r.projectId, v.artifactId, v.versionId, found.value); }
    forall w | w in AllVersions(r.artifacts) && w.versionId == v.versionId && w.artifactId == v.artifactId ensures found == Some(w) {
      LookupFinds(r.artifacts, r.projectId, v.artifactId, v.versionId, w);
    }
  }

  lemma {:induction false} OwnerMember(artifacts: seq<Entry>, versionId: Id)
    ensures match OwnerOf(artifacts, versionId)
            case Some(e) => e in artifacts && exists w <- e.versions :: w.versionId == versionId
            case None => forall e, w | e in artifacts && w in e.versions :: w.versionId != versionId
  {
    if artifacts != [] {
      FindVersionMember(artifacts[0].versions, versionId);
      OwnerMember(artifacts[1..], versionId);
      assert artifacts == [artifacts[0]] + artifacts[1..];
    }
  }

  lemma OwnersMean(r: Registry, v: Version)
    requires RegistryValid(r)
    ensures var owner := OwnerOf(r.artifacts, v.versionId);
            (owner.Some? && owner.value.artifactId != v.artifactId) <==>
              exists w <- AllVersions(r.artifacts) :: w.versionId == v.versionId && w.artifactId != v.artifactId
  {
    var owner := OwnerOf(r.artifacts, v.versionId);
    var all := AllVersions(r.artifacts);
    OwnerMember(r.artifacts, v.versionId);
    if owner.Some? {
      var w :| w in owner.value.versions && w.versionId == v.versionId;
      AllVersionsMember(r.artifacts, w);
      MemberBelongs(r.artifacts, r.projectId, owner.value, w);
      forall u | u in all && u.versionId == v.versionId ensures u == w { SameIdSameVersion(all, u, w); }
    } else {
      forall u | u in all ensures u.versionId != v.versionId { AllVersionsMember(r.artifacts, u); }
    }
  }
}
