/**
 * Which registries puts can build: a registry that normalization accepts is the result of some sequence of puts
 * exactly when its lineage, parents and bound inputs together, has no cycle (src/core/artifact-registry.js).
 */
module ArtifactReach {
  import opened Common
  import opened Graph
  import opened ArtifactRegistry
  import opened ArtifactRuns
  import Sorting

  // -------------------------------------------- taking the last version off

  function Shrunk(e: Entry): seq<Entry> {
    var n := |e.versions|;
    if n <= 1 then [] else [Entry(e.artifactId, e.versions[n - 2].versionId, e.versions[..n - 1])]
  }

  /** The artifacts before the last version of this one was put. */
  function Without(artifacts: seq<Entry>, artifactId: Id): seq<Entry> {
    if artifacts == [] then []
    else if artifacts[0].artifactId == artifactId then Shrunk(artifacts[0]) + artifacts[1..]
    else [artifacts[0]] + Without(artifacts[1..], artifactId)
  }

  function Unput(r: Registry, artifactId: Id): Registry {
    Registry(r.projectId, r.revision - 1, Without(r.artifacts, artifactId))
  }

  lemma ShrunkValid(e: Entry, projectId: Id)
    requires EntryValid(e, projectId)
    ensures forall x <- Shrunk(e) :: EntryValid(x, projectId) && x.artifactId == e.artifactId
  {
    if |e.versions| > 1 {
      ChainPrefix(e.versions, |e.versions| - 1, projectId, e.artifactId);
    }
  }

  lemma {:induction false} WithoutMember(artifacts: seq<Entry>, artifactId: Id, x: Entry)
    requires DistinctArtifacts(artifacts)
    ensures x in Without(artifacts, artifactId)
            <==> (x in artifacts && x.artifactId != artifactId)
                 || exists e <- artifacts :: e.artifactId == artifactId && x in Shrunk(e)
  {
    if artifacts != [] {
      var rest := artifacts[1..];
      assert artifacts == [artifacts[0]] + rest;
      if artifacts[0].artifactId == artifactId {
        forall e | e in rest ensures e.artifactId != artifactId {
          var i :| 0 <= i < |rest| && rest[i] == e;
          assert artifacts[i + 1] == e;
        }
      } else {
        WithoutMember(rest, artifactId, x);
      }
    }
  }

  lemma {:induction false} WithoutOrdered(artifacts: seq<Entry>, artifactId: Id)
    requires Sorting.Ordered(artifacts, EntryKey)
    ensures Sorting.Ordered(Without(artifacts, artifactId), EntryKey)
  {
    if artifacts != [] && artifacts[0].artifactId != artifactId {
      var rest := artifacts[1..];
      WithoutOrdered(rest, artifactId);
      OrderedIsDistinct(rest);
      var t := Without(rest, artifactId);
      forall j | 0 <= j < |t| ensures Sorting.Less(EntryKey(artifacts[0]), EntryKey(t[j])) {
        WithoutMember(rest, artifactId, t[j]);
        assert t[j] in t;
        var e :| e in rest && e.artifactId == t[j].artifactId;
        var i :| 0 <= i < |rest| && rest[i] == e;
        assert artifacts[i + 1] == e;
      }
    }
  }

  lemma WithoutValid(artifacts: seq<Entry>, projectId: Id, artifactId: Id)
    requires EntriesValid(artifacts, projectId)
    ensures EntriesValid(Without(artifacts, artifactId), projectId)
  {
    OrderedIsDistinct(artifacts);
    WithoutOrdered(artifacts, artifactId);
    forall x | x in Without(artifacts, artifactId) ensures EntryValid(x, projectId) {
      WithoutMember(artifacts, artifactId, x);
      if e :| e in artifacts && e.artifactId == artifactId && x in Shrunk(e) { ShrunkValid(e, projectId); }
    }
  }

  /** The last version of an artifact. */
  ghost predicate IsLast(r: Registry, v: Version) {
    exists e :: e in r.artifacts && e.artifactId == v.artifactId && e.versions != [] && e.versions[|e.versions| - 1] == v
  }

  lemma WithoutFinds(artifacts: seq<Entry>, projectId: Id, e: Entry)
    requires EntriesValid(artifacts, projectId) && e in artifacts
    ensures FindEntry(Without(artifacts, e.artifactId), e.artifactId)
            == if |e.versions| <= 1 then None else Some(Shrunk(e)[0])
  {
    OrderedIsDistinct(artifacts);
    WithoutOrdered(artifacts, e.artifactId);
    var t := Without(artifacts, e.artifactId);
    FindEntryMember(t, e.artifactId);
    forall x | x in t && x.artifactId == e.artifactId ensures x in Shrunk(e) {
      WithoutMember(artifacts, e.artifactId, x);
      var f :| f in artifacts && f.artifactId == e.artifactId && x in Shrunk(f);
      OneEntryPerArtifact(artifacts, e, f);
    }
    forall x | x in Shrunk(e) ensures x in t { WithoutMember(artifacts, e.artifactId, x); }
    if |e.versions| > 1 { assert Shrunk(e)[0] in Shrunk(e); }
  }

  lemma {:induction false} OthersStay(artifacts: seq<Entry>, artifactId: Id, other: Id)
    requires other != artifactId
    ensures FindEntry(Without(artifacts, artifactId), other) == FindEntry(artifacts, other)
  {
    if artifacts != [] {
      if artifacts[0].artifactId == artifactId {
        if |artifacts[0].versions| > 1 {
          var t := Shrunk(artifacts[0]) + artifacts[1..];
          assert t[0].artifactId == artifactId && t[1..] == artifacts[1..];
        } else {
          assert Shrunk(artifacts[0]) + artifacts[1..] == artifacts[1..];
        }
      } else {
        OthersStay(artifacts[1..], artifactId, other);
        var t := Without(artifacts[1..], artifactId);
        assert ([artifacts[0]] + t)[1..] == t;
      }
    }
  }

  // --------------------------------------------- and putting it back again

  lemma GrownOrdered(r: Registry, v: Version)
    requires Sorting.Ordered(r.artifacts, EntryKey)
    ensures Sorting.Ordered(Grown(r, v).artifacts, EntryKey)
  {
    OrderedIsDistinct(r.artifacts);
    WithVersionDistinct(r.artifacts, v);
    Sorting.SortOrders(WithVersion(r.artifacts, v), EntryKey);
  }

  lemma RegrownEntry(r: Registry, e: Entry, v: Version)
    requires EntriesValid(r.artifacts, r.projectId) && e in r.artifacts && e.artifactId == v.artifactId
    requires e.versions != [] && e.versions[|e.versions| - 1] == v
    ensures GrownEntry(Without(r.artifacts, v.artifactId), v) == e
  {
    WithoutFinds(r.artifacts, r.projectId, e);
    var n := |e.versions| - 1;
    assert e.versions == e.versions[..n] + [v];
  }

  lemma Regrown(r: Registry, v: Version)
    requires EntriesValid(r.artifacts, r.projectId) && IsLast(r, v)
    ensures Grown(Unput(r, v.artifactId), v) == r
  {
    var e :| e in r.artifacts && e.artifactId == v.artifactId && e.versions != [] && e.versions[|e.versions| - 1] == v;
    var before := Unput(r, v.artifactId);
    WithoutOrdered(r.artifacts, v.artifactId);
    GrownOrdered(before, v);
    RegrownEntry(r, e, v);
    GrownMembers(before, v, e);
    FindEntryIs(Grown(before, v).artifacts, e);
    FindEntryIs(r.artifacts, e);
    forall id ensures FindEntry(Grown(before, v).artifacts, id) == FindEntry(r.artifacts, id) {
      if id != v.artifactId {
        OthersFound(before, v, id);
        OthersStay(r.artifacts, v.artifactId, id);
      }
    }
    SameEntries(Grown(before, v).artifacts, r.artifacts);
  }

  lemma UnputVersions(r: Registry, v: Version)
    requires RegistryValid(r) && IsLast(r, v)
    ensures OneMore(AllVersions(Unput(r, v.artifactId).artifacts), AllVersions(r.artifacts), v)
  {
    Regrown(r, v);
    WithoutOrdered(r.artifacts, v.artifactId);
    OrderedIsDistinct(Unput(r, v.artifactId).artifacts);
    PutAddsOneVersion(Unput(r, v.artifactId).artifacts, v);
  }

  lemma DistinctShrinks(before: seq<Version>, after: seq<Version>, v: Version)
    requires DistinctVersions(after) && OneMore(before, after, v)
    ensures DistinctVersions(before) && Fresh(before, v.versionId)
  {
    OneMoreMembers(before, after, v);
    DistinctCount(after, v);
    assert v !in multiset(before);
    forall w | w in before ensures w.versionId != v.versionId {
      assert w in multiset(before) && v in after;
      if w.versionId == v.versionId { SameIdSameVersion(after, w, v); }
    }
    forall i, j | 0 <= i < j < |before| ensures before[i].versionId != before[j].versionId {
      assert before[i] in before && before[j] in before;
      RepeatedBefore(before, after, v, i, j);
      if before[i].versionId == before[j].versionId { SameIdSameVersion(after, before[i], before[j]); }
    }
  }

  lemma RepeatedBefore(before: seq<Version>, after: seq<Version>, v: Version, i: nat, j: nat)
    requires DistinctVersions(after) && OneMore(before, after, v) && i < j < |before|
    ensures before[i] != before[j]
  {
    DistinctCount(after, before[i]);
    if before[i] == before[j] { RepeatCount(before, i, j); }
  }

  /** No version depends on v, neither through an input nor as its parent. */
  ghost predicate Unneeded(r: Registry, v: Version) {
    forall w <- AllVersions(r.artifacts) :: v.versionId !in Sources(w, true)
  }

  lemma InputStaysWithout(r: Registry, v: Version, w: Version, b: InputBinding)
    requires RegistryValid(r) && IsLast(r, v) && b in w.inputArtifactBindings && b.versionId != v.versionId
    requires InputOk(r.artifacts, w, b)
    ensures InputOk(Unput(r, v.artifactId).artifacts, w, b)
  {
    var d := Lookup(r.artifacts, b.artifactId, b.versionId).value;
    LookupFinds(r.artifacts, r.projectId, b.artifactId, b.versionId, d);
    UnputVersions(r, v);
    OneMoreMembers(AllVersions(Unput(r, v.artifactId).artifacts), AllVersions(r.artifacts), v);
    WithoutValid(r.artifacts, r.projectId, v.artifactId);
    LookupFinds(Unput(r, v.artifactId).artifacts, r.projectId, b.artifactId, b.versionId, d);
  }

  lemma InputsStayWithout(r: Registry, v: Version, w: Version)
    requires RegistryValid(r) && IsLast(r, v) && InputsResolve(r.artifacts, w) && v.versionId !in InputIds(w)
    ensures InputsResolve(Unput(r, v.artifactId).artifacts, w)
  {
    forall b | b in w.inputArtifactBindings ensures InputOk(Unput(r, v.artifactId).artifacts, w, b) {
      var i :| 0 <= i < |w.inputArtifactBindings| && w.inputArtifactBindings[i] == b;
      assert InputIds(w)[i] == b.versionId;
      InputStaysWithout(r, v, w, b);
    }
  }

  lemma UnputGraph(r: Registry, v: Version, lineage: bool)
    requires RegistryValid(r) && IsLast(r, v) && !Cyclic(GraphOf(AllVersions(r.artifacts), lineage))
    ensures !Cyclic(GraphOf(AllVersions(Unput(r, v.artifactId).artifacts), lineage))
  {
    var before, after := AllVersions(Unput(r, v.artifactId).artifacts), AllVersions(r.artifacts);
    UnputVersions(r, v);
    DistinctShrinks(before, after, v);
    GraphGrows(before, after, v, lineage);
    GraphNode(before, lineage, v.versionId);
    SubgraphIsAcyclic(GraphOf(before, lineage), GraphOf(after, lineage));
  }

  lemma UnputValid(r: Registry, v: Version)
    requires RegistryValid(r) && IsLast(r, v) && Unneeded(r, v)
    ensures RegistryValid(Unput(r, v.artifactId))
  {
    var r' := Unput(r, v.artifactId);
    var before, after := AllVersions(r'.artifacts), AllVersions(r.artifacts);
    WithoutValid(r.artifacts, r.projectId, v.artifactId);
    UnputVersions(r, v);
    OneMoreMembers(before, after, v);
    DistinctShrinks(before, after, v);
    forall w | w in before ensures InputsResolve(r'.artifacts, w) { InputsStayWithout(r, v, w); }
    UnputGraph(r, v, false);
    WithoutIsShorter(r.artifacts, v.artifactId);
  }

  lemma {:induction false} WithoutIsShorter(artifacts: seq<Entry>, artifactId: Id)
    ensures |Without(artifacts, artifactId)| <= |artifacts|
  {
    if artifacts != [] { WithoutIsShorter(artifacts[1..], artifactId); }
  }

  /** The last version of the artifact could have been put last. */
  lemma UnputCanBePut(r: Registry, v: Version)
    requires RegistryValid(r) && IsLast(r, v) && Unneeded(r, v)
    ensures Adds(Unput(r, v.artifactId), v)
  {
    var e :| e in r.artifacts && e.artifactId == v.artifactId && e.versions != [] && e.versions[|e.versions| - 1] == v;
    AllVersionsMember(r.artifacts, v);
    UnputVersions(r, v);
    DistinctShrinks(AllVersions(Unput(r, v.artifactId).artifacts), AllVersions(r.artifacts), v);
    InputsStayWithout(r, v, v);
    AllVersionsBelong(r.artifacts, r.projectId, v);
    LastIsAllowed(r, e, v);
  }

  lemma LastIsAllowed(r: Registry, e: Entry, v: Version)
    requires RegistryValid(r) && e in r.artifacts && e.artifactId == v.artifactId
    requires e.versions != [] && e.versions[|e.versions| - 1] == v
    ensures Refusal(Unput(r, v.artifactId), v).None?
  {
    hide Belongs, VersionsValid;
    WithoutFinds(r.artifacts, r.projectId, e);
    var n := |e.versions| - 1;
    assert Continues(e.versions[..n], v, r.projectId, e.artifactId);
    OrderedIsDistinct(r.artifacts);
    if n == 0 { EntryGone(r.artifacts, e); }
  }

  lemma {:induction false} EntryGone(artifacts: seq<Entry>, e: Entry)
    requires DistinctArtifacts(artifacts) && e in artifacts && |e.versions| <= 1
    ensures |Without(artifacts, e.artifactId)| < |artifacts|
  {
    assert artifacts == [artifacts[0]] + artifacts[1..];
    if artifacts[0].artifactId != e.artifactId {
      EntryGone(artifacts[1..], e);
    } else {
      var i :| 0 <= i < |artifacts| && artifacts[i] == e;
    }
  }

  // ----------------------------------------------------- the reachable ones

  lemma AddsIsAccepted(r: Registry, v: Version)
    requires EntriesValid(r.artifacts, r.projectId) && Adds(r, v)
    ensures PutInto(r, v) == Ok(Grown(r, v))
  {
    OwnerMember(r.artifacts, v.versionId);
    if OwnerOf(r.artifacts, v.versionId).Some? {
      FoundBelongs(r.artifacts, r.projectId, OwnerOf(r.artifacts, v.versionId).value, v.versionId);
    }
    if Lookup(r.artifacts, v.artifactId, v.versionId).Some? {
      LookupFinds(r.artifacts, r.projectId, v.artifactId, v.versionId, Lookup(r.artifacts, v.artifactId, v.versionId).value);
    }
  }

  lemma ParentIsSource(w: Version, id: Id)
    requires w.parentVersionId == Some(id)
    ensures id in Sources(w, true)
  {
    assert Sources(w, true)[|InputIds(w)|] == id;
  }

  lemma NextNeedsIt(r: Registry, e: Entry, i: nat)
    requires EntriesValid(r.artifacts, r.projectId) && e in r.artifacts && i + 1 < |e.versions|
    ensures !Unneeded(r, e.versions[i])
  {
    var w := e.versions[i + 1];
    ChainMember(e.versions, r.projectId, e.artifactId, i + 1);
    AllVersionsMember(r.artifacts, w);
    ParentIsSource(w, e.versions[i].versionId);
    assert w in AllVersions(r.artifacts);
  }

  lemma UnneededIsLast(r: Registry, v: Version)
    requires RegistryValid(r) && v in AllVersions(r.artifacts) && Unneeded(r, v)
    ensures IsLast(r, v)
  {
    hide Unneeded, Belongs, VersionsValid;
    AllVersionsMember(r.artifacts, v);
    var e :| e in r.artifacts && v in e.versions;
    var i :| 0 <= i < |e.versions| && e.versions[i] == v;
    MemberBelongs(r.artifacts, r.projectId, e, v);
    if i + 1 < |e.versions| { NextNeedsIt(r, e, i); }
  }

  lemma SomeUnneeded(r: Registry) returns (v: Version)
    requires RegistryValid(r) && !Cyclic(Lineage(r)) && r.artifacts != []
    ensures v in AllVersions(r.artifacts) && Unneeded(r, v)
  {
    var versions := AllVersions(r.artifacts);
    var e := r.artifacts[0];
    assert e in r.artifacts && e.versions[0] in e.versions;
    AllVersionsMember(r.artifacts, e.versions[0]);
    GraphAt(versions, e.versions[0], true);
    var n := TopNode(Lineage(r));
    GraphNode(versions, true, n);
    v :| v in versions && v.versionId == n;
    forall w | w in versions ensures v.versionId !in Sources(w, true) { GraphAt(versions, w, true); }
  }

  lemma {:induction false} PutsBuild(r: Registry) returns (inputs: seq<Version>)
    requires RegistryValid(r) && !Cyclic(Lineage(r))
    ensures After(r.projectId, inputs) == r
    decreases |AllVersions(r.artifacts)|
  {
    if r.artifacts == [] {
      inputs := [];
    } else {
      var v := SomeUnneeded(r);
      UnneededIsLast(r, v);
      var r' := Unput(r, v.artifactId);
      UnputValid(r, v);
      UnputGraph(r, v, true);
      UnputVersions(r, v);
      OneMoreMembers(AllVersions(r'.artifacts), AllVersions(r.artifacts), v);
      var earlier := PutsBuild(r');
      UnputCanBePut(r, v);
      AddsIsAccepted(r', v);
      Regrown(r, v);
      inputs := earlier + [v];
      assert inputs[..|earlier|] == earlier;
    }
  }

  /** The accepted registries that puts can build are exactly those whose lineage has no cycle. */
  lemma ReachableIffLineageAcyclic(r: Registry)
    requires RegistryValid(r)
    ensures (exists inputs :: After(r.projectId, inputs) == r) <==> !Cyclic(Lineage(r))
  {
    if inputs :| After(r.projectId, inputs) == r { RunsStayValid(r.projectId, inputs); }
    if !Cyclic(Lineage(r)) { var inputs := PutsBuild(r); }
  }

  // ----------------------- a registry that is accepted but cannot be built

  const A: Id := [65]
  const B: Id := [66]
  const A1: Id := [65, 49]
  const A2: Id := [65, 50]
  const B1: Id := [66, 49]

  function Made(versionId: Id, parent: Option<Id>, artifactId: Id, inputs: seq<InputBinding>): Version {
    Version([], versionId, parent, artifactId, [], [], 0, [], if inputs == [] then [] else [inputs[0].artifactId], inputs, 0, 0)
  }

  /** The first A is made from the first B, which is made from the second A: all at one instant. */
  function Crossed(): Registry {
    var a1 := Made(A1, None, A, [InputBinding(B, B1, [])]);
    var a2 := Made(A2, Some(A1), A, []);
    var b1 := Made(B1, None, B, [InputBinding(A, A2, [])]);
    Registry([], 3, [Entry(A, A2, [a1, a2]), Entry(B, B1, [b1])])
  }

  lemma MadeIsExact(v: Version)
    requires |v.inputArtifactBindings| <= 1 && v.sourceBindings == [] && v.createdAt == v.provenanceAt == v.registeredAt
    requires v.inputArtifactIds == if v.inputArtifactBindings == [] then [] else [v.inputArtifactBindings[0].artifactId]
    ensures IsExact(v)
  {
    assert Sorting.Sort(v.inputArtifactIds, IdKey) == v.inputArtifactIds;
    assert Sorting.Sort(v.inputArtifactBindings, InputKey) == v.inputArtifactBindings;
  }

  lemma CrossedEntries()
    ensures EntriesValid(Crossed().artifacts, [])
  {
    var es := Crossed().artifacts;
    var a1, a2, b1 := es[0].versions[0], es[0].versions[1], es[1].versions[0];
    MadeIsExact(a1);
    MadeIsExact(a2);
    MadeIsExact(b1);
    hide IsExact;
    ChainGrows([], a1, [], A);
    ChainGrows([a1], a2, [], A);
    ChainGrows([], b1, [], B);
    assert [] + [a1] == [a1] && [a1] + [a2] == [a1, a2] && [] + [b1] == [b1];
    assert A1 != A2;
    assert Continues([], a1, [], A) && Continues([a1], a2, [], A) && Continues([], b1, [], B);
    hide Continues, Chain;
    assert EntryValid(es[0], []) && EntryValid(es[1], []);
    assert Sorting.Less(A, B);
  }

  lemma CrossedVersions()
    ensures AllVersions(Crossed().artifacts) == Crossed().artifacts[0].versions + Crossed().artifacts[1].versions
  {
    var es := Crossed().artifacts;
    assert AllVersions(es[1..]) == es[1].versions + AllVersions(es[2..]);
  }

  lemma GraphOfThree(a: Version, b: Version, c: Version, lineage: bool)
    ensures GraphOf([a, b, c], lineage)
            == map[][c.versionId := Sources(c, lineage)][b.versionId := Sources(b, lineage)][a.versionId := Sources(a, lineage)]
  {
    assert [a, b, c][1..] == [b, c] && [b, c][1..] == [c] && [c][1..] == [];
    assert GraphOf([c], lineage) == GraphOf([], lineage)[c.versionId := Sources(c, lineage)];
    assert GraphOf([b, c], lineage) == GraphOf([c], lineage)[b.versionId := Sources(b, lineage)];
  }

  lemma CrossedSources(lineage: bool)
    ensures var es := Crossed().artifacts;
            && Sources(es[0].versions[0], lineage) == [B1] && Sources(es[1].versions[0], lineage) == [A2]
            && Sources(es[0].versions[1], lineage) == if lineage then [A1] else []
  {
  }

  lemma CrossedGraph(lineage: bool)
    ensures GraphOf(AllVersions(Crossed().artifacts), lineage)
            == map[][B1 := [A2]][A2 := if lineage then [A1] else []][A1 := [B1]]
  {
    CrossedVersions();
    var es := Crossed().artifacts;
    assert AllVersions(es) == [es[0].versions[0], es[0].versions[1], es[1].versions[0]];
    CrossedSources(lineage);
    hide AllVersions, GraphOf, Sources;
    GraphOfThree(es[0].versions[0], es[0].versions[1], es[1].versions[0], lineage);
  }

  lemma CrossedInputs()
    ensures forall v <- AllVersions(Crossed().artifacts) :: InputsResolve(Crossed().artifacts, v)
  {
    CrossedVersions();
    CrossedEntries();
    var es := Crossed().artifacts;
    var a1, a2, b1 := es[0].versions[0], es[0].versions[1], es[1].versions[0];
    assert AllVersions(es) == [a1, a2, b1];
    LookupFinds(es, [], B, B1, b1);
    LookupFinds(es, [], A, A2, a2);
    assert a2 in AllVersions(es) && b1 in AllVersions(es);
  }

  /** Normalization checks input edges alone, so it accepts a registry that no sequence of puts can build. */
  lemma AcceptedButNotBuilt()
    ensures RegistryValid(Crossed()) && forall inputs :: After(Crossed().projectId, inputs) != Crossed()
  {
    CrossedEntries();
    CrossedVersions();
    CrossedInputs();
    CrossedGraph(false);
    CrossedGraph(true);
    RankedIsAcyclic(GraphOf(AllVersions(Crossed().artifacts), false), map[A2 := 0, B1 := 1, A1 := 2]);
    assert Cycle(Lineage(Crossed()), [A1, B1, A2, A1]);
    ReachableIffLineageAcyclic(Crossed());
  }
}
