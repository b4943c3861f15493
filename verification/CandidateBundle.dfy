/** The rules of a candidate bundle: the order of its artifacts, the atomic groups and the
    application unit they are spread over, and the mappings of its obligations. */
module CandidateBundle {
  import opened Collections
  import opened Wrappers
  import opened SharedRefs
  import Coverage
  import Completeness

  /** contentAgrees stands for the digest, size, immutability and URI of the content. */
  datatype Artifact = Artifact(id: string, order: int, group: Ref, dependsOn: seq<Ref>, contentAgrees: bool)

  /** modesAgree stands for the fixed apply, rollback, remove and readback modes. */
  datatype AtomicGroup = AtomicGroup(id: string, modesAgree: bool, artifactRefs: seq<Ref>)

  datatype Directive = Directive(id: string, artifactRef: Ref)

  datatype Mapping =
    Mapping(obligation: string, exact: bool, semanticsRefs: seq<Ref>, memberRefs: seq<Ref>, artifactRefs: seq<Ref>,
        directiveRefs: seq<Ref>)

  datatype Step = Step(order: int, digestIsValid: bool)

  /** identityAgrees stands for the digests and the semantics binding of the bundle. */
  datatype Bundle = Bundle(
    id: string, identityAgrees: bool,
    artifacts: seq<Artifact>,
    unitRefs: seq<Ref>, unitModesAgree: bool,
    groups: seq<AtomicGroup>,
    directives: seq<Directive>,
    mappings: seq<Mapping>,
    provenance: seq<Step>)

  function ArtifactId(a: Artifact): string { a.id }
  function GroupId(g: AtomicGroup): string { g.id }
  function DirectiveId(d: Directive): string { d.id }
  function MappingId(m: Mapping): string { m.obligation }

  function ArtifactNames(b: Bundle): set<string> { Elements(Names(b.artifacts, ArtifactId)) }
  function GroupNames(b: Bundle): set<string> { Elements(Names(b.groups, GroupId)) }
  function DirectiveNames(b: Bundle): set<string> { Elements(Names(b.directives, DirectiveId)) }

  // ---- the rules ----

  predicate InListOrder(items: seq<Artifact>) {
    forall i :: 0 <= i < |items| ==> items[i].order == i && items[i].contentAgrees
  }

  /** The list order is the declared order, and the artifacts are those with a content. */
  predicate ArtifactsAreListed(b: Bundle, contents: set<string>) {
    Keyed(b.artifacts, ArtifactId) && b.artifacts != [] &&
    InListOrder(b.artifacts) && ArtifactNames(b) == contents
  }

  /** The application unit names every artifact, once. */
  predicate UnitIsWhole(b: Bundle) {
    b.unitModesAgree && Typed(b.unitRefs, Kind.Artifact, b.id) &&
    Distinct(Ids(b.unitRefs)) && Elements(Ids(b.unitRefs)) == ArtifactNames(b)
  }

  /** All the artifacts listed by the groups, with repeats. */
  function Memberships(groups: seq<AtomicGroup>): multiset<string> {
    if groups == [] then multiset{}
    else Memberships(groups[..|groups| - 1]) + multiset(Ids(groups[|groups| - 1].artifactRefs))
  }

  predicate GroupIsValid(g: AtomicGroup, scope: string, names: set<string>) {
    g.modesAgree && Checked(g.artifactRefs, Kind.Artifact, scope, names)
  }

  predicate AllValid(groups: seq<AtomicGroup>, scope: string, names: set<string>) {
    Keyed(groups, GroupId) && forall k :: 0 <= k < |groups| ==> GroupIsValid(groups[k], scope, names)
  }

  predicate GroupsAreValid(b: Bundle) { AllValid(b.groups, b.id, ArtifactNames(b)) }

  /** The artifact belongs to a group, is listed once by the groups taken together, and
      depends only on artifacts that come before it. */
  predicate ArtifactIsPlaced(b: Bundle, i: nat)
    requires i < |b.artifacts|
  {
    var a := b.artifacts[i];
    a.group.kind == Kind.AtomicGroup && a.group.scope == b.id && a.group.id in GroupNames(b) &&
    Memberships(b.groups)[a.id] == 1 &&
    Checked(a.dependsOn, Kind.Artifact, b.id, ArtifactNames(b)) && DependsOnEarlier(b, i)
  }

  predicate DependsOnEarlier(b: Bundle, i: nat)
    requires i < |b.artifacts|
  {
    forall d :: d in Ids(b.artifacts[i].dependsOn) ==> d in Names(b.artifacts[..i], ArtifactId)
  }

  predicate ArtifactsArePlaced(b: Bundle) { forall i :: 0 <= i < |b.artifacts| ==> ArtifactIsPlaced(b, i) }

  predicate DirectivesAreValid(b: Bundle) {
    Keyed(b.directives, DirectiveId) &&
    forall i :: 0 <= i < |b.directives| ==>
      b.directives[i].artifactRef.kind == Kind.Artifact && b.directives[i].artifactRef.scope == b.id &&
      b.directives[i].artifactRef.id in ArtifactNames(b)
  }

  /** Obligations by name; a repeated name would stand for its last holder. */
  function Obligations(s: Completeness.Semantics): map<string, Completeness.Obligation> {
    IndexOf(s.obligations, Completeness.ObligationId)
  }

  predicate MappingIsExact(b: Bundle, s: Completeness.Semantics, m: Mapping) {
    m.obligation in Obligations(s) && m.exact && m.semanticsRefs == [Obligations(s)[m.obligation].coverage] &&
    MembersAreExact(s, m) && Typed(m.memberRefs, Kind.SourceMember, s.id) &&
    Checked(m.artifactRefs, Kind.Artifact, b.id, ArtifactNames(b)) &&
    Checked(m.directiveRefs, Kind.Directive, b.id, DirectiveNames(b))
  }

  predicate MembersAreExact(s: Completeness.Semantics, m: Mapping)
    requires m.obligation in Obligations(s)
  {
    var o := Coverage.Requirements(Obligations(s)[m.obligation].coverage, Completeness.CoverageOf(s));
    o.Reached? && multiset(Ids(m.memberRefs)) == multiset(o.members)
  }

  predicate MappingsAreExact(b: Bundle, s: Completeness.Semantics) {
    Distinct(Names(b.mappings, MappingId)) &&
    (forall i :: 0 <= i < |b.mappings| ==> MappingIsExact(b, s, b.mappings[i])) &&
    Elements(Names(b.mappings, MappingId)) == Obligations(s).Keys
  }

  predicate ProvenanceIsOrdered(b: Bundle) {
    b.provenance != [] && forall i :: 0 <= i < |b.provenance| ==>
        b.provenance[i].order == i && b.provenance[i].digestIsValid
  }

  predicate Accepted(b: Bundle, contents: set<string>, s: Completeness.Semantics) {
    b.identityAgrees && ArtifactsAreListed(b, contents) && UnitIsWhole(b) && GroupsAreValid(b) &&
        ArtifactsArePlaced(b) &&
    DirectivesAreValid(b) && MappingsAreExact(b, s) && ProvenanceIsOrdered(b)
  }

  // ---- the loops ----

  lemma NextArtifact(items: seq<Artifact>, i: nat)
    requires i < |items| && Keyed(items[..i], ArtifactId) && InListOrder(items[..i])
    requires items[i].id != "" && items[i].id !in Elements(Names(items[..i], ArtifactId)) && items[i].order == i &&
            items[i].contentAgrees
    ensures Keyed(items[..i + 1], ArtifactId) && InListOrder(items[..i + 1])
    ensures IndexOf(items[..i + 1], ArtifactId) == IndexOf(items[..i], ArtifactId)[items[i].id := items[i]]
    ensures Elements(Names(items[..i + 1], ArtifactId)) == Elements(Names(items[..i], ArtifactId)) + {items[i].id}
  {
    NextKeyed(items, ArtifactId, i);
    NextIndexed(items, ArtifactId, i);
  }

  lemma RepeatedArtifact(items: seq<Artifact>, i: nat)
    requires i < |items| && (items[i].id == "" || items[i].id in Elements(Names(items[..i], ArtifactId)))
    ensures !Keyed(items, ArtifactId)
  {
    RepeatedKey(items, ArtifactId, i);
  }

  /** The loop over the artifacts in order. */
  method ScanArtifacts(items: seq<Artifact>, contents: set<string>) returns (index: Option<map<string, Artifact>>)
    ensures index.Some? <==>
            Keyed(items, ArtifactId) && InListOrder(items) && Elements(Names(items, ArtifactId)) <= contents
    ensures index.Some? ==> index.value == IndexOf(items, ArtifactId)
  {
    var artifacts: map<string, Artifact> := map[];
    for i := 0 to |items|
      invariant Keyed(items[..i], ArtifactId) && InListOrder(items[..i])
      invariant artifacts == IndexOf(items[..i], ArtifactId)
      invariant Elements(Names(items[..i], ArtifactId)) <= contents
    {
      var a := items[i];
      IndexedNames(items[..i], ArtifactId);
      if a.id == "" || a.id in artifacts {
        RepeatedArtifact(items, i);
        return None;
      }
      if a.order != i || a.id !in contents || !a.contentAgrees {
        assert Names(items, ArtifactId)[i] in Elements(Names(items, ArtifactId));
        return None;
      }
      NextArtifact(items, i);
      artifacts := artifacts[a.id := a];
    }
    assert items[..|items|] == items;
    return Some(artifacts);
  }

  /** As many artifacts as contents. */
  method ListArtifacts(b: Bundle, contents: set<string>) returns (index: Option<map<string, Artifact>>)
    ensures index.Some? <==> ArtifactsAreListed(b, contents)
    ensures index.Some? ==> index.value == IndexOf(b.artifacts, ArtifactId)
  {
    index := ScanArtifacts(b.artifacts, contents);
    if index.Some? {
      IndexedNames(b.artifacts, ArtifactId);
      IndexSize(b.artifacts, ArtifactId);
      if |index.value| == 0 || |index.value| != |contents| {
        return None;
      }
      SubsetOfEqualSize(index.value.Keys, contents);
    }
  }

  method CheckUnit(b: Bundle, names: set<string>) returns (ok: bool)
    requires names == ArtifactNames(b)
    ensures ok <==> UnitIsWhole(b)
  {
    var ids := CheckedRefs(b.unitRefs, Kind.Artifact, b.id, names);
    if ids.None? {
      return false;
    }
    var all := Keys(names);
    var same := SameStringSet(ids.value, all);
    ListsASet(ids.value, names);
    return same && b.unitModesAgree;
  }

  predicate Counts(memberships: map<string, int>, listed: multiset<string>) {
    (forall v :: v in memberships ==> memberships[v] == listed[v]) && forall v :: v in listed ==> v in memberships
  }

  /** memberships[id]++ over one group's list. */
  method CountMembers(ids: seq<string>, memberships: map<string, int>, ghost listed: multiset<string>)
    returns (after: map<string, int>)
    requires Counts(memberships, listed)
    ensures Counts(after, listed + multiset(ids))
  {
    after := memberships;
    for i := 0 to |ids|
      invariant Counts(after, listed + multiset(ids[..i]))
    {
      Extend(ids, i);
      CountOne(after, listed + multiset(ids[..i]), ids[i]);
      after := after[ids[i] := Count(after, ids[i]) + 1];
      assert listed + multiset(ids[..i + 1]) == listed + multiset(ids[..i]) + multiset{ids[i]};
    }
    assert ids[..|ids|] == ids;
  }

  lemma CountOne(memberships: map<string, int>, listed: multiset<string>, x: string)
    requires Counts(memberships, listed)
    ensures Counts(memberships[x := Count(memberships, x) + 1], listed + multiset{x})
  {
  }

  lemma NextGroup(groups: seq<AtomicGroup>, k: nat, scope: string, names: set<string>)
    requires k < |groups| && AllValid(groups[..k], scope, names) && GroupIsValid(groups[k], scope, names)
    requires groups[k].id != "" && groups[k].id !in Elements(Names(groups[..k], GroupId))
    ensures AllValid(groups[..k + 1], scope, names)
    ensures Elements(Names(groups[..k + 1], GroupId)) == Elements(Names(groups[..k], GroupId)) + {groups[k].id}
    ensures Memberships(groups[..k + 1]) == Memberships(groups[..k]) + multiset(Ids(groups[k].artifactRefs))
  {
    NextKeyed(groups, GroupId, k);
    assert groups[..k + 1][..k] == groups[..k];
  }

  lemma RepeatedGroup(groups: seq<AtomicGroup>, k: nat)
    requires k < |groups| && (groups[k].id == "" || groups[k].id in Elements(Names(groups[..k], GroupId)))
    ensures !Keyed(groups, GroupId)
  {
    RepeatedKey(groups, GroupId, k);
  }

  method CheckGroup(g: AtomicGroup, scope: string, names: set<string>, memberships: map<string, int>,
                    ghost listed: multiset<string>)
    returns (ok: bool, after: map<string, int>)
    requires Counts(memberships, listed)
    ensures ok <==> GroupIsValid(g, scope, names)
    ensures ok ==> Counts(after, listed + multiset(Ids(g.artifactRefs)))
  {
    if !g.modesAgree {
      return false, memberships;
    }
    var ids := CheckedRefs(g.artifactRefs, Kind.Artifact, scope, names);
    if ids.None? {
      return false, memberships;
    }
    after := CountMembers(ids.value, memberships, listed);
    ok := true;
  }

  method ScanGroups(groups: seq<AtomicGroup>, scope: string, names: set<string>)
    returns (found: Option<set<string>>, memberships: map<string, int>)
    ensures found.Some? <==> AllValid(groups, scope, names)
    ensures found.Some? ==> found.value == Elements(Names(groups, GroupId)) && Counts(memberships, Memberships(groups))
  {
    var seen: set<string> := {};
    memberships := map[];
    ghost var listed := multiset{};
    for k := 0 to |groups|
      invariant AllValid(groups[..k], scope, names) && seen == Elements(Names(groups[..k], GroupId))
      invariant listed == Memberships(groups[..k]) && Counts(memberships, listed)
    {
      var g := groups[k];
      if g.id == "" || g.id in seen {
        RepeatedGroup(groups, k);
        return None, memberships;
      }
      var ok, after := CheckGroup(g, scope, names, memberships, listed);
      if !ok {
        return None, memberships;
      }
      NextGroup(groups, k, scope, names);
      memberships, seen, listed := after, seen + {g.id}, listed + multiset(Ids(g.artifactRefs));
    }
    assert groups[..|groups|] == groups;
    return Some(seen), memberships;
  }

  /** Where the order is the position, an earlier order is an earlier place in the list. */
  lemma OrderIsPosition(items: seq<Artifact>, d: string, i: nat)
    requires Keyed(items, ArtifactId) && InListOrder(items) && i < |items| && d in IndexOf(items, ArtifactId)
    ensures IndexOf(items, ArtifactId)[d].order < i <==> d in Names(items[..i], ArtifactId)
  {
    IndexedNames(items, ArtifactId);
    var j :| 0 <= j < |items| && Names(items, ArtifactId)[j] == d;
    IndexHolds(items, ArtifactId, j);
    if j < i {
      assert Names(items[..i], ArtifactId)[j] == d;
    }
  }

  /** The comparison of orders over one artifact's dependencies. */
  method CheckDependencies(b: Bundle, index: map<string, Artifact>, i: nat, dependencies: seq<string>)
    returns (ok: bool)
    requires Keyed(b.artifacts, ArtifactId) && InListOrder(b.artifacts) && index == IndexOf(b.artifacts, ArtifactId)
    requires i < |b.artifacts| && dependencies == Ids(b.artifacts[i].dependsOn) &&
            Elements(dependencies) <= ArtifactNames(b)
    ensures ok <==> DependsOnEarlier(b, i)
  {
    IndexedNames(b.artifacts, ArtifactId);
    for k := 0 to |dependencies|
      invariant forall j :: 0 <= j < k ==> dependencies[j] in Names(b.artifacts[..i], ArtifactId)
    {
      assert dependencies[k] in Elements(dependencies);
      OrderIsPosition(b.artifacts, dependencies[k], i);
      if index[dependencies[k]].order >= b.artifacts[i].order {
        assert dependencies[k] in Ids(b.artifacts[i].dependsOn);
        return false;
      }
    }
    return true;
  }

  lemma CountIsMembership(memberships: map<string, int>, listed: multiset<string>, v: string)
    requires Counts(memberships, listed)
    ensures Count(memberships, v) == listed[v]
  {
  }

  method CheckPlacement(b: Bundle, index: map<string, Artifact>, names: set<string>, groups: set<string>,
                        memberships: map<string, int>, i: nat)
    returns (ok: bool)
    requires Keyed(b.artifacts, ArtifactId) && InListOrder(b.artifacts) && index == IndexOf(b.artifacts, ArtifactId)
    requires names == ArtifactNames(b) && groups == GroupNames(b) && Counts(memberships, Memberships(b.groups)) &&
            i < |b.artifacts|
    ensures ok <==> ArtifactIsPlaced(b, i)
  {
    var a := b.artifacts[i];
    CountIsMembership(memberships, Memberships(b.groups), a.id);
    if a.group.id !in groups || a.group.kind != Kind.AtomicGroup || a.group.scope != b.id ||
        Count(memberships, a.id) != 1 {
      return false;
    }
    var dependencies := CheckedRefs(a.dependsOn, Kind.Artifact, b.id, names);
    if dependencies.None? {
      return false;
    }
    ok := CheckDependencies(b, index, i, dependencies.value);
  }

  method CheckPlacements(b: Bundle, index: map<string, Artifact>, names: set<string>, groups: set<string>,
                         memberships: map<string, int>)
    returns (ok: bool)
    requires Keyed(b.artifacts, ArtifactId) && InListOrder(b.artifacts) && index == IndexOf(b.artifacts, ArtifactId)
    requires names == ArtifactNames(b) && groups == GroupNames(b) && Counts(memberships, Memberships(b.groups))
    ensures ok <==> ArtifactsArePlaced(b)
  {
    for i := 0 to |b.artifacts|
      invariant forall j :: 0 <= j < i ==> ArtifactIsPlaced(b, j)
    {
      var placed := CheckPlacement(b, index, names, groups, memberships, i);
      if !placed {
        return false;
      }
    }
    return true;
  }

  method CheckDirectives(b: Bundle, names: set<string>) returns (directives: Option<map<string, Directive>>)
    requires names == ArtifactNames(b)
    ensures directives.Some? <==> DirectivesAreValid(b)
    ensures directives.Some? ==> directives.value.Keys == DirectiveNames(b)
  {
    directives := Index(b.directives, DirectiveId);
    IndexedNames(b.directives, DirectiveId);
    for i := 0 to |b.directives|
      invariant forall j :: 0 <= j < i ==>
        b.directives[j].artifactRef.kind == Kind.Artifact && b.directives[j].artifactRef.scope == b.id &&
            b.directives[j].artifactRef.id in names
    {
      var ref := b.directives[i].artifactRef;
      if ref.id !in names || ref.kind != Kind.Artifact || ref.scope != b.id {
        return None;
      }
    }
  }

  method CheckMapping(b: Bundle, s: Completeness.Semantics, names: set<string>, directives: set<string>, m: Mapping)
    returns (ok: bool)
    requires names == ArtifactNames(b) && directives == DirectiveNames(b)
    ensures ok <==> MappingIsExact(b, s, m)
  {
    var obligations := Obligations(s);
    if m.obligation !in obligations || !m.exact || |m.semanticsRefs| != 1 ||
        m.semanticsRefs[0] != obligations[m.obligation].coverage {
      return false;
    }
    var expected := Coverage.CoverageRequirements(obligations[m.obligation].coverage, Completeness.CoverageOf(s));
    if expected.Refused? {
      return false;
    }
    var same := SameStringSet(Ids(m.memberRefs), expected.members);
    if !same {
      return false;
    }
    var typed := AllTyped(m.memberRefs, Kind.SourceMember, s.id);
    var artifacts := CheckedRefs(m.artifactRefs, Kind.Artifact, b.id, names);
    var used := CheckedRefs(m.directiveRefs, Kind.Directive, b.id, directives);
    return typed && artifacts.Some? && used.Some?;
  }

  method AllTyped(refs: seq<Ref>, kind: Kind, scope: string) returns (ok: bool)
    ensures ok <==> Typed(refs, kind, scope)
  {
    for i := 0 to |refs|
      invariant forall j :: 0 <= j < i ==> refs[j].kind == kind && refs[j].scope == scope
    {
      if refs[i].kind != kind || refs[i].scope != scope {
        return false;
      }
    }
    return true;
  }

  lemma NamesGrow(ms: seq<Mapping>, i: nat)
    requires i < |ms|
    ensures Names(ms[..i + 1], MappingId) == Names(ms[..i], MappingId) + [ms[i].obligation]
    ensures Elements(Names(ms[..i + 1], MappingId)) == Elements(Names(ms[..i], MappingId)) + {ms[i].obligation}
  {
    assert ms[..i + 1][..i] == ms[..i];
    NamesOfPrefix(ms[..i + 1], MappingId);
  }

  lemma RepeatedMapping(ms: seq<Mapping>, i: nat)
    requires i < |ms| && ms[i].obligation in Names(ms[..i], MappingId)
    ensures !Distinct(Names(ms, MappingId))
  {
    var j :| 0 <= j < i && Names(ms[..i], MappingId)[j] == ms[i].obligation;
    assert Names(ms, MappingId)[j] == Names(ms, MappingId)[i];
  }

  predicate AllExact(b: Bundle, s: Completeness.Semantics, ms: seq<Mapping>) {
    forall i :: 0 <= i < |ms| ==> MappingIsExact(b, s, ms[i])
  }

  method ScanMappings(b: Bundle, s: Completeness.Semantics, names: set<string>, directives: set<string>,
                      ms: seq<Mapping>)
    returns (seen: Option<set<string>>)
    requires names == ArtifactNames(b) && directives == DirectiveNames(b)
    ensures seen.Some? <==> Distinct(Names(ms, MappingId)) && AllExact(b, s, ms)
    ensures seen.Some? ==> seen.value == Elements(Names(ms, MappingId)) && seen.value <= Obligations(s).Keys
  {
    var mapped: set<string> := {};
    for i := 0 to |ms|
      invariant Distinct(Names(ms[..i], MappingId)) && mapped == Elements(Names(ms[..i], MappingId))
      invariant AllExact(b, s, ms[..i]) && mapped <= Obligations(s).Keys
    {
      var m := ms[i];
      if m.obligation in mapped {
        RepeatedMapping(ms, i);
        return None;
      }
      var exact := CheckMapping(b, s, names, directives, m);
      if !exact {
        return None;
      }
      NamesGrow(ms, i);
      DistinctExtend(Names(ms[..i], MappingId), m.obligation);
      mapped := mapped + {m.obligation};
    }
    assert ms[..|ms|] == ms;
    return Some(mapped);
  }

  /** As many obligations mapped as there are. */
  method CheckMappings(b: Bundle, s: Completeness.Semantics, names: set<string>, directives: set<string>)
    returns (ok: bool)
    requires names == ArtifactNames(b) && directives == DirectiveNames(b)
    ensures ok <==> MappingsAreExact(b, s)
  {
    var seen := ScanMappings(b, s, names, directives, b.mappings);
    if seen.None? || |seen.value| != |Obligations(s)| {
      return false;
    }
    SubsetOfEqualSize(seen.value, Obligations(s).Keys);
    return true;
  }

  method CheckProvenance(b: Bundle) returns (ok: bool)
    ensures ok <==> ProvenanceIsOrdered(b)
  {
    for i := 0 to |b.provenance|
      invariant forall j :: 0 <= j < i ==> b.provenance[j].order == j && b.provenance[j].digestIsValid
    {
      if b.provenance[i].order != i || !b.provenance[i].digestIsValid {
        return false;
      }
    }
    return b.provenance != [];
  }

  /** validateSharedBundle: it accepts exactly the bundles that keep every rule. */
  method ValidateBundle(b: Bundle, contents: set<string>, s: Completeness.Semantics) returns (ok: bool)
    ensures ok <==> Accepted(b, contents, s)
  {
    if !b.identityAgrees {
      return false;
    }
    var index := ListArtifacts(b, contents);
    if index.None? {
      return false;
    }
    var names := ArtifactNames(b);
    var unit := CheckUnit(b, names);
    if !unit {
      return false;
    }
    var groups, memberships := ScanGroups(b.groups, b.id, names);
    if groups.None? {
      return false;
    }
    var placed := CheckPlacements(b, index.value, names, groups.value, memberships);
    if !placed {
      return false;
    }
    var directives := CheckDirectives(b, names);
    if directives.None? {
      return false;
    }
    var mapped := CheckMappings(b, s, names, directives.value.Keys);
    if !mapped {
      return false;
    }
    ok := CheckProvenance(b);
  }

  // ---- what acceptance means ----

  /** Artifact i names artifact j among its dependencies. */
  predicate DependsOn(b: Bundle, i: nat, j: nat) {
    i < |b.artifacts| && j < |b.artifacts| && b.artifacts[j].id in Ids(b.artifacts[i].dependsOn)
  }

  /** The list is a topological order: a dependency stands earlier... */
  lemma DependenciesComeFirst(b: Bundle, i: nat, j: nat)
    requires Keyed(b.artifacts, ArtifactId) && ArtifactsArePlaced(b) && DependsOn(b, i, j)
    ensures j < i
  {
    assert ArtifactIsPlaced(b, i);
    var d := b.artifacts[j].id;
    var k :| 0 <= k < i && Names(b.artifacts[..i], ArtifactId)[k] == d;
    assert b.artifacts[k].id == d;
  }

  predicate DependencyChain(b: Bundle, chain: seq<nat>) {
    forall k :: 0 <= k < |chain| - 1 ==> DependsOn(b, chain[k], chain[k + 1])
  }

  /** ... so no chain of dependencies, however long, comes back to where it started. */
  lemma {:induction false} DependenciesAreAcyclic(b: Bundle, contents: set<string>, s: Completeness.Semantics,
                                                  chain: seq<nat>)
    requires Accepted(b, contents, s) && |chain| > 1 && DependencyChain(b, chain)
    ensures chain[|chain| - 1] < chain[0]
  {
    assert DependsOn(b, chain[0], chain[1]);
    DependenciesComeFirst(b, chain[0], chain[1]);
    if |chain| > 2 {
      forall k | 0 <= k < |chain[1..]| - 1 ensures DependsOn(b, chain[1..][k], chain[1..][k + 1]) {
        var l := k + 1;
        assert DependsOn(b, chain[l], chain[l + 1]);
      }
      DependenciesAreAcyclic(b, contents, s, chain[1..]);
    }
  }

  predicate Lists(g: AtomicGroup, id: string) { id in Ids(g.artifactRefs) }

  lemma LastMembership(groups: seq<AtomicGroup>, id: string)
    requires groups != []
    ensures var n := |groups| - 1;
            Memberships(groups)[id] >= Memberships(groups[..n])[id] + (if Lists(groups[n], id) then 1 else 0)
  {
  }

  lemma {:induction false} ListedOnce(groups: seq<AtomicGroup>, id: string, k: nat)
    requires k < |groups| && Lists(groups[k], id)
    ensures Memberships(groups)[id] >= 1
  {
    LastMembership(groups, id);
    if k < |groups| - 1 {
      ListedOnce(groups[..|groups| - 1], id, k);
    }
  }

  lemma {:induction false} ListedTwice(groups: seq<AtomicGroup>, id: string, k: nat, l: nat)
    requires k < l < |groups| && Lists(groups[k], id) && Lists(groups[l], id)
    ensures Memberships(groups)[id] >= 2
  {
    var before := groups[..|groups| - 1];
    LastMembership(groups, id);
    if l < |groups| - 1 {
      ListedTwice(before, id, k, l);
    } else {
      ListedOnce(before, id, k);
    }
  }

  lemma {:induction false} MemberSomewhere(groups: seq<AtomicGroup>, id: string) returns (k: nat)
    requires Memberships(groups)[id] > 0
    ensures k < |groups| && Lists(groups[k], id)
  {
    k := |groups| - 1;
    if !Lists(groups[k], id) {
      k := MemberSomewhere(groups[..k], id);
    }
  }

  /** The atomic groups partition the artifacts: each one is in exactly one group. */
  lemma GroupsPartitionTheArtifacts(b: Bundle, contents: set<string>, s: Completeness.Semantics, i: nat)
    returns (k: nat)
    requires Accepted(b, contents, s) && i < |b.artifacts|
    ensures k < |b.groups| && Lists(b.groups[k], b.artifacts[i].id)
    ensures forall l :: 0 <= l < |b.groups| && Lists(b.groups[l], b.artifacts[i].id) ==> l == k
  {
    assert ArtifactIsPlaced(b, i);
    var id := b.artifacts[i].id;
    k := MemberSomewhere(b.groups, id);
    forall l | 0 <= l < |b.groups| && Lists(b.groups[l], id) ensures l == k {
      if k < l {
        ListedTwice(b.groups, id, k, l);
      } else if l < k {
        ListedTwice(b.groups, id, l, k);
      }
    }
  }

  /** Every obligation has its mapping, only one, and the members it names are exactly
      those that the obligation's coverage reference reaches, each once. */
  lemma MappingsMatchObligations(b: Bundle, contents: set<string>, s: Completeness.Semantics, o: string)
    returns (i: nat)
    requires Accepted(b, contents, s) && o in Obligations(s)
    ensures i < |b.mappings| && b.mappings[i].obligation == o
    ensures forall j :: 0 <= j < |b.mappings| && b.mappings[j].obligation == o ==> j == i
    ensures Distinct(Ids(b.mappings[i].memberRefs))
    ensures forall x :: x in Ids(b.mappings[i].memberRefs) <==>
              Coverage.Covers(Coverage.GraphOf(Completeness.CoverageOf(s)), Obligations(s)[o].coverage, x, false)
  {
    i :| 0 <= i < |b.mappings| && Names(b.mappings, MappingId)[i] == o;
    assert forall j :: 0 <= j < |b.mappings| ==> Names(b.mappings, MappingId)[j] == b.mappings[j].obligation;
    MappedMembers(b, s, b.mappings[i]);
  }

  lemma MappedMembers(b: Bundle, s: Completeness.Semantics, m: Mapping)
    requires MappingIsExact(b, s, m)
    ensures Distinct(Ids(m.memberRefs))
    ensures forall x :: x in Ids(m.memberRefs) <==>
              Coverage.Covers(Coverage.GraphOf(Completeness.CoverageOf(s)), Obligations(s)[m.obligation].coverage, x,
                  false)
  {
    var root, d := Obligations(s)[m.obligation].coverage, Completeness.CoverageOf(s);
    Coverage.RequirementsAreTheClosure(root, d);
    ListsASet(Ids(m.memberRefs), Coverage.Requirements(root, d).members);
  }

  // ---- the group an artifact names ----

  /** The group each artifact names is one that lists it. */
  predicate NamedGroupsList(b: Bundle) {
    forall i, k :: 0 <= i < |b.artifacts| && 0 <= k < |b.groups| && b.groups[k].id == b.artifacts[i].group.id ==>
      Lists(b.groups[k], b.artifacts[i].id)
  }

  /** Every group lists only artifacts that name it: the comparison the validator leaves out. */
  predicate ListedArtifactsName(b: Bundle) {
    forall i, k :: 0 <= i < |b.artifacts| && 0 <= k < |b.groups| && Lists(b.groups[k], b.artifacts[i].id) ==>
      b.groups[k].id == b.artifacts[i].group.id
  }

  /** Acceptance does not tie the group an artifact names to the group that lists it; the
      two agree exactly when a caller also compares each group's list with the names. */
  lemma GroupsAgreeWhenCompared(b: Bundle, contents: set<string>, s: Completeness.Semantics)
    requires Accepted(b, contents, s)
    ensures NamedGroupsList(b) <==> ListedArtifactsName(b)
  {
    forall i, k | 0 <= i < |b.artifacts| && 0 <= k < |b.groups|
      ensures NamedGroupsList(b) && Lists(b.groups[k], b.artifacts[i].id) ==> b.groups[k].id == b.artifacts[i].group.id
      ensures ListedArtifactsName(b) && b.groups[k].id == b.artifacts[i].group.id ==>
              Lists(b.groups[k], b.artifacts[i].id)
    {
      OneGroup(b, contents, s, i, k);
    }
  }

  lemma OneGroup(b: Bundle, contents: set<string>, s: Completeness.Semantics, i: nat, k: nat)
    requires Accepted(b, contents, s) && i < |b.artifacts| && k < |b.groups|
    ensures NamedGroupsList(b) && Lists(b.groups[k], b.artifacts[i].id) ==> b.groups[k].id == b.artifacts[i].group.id
    ensures ListedArtifactsName(b) && b.groups[k].id == b.artifacts[i].group.id ==>
            Lists(b.groups[k], b.artifacts[i].id)
  {
    var home := GroupsPartitionTheArtifacts(b, contents, s, i);
    var named := NamedGroup(b, i);
  }

  lemma NamedGroup(b: Bundle, i: nat) returns (k: nat)
    requires ArtifactsArePlaced(b) && i < |b.artifacts|
    ensures k < |b.groups| && b.groups[k].id == b.artifacts[i].group.id
  {
    assert ArtifactIsPlaced(b, i);
    k :| 0 <= k < |b.groups| && Names(b.groups, GroupId)[k] == b.artifacts[i].group.id;
  }

  /** The bundle with its artifacts naming other groups. */
  function Naming(b: Bundle, names: seq<string>): Bundle
    requires |names| == |b.artifacts|
  {
    b.(artifacts := seq(|b.artifacts|, i requires 0 <= i < |b.artifacts| =>
      b.artifacts[i].(group := b.artifacts[i].group.(id := names[i]))))
  }

  lemma NamingKeepsNames(b: Bundle, names: seq<string>, n: nat)
    requires |names| == |b.artifacts| && n <= |b.artifacts|
    ensures Names(Naming(b, names).artifacts[..n], ArtifactId) == Names(b.artifacts[..n], ArtifactId)
    ensures Names(Naming(b, names).artifacts, ArtifactId) == Names(b.artifacts, ArtifactId)
  {
  }

  lemma NamingKeepsOrder(b: Bundle, contents: set<string>, names: seq<string>)
    requires |names| == |b.artifacts| && ArtifactsAreListed(b, contents)
    ensures ArtifactsAreListed(Naming(b, names), contents)
  {
    NamingKeepsNames(b, names, 0);
  }

  lemma NamingKeepsPlaces(b: Bundle, names: seq<string>, i: nat)
    requires |names| == |b.artifacts| && i < |b.artifacts| && ArtifactIsPlaced(b, i) && names[i] in GroupNames(b)
    ensures ArtifactIsPlaced(Naming(b, names), i)
  {
    NamingKeepsNames(b, names, i);
    var c := Naming(b, names);
    assert ArtifactNames(c) == ArtifactNames(b) && c.groups == b.groups && GroupNames(c) == GroupNames(b);
  }

  /** The validator accepts whatever groups the artifacts name, as long as there are such
      groups. */
  lemma NamingIsAccepted(b: Bundle, contents: set<string>, s: Completeness.Semantics, names: seq<string>)
    requires Accepted(b, contents, s) && |names| == |b.artifacts|
    requires forall i :: 0 <= i < |names| ==> names[i] in GroupNames(b)
    ensures Accepted(Naming(b, names), contents, s)
  {
    var c := Naming(b, names);
    NamingKeepsNames(b, names, 0);
    NamingKeepsOrder(b, contents, names);
    assert ArtifactNames(c) == ArtifactNames(b) && DirectiveNames(c) == DirectiveNames(b);
    forall i | 0 <= i < |c.artifacts| ensures ArtifactIsPlaced(c, i) {
      assert ArtifactIsPlaced(b, i);
      NamingKeepsPlaces(b, names, i);
    }
    forall k | 0 <= k < |c.mappings| ensures MappingIsExact(c, s, c.mappings[k]) {
      assert MappingIsExact(b, s, b.mappings[k]);
    }
  }

  lemma OneGroupIsNamed(b: Bundle, contents: set<string>, s: Completeness.Semantics)
    requires Accepted(b, contents, s) && |b.groups| == 1
    ensures NamedGroupsList(b)
  {
    forall i, k | 0 <= i < |b.artifacts| && 0 <= k < |b.groups| ensures Lists(b.groups[k], b.artifacts[i].id) {
      var home := GroupsPartitionTheArtifacts(b, contents, s, i);
    }
  }

  /** Another group than the one that lists the first artifact, named by all. */
  lemma NameAnotherGroup(b: Bundle, contents: set<string>, s: Completeness.Semantics) returns (names: seq<string>)
    requires Accepted(b, contents, s) && |b.groups| > 1
    ensures |names| == |b.artifacts| && Accepted(Naming(b, names), contents, s)
    ensures !NamedGroupsList(Naming(b, names))
  {
    var home := GroupsPartitionTheArtifacts(b, contents, s, 0);
    var other := if home == 0 then 1 else 0;
    names := seq(|b.artifacts|, i => b.groups[other].id);
    assert Names(b.groups, GroupId)[other] in GroupNames(b);
    NamingIsAccepted(b, contents, s, names);
    var c := Naming(b, names);
    assert c.groups[other].id == c.artifacts[0].group.id && !Lists(c.groups[other], c.artifacts[0].id);
  }

  /** Acceptance makes sure that the groups the artifacts name list them, whatever groups
      they name, exactly when the bundle has one group. */
  lemma OneGroupEnsuresAgreement(b: Bundle, contents: set<string>, s: Completeness.Semantics)
    requires Accepted(b, contents, s)
    ensures |b.groups| == 1 <==>
            forall names :: |names| == |b.artifacts| && Accepted(Naming(b, names), contents, s) ==>
              NamedGroupsList(Naming(b, names))
  {
    var any := NamedGroup(b, 0);
    if |b.groups| == 1 {
      forall names | |names| == |b.artifacts| && Accepted(Naming(b, names), contents, s)
        ensures NamedGroupsList(Naming(b, names))
      {
        OneGroupIsNamed(Naming(b, names), contents, s);
      }
    } else {
      var names := NameAnotherGroup(b, contents, s);
    }
  }

  /** What the bundle schema asks of the fields modelled here. */
  predicate SchemaShaped(b: Bundle) {
    StableId(b.id) && b.artifacts != [] && b.unitRefs != [] && b.mappings != [] && b.provenance != [] &&
        StableRefs(b.unitRefs) &&
    (forall i :: 0 <= i < |b.artifacts| ==> ArtifactIsShaped(b.artifacts[i])) &&
    (forall k :: 0 <= k < |b.groups| ==> GroupIsShaped(b.groups[k])) &&
    (forall i :: 0 <= i < |b.directives| ==> StableId(b.directives[i].id)) &&
    (forall i :: 0 <= i < |b.directives| ==> StableRefs([b.directives[i].artifactRef])) &&
    (forall i :: 0 <= i < |b.mappings| ==> MappingIsShaped(b.mappings[i]))
  }

  predicate ArtifactIsShaped(a: Artifact) {
    StableId(a.id) && a.order >= 0 && StableRefs([a.group]) && StableRefs(a.dependsOn)
  }

  /** An atomic group lists at least two artifacts. */
  predicate GroupIsShaped(g: AtomicGroup) { StableId(g.id) && |g.artifactRefs| >= 2 && StableRefs(g.artifactRefs) }

  predicate MappingIsShaped(m: Mapping) {
    StableId(m.obligation) && m.semanticsRefs != [] && m.memberRefs != [] && m.artifactRefs != [] &&
    StableRefs(m.semanticsRefs) && StableRefs(m.memberRefs) && StableRefs(m.artifactRefs) && StableRefs(m.directiveRefs)
  }

  /** The groups are disjoint, so two of them with two artifacts each take four. */
  lemma TwoGroupsNeedFourArtifacts(b: Bundle, contents: set<string>, s: Completeness.Semantics, k: nat, l: nat)
    requires Accepted(b, contents, s) && k < |b.groups| && l < |b.groups| && k != l
    requires |b.groups[k].artifactRefs| >= 2 && |b.groups[l].artifactRefs| >= 2
    ensures |b.artifacts| >= 4
  {
    var p, q := Elements(Ids(b.groups[k].artifactRefs)), Elements(Ids(b.groups[l].artifactRefs));
    assert GroupIsValid(b.groups[k], b.id, ArtifactNames(b)) && GroupIsValid(b.groups[l], b.id, ArtifactNames(b));
    DistinctSize(Ids(b.groups[k].artifactRefs));
    DistinctSize(Ids(b.groups[l].artifactRefs));
    forall x | x in p ensures x !in q {
      var i :| 0 <= i < |b.artifacts| && Names(b.artifacts, ArtifactId)[i] == x;
      var home := GroupsPartitionTheArtifacts(b, contents, s, i);
    }
    assert |p + q| == |p| + |q| && p + q <= ArtifactNames(b);
    SubsetIsSmaller(p + q, ArtifactNames(b));
    KeyedNamesAreDistinct(b);
    DistinctSize(Names(b.artifacts, ArtifactId));
  }

  lemma KeyedNamesAreDistinct(b: Bundle)
    requires Keyed(b.artifacts, ArtifactId)
    ensures Distinct(Names(b.artifacts, ArtifactId))
  {
  }

  /** With fewer than four artifacts there is one group, and the group every artifact
      names lists it. An application unit has two (ApplicationUnit.UnitIsTwoArtifacts). */
  lemma FewArtifactsShareTheirGroup(b: Bundle, contents: set<string>, s: Completeness.Semantics)
    requires Accepted(b, contents, s) && |b.artifacts| < 4
    requires forall k :: 0 <= k < |b.groups| ==> |b.groups[k].artifactRefs| >= 2
    ensures |b.groups| == 1 && NamedGroupsList(b)
  {
    if |b.groups| > 1 {
      TwoGroupsNeedFourArtifacts(b, contents, s, 0, 1);
    }
    var any := NamedGroup(b, 0);
    OneGroupIsNamed(b, contents, s);
  }

  // From four artifacts on it can be otherwise: two groups, each listing the artifacts
  // that name the other.

  function Part(id: string, order: int, group: string): Artifact {
    Artifact.Artifact(id, order, Ref(Kind.AtomicGroup, "bundle", group), [], true)
  }

  function To(id: string): Ref { Ref(Kind.Artifact, "bundle", id) }

  function Crossed(): Bundle {
    Bundle("bundle", true,
           [Part("a", 0, "g"), Part("b", 1, "g"), Part("c", 2, "h"), Part("d", 3, "h")],
           [To("a"), To("b"), To("c"), To("d")], true,
           [AtomicGroup.AtomicGroup("g", true, [To("c"), To("d")]),
               AtomicGroup.AtomicGroup("h", true, [To("a"), To("b")])],
           [],
           [Mapping("duty", true, [COMPONENT], [MEMBER], [To("a")], [])],
           [Step(0, true)])
  }

  const COMPONENT := Ref(Kind.Component, "semantics", "part")
  const MEMBER := Ref(Kind.SourceMember, "semantics", "member")
  const INPUT := Ref(Kind.TestInput, "semantics", "input")

  const SOURCE := Ref(Kind.SourceArtifact, "semantics", "source")

  /** A semantics document with one obligation over one component... */
  function OneDuty(): Completeness.Semantics {
    Completeness.Semantics("semantics",
      [Completeness.SourceMember("member", "signal", "affected", Completeness.Verified, [SOURCE])], 1,
      [Completeness.SourceArtifact("source", "kind", [], [], [MEMBER], true)], 1,
      [Completeness.TestInput("input", SOURCE, [MEMBER])],
      [Coverage.Component("part", [INPUT], [MEMBER])], [],
      [Completeness.Obligation("duty", true, COMPONENT, [INPUT])], [])
  }

  /** ... and the check generation result it was derived from. */
  function OneCheck(): Completeness.CheckResult {
    Completeness.CheckResult(
      [Completeness.OuterMember("member", "signal", "affected", Completeness.Verified, ["source"])],
      [Completeness.OuterArtifact("source", "kind", [], [], ["member"],
         Some(Completeness.SemanticsUse("semantics", ["part"], ["duty"])))],
      [Completeness.OuterInput("input", "source", ["member"])])
  }

  lemma DutyReaches()
    ensures var o := Coverage.Requirements(COMPONENT, Completeness.CoverageOf(OneDuty()));
            o.Reached? && o.inputs == {"input"} && o.members == {"member"}
  {
    var d := Completeness.CoverageOf(OneDuty());
    var part := d.components[0];
    assert d.components[..0] == [];
    assert IndexOf(d.components, Coverage.ComponentId) == map["part" := part];
    assert Ids([MEMBER]) == ["member"] && Ids([INPUT]) == ["input"];
    assert Coverage.WalkComponent(Coverage.GraphOf(d), "part") ==
        Coverage.Reached(Elements(["input"]), Elements(["member"]));
  }

  lemma DutyIsNamed()
    ensures Completeness.Named(OneCheck(), OneDuty())
    ensures Completeness.MemberNames(OneDuty()) == {"member"} && Completeness.ArtifactNames(OneDuty()) == {"source"}
    ensures Completeness.InputNames(OneDuty()) == {"input"} && Completeness.ComponentNames(OneDuty()) == {"part"}
    ensures Completeness.ObligationNames(OneDuty()) == {"duty"}
  {
    var s, cg := OneDuty(), OneCheck();
    assert Names(s.members, Completeness.MemberId) == ["member"] == Names(cg.members, Completeness.OuterMemberId);
    assert Names(s.artifacts, Completeness.ArtifactId) == ["source"]
        == Names(cg.artifacts, Completeness.OuterArtifactId);
    assert Names(s.inputs, Completeness.InputId) == ["input"] == Names(cg.inputs, Completeness.OuterInputId);
    assert Names(s.components, Coverage.ComponentId) == ["part"];
    assert Names(s.obligations, Completeness.ObligationId) == ["duty"];
  }

  lemma {:induction false} OneName<T>(item: T, key: T -> string)
    ensures IndexOf([item], key) == map[key(item) := item]
  {
    assert [item][..0] == [];
  }

  lemma DutyIsDerived()
    ensures Completeness.Derived(OneCheck(), OneDuty())
  {
    var s, cg := OneDuty(), OneCheck();
    DutyIsNamed();
    OneName(cg.members[0], Completeness.OuterMemberId);
    OneName(cg.artifacts[0], Completeness.OuterArtifactId);
    OneName(cg.inputs[0], Completeness.OuterInputId);
    assert Ids([SOURCE]) == ["source"] && Ids([MEMBER]) == ["member"];
  }

  lemma {:induction false} OnePart<T>(item: T, part: T -> set<string>)
    ensures Completeness.UnionOf([item], part) == part(item)
  {
    assert [item][..0] == [];
  }

  lemma DutyIsGrounded()
    ensures Completeness.Derived(OneCheck(), OneDuty()) && Completeness.Grounded(OneCheck(), OneDuty())
    ensures Completeness.Partitioned(OneCheck(), OneDuty())
  {
    var s, cg := OneDuty(), OneCheck();
    DutyIsNamed();
    DutyIsDerived();
    OneName(cg.artifacts[0], Completeness.OuterArtifactId);
    assert Completeness.OuterOf(s, Completeness.OuterArtifacts(cg)) == cg.artifacts;
    OnePart(cg.artifacts[0], Completeness.UsedComponents);
    OnePart(cg.artifacts[0], Completeness.UsedObligations);
    OnePart(cg.artifacts[0], Completeness.UsingArtifact);
    OnePart(s.inputs[0], Completeness.InputMembers);
    OnePart(s.inputs[0], Completeness.InputArtifact);
    OnePart(s.inputs[0], Completeness.InputItself);
    assert Ids([MEMBER]) == ["member"];
  }

  lemma DutyIsExact()
    ensures Completeness.ObligationsAreExact(OneDuty(), {"input"})
  {
    var s := OneDuty();
    DutyReaches();
    NamesAreStable();
    assert Names(s.obligations, Completeness.ObligationId) == ["duty"];
    assert Ids([INPUT]) == ["input"] && multiset(["input"]) == multiset({"input"});
    Completeness.StableKeysAreDistinct(s, {"input"});
  }

  /** The completeness validator accepts it. */
  lemma DutyIsComplete()
    ensures Completeness.Complete(OneCheck(), OneDuty())
  {
    DutyIsNamed();
    DutyIsDerived();
    DutyIsGrounded();
    DutyIsExact();
  }

  lemma DutyMembersAreExact()
    ensures Obligations(OneDuty()) == map["duty" := OneDuty().obligations[0]]
    ensures MembersAreExact(OneDuty(), Crossed().mappings[0])
  {
    OneName(OneDuty().obligations[0], Completeness.ObligationId);
    DutyReaches();
    assert Ids([MEMBER]) == ["member"] && multiset(["member"]) == multiset({"member"});
  }

  lemma DutyIsMapped()
    ensures MappingsAreExact(Crossed(), OneDuty())
  {
    DutyMembersAreExact();
    CrossedNames();
    assert Names(Crossed().mappings, MappingId) == ["duty"];
    assert Ids([To("a")]) == ["a"];
  }

  lemma CrossedNames()
    ensures Names(Crossed().artifacts, ArtifactId) == ["a", "b", "c", "d"] &&
            Names(Crossed().groups, GroupId) == ["g", "h"]
    ensures Ids(Crossed().groups[0].artifactRefs) == ["c", "d"] && Ids(Crossed().groups[1].artifactRefs) == ["a", "b"]
    ensures ArtifactNames(Crossed()) == {"a", "b", "c", "d"}
  {
    assert Elements(["a", "b", "c", "d"]) == {"a", "b", "c", "d"};
  }

  lemma CrossedMemberships()
    ensures Memberships(Crossed().groups) == multiset{"a", "b", "c", "d"}
  {
    var groups := Crossed().groups;
    CrossedNames();
    assert groups[..1][..0] == [] && groups[..1][0] == groups[0];
    assert Memberships(groups[..1]) == multiset(["c", "d"]);
    assert Memberships(groups) == Memberships(groups[..1]) + multiset(["a", "b"]);
  }

  lemma CrossedArtifact(i: nat)
    requires i < 4
    ensures ArtifactIsPlaced(Crossed(), i)
  {
    CrossedNames();
    CrossedMemberships();
  }

  lemma CrossedGroups()
    ensures GroupsAreValid(Crossed())
  {
    CrossedNames();
  }

  lemma CrossedUnit()
    ensures UnitIsWhole(Crossed())
  {
    CrossedNames();
    assert Ids(Crossed().unitRefs) == ["a", "b", "c", "d"];
  }

  lemma CrossedOrder()
    ensures ArtifactsAreListed(Crossed(), {"a", "b", "c", "d"})
  {
    CrossedNames();
  }

  lemma CrossedPlaces()
    ensures ArtifactsArePlaced(Crossed())
  {
    CrossedArtifact(0);
    CrossedArtifact(1);
    CrossedArtifact(2);
    CrossedArtifact(3);
  }

  lemma NamesAreStable()
    ensures StableId("a") && StableId("b") && StableId("c") && StableId("d") && StableId("g") && StableId("h")
    ensures StableId("bundle") && StableId("semantics") && StableId("part") && StableId("member") && StableId("duty")
  {
  }

  lemma CrossedArtifactsAreShaped(i: nat)
    requires i < 4
    ensures ArtifactIsShaped(Crossed().artifacts[i])
  {
    NamesAreStable();
  }

  lemma CrossedGroupsAreShaped(k: nat)
    requires k < 2
    ensures GroupIsShaped(Crossed().groups[k])
  {
    NamesAreStable();
  }

  lemma CrossedMappingIsShaped()
    ensures MappingIsShaped(Crossed().mappings[0]) && StableRefs(Crossed().unitRefs)
  {
    NamesAreStable();
  }

  lemma CrossedIsShaped()
    ensures SchemaShaped(Crossed())
  {
    NamesAreStable();
    CrossedMappingIsShaped();
    forall i | 0 <= i < 4 ensures ArtifactIsShaped(Crossed().artifacts[i]) {
      CrossedArtifactsAreShaped(i);
    }
    forall k | 0 <= k < 2 ensures GroupIsShaped(Crossed().groups[k]) {
      CrossedGroupsAreShaped(k);
    }
  }

  lemma CrossedIsAccepted()
    ensures Accepted(Crossed(), {"a", "b", "c", "d"}, OneDuty())
  {
    CrossedOrder();
    CrossedPlaces();
    CrossedGroups();
    CrossedUnit();
    DutyIsMapped();
  }

  lemma CrossedNamesDiffer()
    ensures !NamedGroupsList(Crossed())
  {
    CrossedNames();
    var b := Crossed();
    assert b.groups[0].id == b.artifacts[0].group.id && !Lists(b.groups[0], b.artifacts[0].id);
  }

  /** The validator alone lets the two sides differ: a bundle of the schema's shape, for a
      semantics document that the completeness validator accepts. */
  lemma CrossedGroupsAreAccepted()
    ensures Completeness.Complete(OneCheck(), OneDuty()) && SchemaShaped(Crossed())
    ensures Accepted(Crossed(), {"a", "b", "c", "d"}, OneDuty()) && !NamedGroupsList(Crossed())
  {
    DutyIsComplete();
    CrossedIsShaped();
    CrossedIsAccepted();
    CrossedNamesDiffer();
  }
}
