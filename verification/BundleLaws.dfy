/** What the bundle validator accepts, spelled out item by item. */
module BundleLaws {
  import opened Collections
  import opened SharedRefs
  import opened CandidateBundle
  import opened CompletenessLaws
  import Coverage
  import Completeness

  // ---- references ----

  /** Known references of one kind and scope, none twice. */
  predicate AreApart(refs: seq<Ref>, kind: Kind, scope: string, known: set<string>) {
    AreTo(refs, kind, scope, known) && forall i, j :: 0 <= i < j < |refs| ==> refs[i].id != refs[j].id
  }

  lemma CheckedIsApart(refs: seq<Ref>, kind: Kind, scope: string, known: set<string>)
    ensures Checked(refs, kind, scope, known) <==> AreApart(refs, kind, scope, known)
  {
    KnownIsAreTo(refs, kind, scope, known);
    assert forall i :: 0 <= i < |refs| ==> Ids(refs)[i] == refs[i].id;
  }

  // ---- artifacts, unit and groups ----

  /** The artifacts have names of their own, stand in their declared order, agree with
      their contents, and are those that there is content for. */
  predicate ArtifactsStand(b: Bundle, contents: set<string>) {
    b.artifacts != [] && ArtifactNames(b) == contents &&
    (forall i :: 0 <= i < |b.artifacts| ==>
       b.artifacts[i].id != "" && b.artifacts[i].order == i && b.artifacts[i].contentAgrees) &&
    forall i, j :: 0 <= i < j < |b.artifacts| ==> b.artifacts[i].id != b.artifacts[j].id
  }

  /** The application unit has the fixed modes and names every artifact, each once. */
  predicate UnitStands(b: Bundle) {
    b.unitModesAgree && AreApart(b.unitRefs, Kind.Artifact, b.id, ArtifactNames(b)) &&
    forall x :: x in ArtifactNames(b) ==> x in Ids(b.unitRefs)
  }

  lemma UnitIsOpen(b: Bundle)
    ensures UnitIsWhole(b) <==> UnitStands(b)
  {
    CheckedIsApart(b.unitRefs, Kind.Artifact, b.id, ArtifactNames(b));
    var ids := Ids(b.unitRefs);
    assert Elements(ids) == ArtifactNames(b) <==>
           Elements(ids) <= ArtifactNames(b) && forall x :: x in ArtifactNames(b) ==> x in ids;
  }

  /** The groups have names of their own, the fixed modes, and lists of known artifacts. */
  predicate GroupsStand(b: Bundle) {
    (forall k :: 0 <= k < |b.groups| ==>
       b.groups[k].id != "" && b.groups[k].modesAgree &&
       AreApart(b.groups[k].artifactRefs, Kind.Artifact, b.id, ArtifactNames(b))) &&
    forall k, l :: 0 <= k < l < |b.groups| ==> b.groups[k].id != b.groups[l].id
  }

  lemma GroupsAreOpen(b: Bundle)
    ensures GroupsAreValid(b) <==> GroupsStand(b)
  {
    forall k | 0 <= k < |b.groups|
      ensures Checked(b.groups[k].artifactRefs, Kind.Artifact, b.id, ArtifactNames(b)) <==>
              AreApart(b.groups[k].artifactRefs, Kind.Artifact, b.id, ArtifactNames(b))
    {
      CheckedIsApart(b.groups[k].artifactRefs, Kind.Artifact, b.id, ArtifactNames(b));
    }
  }

  /** Exactly one group lists the name. */
  ghost predicate InOneGroup(groups: seq<AtomicGroup>, id: string) {
    exists k :: 0 <= k < |groups| && Lists(groups[k], id) &&
      forall l :: 0 <= l < |groups| && Lists(groups[l], id) ==> l == k
  }

  lemma {:induction false} ListedNever(groups: seq<AtomicGroup>, id: string)
    requires forall k :: 0 <= k < |groups| ==> !Lists(groups[k], id)
    ensures Memberships(groups)[id] == 0
  {
    if groups != [] {
      ListedNever(groups[..|groups| - 1], id);
      assert id !in Ids(groups[|groups| - 1].artifactRefs);
    }
  }

  lemma OnceInAList(refs: seq<Ref>, id: string)
    requires Distinct(Ids(refs)) && id in Ids(refs)
    ensures multiset(Ids(refs))[id] == 1
  {
    DistinctCounts(Ids(refs));
  }

  lemma {:induction false} ListedJustOnce(groups: seq<AtomicGroup>, id: string, k: nat)
    requires k < |groups| && Lists(groups[k], id) && Distinct(Ids(groups[k].artifactRefs))
    requires forall l :: 0 <= l < |groups| && Lists(groups[l], id) ==> l == k
    ensures Memberships(groups)[id] == 1
  {
    var n := |groups| - 1;
    var before := groups[..n];
    if k == n {
      ListedNever(before, id);
      OnceInAList(groups[n].artifactRefs, id);
    } else {
      ListedJustOnce(before, id, k);
      assert !Lists(groups[n], id) && id !in Ids(groups[n].artifactRefs);
    }
  }

  lemma {:induction false} OneMembership(groups: seq<AtomicGroup>, id: string)
    requires forall k :: 0 <= k < |groups| ==> Distinct(Ids(groups[k].artifactRefs))
    ensures Memberships(groups)[id] == 1 <==> InOneGroup(groups, id)
  {
    if Memberships(groups)[id] == 1 {
      var k := MemberSomewhere(groups, id);
      forall l | 0 <= l < |groups| && Lists(groups[l], id) ensures l == k {
        if l < k {
          ListedTwice(groups, id, l, k);
        } else if k < l {
          ListedTwice(groups, id, k, l);
        }
      }
    }
    if InOneGroup(groups, id) {
      var k :| 0 <= k < |groups| && Lists(groups[k], id) &&
        forall l :: 0 <= l < |groups| && Lists(groups[l], id) ==> l == k;
      ListedJustOnce(groups, id, k);
    }
  }

  /** Some artifact before place i has the name. */
  predicate ComesBefore(b: Bundle, d: string, i: nat) {
    exists j :: 0 <= j < i && j < |b.artifacts| && b.artifacts[j].id == d
  }

  /** The artifact names a group there is, is in exactly one group, and depends on known
      artifacts before it, none twice. */
  ghost predicate ArtifactFits(b: Bundle, i: nat)
    requires i < |b.artifacts|
  {
    var a := b.artifacts[i];
    a.group.kind == Kind.AtomicGroup && a.group.scope == b.id &&
    (exists k :: 0 <= k < |b.groups| && b.groups[k].id == a.group.id) &&
    InOneGroup(b.groups, a.id) && AreApart(a.dependsOn, Kind.Artifact, b.id, ArtifactNames(b)) &&
    forall r :: r in a.dependsOn ==> ComesBefore(b, r.id, i)
  }

  lemma PlacedIsOpen(b: Bundle, i: nat)
    requires i < |b.artifacts| && GroupsStand(b)
    ensures ArtifactIsPlaced(b, i) <==> ArtifactFits(b, i)
  {
    var a := b.artifacts[i];
    GroupsAreOpen(b);
    CheckedIsApart(a.dependsOn, Kind.Artifact, b.id, ArtifactNames(b));
    forall k | 0 <= k < |b.groups| ensures Distinct(Ids(b.groups[k].artifactRefs)) {
      assert GroupIsValid(b.groups[k], b.id, ArtifactNames(b));
    }
    OneMembership(b.groups, a.id);
    NamedSomewhere(b.groups, GroupId, a.group.id);
    DependsIsOpen(b, i);
  }

  lemma NamedSomewhere<T>(items: seq<T>, key: T -> string, x: string)
    ensures x in Elements(Names(items, key)) <==> exists k :: 0 <= k < |items| && key(items[k]) == x
  {
    if x in Elements(Names(items, key)) {
      var k :| 0 <= k < |items| && Names(items, key)[k] == x;
    }
    if k :| 0 <= k < |items| && key(items[k]) == x {
      assert Names(items, key)[k] == x;
    }
  }

  lemma DependsIsOpen(b: Bundle, i: nat)
    requires i < |b.artifacts|
    ensures DependsOnEarlier(b, i) <==> forall r :: r in b.artifacts[i].dependsOn ==> ComesBefore(b, r.id, i)
  {
    var refs, before := b.artifacts[i].dependsOn, Names(b.artifacts[..i], ArtifactId);
    forall x ensures x in before <==> ComesBefore(b, x, i) {
      if ComesBefore(b, x, i) {
        var j :| 0 <= j < i && b.artifacts[j].id == x;
        assert before[j] == x;
      }
    }
    if DependsOnEarlier(b, i) {
      forall r | r in refs ensures ComesBefore(b, r.id, i) {
        var k :| 0 <= k < |refs| && refs[k] == r;
        assert Ids(refs)[k] == r.id;
      }
    }
    if forall r :: r in refs ==> ComesBefore(b, r.id, i) {
      forall d | d in Ids(refs) ensures d in before {
        var k :| 0 <= k < |refs| && Ids(refs)[k] == d;
        assert refs[k] in refs;
      }
    }
  }

  // ---- directives, mappings and provenance ----

  /** The directives have names of their own, and each refers to an artifact. */
  predicate DirectivesStand(b: Bundle) {
    (forall i :: 0 <= i < |b.directives| ==>
       b.directives[i].id != "" && AreTo([b.directives[i].artifactRef], Kind.Artifact, b.id, ArtifactNames(b))) &&
    forall i, j :: 0 <= i < j < |b.directives| ==> b.directives[i].id != b.directives[j].id
  }

  lemma DirectivesAreOpen(b: Bundle)
    ensures DirectivesAreValid(b) <==> DirectivesStand(b)
  {
    forall i | 0 <= i < |b.directives|
      ensures AreTo([b.directives[i].artifactRef], Kind.Artifact, b.id, ArtifactNames(b)) <==>
              b.directives[i].artifactRef.kind == Kind.Artifact && b.directives[i].artifactRef.scope == b.id &&
              b.directives[i].artifactRef.id in ArtifactNames(b)
    {
      assert [b.directives[i].artifactRef][0] in [b.directives[i].artifactRef];
    }
  }

  /** A mapping is exact, names the coverage of its obligation and the members that this
      reaches, each once, and known artifacts and directives. */
  ghost predicate MappingStands(b: Bundle, s: Completeness.Semantics, m: Mapping) {
    var d := Completeness.CoverageOf(s);
    m.exact && m.obligation in Obligations(s) &&
    |m.semanticsRefs| == 1 && m.semanticsRefs[0] == Obligations(s)[m.obligation].coverage &&
    Keyed(s.components, Coverage.ComponentId) && Keyed(s.groups, Coverage.GroupId) &&
    Coverage.Sound(Coverage.GraphOf(d), m.semanticsRefs[0], {}) && Distinct(Ids(m.memberRefs)) &&
    (forall x :: x in Ids(m.memberRefs) <==> Coverage.Covers(Coverage.GraphOf(d), m.semanticsRefs[0], x, false)) &&
    (forall r :: r in m.memberRefs ==> r.kind == Kind.SourceMember && r.scope == s.id) &&
    AreApart(m.artifactRefs, Kind.Artifact, b.id, ArtifactNames(b)) &&
    AreApart(m.directiveRefs, Kind.Directive, b.id, DirectiveNames(b))
  }

  lemma MappingIsOpen(b: Bundle, s: Completeness.Semantics, m: Mapping)
    ensures MappingIsExact(b, s, m) <==> MappingStands(b, s, m)
  {
    CheckedIsApart(m.artifactRefs, Kind.Artifact, b.id, ArtifactNames(b));
    CheckedIsApart(m.directiveRefs, Kind.Directive, b.id, DirectiveNames(b));
    assert Typed(m.memberRefs, Kind.SourceMember, s.id) <==>
           forall r :: r in m.memberRefs ==> r.kind == Kind.SourceMember && r.scope == s.id;
    if m.obligation in Obligations(s) {
      var coverage := Obligations(s)[m.obligation].coverage;
      assert m.semanticsRefs == [coverage] <==> |m.semanticsRefs| == 1 && m.semanticsRefs[0] == coverage;
      MembersAreOpen(s, m);
    }
  }

  lemma MembersAreOpen(s: Completeness.Semantics, m: Mapping)
    requires m.obligation in Obligations(s)
    ensures var g := Coverage.GraphOf(Completeness.CoverageOf(s)); var root := Obligations(s)[m.obligation].coverage;
            MembersAreExact(s, m) <==>
            Keyed(s.components, Coverage.ComponentId) && Keyed(s.groups, Coverage.GroupId) &&
            Coverage.Sound(g, root, {}) && Distinct(Ids(m.memberRefs)) &&
            forall x :: x in Ids(m.memberRefs) <==> Coverage.Covers(g, root, x, false)
  {
    var root, d := Obligations(s)[m.obligation].coverage, Completeness.CoverageOf(s);
    Coverage.RequirementsAreTheClosure(root, d);
    if Coverage.Requirements(root, d).Reached? {
      var found := Coverage.Requirements(root, d).members;
      ListsASet(Ids(m.memberRefs), found);
      assert Elements(Ids(m.memberRefs)) == found <==> forall x :: x in Ids(m.memberRefs) <==> x in found;
    }
  }

  /** Every obligation has a mapping, no two mappings have one obligation. */
  ghost predicate MappingsStand(b: Bundle, s: Completeness.Semantics) {
    (forall i :: 0 <= i < |b.mappings| ==> MappingStands(b, s, b.mappings[i])) &&
    (forall i, j :: 0 <= i < j < |b.mappings| ==> b.mappings[i].obligation != b.mappings[j].obligation) &&
    forall o :: o in Obligations(s) ==> exists i :: 0 <= i < |b.mappings| && b.mappings[i].obligation == o
  }

  lemma MappingsAreOpen(b: Bundle, s: Completeness.Semantics)
    ensures MappingsAreExact(b, s) <==> MappingsStand(b, s)
  {
    forall i | 0 <= i < |b.mappings|
      ensures MappingIsExact(b, s, b.mappings[i]) <==> MappingStands(b, s, b.mappings[i])
    {
      MappingIsOpen(b, s, b.mappings[i]);
    }
    forall o
      ensures o in Elements(Names(b.mappings, MappingId)) <==>
              exists i :: 0 <= i < |b.mappings| && b.mappings[i].obligation == o
    {
      NamedSomewhere(b.mappings, MappingId, o);
    }
    assert forall i :: 0 <= i < |b.mappings| ==> Names(b.mappings, MappingId)[i] == b.mappings[i].obligation;
  }

  /** A bundle is accepted exactly when its identity agrees and everything in it stands. */
  lemma AcceptedExactlyWhen(b: Bundle, contents: set<string>, s: Completeness.Semantics)
    ensures Accepted(b, contents, s) <==>
            b.identityAgrees && ArtifactsStand(b, contents) && UnitStands(b) && GroupsStand(b) &&
            (forall i :: 0 <= i < |b.artifacts| ==> ArtifactFits(b, i)) &&
            DirectivesStand(b) && MappingsStand(b, s) && b.provenance != [] &&
            forall i :: 0 <= i < |b.provenance| ==> b.provenance[i].order == i && b.provenance[i].digestIsValid
  {
    UnitIsOpen(b);
    GroupsAreOpen(b);
    DirectivesAreOpen(b);
    MappingsAreOpen(b, s);
    if GroupsStand(b) {
      forall i | 0 <= i < |b.artifacts| ensures ArtifactIsPlaced(b, i) <==> ArtifactFits(b, i) {
        PlacedIsOpen(b, i);
      }
    }
  }
}
