/** What the completeness validator accepts, spelled out item by item. */
module CompletenessLaws {
  import opened Collections
  import opened SharedRefs
  import opened Completeness
  import Coverage

  // ---- one item ----

  /** All of them refer to known things of one kind in the document's scope. */
  predicate AreTo(refs: seq<Ref>, kind: Kind, scope: string, known: set<string>) {
    forall r :: r in refs ==> r.kind == kind && r.scope == scope && r.id in known
  }

  lemma KnownIsAreTo(refs: seq<Ref>, kind: Kind, scope: string, known: set<string>)
    ensures Known(refs, kind, scope, known) <==> AreTo(refs, kind, scope, known)
  {
    assert forall i :: 0 <= i < |refs| ==> refs[i] in refs && Ids(refs)[i] in Elements(Ids(refs));
  }

  /** A source member repeats signal, affected artifact, artifacts and terminal state of the
      check result's member, but for two states that count as one; it has artifacts exactly
      where something was verified or a signal was produced. */
  predicate MemberMatches(s: Semantics, m: SourceMember, o: OuterMember) {
    m.signal == o.signal && m.affected == o.affected &&
    m.terminal == (if o.terminal.NoCheckableArtifact? then NoCheckableSignal else o.terminal) &&
    multiset(Ids(m.artifactRefs)) == multiset(o.artifacts) &&
    (m.terminal.Verified? || m.terminal.SignalProduced? <==> m.artifactRefs != []) &&
    AreTo(m.artifactRefs, Kind.SourceArtifact, s.id, ArtifactNames(s))
  }

  /** A source artifact repeats kind, signals, affected artifacts and members; its content
      agrees; and a semantics reference to it names this document and what is in it. */
  predicate ArtifactMatches(s: Semantics, a: SourceArtifact, o: OuterArtifact) {
    a.kind == o.kind && multiset(a.signals) == multiset(o.signals) && multiset(a.affected) == multiset(o.affected) &&
    multiset(Ids(a.memberRefs)) == multiset(o.members) &&
    AreTo(a.memberRefs, Kind.SourceMember, s.id, MemberNames(s)) && a.contentAgrees &&
    (o.use.Some? ==>
       o.use.value.semanticsId == s.id &&
       (forall x :: x in o.use.value.components ==> x in ComponentNames(s)) &&
       forall x :: x in o.use.value.obligations ==> x in ObligationNames(s))
  }

  /** A test input repeats artifact and members. */
  predicate InputMatches(s: Semantics, i: TestInput, o: OuterInput) {
    i.artifactRef.id == o.artifact && multiset(Ids(i.memberRefs)) == multiset(o.members) &&
    AreTo([i.artifactRef], Kind.SourceArtifact, s.id, ArtifactNames(s)) &&
    AreTo(i.memberRefs, Kind.SourceMember, s.id, MemberNames(s))
  }

  /** An obligation is required and asks for the inputs its coverage reaches, each once. */
  ghost predicate ObligationMatches(s: Semantics, o: Obligation) {
    var d := CoverageOf(s);
    o.required && AreTo(o.inputRefs, Kind.TestInput, s.id, InputNames(s)) &&
    Keyed(s.components, Coverage.ComponentId) && Keyed(s.groups, Coverage.GroupId) &&
    Coverage.Sound(Coverage.GraphOf(d), o.coverage, {}) && Distinct(Ids(o.inputRefs)) &&
    forall x :: x in Ids(o.inputRefs) <==> Coverage.Covers(Coverage.GraphOf(d), o.coverage, x, true)
  }

  /** An unsupported dimension has a name, a reason and members. */
  predicate DimensionMatches(cg: CheckResult, s: Semantics, d: Dimension) {
    d.dimension != "" && d.reason != "" && d.memberRefs != [] &&
    AreTo(d.memberRefs, Kind.SourceMember, s.id, MemberNames(s)) &&
    AreTo(d.artifactRefs, Kind.SourceArtifact, s.id, ArtifactNames(s)) &&
    AreTo(d.inputRefs, Kind.TestInput, s.id, Elements(Names(cg.inputs, OuterInputId)))
  }

  lemma MemberIsOpen(s: Semantics, m: SourceMember, o: OuterMember)
    ensures MemberAgrees(m, o, s.id, ArtifactNames(s)) <==> MemberMatches(s, m, o)
  {
    KnownIsAreTo(m.artifactRefs, Kind.SourceArtifact, s.id, ArtifactNames(s));
  }

  lemma ArtifactIsOpen(s: Semantics, a: SourceArtifact, o: OuterArtifact)
    ensures ArtifactAgrees(a, o, s.id, MemberNames(s), ComponentNames(s), ObligationNames(s))
            <==> ArtifactMatches(s, a, o)
  {
    KnownIsAreTo(a.memberRefs, Kind.SourceMember, s.id, MemberNames(s));
    if o.use.Some? {
      assert Elements(o.use.value.components) <= ComponentNames(s) <==>
             forall x :: x in o.use.value.components ==> x in ComponentNames(s);
      assert Elements(o.use.value.obligations) <= ObligationNames(s) <==>
             forall x :: x in o.use.value.obligations ==> x in ObligationNames(s);
    }
  }

  lemma InputIsOpen(s: Semantics, i: TestInput, o: OuterInput)
    ensures InputAgrees(i, o, s.id, MemberNames(s), ArtifactNames(s)) <==> InputMatches(s, i, o)
  {
    KnownIsAreTo(i.memberRefs, Kind.SourceMember, s.id, MemberNames(s));
    assert [i.artifactRef][0] in [i.artifactRef];
  }

  lemma ObligationIsOpen(s: Semantics, o: Obligation)
    ensures ObligationIsExact(o, CoverageOf(s), InputNames(s)) <==> ObligationMatches(s, o)
  {
    var d := CoverageOf(s);
    KnownIsAreTo(o.inputRefs, Kind.TestInput, s.id, InputNames(s));
    Coverage.RequirementsAreTheClosure(o.coverage, d);
    if Coverage.Requirements(o.coverage, d).Reached? {
      var found := Coverage.Requirements(o.coverage, d).inputs;
      ListsASet(Ids(o.inputRefs), found);
      assert Elements(Ids(o.inputRefs)) == found <==> forall x :: x in Ids(o.inputRefs) <==> x in found;
    }
  }

  lemma DimensionIsOpen(cg: CheckResult, s: Semantics, d: Dimension)
    ensures DimensionIsValid(d, s.id, MemberNames(s), ArtifactNames(s), Elements(Names(cg.inputs, OuterInputId)))
            <==> DimensionMatches(cg, s, d)
  {
    KnownIsAreTo(d.memberRefs, Kind.SourceMember, s.id, MemberNames(s));
    KnownIsAreTo(d.artifactRefs, Kind.SourceArtifact, s.id, ArtifactNames(s));
    KnownIsAreTo(d.inputRefs, Kind.TestInput, s.id, Elements(Names(cg.inputs, OuterInputId)));
  }

  // ---- all items of a kind ----

  predicate MembersMatch(cg: CheckResult, s: Semantics) {
    forall i, j :: 0 <= i < |s.members| && 0 <= j < |cg.members| && s.members[i].id == cg.members[j].id ==>
      MemberMatches(s, s.members[i], cg.members[j])
  }

  predicate ArtifactsMatch(cg: CheckResult, s: Semantics) {
    forall i, j :: 0 <= i < |s.artifacts| && 0 <= j < |cg.artifacts| && s.artifacts[i].id == cg.artifacts[j].id ==>
      ArtifactMatches(s, s.artifacts[i], cg.artifacts[j])
  }

  predicate InputsMatch(cg: CheckResult, s: Semantics) {
    forall i, j :: 0 <= i < |s.inputs| && 0 <= j < |cg.inputs| && s.inputs[i].id == cg.inputs[j].id ==>
      InputMatches(s, s.inputs[i], cg.inputs[j])
  }

  /** The outer item of a name. */
  lemma ItemOf<T>(items: seq<T>, key: T -> string, name: string) returns (j: nat)
    requires Keyed(items, key) && name in Elements(Names(items, key))
    ensures j < |items| && key(items[j]) == name
    ensures name in IndexOf(items, key) && IndexOf(items, key)[name] == items[j]
  {
    j :| 0 <= j < |items| && Names(items, key)[j] == name;
    IndexHolds(items, key, j);
  }

  lemma MembersAreOpen(cg: CheckResult, s: Semantics)
    requires Named(cg, s)
    ensures MembersAgree(s, OuterMembers(cg), ArtifactNames(s)) <==> MembersMatch(cg, s)
  {
    forall i, j | 0 <= i < |s.members| && 0 <= j < |cg.members| && s.members[i].id == cg.members[j].id
      ensures s.members[i].id in OuterMembers(cg) && OuterMembers(cg)[s.members[i].id] == cg.members[j]
      ensures MemberAgrees(s.members[i], cg.members[j], s.id, ArtifactNames(s))
              <==> MemberMatches(s, s.members[i], cg.members[j])
    {
      IndexHolds(cg.members, OuterMemberId, j);
      MemberIsOpen(s, s.members[i], cg.members[j]);
    }
    forall i | 0 <= i < |s.members| ensures exists j :: 0 <= j < |cg.members| && cg.members[j].id == s.members[i].id {
      assert Names(s.members, MemberId)[i] in MemberNames(s);
      var j := ItemOf(cg.members, OuterMemberId, s.members[i].id);
    }
  }

  lemma ArtifactsAreOpen(cg: CheckResult, s: Semantics)
    requires Named(cg, s)
    ensures ArtifactsAgree(s, OuterArtifacts(cg), MemberNames(s), ComponentNames(s), ObligationNames(s))
            <==> ArtifactsMatch(cg, s)
  {
    forall i, j | 0 <= i < |s.artifacts| && 0 <= j < |cg.artifacts| && s.artifacts[i].id == cg.artifacts[j].id
      ensures s.artifacts[i].id in OuterArtifacts(cg) && OuterArtifacts(cg)[s.artifacts[i].id] == cg.artifacts[j]
      ensures var (components, obligations) := (ComponentNames(s), ObligationNames(s));
              ArtifactAgrees(s.artifacts[i], cg.artifacts[j], s.id, MemberNames(s), components, obligations)
              <==> ArtifactMatches(s, s.artifacts[i], cg.artifacts[j])
    {
      IndexHolds(cg.artifacts, OuterArtifactId, j);
      ArtifactIsOpen(s, s.artifacts[i], cg.artifacts[j]);
    }
    forall i | 0 <= i < |s.artifacts|
      ensures exists j :: 0 <= j < |cg.artifacts| && cg.artifacts[j].id == s.artifacts[i].id
    {
      assert Names(s.artifacts, ArtifactId)[i] in ArtifactNames(s);
      var j := ItemOf(cg.artifacts, OuterArtifactId, s.artifacts[i].id);
    }
  }

  lemma InputsAreOpen(cg: CheckResult, s: Semantics)
    requires Named(cg, s)
    ensures InputsAgree(s, OuterInputs(cg), MemberNames(s), ArtifactNames(s)) <==> InputsMatch(cg, s)
  {
    forall i, j | 0 <= i < |s.inputs| && 0 <= j < |cg.inputs| && s.inputs[i].id == cg.inputs[j].id
      ensures s.inputs[i].id in OuterInputs(cg) && OuterInputs(cg)[s.inputs[i].id] == cg.inputs[j]
      ensures InputAgrees(s.inputs[i], cg.inputs[j], s.id, MemberNames(s), ArtifactNames(s))
              <==> InputMatches(s, s.inputs[i], cg.inputs[j])
    {
      IndexHolds(cg.inputs, OuterInputId, j);
      InputIsOpen(s, s.inputs[i], cg.inputs[j]);
    }
    forall i | 0 <= i < |s.inputs| ensures exists j :: 0 <= j < |cg.inputs| && cg.inputs[j].id == s.inputs[i].id {
      assert Names(s.inputs, InputId)[i] in InputNames(s);
      var j := ItemOf(cg.inputs, OuterInputId, s.inputs[i].id);
    }
  }

  // ---- the accounts ----

  /** Some semantics reference of the check result names the component... */
  ghost predicate NamesComponent(cg: CheckResult, x: string) {
    exists j :: 0 <= j < |cg.artifacts| && cg.artifacts[j].use.Some? && x in cg.artifacts[j].use.value.components
  }

  /** ... or the obligation. */
  ghost predicate NamesObligation(cg: CheckResult, x: string) {
    exists j :: 0 <= j < |cg.artifacts| && cg.artifacts[j].use.Some? && x in cg.artifacts[j].use.value.obligations
  }

  /** The artifacts named by the document are those of the check result, in some order. */
  lemma SameArtifacts(cg: CheckResult, s: Semantics, part: OuterArtifact -> set<string>, x: string)
    requires Named(cg, s) && Derived(cg, s)
    ensures x in UnionOf(OuterOf(s, OuterArtifacts(cg)), part)
            <==> exists j :: 0 <= j < |cg.artifacts| && x in part(cg.artifacts[j])
  {
    var list := OuterOf(s, OuterArtifacts(cg));
    InUnion(list, part, x);
    if x in UnionOf(list, part) {
      var k :| 0 <= k < |list| && x in part(list[k]);
      assert Names(s.artifacts, ArtifactId)[k] in ArtifactNames(s);
      var j := ItemOf(cg.artifacts, OuterArtifactId, s.artifacts[k].id);
    }
    if j :| 0 <= j < |cg.artifacts| && x in part(cg.artifacts[j]) {
      assert Names(cg.artifacts, OuterArtifactId)[j] in Elements(Names(cg.artifacts, OuterArtifactId));
      var k :| 0 <= k < |s.artifacts| && Names(s.artifacts, ArtifactId)[k] == cg.artifacts[j].id;
      IndexHolds(cg.artifacts, OuterArtifactId, j);
      assert list[k] == cg.artifacts[j];
    }
  }

  lemma UsedComponent(cg: CheckResult, s: Semantics, x: string)
    requires Named(cg, s) && Derived(cg, s)
    ensures x in UnionOf(OuterOf(s, OuterArtifacts(cg)), UsedComponents) <==> NamesComponent(cg, x)
  {
    SameArtifacts(cg, s, UsedComponents, x);
    assert forall j :: 0 <= j < |cg.artifacts| ==>
      (x in UsedComponents(cg.artifacts[j]) <==>
       cg.artifacts[j].use.Some? && x in cg.artifacts[j].use.value.components);
  }

  lemma UsedObligation(cg: CheckResult, s: Semantics, x: string)
    requires Named(cg, s) && Derived(cg, s)
    ensures x in UnionOf(OuterOf(s, OuterArtifacts(cg)), UsedObligations) <==> NamesObligation(cg, x)
  {
    SameArtifacts(cg, s, UsedObligations, x);
    assert forall j :: 0 <= j < |cg.artifacts| ==>
      (x in UsedObligations(cg.artifacts[j]) <==>
       cg.artifacts[j].use.Some? && x in cg.artifacts[j].use.value.obligations);
  }

  /** Components and obligations are all named there. */
  lemma GroundedIsOpen(cg: CheckResult, s: Semantics)
    requires Named(cg, s) && Derived(cg, s)
    ensures Grounded(cg, s) <==>
            (forall x :: x in ComponentNames(s) ==> NamesComponent(cg, x)) &&
            (forall x :: x in ObligationNames(s) ==> NamesObligation(cg, x))
  {
    UsedNamesInside(cg, s);
    forall x ensures x in UnionOf(OuterOf(s, OuterArtifacts(cg)), UsedComponents) <==> NamesComponent(cg, x) {
      UsedComponent(cg, s, x);
    }
    forall x ensures x in UnionOf(OuterOf(s, OuterArtifacts(cg)), UsedObligations) <==> NamesObligation(cg, x) {
      UsedObligation(cg, s, x);
    }
  }

  /** The check result gave the artifact a semantics reference. */
  ghost predicate IsReferred(cg: CheckResult, x: string) {
    exists j :: 0 <= j < |cg.artifacts| && cg.artifacts[j].id == x && cg.artifacts[j].use.Some?
  }

  ghost predicate MembersAreAccounted(s: Semantics) {
    forall x :: x in MemberNames(s) ==> (MemberIsTested(s, x) <==> !MemberIsUnsupported(s, x))
  }

  ghost predicate ArtifactsAreAccounted(cg: CheckResult, s: Semantics) {
    forall x :: x in ArtifactNames(s) ==>
      (ArtifactIsTested(s, x) <==> !ArtifactIsUnsupported(s, x)) && (ArtifactIsTested(s, x) <==> IsReferred(cg, x))
  }

  ghost predicate InputsAreAccounted(cg: CheckResult, s: Semantics) {
    forall x :: x in Elements(Names(cg.inputs, OuterInputId)) ==> (x in InputNames(s) <==> !InputIsUnsupported(s, x))
  }

  /** What the documents refer to is known, so nothing else can be tested or unsupported. */
  lemma AccountsAreKnown(cg: CheckResult, s: Semantics, x: string)
    requires Named(cg, s) && InputsMatch(cg, s)
    requires forall i :: 0 <= i < |s.dimensions| ==> DimensionMatches(cg, s, s.dimensions[i])
    ensures MemberIsTested(s, x) || MemberIsUnsupported(s, x) ==> x in MemberNames(s)
    ensures ArtifactIsTested(s, x) || ArtifactIsUnsupported(s, x) ==> x in ArtifactNames(s)
    ensures InputIsUnsupported(s, x) ==> x in Elements(Names(cg.inputs, OuterInputId))
  {
    forall i | 0 <= i < |s.inputs|
      ensures exists j :: 0 <= j < |cg.inputs| && InputMatches(s, s.inputs[i], cg.inputs[j])
    {
      assert Names(s.inputs, InputId)[i] in InputNames(s);
      var j := ItemOf(cg.inputs, OuterInputId, s.inputs[i].id);
    }
    forall i | 0 <= i < |s.inputs|
      ensures s.inputs[i].artifactRef.id in ArtifactNames(s)
      ensures InputMembers(s.inputs[i]) <= MemberNames(s)
    {
      var j :| 0 <= j < |cg.inputs| && InputMatches(s, s.inputs[i], cg.inputs[j]);
      assert s.inputs[i].artifactRef in [s.inputs[i].artifactRef];
      IdsAreKnown(s.inputs[i].memberRefs, MemberNames(s));
    }
    forall i | 0 <= i < |s.dimensions|
      ensures DimensionMembers(s.dimensions[i]) <= MemberNames(s)
      ensures DimensionArtifacts(s.dimensions[i]) <= ArtifactNames(s)
      ensures DimensionInputs(s.dimensions[i]) <= Elements(Names(cg.inputs, OuterInputId))
    {
      IdsAreKnown(s.dimensions[i].memberRefs, MemberNames(s));
      IdsAreKnown(s.dimensions[i].artifactRefs, ArtifactNames(s));
      IdsAreKnown(s.dimensions[i].inputRefs, Elements(Names(cg.inputs, OuterInputId)));
    }
  }

  lemma IdsAreKnown(refs: seq<Ref>, known: set<string>)
    requires forall r :: r in refs ==> r.id in known
    ensures Elements(Ids(refs)) <= known
  {
    forall x | x in Elements(Ids(refs)) ensures x in known {
      var i :| 0 <= i < |refs| && Ids(refs)[i] == x;
      assert refs[i] in refs;
    }
  }

  lemma MemberSplit(s: Semantics)
    requires forall x :: MemberIsTested(s, x) || MemberIsUnsupported(s, x) ==> x in MemberNames(s)
    ensures Splits(UnionOf(s.inputs, InputMembers), UnionOf(s.dimensions, DimensionMembers), MemberNames(s))
            <==> MembersAreAccounted(s)
  {
    var a, b := UnionOf(s.inputs, InputMembers), UnionOf(s.dimensions, DimensionMembers);
    forall x ensures x in a <==> MemberIsTested(s, x) ensures x in b <==> MemberIsUnsupported(s, x) {
      InUnion(s.inputs, InputMembers, x);
      InUnion(s.dimensions, DimensionMembers, x);
    }
    SplitByOnes(a, b, MemberNames(s));
  }

  /** Two parts of a whole split it exactly when each thing in it is in one of them only. */
  lemma SplitByOnes(a: set<string>, b: set<string>, whole: set<string>)
    requires a <= whole && b <= whole
    ensures Splits(a, b, whole) <==> forall x :: x in whole ==> (x in a <==> x !in b)
  {
    if forall x :: x in whole ==> (x in a <==> x !in b) {
      assert a + b == whole;
    }
  }

  lemma SameByOnes(a: set<string>, b: set<string>, whole: set<string>)
    requires a <= whole && b <= whole
    ensures a == b <==> forall x :: x in whole ==> (x in a <==> x in b)
  {
  }

  /** Tested and unsupported artifacts against those with a reference, as sets. */
  lemma ArtifactSets(cg: CheckResult, s: Semantics, a: set<string>, b: set<string>, c: set<string>)
    requires forall x :: x in a <==> ArtifactIsTested(s, x)
    requires forall x :: x in b <==> ArtifactIsUnsupported(s, x)
    requires forall x :: x in c <==> IsReferred(cg, x)
    requires a <= ArtifactNames(s) && b <= ArtifactNames(s) && c <= ArtifactNames(s)
    ensures Splits(a, b, ArtifactNames(s)) && a == c <==> ArtifactsAreAccounted(cg, s)
  {
    SplitByOnes(a, b, ArtifactNames(s));
    SameByOnes(a, c, ArtifactNames(s));
  }

  lemma ArtifactSplit(cg: CheckResult, s: Semantics)
    requires Named(cg, s) && Derived(cg, s)
    requires forall x :: ArtifactIsTested(s, x) || ArtifactIsUnsupported(s, x) ==> x in ArtifactNames(s)
    ensures var a := UnionOf(s.inputs, InputArtifact);
            Splits(a, UnionOf(s.dimensions, DimensionArtifacts), ArtifactNames(s))
            && a == UnionOf(OuterOf(s, OuterArtifacts(cg)), UsingArtifact)
            <==> ArtifactsAreAccounted(cg, s)
  {
    var a, b := UnionOf(s.inputs, InputArtifact), UnionOf(s.dimensions, DimensionArtifacts);
    var c := UnionOf(OuterOf(s, OuterArtifacts(cg)), UsingArtifact);
    forall x ensures x in a <==> ArtifactIsTested(s, x) ensures x in b <==> ArtifactIsUnsupported(s, x) {
      ArtifactAccounts(s, x);
    }
    forall x ensures x in c <==> IsReferred(cg, x) ensures x in c ==> x in ArtifactNames(s) {
      Referred(cg, s, x);
    }
    ArtifactSets(cg, s, a, b, c);
  }

  lemma Referred(cg: CheckResult, s: Semantics, x: string)
    requires Named(cg, s) && Derived(cg, s)
    ensures x in UnionOf(OuterOf(s, OuterArtifacts(cg)), UsingArtifact) <==> IsReferred(cg, x)
    ensures IsReferred(cg, x) ==> x in ArtifactNames(s)
  {
    SameArtifacts(cg, s, UsingArtifact, x);
    assert forall j :: 0 <= j < |cg.artifacts| ==>
      (x in UsingArtifact(cg.artifacts[j]) <==> cg.artifacts[j].id == x && cg.artifacts[j].use.Some?);
    if j :| 0 <= j < |cg.artifacts| && cg.artifacts[j].id == x && cg.artifacts[j].use.Some? {
      assert Names(cg.artifacts, OuterArtifactId)[j] == x;
    }
  }

  lemma InputSplit(cg: CheckResult, s: Semantics)
    requires Named(cg, s)
    requires forall x :: InputIsUnsupported(s, x) ==> x in Elements(Names(cg.inputs, OuterInputId))
    ensures var whole := Elements(Names(cg.inputs, OuterInputId));
            Splits(UnionOf(s.inputs, InputItself), UnionOf(s.dimensions, DimensionInputs), whole)
            <==> InputsAreAccounted(cg, s)
  {
    var b := UnionOf(s.dimensions, DimensionInputs);
    UnionOfNames(s.inputs);
    forall x ensures x in b <==> InputIsUnsupported(s, x) {
      InUnion(s.dimensions, DimensionInputs, x);
    }
    SplitByOnes(InputNames(s), b, Elements(Names(cg.inputs, OuterInputId)));
  }

  lemma PartitionedIsOpen(cg: CheckResult, s: Semantics)
    requires Named(cg, s) && Derived(cg, s) && InputsMatch(cg, s)
    requires forall i :: 0 <= i < |s.dimensions| ==> DimensionMatches(cg, s, s.dimensions[i])
    ensures Partitioned(cg, s) <==>
            MembersAreAccounted(s) && ArtifactsAreAccounted(cg, s) && InputsAreAccounted(cg, s)
  {
    forall x
      ensures MemberIsTested(s, x) || MemberIsUnsupported(s, x) ==> x in MemberNames(s)
      ensures ArtifactIsTested(s, x) || ArtifactIsUnsupported(s, x) ==> x in ArtifactNames(s)
      ensures InputIsUnsupported(s, x) ==> x in Elements(Names(cg.inputs, OuterInputId))
    {
      AccountsAreKnown(cg, s, x);
    }
    MemberSplit(s);
    ArtifactSplit(cg, s);
    InputSplit(cg, s);
  }

  // ---- the whole document ----

  /** The documents name the same members and artifacts, as many as declared, each once;
      the test inputs are among those of the check result. */
  predicate NamesMatch(cg: CheckResult, s: Semantics) {
    Distinct(Names(cg.members, OuterMemberId)) && Distinct(Names(cg.artifacts, OuterArtifactId)) &&
    Distinct(Names(cg.inputs, OuterInputId)) && Distinct(Names(s.members, MemberId)) &&
    Distinct(Names(s.artifacts, ArtifactId)) && Distinct(Names(s.inputs, InputId)) &&
    Distinct(Names(s.components, Coverage.ComponentId)) && Distinct(Names(s.obligations, ObligationId)) &&
    "" !in Names(cg.members, OuterMemberId) && "" !in Names(cg.artifacts, OuterArtifactId) &&
    "" !in Names(cg.inputs, OuterInputId) && "" !in Names(s.components, Coverage.ComponentId) &&
    "" !in Names(s.obligations, ObligationId) &&
    MemberNames(s) == Elements(Names(cg.members, OuterMemberId)) && s.memberCount == |s.members| &&
    ArtifactNames(s) == Elements(Names(cg.artifacts, OuterArtifactId)) && s.artifactCount == |s.artifacts| &&
    InputNames(s) <= Elements(Names(cg.inputs, OuterInputId))
  }

  lemma KeyedIsDistinct<T>(items: seq<T>, key: T -> string)
    ensures Keyed(items, key) <==> Distinct(Names(items, key)) && "" !in Names(items, key)
  {
    var names := Names(items, key);
    assert forall i :: 0 <= i < |items| ==> names[i] == key(items[i]);
  }

  lemma NamesInside(a: seq<string>, b: seq<string>)
    requires Elements(a) <= Elements(b) && "" !in b
    ensures "" !in a
  {
    assert forall x :: x in a ==> x in Elements(a);
    assert forall x :: x in Elements(b) ==> x in b;
  }

  lemma NamedIsOpen(cg: CheckResult, s: Semantics)
    ensures Named(cg, s) && Keyed(s.obligations, ObligationId) <==> NamesMatch(cg, s)
  {
    KeyedIsDistinct(cg.members, OuterMemberId);
    KeyedIsDistinct(cg.artifacts, OuterArtifactId);
    KeyedIsDistinct(cg.inputs, OuterInputId);
    KeyedIsDistinct(s.members, MemberId);
    KeyedIsDistinct(s.artifacts, ArtifactId);
    KeyedIsDistinct(s.inputs, InputId);
    KeyedIsDistinct(s.components, Coverage.ComponentId);
    KeyedIsDistinct(s.obligations, ObligationId);
    if NamesMatch(cg, s) {
      NamesInside(Names(s.members, MemberId), Names(cg.members, OuterMemberId));
      NamesInside(Names(s.artifacts, ArtifactId), Names(cg.artifacts, OuterArtifactId));
      NamesInside(Names(s.inputs, InputId), Names(cg.inputs, OuterInputId));
    }
  }

  /** Every item matches the one it came from... */
  ghost predicate ItemsMatch(cg: CheckResult, s: Semantics) {
    NamesMatch(cg, s) && MembersMatch(cg, s) && ArtifactsMatch(cg, s) && InputsMatch(cg, s) &&
    forall i :: 0 <= i < |s.obligations| ==> ObligationMatches(s, s.obligations[i])
  }

  /** ... and nothing is left out or counted twice. */
  ghost predicate AccountsMatch(cg: CheckResult, s: Semantics) {
    (forall x :: x in ComponentNames(s) ==> NamesComponent(cg, x)) &&
    (forall x :: x in ObligationNames(s) ==> NamesObligation(cg, x)) &&
    (forall i :: 0 <= i < |s.dimensions| ==> DimensionMatches(cg, s, s.dimensions[i])) &&
    MembersAreAccounted(s) && ArtifactsAreAccounted(cg, s) && InputsAreAccounted(cg, s)
  }

  lemma ItemsAreOpen(cg: CheckResult, s: Semantics)
    ensures (forall i :: 0 <= i < |s.obligations| ==> ObligationIsExact(s.obligations[i], CoverageOf(s), InputNames(s)))
            <==> forall i :: 0 <= i < |s.obligations| ==> ObligationMatches(s, s.obligations[i])
    ensures DimensionsAreValid(s, MemberNames(s), ArtifactNames(s), Elements(Names(cg.inputs, OuterInputId)))
            <==> forall i :: 0 <= i < |s.dimensions| ==> DimensionMatches(cg, s, s.dimensions[i])
  {
    forall i | 0 <= i < |s.obligations|
      ensures ObligationIsExact(s.obligations[i], CoverageOf(s), InputNames(s)) <==>
              ObligationMatches(s, s.obligations[i])
    {
      ObligationIsOpen(s, s.obligations[i]);
    }
    forall i | 0 <= i < |s.dimensions|
      ensures var inputs := Elements(Names(cg.inputs, OuterInputId));
              DimensionIsValid(s.dimensions[i], s.id, MemberNames(s), ArtifactNames(s), inputs)
              <==> DimensionMatches(cg, s, s.dimensions[i])
    {
      DimensionIsOpen(cg, s, s.dimensions[i]);
    }
  }

  lemma DerivedIsOpen(cg: CheckResult, s: Semantics)
    requires Named(cg, s)
    ensures Derived(cg, s) <==> MembersMatch(cg, s) && ArtifactsMatch(cg, s) && InputsMatch(cg, s)
  {
    MembersAreOpen(cg, s);
    ArtifactsAreOpen(cg, s);
    InputsAreOpen(cg, s);
  }

  lemma AccountsAreOpen(cg: CheckResult, s: Semantics)
    requires Named(cg, s) && Derived(cg, s)
    ensures Grounded(cg, s) && Partitioned(cg, s)
            && DimensionsAreValid(s, MemberNames(s), ArtifactNames(s), Elements(Names(cg.inputs, OuterInputId)))
            <==> AccountsMatch(cg, s)
  {
    ItemsAreOpen(cg, s);
    GroundedIsOpen(cg, s);
    DerivedIsOpen(cg, s);
    if DimensionsAreValid(s, MemberNames(s), ArtifactNames(s), Elements(Names(cg.inputs, OuterInputId))) {
      PartitionedIsOpen(cg, s);
    }
  }

  lemma ObligationsAreOpen(cg: CheckResult, s: Semantics)
    ensures AllExact(s.obligations, CoverageOf(s), InputNames(s)) <==>
            Keyed(s.obligations, ObligationId) &&
            forall i :: 0 <= i < |s.obligations| ==> ObligationMatches(s, s.obligations[i])
  {
    ItemsAreOpen(cg, s);
  }

  lemma DerivedItemsMatch(cg: CheckResult, s: Semantics)
    ensures Named(cg, s) && Derived(cg, s) && AllExact(s.obligations, CoverageOf(s), InputNames(s))
            <==> ItemsMatch(cg, s)
  {
    NamedIsOpen(cg, s);
    ObligationsAreOpen(cg, s);
    if Named(cg, s) {
      DerivedIsOpen(cg, s);
    }
  }

  /** A document is accepted exactly when everything in it matches and no assignment key
      occurs twice; the latter is redundant with the obligation names that the schema
      admits (Completeness.DuplicateTestIsRedundant). */
  lemma CompleteExactlyWhen(cg: CheckResult, s: Semantics)
    ensures Complete(cg, s) <==> ItemsMatch(cg, s) && AccountsMatch(cg, s) && Distinct(AllWorkKeys(s.obligations))
  {
    DerivedItemsMatch(cg, s);
    if Named(cg, s) && Derived(cg, s) {
      AccountsAreOpen(cg, s);
    }
  }
}
