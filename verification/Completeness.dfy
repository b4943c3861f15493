/** The completeness rules of a semantics document against the check generation result
    it was derived from. The validator counts; the rules below say what the counts mean. */
module Completeness {
  import opened Collections
  import opened JoinedText
  import opened Wrappers
  import opened SharedRefs
  import Coverage

  // ---- the two documents ----

  datatype Terminal = Verified | SignalProduced | NoCheckableSignal | NoCheckableArtifact | OtherState(name: string)

  datatype OuterMember = OuterMember(id: string, signal: string, affected: string, terminal: Terminal,
      artifacts: seq<string>)

  datatype SemanticsUse = SemanticsUse(semanticsId: string, components: seq<string>, obligations: seq<string>)

  datatype OuterArtifact =
    OuterArtifact(id: string, kind: string, signals: seq<string>, affected: seq<string>, members: seq<string>,
        use: Option<SemanticsUse>)

  datatype OuterInput = OuterInput(id: string, artifact: string, members: seq<string>)

  datatype CheckResult = CheckResult(members: seq<OuterMember>, artifacts: seq<OuterArtifact>, inputs: seq<OuterInput>)

  datatype SourceMember = SourceMember(id: string, signal: string, affected: string, terminal: Terminal,
      artifactRefs: seq<Ref>)

  /** contentAgrees stands for the locator and digest check of the artifact's content. */
  datatype SourceArtifact =
    SourceArtifact(id: string, kind: string, signals: seq<string>, affected: seq<string>, memberRefs: seq<Ref>,
        contentAgrees: bool)

  datatype TestInput = TestInput(id: string, artifactRef: Ref, memberRefs: seq<Ref>)

  datatype Obligation = Obligation(id: string, required: bool, coverage: Ref, inputRefs: seq<Ref>)

  datatype Dimension =
    Dimension(dimension: string, reason: string, memberRefs: seq<Ref>, artifactRefs: seq<Ref>, inputRefs: seq<Ref>)

  datatype Semantics = Semantics(
    id: string,
    members: seq<SourceMember>, memberCount: int,
    artifacts: seq<SourceArtifact>, artifactCount: int,
    inputs: seq<TestInput>,
    components: seq<Coverage.Component>, groups: seq<Coverage.Group>,
    obligations: seq<Obligation>,
    dimensions: seq<Dimension>)

  function OuterMemberId(m: OuterMember): string { m.id }
  function OuterArtifactId(a: OuterArtifact): string { a.id }
  function OuterInputId(i: OuterInput): string { i.id }
  function MemberId(m: SourceMember): string { m.id }
  function ArtifactId(a: SourceArtifact): string { a.id }
  function InputId(i: TestInput): string { i.id }
  function ObligationId(o: Obligation): string { o.id }

  function CoverageOf(s: Semantics): Coverage.Document { Coverage.Document(s.id, s.components, s.groups) }

  /** sharedTerminalStateFromCG. */
  function FromCheckGeneration(t: Terminal): Terminal { if t == NoCheckableArtifact then NoCheckableSignal else t }

  // ---- unions over a list ----

  function UnionOf<T>(items: seq<T>, part: T -> set<string>): set<string> {
    if items == [] then {} else UnionOf(items[..|items| - 1], part) + part(items[|items| - 1])
  }

  lemma {:induction false} InUnion<T>(items: seq<T>, part: T -> set<string>, x: string)
    ensures x in UnionOf(items, part) <==> exists i :: 0 <= i < |items| && x in part(items[i])
  {
    if items != [] {
      var n := |items| - 1;
      InUnion(items[..n], part, x);
      assert forall i :: 0 <= i < n ==> items[..n][i] == items[i];
    }
  }

  // ---- the rules ----

  /** References of one kind and scope, to known things. */
  predicate Known(refs: seq<Ref>, kind: Kind, scope: string, index: set<string>) {
    Typed(refs, kind, scope) && Elements(Ids(refs)) <= index
  }

  predicate Positive(t: Terminal) { t == Verified || t == SignalProduced }

  predicate MemberAgrees(m: SourceMember, outer: OuterMember, scope: string, artifacts: set<string>) {
    m.signal == outer.signal && m.affected == outer.affected && m.terminal == FromCheckGeneration(outer.terminal) &&
    multiset(Ids(m.artifactRefs)) == multiset(outer.artifacts) &&
    (Positive(m.terminal) <==> m.artifactRefs != []) &&
    Known(m.artifactRefs, Kind.SourceArtifact, scope, artifacts)
  }

  predicate UseAgrees(use: Option<SemanticsUse>, scope: string, components: set<string>, obligations: set<string>) {
    use.Some? ==>
      use.value.semanticsId == scope &&
      Elements(use.value.components) <= components && Elements(use.value.obligations) <= obligations
  }

  predicate ArtifactAgrees(a: SourceArtifact, outer: OuterArtifact, scope: string, members: set<string>,
                           components: set<string>, obligations: set<string>) {
    a.kind == outer.kind && multiset(a.signals) == multiset(outer.signals) &&
        multiset(a.affected) == multiset(outer.affected) &&
    multiset(Ids(a.memberRefs)) == multiset(outer.members) &&
    Known(a.memberRefs, Kind.SourceMember, scope, members) &&
    a.contentAgrees && UseAgrees(outer.use, scope, components, obligations)
  }

  predicate InputAgrees(i: TestInput, outer: OuterInput, scope: string, members: set<string>, artifacts: set<string>) {
    i.artifactRef.kind == Kind.SourceArtifact && i.artifactRef.scope == scope && i.artifactRef.id in artifacts &&
    i.artifactRef.id == outer.artifact && multiset(Ids(i.memberRefs)) == multiset(outer.members) &&
    Known(i.memberRefs, Kind.SourceMember, scope, members)
  }

  predicate DimensionIsValid(d: Dimension, scope: string, members: set<string>, artifacts: set<string>,
                             inputs: set<string>) {
    d.dimension != "" && d.reason != "" && d.memberRefs != [] &&
    Known(d.memberRefs, Kind.SourceMember, scope, members) &&
    Known(d.artifactRefs, Kind.SourceArtifact, scope, artifacts) &&
    Known(d.inputRefs, Kind.TestInput, scope, inputs)
  }

  /** Required, and asking for exactly the test inputs its coverage reference reaches. */
  predicate ObligationIsExact(o: Obligation, d: Coverage.Document, inputs: set<string>) {
    o.required && Known(o.inputRefs, Kind.TestInput, d.scope, inputs) &&
    Coverage.Requirements(o.coverage, d).Reached? &&
    multiset(Ids(o.inputRefs)) == multiset(Coverage.Requirements(o.coverage, d).inputs)
  }

  // What a list of artifacts, inputs or dimensions accounts for.

  function UsedComponents(a: OuterArtifact): set<string> {
    if a.use.Some? then Elements(a.use.value.components) else {}
  }
  function UsedObligations(a: OuterArtifact): set<string> {
    if a.use.Some? then Elements(a.use.value.obligations) else {}
  }
  function UsingArtifact(a: OuterArtifact): set<string> { if a.use.Some? then {a.id} else {} }
  function InputMembers(i: TestInput): set<string> { Elements(Ids(i.memberRefs)) }
  function InputArtifact(i: TestInput): set<string> { {i.artifactRef.id} }
  function InputItself(i: TestInput): set<string> { {i.id} }
  function DimensionMembers(d: Dimension): set<string> { Elements(Ids(d.memberRefs)) }
  function DimensionArtifacts(d: Dimension): set<string> { Elements(Ids(d.artifactRefs)) }
  function DimensionInputs(d: Dimension): set<string> { Elements(Ids(d.inputRefs)) }

  /** a and b split the whole in two. */
  predicate Splits(a: set<string>, b: set<string>, whole: set<string>) { a !! b && a + b == whole }

  // ---- the loop over references ----

  method AllKnown(refs: seq<Ref>, kind: Kind, scope: string, index: set<string>) returns (ok: bool)
    ensures ok <==> Known(refs, kind, scope, index)
  {
    for i := 0 to |refs|
      invariant forall j :: 0 <= j < i ==> refs[j].kind == kind && refs[j].scope == scope && refs[j].id in index
    {
      if refs[i].kind != kind || refs[i].scope != scope || refs[i].id !in index {
        assert Ids(refs)[i] in Elements(Ids(refs));
        return false;
      }
    }
    return true;
  }

  // ---- the loop over members ----

  /** Every member of the semantics document agrees with the outer one of its name. */
  predicate MembersAgree(s: Semantics, outer: map<string, OuterMember>, artifacts: set<string>) {
    forall i :: 0 <= i < |s.members| ==>
      s.members[i].id in outer && MemberAgrees(s.members[i], outer[s.members[i].id], s.id, artifacts)
  }

  method CheckMember(m: SourceMember, outer: OuterMember, scope: string, artifacts: set<string>) returns (ok: bool)
    ensures ok <==> MemberAgrees(m, outer, scope, artifacts)
  {
    var same := SameStringSet(Ids(m.artifactRefs), outer.artifacts);
    if m.signal != outer.signal || m.affected != outer.affected || m.terminal != FromCheckGeneration(outer.terminal) ||
        !same {
      return false;
    }
    if Positive(m.terminal) != (|m.artifactRefs| > 0) {
      return false;
    }
    ok := AllKnown(m.artifactRefs, Kind.SourceArtifact, scope, artifacts);
  }

  method CheckMembers(s: Semantics, outer: map<string, OuterMember>, artifacts: set<string>) returns (ok: bool)
    requires forall i :: 0 <= i < |s.members| ==> s.members[i].id in outer
    ensures ok <==> MembersAgree(s, outer, artifacts)
  {
    for i := 0 to |s.members|
      invariant forall j :: 0 <= j < i ==> MemberAgrees(s.members[j], outer[s.members[j].id], s.id, artifacts)
    {
      var agrees := CheckMember(s.members[i], outer[s.members[i].id], s.id, artifacts);
      if !agrees {
        return false;
      }
    }
    return true;
  }

  // ---- the loop over artifacts ----

  predicate ArtifactsAgree(s: Semantics, outer: map<string, OuterArtifact>, members: set<string>,
                           components: set<string>, obligations: set<string>) {
    forall i :: 0 <= i < |s.artifacts| ==>
      s.artifacts[i].id in outer && ArtifactAgrees(s.artifacts[i], outer[s.artifacts[i].id], s.id, members, components,
          obligations)
  }

  method CheckArtifact(a: SourceArtifact, outer: OuterArtifact, scope: string, members: set<string>,
                       components: set<string>, obligations: set<string>)
    returns (ok: bool)
    ensures ok <==> ArtifactAgrees(a, outer, scope, members, components, obligations)
  {
    var sameSignals := SameStringSet(a.signals, outer.signals);
    var sameAffected := SameStringSet(a.affected, outer.affected);
    var sameMembers := SameStringSet(Ids(a.memberRefs), outer.members);
    if a.kind != outer.kind || !sameSignals || !sameAffected || !sameMembers {
      return false;
    }
    var known := AllKnown(a.memberRefs, Kind.SourceMember, scope, members);
    if !known || !a.contentAgrees {
      return false;
    }
    match outer.use {
      case None => return true;
      case Some(use) =>
        if use.semanticsId != scope {
          return false;
        }
        var sameComponents := AllIn(use.components, components);
        var sameObligations := AllIn(use.obligations, obligations);
        return sameComponents && sameObligations;
    }
  }

  method AllIn(names: seq<string>, index: set<string>) returns (ok: bool)
    ensures ok <==> Elements(names) <= index
  {
    for i := 0 to |names|
      invariant forall j :: 0 <= j < i ==> names[j] in index
    {
      if names[i] !in index {
        assert names[i] in Elements(names);
        return false;
      }
    }
    return true;
  }

  /** The outer artifacts that the document's artifacts name, in its order. */
  function OuterOf(s: Semantics, outer: map<string, OuterArtifact>): (r: seq<OuterArtifact>)
    requires forall i :: 0 <= i < |s.artifacts| ==> s.artifacts[i].id in outer
    ensures |r| == |s.artifacts| && forall i :: 0 <= i < |r| ==> r[i] == outer[s.artifacts[i].id]
  {
    seq(|s.artifacts|, i requires 0 <= i < |s.artifacts| => outer[s.artifacts[i].id])
  }

  datatype Uses = Uses(components: set<string>, obligations: set<string>, artifacts: set<string>)

  /** What the semantics references of a list of artifacts name, all together. */
  function UsesOf(list: seq<OuterArtifact>): Uses {
    Uses(UnionOf(list, UsedComponents), UnionOf(list, UsedObligations), UnionOf(list, UsingArtifact))
  }

  lemma NextUse(list: seq<OuterArtifact>, i: nat)
    requires i < |list|
    ensures var now, a := UsesOf(list[..i]), list[i];
            UsesOf(list[..i + 1]) == Uses(now.components + UsedComponents(a), now.obligations + UsedObligations(a),
                now.artifacts + UsingArtifact(a))
  {
    assert list[..i + 1][..i] == list[..i];
  }

  method ScanArtifacts(artifacts: seq<SourceArtifact>, outer: seq<OuterArtifact>, scope: string,
                       members: set<string>, components: set<string>, obligations: set<string>)
    returns (uses: Option<Uses>)
    requires |artifacts| == |outer|
    ensures uses.Some? <==>
            forall i :: 0 <= i < |artifacts| ==>
                ArtifactAgrees(artifacts[i], outer[i], scope, members, components, obligations)
    ensures uses.Some? ==> uses.value == UsesOf(outer)
  {
    var all := Uses({}, {}, {});
    for i := 0 to |artifacts|
      invariant forall j :: 0 <= j < i ==> ArtifactAgrees(artifacts[j], outer[j], scope, members, components,
              obligations)
      invariant all == UsesOf(outer[..i])
    {
      var agrees := CheckArtifact(artifacts[i], outer[i], scope, members, components, obligations);
      if !agrees {
        return None;
      }
      NextUse(outer, i);
      if outer[i].use.Some? {
        all := Uses(all.components + Elements(outer[i].use.value.components),
                    all.obligations + Elements(outer[i].use.value.obligations),
                    all.artifacts + {outer[i].id});
      }
    }
    assert outer[..|artifacts|] == outer;
    return Some(all);
  }

  method CheckArtifacts(s: Semantics, outer: map<string, OuterArtifact>, members: set<string>, components: set<string>,
                        obligations: set<string>)
    returns (uses: Option<Uses>)
    requires forall i :: 0 <= i < |s.artifacts| ==> s.artifacts[i].id in outer
    ensures uses.Some? <==> ArtifactsAgree(s, outer, members, components, obligations)
    ensures uses.Some? ==> uses.value == UsesOf(OuterOf(s, outer))
  {
    uses := ScanArtifacts(s.artifacts, OuterOf(s, outer), s.id, members, components, obligations);
  }

  // ---- the loop over test inputs ----

  predicate InputsAgree(s: Semantics, outer: map<string, OuterInput>, members: set<string>, artifacts: set<string>) {
    forall i :: 0 <= i < |s.inputs| ==>
      s.inputs[i].id in outer && InputAgrees(s.inputs[i], outer[s.inputs[i].id], s.id, members, artifacts)
  }

  datatype Account = Account(members: set<string>, artifacts: set<string>, inputs: set<string>)

  method CheckInput(i: TestInput, outer: OuterInput, scope: string, members: set<string>, artifacts: set<string>)
    returns (ok: bool)
    ensures ok <==> InputAgrees(i, outer, scope, members, artifacts)
  {
    var same := SameStringSet(Ids(i.memberRefs), outer.members);
    if i.artifactRef.kind != Kind.SourceArtifact || i.artifactRef.scope != scope || i.artifactRef.id !in artifacts
       || i.artifactRef.id != outer.artifact || !same {
      return false;
    }
    ok := AllKnown(i.memberRefs, Kind.SourceMember, scope, members);
  }

  /** What test inputs represent, all together. */
  function Represented(inputs: seq<TestInput>): Account {
    Account(UnionOf(inputs, InputMembers), UnionOf(inputs, InputArtifact), UnionOf(inputs, InputItself))
  }

  lemma NextInput(inputs: seq<TestInput>, k: nat)
    requires k < |inputs|
    ensures var now, i := Represented(inputs[..k]), inputs[k];
            Represented(inputs[..k + 1])
            == Account(now.members + Elements(Ids(i.memberRefs)), now.artifacts + {i.artifactRef.id},
                now.inputs + {i.id})
  {
    assert inputs[..k + 1][..k] == inputs[..k];
  }

  /** The outer inputs that the document's inputs name, in its order. */
  function OuterInputsOf(s: Semantics, outer: map<string, OuterInput>): (r: seq<OuterInput>)
    requires forall i :: 0 <= i < |s.inputs| ==> s.inputs[i].id in outer
    ensures |r| == |s.inputs| && forall i :: 0 <= i < |r| ==> r[i] == outer[s.inputs[i].id]
  {
    seq(|s.inputs|, i requires 0 <= i < |s.inputs| => outer[s.inputs[i].id])
  }

  method ScanInputs(inputs: seq<TestInput>, outer: seq<OuterInput>, scope: string, members: set<string>,
                    artifacts: set<string>)
    returns (represented: Option<Account>)
    requires |inputs| == |outer|
    ensures represented.Some? <==> forall i :: 0 <= i < |inputs| ==>
            InputAgrees(inputs[i], outer[i], scope, members, artifacts)
    ensures represented.Some? ==> represented.value == Represented(inputs)
  {
    var all := Account({}, {}, {});
    for k := 0 to |inputs|
      invariant forall j :: 0 <= j < k ==> InputAgrees(inputs[j], outer[j], scope, members, artifacts)
      invariant all == Represented(inputs[..k])
    {
      var i := inputs[k];
      var agrees := CheckInput(i, outer[k], scope, members, artifacts);
      if !agrees {
        return None;
      }
      NextInput(inputs, k);
      all := Account(all.members + Elements(Ids(i.memberRefs)), all.artifacts + {i.artifactRef.id},
          all.inputs + {i.id});
    }
    assert inputs[..|inputs|] == inputs;
    return Some(all);
  }

  method CheckInputs(s: Semantics, outer: map<string, OuterInput>, members: set<string>, artifacts: set<string>)
    returns (represented: Option<Account>)
    requires forall i :: 0 <= i < |s.inputs| ==> s.inputs[i].id in outer
    ensures represented.Some? <==> InputsAgree(s, outer, members, artifacts)
    ensures represented.Some? ==> represented.value == Represented(s.inputs)
  {
    represented := ScanInputs(s.inputs, OuterInputsOf(s, outer), s.id, members, artifacts);
  }

  // ---- the loop over unsupported dimensions ----

  predicate DimensionsAreValid(s: Semantics, members: set<string>, artifacts: set<string>, inputs: set<string>) {
    forall i :: 0 <= i < |s.dimensions| ==> DimensionIsValid(s.dimensions[i], s.id, members, artifacts, inputs)
  }

  method CheckDimension(d: Dimension, scope: string, members: set<string>, artifacts: set<string>, inputs: set<string>)
    returns (ok: bool)
    ensures ok <==> DimensionIsValid(d, scope, members, artifacts, inputs)
  {
    if d.dimension == "" || d.reason == "" || d.memberRefs == [] {
      return false;
    }
    var knownMembers := AllKnown(d.memberRefs, Kind.SourceMember, scope, members);
    var knownArtifacts := AllKnown(d.artifactRefs, Kind.SourceArtifact, scope, artifacts);
    var knownInputs := AllKnown(d.inputRefs, Kind.TestInput, scope, inputs);
    return knownMembers && knownArtifacts && knownInputs;
  }

  /** What unsupported dimensions account for, all together. */
  function Unsupported(dimensions: seq<Dimension>): Account {
    Account(UnionOf(dimensions, DimensionMembers), UnionOf(dimensions, DimensionArtifacts),
        UnionOf(dimensions, DimensionInputs))
  }

  lemma NextDimension(dimensions: seq<Dimension>, k: nat)
    requires k < |dimensions|
    ensures var now, d := Unsupported(dimensions[..k]), dimensions[k];
            Unsupported(dimensions[..k + 1])
            == Account(now.members + Elements(Ids(d.memberRefs)), now.artifacts + Elements(Ids(d.artifactRefs)),
                now.inputs + Elements(Ids(d.inputRefs)))
  {
    assert dimensions[..k + 1][..k] == dimensions[..k];
  }

  method CheckDimensions(s: Semantics, members: set<string>, artifacts: set<string>, inputs: set<string>)
    returns (unsupported: Option<Account>)
    ensures unsupported.Some? <==> DimensionsAreValid(s, members, artifacts, inputs)
    ensures unsupported.Some? ==> unsupported.value == Unsupported(s.dimensions)
  {
    var dimensions := s.dimensions;
    var all := Account({}, {}, {});
    for k := 0 to |dimensions|
      invariant forall j :: 0 <= j < k ==> DimensionIsValid(dimensions[j], s.id, members, artifacts, inputs)
      invariant all == Unsupported(dimensions[..k])
    {
      var d := dimensions[k];
      var valid := CheckDimension(d, s.id, members, artifacts, inputs);
      if !valid {
        return None;
      }
      NextDimension(dimensions, k);
      all := Account(all.members + Elements(Ids(d.memberRefs)), all.artifacts + Elements(Ids(d.artifactRefs)),
          all.inputs + Elements(Ids(d.inputRefs)));
    }
    assert dimensions[..|dimensions|] == dimensions;
    return Some(all);
  }

  // ---- the loop over obligations ----

  function WorkKey(obligation: string, input: string): string { obligation + [NUL] + input }

  /** The keys under which an obligation's assignments are remembered. */
  function WorkKeys(o: Obligation): (keys: seq<string>)
    ensures |keys| == |o.inputRefs| && forall i :: 0 <= i < |keys| ==> keys[i] == WorkKey(o.id, o.inputRefs[i].id)
  {
    seq(|o.inputRefs|, i requires 0 <= i < |o.inputRefs| => WorkKey(o.id, o.inputRefs[i].id))
  }

  function AllWorkKeys(os: seq<Obligation>): seq<string> {
    if os == [] then [] else AllWorkKeys(os[..|os| - 1]) + WorkKeys(os[|os| - 1])
  }

  predicate AllExact(os: seq<Obligation>, d: Coverage.Document, inputs: set<string>) {
    Keyed(os, ObligationId) && forall i :: 0 <= i < |os| ==> ObligationIsExact(os[i], d, inputs)
  }

  predicate ObligationsAreExact(s: Semantics, inputs: set<string>) {
    AllExact(s.obligations, CoverageOf(s), inputs) && Distinct(AllWorkKeys(s.obligations))
  }

  lemma NotDistinct(a: seq<string>, x: string, b: seq<string>)
    requires x in a
    ensures !Distinct(a + [x] + b)
  {
    var i :| 0 <= i < |a| && a[i] == x;
    assert (a + [x] + b)[i] == (a + [x] + b)[|a|];
  }

  lemma DistinctPrefix(a: seq<string>, b: seq<string>)
    requires Distinct(a + b)
    ensures Distinct(a)
  {
    assert forall i :: 0 <= i < |a| ==> a[i] == (a + b)[i];
  }

  lemma NextKey(before: seq<string>, keys: seq<string>, i: nat)
    requires i < |keys|
    ensures before + keys[..i + 1] == before + keys[..i] + [keys[i]]
  {
  }

  lemma RepeatedAssignment(before: seq<string>, keys: seq<string>, i: nat)
    requires i < |keys| && keys[i] in before + keys[..i]
    ensures !Distinct(before + keys)
  {
    NotDistinct(before + keys[..i], keys[i], keys[i + 1..]);
    assert before + keys == before + keys[..i] + [keys[i]] + keys[i + 1..];
  }

  /** The inner loop: the assignments of one obligation, on top of those before it. */
  method AssignInputs(o: Obligation, scope: string, inputs: set<string>, work: set<string>, ghost before: seq<string>)
    returns (after: Option<set<string>>)
    requires Distinct(before) && work == Elements(before)
    ensures after.Some? <==> Known(o.inputRefs, Kind.TestInput, scope, inputs) && Distinct(before + WorkKeys(o))
    ensures after.Some? ==> after.value == Elements(before + WorkKeys(o))
  {
    var seen := work;
    ghost var keys := before;
    for i := 0 to |o.inputRefs|
      invariant keys == before + WorkKeys(o)[..i]
      invariant Distinct(keys) && seen == Elements(keys)
      invariant forall j :: 0 <= j < i ==> o.inputRefs[j].kind == Kind.TestInput && o.inputRefs[j].scope == scope
      invariant forall j :: 0 <= j < i ==> o.inputRefs[j].id in inputs
    {
      var ref := o.inputRefs[i];
      if ref.kind != Kind.TestInput || ref.scope != scope || ref.id !in inputs {
        assert Ids(o.inputRefs)[i] in Elements(Ids(o.inputRefs));
        return None;
      }
      var key := WorkKey(o.id, ref.id);
      if key in seen {
        RepeatedAssignment(before, WorkKeys(o), i);
        return None;
      }
      DistinctExtend(keys, key);
      NextKey(before, WorkKeys(o), i);
      seen := seen + {key};
      keys := keys + [key];
    }
    assert WorkKeys(o)[..|o.inputRefs|] == WorkKeys(o);
    return Some(seen);
  }

  lemma {:induction false} DistinctWork(os: seq<Obligation>, k: nat)
    requires k <= |os| && Distinct(AllWorkKeys(os))
    ensures Distinct(AllWorkKeys(os[..k]))
  {
    if k == |os| {
      assert os[..k] == os;
    } else {
      var n := |os| - 1;
      DistinctPrefix(AllWorkKeys(os[..n]), WorkKeys(os[n]));
      DistinctWork(os[..n], k);
      assert os[..n][..k] == os[..k];
    }
  }

  /** A clash stays a clash however many obligations follow. */
  lemma AllWorkKeysPrefix(os: seq<Obligation>, i: nat)
    requires i < |os| && !Distinct(AllWorkKeys(os[..i]) + WorkKeys(os[i]))
    ensures !Distinct(AllWorkKeys(os))
  {
    assert os[..i + 1][..i] == os[..i];
    if Distinct(AllWorkKeys(os)) {
      DistinctWork(os, i + 1);
    }
  }

  method CheckObligation(o: Obligation, s: Semantics, inputs: set<string>, work: set<string>, ghost before: seq<string>)
    returns (after: Option<set<string>>)
    requires Distinct(before) && work == Elements(before)
    ensures after.Some? <==> ObligationIsExact(o, CoverageOf(s), inputs) && Distinct(before + WorkKeys(o))
    ensures after.Some? ==> after.value == Elements(before + WorkKeys(o))
  {
    if !o.required {
      return None;
    }
    var expected := Coverage.CoverageRequirements(o.coverage, CoverageOf(s));
    if expected.Refused? {
      return None;
    }
    after := AssignInputs(o, s.id, inputs, work, before);
    if after.Some? {
      var same := SameStringSet(Ids(o.inputRefs), expected.inputs);
      if !same {
        return None;
      }
    }
  }

  method CheckObligations(s: Semantics, inputs: set<string>) returns (ok: bool)
    ensures ok <==> ObligationsAreExact(s, inputs)
  {
    ghost var d := CoverageOf(s);
    var os := s.obligations;
    var names: set<string> := {};
    var work: set<string> := {};
    ghost var before: seq<string> := [];
    for i := 0 to |os|
      invariant AllExact(os[..i], d, inputs) && names == Elements(Names(os[..i], ObligationId))
      invariant before == AllWorkKeys(os[..i]) && Distinct(before) && work == Elements(before)
    {
      var o := os[i];
      if o.id == "" || o.id in names {
        RepeatedObligation(os, i);
        return false;
      }
      var after := CheckObligation(o, s, inputs, work, before);
      if after.None? {
        RefusedObligation(os, i, d, inputs);
        return false;
      }
      NextObligation(os, i, d, inputs);
      before, work, names := before + WorkKeys(o), after.value, names + {o.id};
    }
    assert os[..|os|] == os;
    return true;
  }

  lemma RefusedObligation(os: seq<Obligation>, i: nat, d: Coverage.Document, inputs: set<string>)
    requires i < |os| && !(ObligationIsExact(os[i], d, inputs) && Distinct(AllWorkKeys(os[..i]) + WorkKeys(os[i])))
    ensures !(AllExact(os, d, inputs) && Distinct(AllWorkKeys(os)))
  {
    if !Distinct(AllWorkKeys(os[..i]) + WorkKeys(os[i])) {
      AllWorkKeysPrefix(os, i);
    }
  }

  lemma NextObligation(os: seq<Obligation>, i: nat, d: Coverage.Document, inputs: set<string>)
    requires i < |os| && AllExact(os[..i], d, inputs) && ObligationIsExact(os[i], d, inputs)
    requires os[i].id != "" && os[i].id !in Elements(Names(os[..i], ObligationId))
    ensures AllExact(os[..i + 1], d, inputs)
    ensures Elements(Names(os[..i + 1], ObligationId)) == Elements(Names(os[..i], ObligationId)) + {os[i].id}
    ensures AllWorkKeys(os[..i + 1]) == AllWorkKeys(os[..i]) + WorkKeys(os[i])
  {
    NextKeyed(os, ObligationId, i);
    NextExact(os, i, d, inputs);
    NextWorkKeys(os, i);
  }

  lemma NextExact(os: seq<Obligation>, i: nat, d: Coverage.Document, inputs: set<string>)
    requires i < |os| && AllExact(os[..i], d, inputs) && ObligationIsExact(os[i], d, inputs)
    ensures var next := os[..i + 1]; forall j :: 0 <= j < |next| ==> ObligationIsExact(next[j], d, inputs)
  {
    var next := os[..i + 1];
    forall j | 0 <= j < |next| ensures ObligationIsExact(next[j], d, inputs) {
      assert j < i ==> next[j] == os[..i][j];
    }
  }

  lemma NextWorkKeys(os: seq<Obligation>, i: nat)
    requires i < |os|
    ensures AllWorkKeys(os[..i + 1]) == AllWorkKeys(os[..i]) + WorkKeys(os[i])
  {
    assert os[..i + 1][..i] == os[..i];
  }

  lemma RepeatedObligation(os: seq<Obligation>, i: nat)
    requires i < |os| && (os[i].id == "" || os[i].id in Elements(Names(os[..i], ObligationId)))
    ensures !Keyed(os, ObligationId)
  {
    RepeatedKey(os, ObligationId, i);
  }

  ghost predicate Owned(os: seq<Obligation>, k: string) {
    exists i, x :: 0 <= i < |os| && k == WorkKey(os[i].id, x)
  }

  lemma OwnedLater(os: seq<Obligation>, k: string)
    requires os != [] && (Owned(os[..|os| - 1], k) || k in WorkKeys(os[|os| - 1]))
    ensures Owned(os, k)
  {
    var n := |os| - 1;
    if Owned(os[..n], k) {
      var i, x :| 0 <= i < n && k == WorkKey(os[..n][i].id, x);
      assert k == WorkKey(os[i].id, x);
    } else {
      var j :| 0 <= j < |WorkKeys(os[n])| && WorkKeys(os[n])[j] == k;
      assert k == WorkKey(os[n].id, os[n].inputRefs[j].id);
    }
  }

  /** With obligation names free of the separator the duplicate test never refuses an
      assignment that the comparison with the coverage closure accepts. */
  lemma {:induction false} WorkKeysNeverClash(os: seq<Obligation>, d: Coverage.Document, inputs: set<string>)
    requires Keyed(os, ObligationId)
    requires forall i :: 0 <= i < |os| ==> NUL !in os[i].id && ObligationIsExact(os[i], d, inputs)
    ensures Distinct(AllWorkKeys(os)) && forall k :: k in AllWorkKeys(os) ==> Owned(os, k)
  {
    if os != [] {
      var n := |os| - 1;
      var o := os[n];
      assert forall i :: 0 <= i < n ==> os[..n][i] == os[i];
      WorkKeysNeverClash(os[..n], d, inputs);
      OwnKeysAreDistinct(o, d, inputs);
      forall k | k in AllWorkKeys(os[..n]) ensures k !in WorkKeys(o) {
        var i, x :| 0 <= i < n && k == WorkKey(os[..n][i].id, x);
        OtherKey(os[i], o, x);
      }
      DistinctUnion(AllWorkKeys(os[..n]), WorkKeys(o));
      forall k | k in AllWorkKeys(os) ensures Owned(os, k) {
        OwnedLater(os, k);
      }
    }
  }

  lemma OtherKey(o: Obligation, p: Obligation, x: string)
    requires NUL !in o.id && NUL !in p.id && o.id != p.id
    ensures WorkKey(o.id, x) !in WorkKeys(p)
  {
    if WorkKey(o.id, x) in WorkKeys(p) {
      var j :| 0 <= j < |WorkKeys(p)| && WorkKeys(p)[j] == WorkKey(o.id, x);
      FirstSeparator(o.id, p.id, x, p.inputRefs[j].id, NUL);
    }
  }

  lemma OwnKeysAreDistinct(o: Obligation, d: Coverage.Document, inputs: set<string>)
    requires NUL !in o.id && ObligationIsExact(o, d, inputs)
    ensures Distinct(WorkKeys(o))
  {
    ListsASet(Ids(o.inputRefs), Coverage.Requirements(o.coverage, d).inputs);
    forall i, j | 0 <= i < j < |o.inputRefs| ensures WorkKeys(o)[i] != WorkKeys(o)[j] {
      assert Ids(o.inputRefs)[i] != Ids(o.inputRefs)[j];
      if WorkKeys(o)[i] == WorkKeys(o)[j] {
        FirstSeparator(o.id, o.id, o.inputRefs[i].id, o.inputRefs[j].id, NUL);
      }
    }
  }

  lemma DistinctUnion(a: seq<string>, b: seq<string>)
    requires Distinct(a) && Distinct(b) && forall x :: x in a ==> x !in b
    ensures Distinct(a + b)
  {
    forall i, j | 0 <= i < j < |a + b| ensures (a + b)[i] != (a + b)[j] {
      assert i < |a| ==> (a + b)[i] in a;
      assert j >= |a| ==> (a + b)[j] in b;
    }
  }

  // ---- the whole document ----

  function MemberNames(s: Semantics): set<string> { Elements(Names(s.members, MemberId)) }
  function ArtifactNames(s: Semantics): set<string> { Elements(Names(s.artifacts, ArtifactId)) }
  function InputNames(s: Semantics): set<string> { Elements(Names(s.inputs, InputId)) }
  function ComponentNames(s: Semantics): set<string> { Elements(Names(s.components, Coverage.ComponentId)) }
  function ObligationNames(s: Semantics): set<string> { Elements(Names(s.obligations, ObligationId)) }

  /** Every list names its items apart, and the semantics document has the members and
      artifacts of the check result, neither fewer nor more, and none but its inputs. */
  predicate Named(cg: CheckResult, s: Semantics) {
    Keyed(cg.members, OuterMemberId) && Keyed(cg.artifacts, OuterArtifactId) && Keyed(cg.inputs, OuterInputId) &&
    Keyed(s.members, MemberId) && Keyed(s.artifacts, ArtifactId) && Keyed(s.inputs, InputId) &&
        Keyed(s.components, Coverage.ComponentId) &&
    MemberNames(s) == Elements(Names(cg.members, OuterMemberId)) && |s.members| == s.memberCount &&
    ArtifactNames(s) == Elements(Names(cg.artifacts, OuterArtifactId)) && |s.artifacts| == s.artifactCount &&
    InputNames(s) <= Elements(Names(cg.inputs, OuterInputId))
  }

  function OuterMembers(cg: CheckResult): map<string, OuterMember> { IndexOf(cg.members, OuterMemberId) }
  function OuterArtifacts(cg: CheckResult): map<string, OuterArtifact> { IndexOf(cg.artifacts, OuterArtifactId) }
  function OuterInputs(cg: CheckResult): map<string, OuterInput> { IndexOf(cg.inputs, OuterInputId) }

  /** Every item agrees with the one it came from. */
  predicate Derived(cg: CheckResult, s: Semantics) {
    MembersAgree(s, OuterMembers(cg), ArtifactNames(s)) &&
    ArtifactsAgree(s, OuterArtifacts(cg), MemberNames(s), ComponentNames(s), ObligationNames(s)) &&
    InputsAgree(s, OuterInputs(cg), MemberNames(s), ArtifactNames(s))
  }

  /** No component and no obligation is without a source artifact. */
  predicate Grounded(cg: CheckResult, s: Semantics)
    requires Derived(cg, s)
  {
    UnionOf(OuterOf(s, OuterArtifacts(cg)), UsedComponents) == ComponentNames(s) &&
    UnionOf(OuterOf(s, OuterArtifacts(cg)), UsedObligations) == ObligationNames(s)
  }

  /** Members, artifacts and outer inputs are each either represented or unsupported, never
      both; an artifact is represented exactly when it carries a semantics reference. */
  predicate Partitioned(cg: CheckResult, s: Semantics)
    requires Derived(cg, s)
  {
    Splits(UnionOf(s.inputs, InputMembers), UnionOf(s.dimensions, DimensionMembers), MemberNames(s)) &&
    Splits(UnionOf(s.inputs, InputArtifact), UnionOf(s.dimensions, DimensionArtifacts), ArtifactNames(s)) &&
    Splits(UnionOf(s.inputs, InputItself), UnionOf(s.dimensions, DimensionInputs),
        Elements(Names(cg.inputs, OuterInputId))) &&
    UnionOf(s.inputs, InputArtifact) == UnionOf(OuterOf(s, OuterArtifacts(cg)), UsingArtifact)
  }

  predicate Complete(cg: CheckResult, s: Semantics) {
    Named(cg, s) && Derived(cg, s) && Grounded(cg, s) &&
    ObligationsAreExact(s, InputNames(s)) &&
    DimensionsAreValid(s, MemberNames(s), ArtifactNames(s), Elements(Names(cg.inputs, OuterInputId))) &&
    Partitioned(cg, s)
  }

  /** The counting test of the source decides the split. */
  method CheckPartition(represented: set<string>, unsupported: set<string>, whole: set<string>) returns (ok: bool)
    requires represented <= whole && unsupported <= whole
    ensures ok <==> Splits(represented, unsupported, whole)
  {
    ok := represented !! unsupported && |represented| + |unsupported| == |whole|;
    if ok {
      PartsFillTheWhole(represented, unsupported, whole);
    } else if represented !! unsupported {
      assert |represented + unsupported| == |represented| + |unsupported|;
    }
  }

  /** sameKeys after the two counts. */
  method SameNames(inner: set<string>, outer: set<string>) returns (ok: bool)
    ensures ok <==> inner == outer
  {
    if |inner| != |outer| {
      return false;
    }
    var rest := inner;
    while rest != {}
      invariant rest <= inner && inner - rest <= outer
    {
      var name :| name in rest;
      if name !in outer {
        return false;
      }
      rest := rest - {name};
    }
    SubsetOfEqualSize(inner, outer);
    return true;
  }

  method CheckNames(cg: CheckResult, s: Semantics) returns (ok: bool)
    ensures ok <==> Named(cg, s)
  {
    var outerMembers := Index(cg.members, OuterMemberId);
    var outerArtifacts := Index(cg.artifacts, OuterArtifactId);
    var outerInputs := Index(cg.inputs, OuterInputId);
    if outerMembers.None? || outerArtifacts.None? || outerInputs.None? {
      return false;
    }
    var members := Index(s.members, MemberId);
    var artifacts := Index(s.artifacts, ArtifactId);
    var inputs := Index(s.inputs, InputId);
    if members.None? || artifacts.None? || inputs.None? {
      return false;
    }
    IndexedNames(cg.members, OuterMemberId);
    IndexedNames(cg.artifacts, OuterArtifactId);
    IndexedNames(cg.inputs, OuterInputId);
    IndexedNames(s.members, MemberId);
    IndexedNames(s.artifacts, ArtifactId);
    IndexedNames(s.inputs, InputId);
    IndexSize(s.members, MemberId);
    IndexSize(s.artifacts, ArtifactId);
    var sameMembers := SameNames(members.value.Keys, outerMembers.value.Keys);
    var sameArtifacts := SameNames(artifacts.value.Keys, outerArtifacts.value.Keys);
    if !sameMembers || |members.value| != s.memberCount || !sameArtifacts || |artifacts.value| != s.artifactCount
       || !(inputs.value.Keys <= outerInputs.value.Keys) {
      return false;
    }
    var components := Index(s.components, Coverage.ComponentId);
    return components.Some?;
  }

  // ---- validateSharedCompleteness ----

  lemma NamesAreIndexed(cg: CheckResult, s: Semantics)
    requires Named(cg, s)
    ensures forall i :: 0 <= i < |s.members| ==> s.members[i].id in OuterMembers(cg)
    ensures forall i :: 0 <= i < |s.artifacts| ==> s.artifacts[i].id in OuterArtifacts(cg)
    ensures forall i :: 0 <= i < |s.inputs| ==> s.inputs[i].id in OuterInputs(cg)
  {
    IndexedNames(cg.members, OuterMemberId);
    IndexedNames(cg.artifacts, OuterArtifactId);
    IndexedNames(cg.inputs, OuterInputId);
    assert forall i :: 0 <= i < |s.members| ==> Names(s.members, MemberId)[i] in MemberNames(s);
    assert forall i :: 0 <= i < |s.artifacts| ==> Names(s.artifacts, ArtifactId)[i] in ArtifactNames(s);
    assert forall i :: 0 <= i < |s.inputs| ==> Names(s.inputs, InputId)[i] in InputNames(s);
  }

  lemma UnionInside<T>(items: seq<T>, part: T -> set<string>, whole: set<string>)
    requires forall i :: 0 <= i < |items| ==> part(items[i]) <= whole
    ensures UnionOf(items, part) <= whole
  {
    forall x | x in UnionOf(items, part) ensures x in whole {
      InUnion(items, part, x);
    }
  }

  lemma {:induction false} UnionOfNames(inputs: seq<TestInput>)
    ensures UnionOf(inputs, InputItself) == Elements(Names(inputs, InputId))
  {
    if inputs != [] {
      UnionOfNames(inputs[..|inputs| - 1]);
      NamesOfPrefix(inputs, InputId);
    }
  }

  /** Every part of an account lies inside what it accounts for. */
  lemma RepresentedInside(cg: CheckResult, s: Semantics)
    requires Named(cg, s) && Derived(cg, s)
    ensures UnionOf(s.inputs, InputMembers) <= MemberNames(s)
    ensures UnionOf(s.inputs, InputArtifact) <= ArtifactNames(s)
    ensures UnionOf(s.inputs, InputItself) <= Elements(Names(cg.inputs, OuterInputId))
  {
    UnionInside(s.inputs, InputMembers, MemberNames(s));
    UnionInside(s.inputs, InputArtifact, ArtifactNames(s));
    UnionOfNames(s.inputs);
  }

  lemma UnsupportedInside(s: Semantics, members: set<string>, artifacts: set<string>, inputs: set<string>)
    requires DimensionsAreValid(s, members, artifacts, inputs)
    ensures UnionOf(s.dimensions, DimensionMembers) <= members
    ensures UnionOf(s.dimensions, DimensionArtifacts) <= artifacts
    ensures UnionOf(s.dimensions, DimensionInputs) <= inputs
  {
    UnionInside(s.dimensions, DimensionMembers, members);
    UnionInside(s.dimensions, DimensionArtifacts, artifacts);
    UnionInside(s.dimensions, DimensionInputs, inputs);
  }

  lemma UsesInside(cg: CheckResult, s: Semantics)
    requires Named(cg, s) && Derived(cg, s)
    ensures UnionOf(OuterOf(s, OuterArtifacts(cg)), UsingArtifact) <= ArtifactNames(s)
  {
    var list := OuterOf(s, OuterArtifacts(cg));
    forall i | 0 <= i < |list| ensures list[i].id in ArtifactNames(s) {
      OuterHasItsName(cg, s.artifacts[i].id);
      assert Names(s.artifacts, ArtifactId)[i] in ArtifactNames(s);
    }
    UnionInside(list, UsingArtifact, ArtifactNames(s));
  }

  lemma UsedNamesInside(cg: CheckResult, s: Semantics)
    requires ArtifactsAgree(s, OuterArtifacts(cg), MemberNames(s), ComponentNames(s), ObligationNames(s))
    ensures var list := OuterOf(s, OuterArtifacts(cg));
            UnionOf(list, UsedComponents) <= ComponentNames(s) && UnionOf(list, UsedObligations) <= ObligationNames(s)
  {
    var list := OuterOf(s, OuterArtifacts(cg));
    assert forall i :: 0 <= i < |list| ==> ArtifactAgrees(s.artifacts[i], list[i], s.id, MemberNames(s),
        ComponentNames(s), ObligationNames(s));
    UnionInside(list, UsedComponents, ComponentNames(s));
    UnionInside(list, UsedObligations, ObligationNames(s));
  }

  /** Names known to be among others are all of them when there are as many. */
  method EveryOne(used: set<string>, names: set<string>) returns (ok: bool)
    requires used <= names
    ensures ok <==> used == names
  {
    ok := |used| == |names|;
    if ok {
      SubsetOfEqualSize(used, names);
    }
  }

  lemma OuterHasItsName(cg: CheckResult, id: string)
    requires Keyed(cg.artifacts, OuterArtifactId) && id in OuterArtifacts(cg)
    ensures OuterArtifacts(cg)[id].id == id
  {
    IndexedNames(cg.artifacts, OuterArtifactId);
    var i :| 0 <= i < |cg.artifacts| && Names(cg.artifacts, OuterArtifactId)[i] == id;
    IndexHolds(cg.artifacts, OuterArtifactId, i);
  }

  /** The last block: three partitions by counting, and the artifacts compared one by one. */
  method CheckPartitions(cg: CheckResult, s: Semantics, uses: set<string>, represented: Account, unsupported: Account)
    returns (ok: bool)
    requires Named(cg, s) && Derived(cg, s)
    requires DimensionsAreValid(s, MemberNames(s), ArtifactNames(s), Elements(Names(cg.inputs, OuterInputId)))
    requires uses == UnionOf(OuterOf(s, OuterArtifacts(cg)), UsingArtifact)
    requires represented == Represented(s.inputs) && unsupported == Unsupported(s.dimensions)
    ensures ok <==> Partitioned(cg, s)
  {
    var artifacts, outerInputs := ArtifactNames(s), Elements(Names(cg.inputs, OuterInputId));
    RepresentedInside(cg, s);
    UnsupportedInside(s, MemberNames(s), artifacts, outerInputs);
    UsesInside(cg, s);
    var members := CheckPartition(represented.members, unsupported.members, MemberNames(s));
    if !members {
      return false;
    }
    var sources := CheckPartition(represented.artifacts, unsupported.artifacts, artifacts);
    if !sources {
      return false;
    }
    if exists id :: id in artifacts && (id in represented.artifacts) != (id in uses) {
      return false;
    }
    assert represented.artifacts == uses;
    ok := CheckPartition(represented.inputs, unsupported.inputs, outerInputs);
  }

  /** validateSharedCompleteness: it accepts exactly the complete documents. */
  method ValidateCompleteness(cg: CheckResult, s: Semantics) returns (ok: bool)
    ensures ok <==> Complete(cg, s)
  {
    var named := CheckNames(cg, s);
    if !named {
      return false;
    }
    NamesAreIndexed(cg, s);
    var members := CheckMembers(s, OuterMembers(cg), ArtifactNames(s));
    if !members {
      return false;
    }
    var uses := CheckArtifacts(s, OuterArtifacts(cg), MemberNames(s), ComponentNames(s), ObligationNames(s));
    if uses.None? {
      return false;
    }
    UsedNamesInside(cg, s);
    var everyComponent := EveryOne(uses.value.components, ComponentNames(s));
    var everyObligation := EveryOne(uses.value.obligations, ObligationNames(s));
    if !everyComponent || !everyObligation {
      return false;
    }
    var represented := CheckInputs(s, OuterInputs(cg), MemberNames(s), ArtifactNames(s));
    if represented.None? {
      return false;
    }
    var obligations := CheckObligations(s, InputNames(s));
    if !obligations {
      return false;
    }
    var unsupported := CheckDimensions(s, MemberNames(s), ArtifactNames(s), Elements(Names(cg.inputs, OuterInputId)));
    if unsupported.None? {
      return false;
    }
    ok := CheckPartitions(cg, s, uses.value.artifacts, represented.value, unsupported.value);
  }

  // ---- what acceptance means ----

  /** In an accepted document an obligation asks for every test input its coverage
      reference reaches, once, and for no other. */
  lemma RequiredInputsAreTheClosure(cg: CheckResult, s: Semantics, i: nat, x: string)
    requires Complete(cg, s) && i < |s.obligations|
    ensures Distinct(Ids(s.obligations[i].inputRefs))
    ensures x in Ids(s.obligations[i].inputRefs) <==>
            Coverage.Covers(Coverage.GraphOf(CoverageOf(s)), s.obligations[i].coverage, x, true)
  {
    var o := s.obligations[i];
    assert ObligationIsExact(o, CoverageOf(s), InputNames(s));
    Coverage.RequirementsAreTheClosure(o.coverage, CoverageOf(s));
    ListsASet(Ids(o.inputRefs), Coverage.Requirements(o.coverage, CoverageOf(s)).inputs);
  }

  ghost predicate MemberIsTested(s: Semantics, m: string) {
    exists i :: 0 <= i < |s.inputs| && m in InputMembers(s.inputs[i])
  }

  ghost predicate MemberIsUnsupported(s: Semantics, m: string) {
    exists i :: 0 <= i < |s.dimensions| && m in DimensionMembers(s.dimensions[i])
  }

  /** Each source member is tested or declared unsupported, and never both. */
  lemma EveryMemberIsAccountedForOnce(cg: CheckResult, s: Semantics, i: nat)
    requires Complete(cg, s) && i < |s.members|
    ensures MemberIsTested(s, s.members[i].id) <==> !MemberIsUnsupported(s, s.members[i].id)
  {
    var m := s.members[i].id;
    assert Names(s.members, MemberId)[i] in MemberNames(s);
    InUnion(s.inputs, InputMembers, m);
    InUnion(s.dimensions, DimensionMembers, m);
  }

  ghost predicate ArtifactIsTested(s: Semantics, a: string) {
    exists i :: 0 <= i < |s.inputs| && s.inputs[i].artifactRef.id == a
  }

  ghost predicate ArtifactIsUnsupported(s: Semantics, a: string) {
    exists i :: 0 <= i < |s.dimensions| && a in DimensionArtifacts(s.dimensions[i])
  }

  lemma ArtifactAccounts(s: Semantics, a: string)
    ensures a in UnionOf(s.inputs, InputArtifact) <==> ArtifactIsTested(s, a)
    ensures a in UnionOf(s.dimensions, DimensionArtifacts) <==> ArtifactIsUnsupported(s, a)
  {
    InUnion(s.inputs, InputArtifact, a);
    InUnion(s.dimensions, DimensionArtifacts, a);
  }

  lemma UsingItself(cg: CheckResult, s: Semantics, i: nat)
    requires Named(cg, s) && Derived(cg, s) && i < |s.artifacts|
    ensures s.artifacts[i].id in OuterArtifacts(cg)
    ensures s.artifacts[i].id in UnionOf(OuterOf(s, OuterArtifacts(cg)), UsingArtifact)
            <==> OuterArtifacts(cg)[s.artifacts[i].id].use.Some?
  {
    var a, list := s.artifacts[i].id, OuterOf(s, OuterArtifacts(cg));
    InUnion(list, UsingArtifact, a);
    OuterHasItsName(cg, a);
    if a in UnionOf(list, UsingArtifact) {
      var k :| 0 <= k < |list| && a in UsingArtifact(list[k]);
      OuterHasItsName(cg, s.artifacts[k].id);
    }
  }

  /** Each source artifact is tested or declared unsupported, never both, and it is
      tested exactly when the check result gave it a semantics reference. */
  lemma EveryArtifactIsAccountedForOnce(cg: CheckResult, s: Semantics, i: nat)
    requires Complete(cg, s) && i < |s.artifacts|
    ensures s.artifacts[i].id in OuterArtifacts(cg)
    ensures ArtifactIsTested(s, s.artifacts[i].id) <==> !ArtifactIsUnsupported(s, s.artifacts[i].id)
    ensures ArtifactIsTested(s, s.artifacts[i].id) <==> OuterArtifacts(cg)[s.artifacts[i].id].use.Some?
  {
    var a := s.artifacts[i].id;
    assert Names(s.artifacts, ArtifactId)[i] in ArtifactNames(s);
    ArtifactAccounts(s, a);
    UsingItself(cg, s, i);
  }

  ghost predicate InputIsUnsupported(s: Semantics, x: string) {
    exists i :: 0 <= i < |s.dimensions| && x in DimensionInputs(s.dimensions[i])
  }

  /** Each test input of the check result is carried over or declared unsupported, and
      never both. */
  lemma EveryInputIsAccountedForOnce(cg: CheckResult, s: Semantics, i: nat)
    requires Complete(cg, s) && i < |cg.inputs|
    ensures cg.inputs[i].id in InputNames(s) <==> !InputIsUnsupported(s, cg.inputs[i].id)
  {
    var x := cg.inputs[i].id;
    assert Names(cg.inputs, OuterInputId)[i] in Elements(Names(cg.inputs, OuterInputId));
    UnionOfNames(s.inputs);
    InUnion(s.dimensions, DimensionInputs, x);
  }

  /** Each semantics component is named by the semantics reference of some source
      artifact... */
  lemma EveryComponentIsGrounded(cg: CheckResult, s: Semantics, i: nat) returns (a: nat)
    requires Complete(cg, s) && i < |s.components|
    ensures a < |s.artifacts| && s.artifacts[a].id in OuterArtifacts(cg)
    ensures s.components[i].id in UsedComponents(OuterArtifacts(cg)[s.artifacts[a].id])
  {
    assert Names(s.components, Coverage.ComponentId)[i] in ComponentNames(s);
    a := UserOf(OuterOf(s, OuterArtifacts(cg)), UsedComponents, s.components[i].id);
  }

  /** ... and so is each obligation. */
  lemma EveryObligationIsGrounded(cg: CheckResult, s: Semantics, i: nat) returns (a: nat)
    requires Complete(cg, s) && i < |s.obligations|
    ensures a < |s.artifacts| && s.artifacts[a].id in OuterArtifacts(cg)
    ensures s.obligations[i].id in UsedObligations(OuterArtifacts(cg)[s.artifacts[a].id])
  {
    assert Names(s.obligations, ObligationId)[i] in ObligationNames(s);
    a := UserOf(OuterOf(s, OuterArtifacts(cg)), UsedObligations, s.obligations[i].id);
  }

  lemma UserOf(list: seq<OuterArtifact>, part: OuterArtifact -> set<string>, x: string) returns (a: nat)
    requires x in UnionOf(list, part)
    ensures a < |list| && x in part(list[a])
  {
    InUnion(list, part, x);
    a :| 0 <= a < |list| && x in part(list[a]);
  }

  /** The rules without the test for repeated assignments. */
  predicate CompleteButForKeys(cg: CheckResult, s: Semantics) {
    Named(cg, s) && Derived(cg, s) && Grounded(cg, s) &&
    AllExact(s.obligations, CoverageOf(s), InputNames(s)) &&
    DimensionsAreValid(s, MemberNames(s), ArtifactNames(s), Elements(Names(cg.inputs, OuterInputId))) &&
    Partitioned(cg, s)
  }

  lemma StableKeysAreDistinct(s: Semantics, inputs: set<string>)
    requires forall i :: 0 <= i < |s.obligations| ==> StableId(s.obligations[i].id)
    ensures ObligationsAreExact(s, inputs) <==> AllExact(s.obligations, CoverageOf(s), inputs)
  {
    forall i | 0 <= i < |s.obligations| ensures NUL !in s.obligations[i].id {
      StableIdHasNoNul(s.obligations[i].id);
    }
    if AllExact(s.obligations, CoverageOf(s), inputs) {
      WorkKeysNeverClash(s.obligations, CoverageOf(s), inputs);
    }
  }

  /** With the obligation names that the semantics schema admits, the test for a repeated
      assignment is redundant: it refuses nothing that the other rules accept. */
  lemma DuplicateTestIsRedundant(cg: CheckResult, s: Semantics)
    requires forall i :: 0 <= i < |s.obligations| ==> StableId(s.obligations[i].id)
    ensures Complete(cg, s) <==> CompleteButForKeys(cg, s)
  {
    StableKeysAreDistinct(s, InputNames(s));
  }
}
