/** The coverage walk: which components a coverage reference reaches, with the cycle and
    ancestry checks made on the way. */
module Coverage {
  import opened Collections
  import opened SharedRefs

  datatype Component = Component(id: string, inputRefs: seq<Ref>, memberRefs: seq<Ref>)

  /** children is what the group covers, memberRefs the source members it declares. */
  datatype Group = Group(id: string, children: seq<Ref>, memberRefs: seq<Ref>)

  datatype Graph = Graph(scope: string, components: map<string, Component>, groups: map<string, Group>)

  datatype Fault =
    | DuplicateComponent | DuplicateGroup | ScopeDiffers | UnknownComponent | InputRefDiffers
    | SourceRefDiffers | Cycle | UnknownGroup | AncestryDiffers | KindDiffers

  datatype Outcome = Reached(inputs: set<string>, members: set<string>) | Failed(fault: Fault)

  // ---- the walk ----

  function Both(a: Outcome, b: Outcome): Outcome {
    if a.Failed? then a
    else if b.Failed? then b
    else Reached(a.inputs + b.inputs, a.members + b.members)
  }

  function WalkComponent(g: Graph, id: string): Outcome {
    if id !in g.components then Failed(UnknownComponent)
    else
      var c := g.components[id];
      if !Typed(c.inputRefs, TestInput, g.scope) then Failed(InputRefDiffers)
      else if !Typed(c.memberRefs, SourceMember, g.scope) then Failed(SourceRefDiffers)
      else Reached(Elements(Ids(c.inputRefs)), Elements(Ids(c.memberRefs)))
  }

  /** Below a group the walk remembers it, so it ends: the groups not yet on the path
      get fewer. */
  function Walk(g: Graph, ref: Ref, visiting: set<string>): Outcome
    decreases g.groups.Keys - visiting, 0, 0
  {
    if ref.scope != g.scope then Failed(ScopeDiffers)
    else if ref.kind == Kind.Component then WalkComponent(g, ref.id)
    else if ref.kind != CoverageGroup then Failed(KindDiffers)
    else if ref.id in visiting then Failed(Cycle)
    else if ref.id !in g.groups then Failed(UnknownGroup)
    else
      var below := WalkAll(g, g.groups[ref.id].children, visiting + {ref.id});
      if below.Reached? && multiset(below.members) != multiset(Ids(g.groups[ref.id].memberRefs))
      then Failed(AncestryDiffers)
      else below
  }

  function WalkAll(g: Graph, refs: seq<Ref>, visiting: set<string>): Outcome
    decreases g.groups.Keys - visiting, 1, |refs|
  {
    if refs == [] then Reached({}, {})
    else Both(Walk(g, refs[0], visiting), WalkAll(g, refs[1..], visiting))
  }

  // ---- the graph, by its paths ----

  ghost predicate Edge(g: Graph, a: Ref, b: Ref) {
    a.kind == CoverageGroup && a.id in g.groups && b in g.groups[a.id].children
  }

  ghost predicate PathFrom(g: Graph, p: seq<Ref>, root: Ref) {
    p != [] && p[0] == root && forall i :: 0 <= i < |p| - 1 ==> Edge(g, p[i], p[i + 1])
  }

  function Last(p: seq<Ref>): Ref
    requires p != []
  {
    p[|p| - 1]
  }

  /** What a reference itself contributes: the test inputs or the source members of a
      known component. */
  function Own(g: Graph, ref: Ref, inputs: bool): set<string> {
    if ref.kind != Kind.Component || ref.id !in g.components then {}
    else Elements(Ids(if inputs then g.components[ref.id].inputRefs else g.components[ref.id].memberRefs))
  }

  /** Some component on a path below the reference names x. */
  ghost predicate Covers(g: Graph, ref: Ref, x: string, inputs: bool) {
    exists p :: PathFrom(g, p, ref) && x in Own(g, Last(p), inputs)
  }

  /** The reference is in scope and known; a component's references have the right kinds;
      a group declares exactly the members it covers, each once. */
  ghost predicate Proper(g: Graph, ref: Ref) {
    ref.scope == g.scope &&
    (ref.kind == Kind.Component || ref.kind == CoverageGroup) &&
    (ref.kind == Kind.Component ==> ref.id in g.components && RefsAreProper(g, g.components[ref.id])) &&
    (ref.kind == CoverageGroup ==> ref.id in g.groups && Declares(g, ref))
  }

  /** A component refers to test inputs and source members of the document. */
  predicate RefsAreProper(g: Graph, c: Component) {
    (forall i :: 0 <= i < |c.inputRefs| ==> c.inputRefs[i].kind == TestInput && c.inputRefs[i].scope == g.scope) &&
    forall i :: 0 <= i < |c.memberRefs| ==> c.memberRefs[i].kind == SourceMember && c.memberRefs[i].scope == g.scope
  }

  ghost predicate Declares(g: Graph, ref: Ref)
    requires ref.id in g.groups
  {
    var ids := Ids(g.groups[ref.id].memberRefs);
    Distinct(ids) && forall x :: x in ids <==> Covers(g, ref, x, false)
  }

  ghost predicate NoRepeat(p: seq<Ref>) { forall i, j :: 0 <= i < j < |p| ==> p[i] != p[j] }

  ghost predicate PathIsSound(g: Graph, p: seq<Ref>, visiting: set<string>)
    requires p != []
  {
    Proper(g, Last(p)) && NoRepeat(p) && (Last(p).kind == CoverageGroup ==> Last(p).id !in visiting)
  }

  /** Below root everything is proper, no path comes back to where it was, and none meets
      a group of visiting. */
  ghost predicate Sound(g: Graph, root: Ref, visiting: set<string>) {
    forall p :: PathFrom(g, p, root) ==> PathIsSound(g, p, visiting)
  }

  lemma Prepend(g: Graph, a: Ref, p: seq<Ref>, b: Ref)
    requires PathFrom(g, p, b) && Edge(g, a, b)
    ensures PathFrom(g, [a] + p, a) && Last([a] + p) == Last(p)
  {
    var q := [a] + p;
    forall i | 0 <= i < |q| - 1 ensures Edge(g, q[i], q[i + 1]) {
      if i > 0 {
        assert Edge(g, p[i - 1], p[i]);
      }
    }
  }

  lemma TailOf(g: Graph, p: seq<Ref>, a: Ref)
    requires PathFrom(g, p, a) && |p| > 1
    ensures Edge(g, a, p[1]) && PathFrom(g, p[1..], p[1]) && Last(p[1..]) == Last(p)
  {
    var q := p[1..];
    assert Edge(g, p[0], p[1]);
    forall i | 0 <= i < |q| - 1 ensures Edge(g, q[i], q[i + 1]) {
      assert Edge(g, p[i + 1], p[i + 2]);
    }
  }

  // ---- what the walk returns ----

  function Found(o: Outcome, inputs: bool): set<string>
    requires o.Reached?
  {
    if inputs then o.inputs else o.members
  }

  ghost predicate CoveredBySome(g: Graph, refs: seq<Ref>, x: string, inputs: bool) {
    exists c :: c in refs && Covers(g, c, x, inputs)
  }

  lemma LeafCovers(g: Graph, ref: Ref, x: string, inputs: bool)
    requires ref.kind == Kind.Component
    ensures Covers(g, ref, x, inputs) <==> x in Own(g, ref, inputs)
  {
    assert PathFrom(g, [ref], ref);
    if Covers(g, ref, x, inputs) {
      var p :| PathFrom(g, p, ref) && x in Own(g, Last(p), inputs);
      if |p| > 1 {
        TailOf(g, p, ref);
      }
    } else {
      assert Last([ref]) == ref;
    }
  }

  lemma GroupCovers(g: Graph, ref: Ref, x: string, inputs: bool)
    requires ref.kind == CoverageGroup && ref.id in g.groups
    ensures Covers(g, ref, x, inputs) <==> CoveredBySome(g, g.groups[ref.id].children, x, inputs)
  {
    if Covers(g, ref, x, inputs) {
      var p :| PathFrom(g, p, ref) && x in Own(g, Last(p), inputs);
      assert |p| > 1;
      TailOf(g, p, ref);
      assert Covers(g, p[1], x, inputs);
    }
    if CoveredBySome(g, g.groups[ref.id].children, x, inputs) {
      var c :| c in g.groups[ref.id].children && Covers(g, c, x, inputs);
      var p :| PathFrom(g, p, c) && x in Own(g, Last(p), inputs);
      Prepend(g, ref, p, c);
    }
  }

  /** A walk that succeeds returns exactly the inputs and the members of the components
      its reference reaches. */
  lemma {:induction false} WalkFindsWhatIsCovered(g: Graph, ref: Ref, visiting: set<string>, inputs: bool)
    requires Walk(g, ref, visiting).Reached?
    ensures forall x :: x in Found(Walk(g, ref, visiting), inputs) <==> Covers(g, ref, x, inputs)
    decreases g.groups.Keys - visiting, 0, 0
  {
    if ref.kind == CoverageGroup {
      WalkAllFindsWhatIsCovered(g, g.groups[ref.id].children, visiting + {ref.id}, inputs);
      forall x ensures Covers(g, ref, x, inputs) <==> CoveredBySome(g, g.groups[ref.id].children, x, inputs) {
        GroupCovers(g, ref, x, inputs);
      }
    } else {
      forall x ensures Covers(g, ref, x, inputs) <==> x in Own(g, ref, inputs) {
        LeafCovers(g, ref, x, inputs);
      }
    }
  }

  lemma {:induction false} WalkAllFindsWhatIsCovered(g: Graph, refs: seq<Ref>, visiting: set<string>, inputs: bool)
    requires WalkAll(g, refs, visiting).Reached?
    ensures forall x :: x in Found(WalkAll(g, refs, visiting), inputs) <==> CoveredBySome(g, refs, x, inputs)
    decreases g.groups.Keys - visiting, 1, |refs|
  {
    if refs != [] {
      WalkFindsWhatIsCovered(g, refs[0], visiting, inputs);
      WalkAllFindsWhatIsCovered(g, refs[1..], visiting, inputs);
      forall x ensures CoveredBySome(g, refs, x, inputs) <==>
          Covers(g, refs[0], x, inputs) || CoveredBySome(g, refs[1..], x, inputs) {
        FirstOrRest(g, refs, x, inputs);
      }
    }
  }

  lemma FirstOrRest(g: Graph, refs: seq<Ref>, x: string, inputs: bool)
    requires refs != []
    ensures CoveredBySome(g, refs, x, inputs) <==>
            Covers(g, refs[0], x, inputs) || CoveredBySome(g, refs[1..], x, inputs)
  {
    assert forall c :: c in refs <==> c == refs[0] || c in refs[1..];
  }

  // ---- when the walk succeeds ----

  lemma {:induction false} EachChildSucceeds(g: Graph, refs: seq<Ref>, visiting: set<string>)
    ensures WalkAll(g, refs, visiting).Reached? <==> forall c :: c in refs ==> Walk(g, c, visiting).Reached?
    decreases |refs|
  {
    if refs != [] {
      EachChildSucceeds(g, refs[1..], visiting);
      assert refs[0] in refs && forall c :: c in refs[1..] ==> c in refs;
      assert forall c :: c in refs ==> c == refs[0] || c in refs[1..];
    }
  }

  /** The declared list agrees with the members found exactly when it declares what the
      group covers. */
  lemma DeclaredMembers(g: Graph, ref: Ref, visiting: set<string>)
    requires ref.kind == CoverageGroup && ref.id in g.groups
    requires WalkAll(g, g.groups[ref.id].children, visiting + {ref.id}).Reached?
    ensures var below := WalkAll(g, g.groups[ref.id].children, visiting + {ref.id});
            multiset(below.members) == multiset(Ids(g.groups[ref.id].memberRefs)) <==> Declares(g, ref)
  {
    var children, ids := g.groups[ref.id].children, Ids(g.groups[ref.id].memberRefs);
    var below := WalkAll(g, children, visiting + {ref.id});
    WalkAllFindsWhatIsCovered(g, children, visiting + {ref.id}, false);
    forall x ensures x in below.members <==> Covers(g, ref, x, false) {
      GroupCovers(g, ref, x, false);
    }
    ListsASet(ids, below.members);
  }

  lemma {:induction false} SuccessfulPaths(g: Graph, p: seq<Ref>, visiting: set<string>)
    requires p != [] && PathFrom(g, p, p[0]) && Walk(g, p[0], visiting).Reached?
    ensures Proper(g, Last(p)) && NoRepeat(p)
    ensures forall i :: 0 <= i < |p| && p[i].kind == CoverageGroup ==> p[i].id !in visiting
    decreases |p|
  {
    if p[0].kind == CoverageGroup {
      var children := g.groups[p[0].id].children;
      EachChildSucceeds(g, children, visiting + {p[0].id});
      DeclaredMembers(g, p[0], visiting);
      if |p| > 1 {
        TailOf(g, p, p[0]);
        SuccessfulPaths(g, p[1..], visiting + {p[0].id});
        assert forall i :: 0 < i < |p| ==> p[i] == p[1..][i - 1];
      }
    } else if |p| > 1 {
      TailOf(g, p, p[0]);
    }
  }

  lemma ChildIsSound(g: Graph, ref: Ref, child: Ref, visiting: set<string>)
    requires Sound(g, ref, visiting) && Edge(g, ref, child)
    ensures Sound(g, child, visiting + {ref.id})
  {
    assert PathFrom(g, [ref], ref) && Last([ref]) == ref;
    assert PathIsSound(g, [ref], visiting);
    forall p | PathFrom(g, p, child) ensures PathIsSound(g, p, visiting + {ref.id}) {
      Prepend(g, ref, p, child);
      var q := [ref] + p;
      assert PathIsSound(g, q, visiting);
      assert q[|p|] == Last(p) && q[0] == ref;
      assert forall i :: 0 <= i < |p| ==> p[i] == q[i + 1];
    }
  }

  lemma {:induction false} SoundMeansSuccess(g: Graph, ref: Ref, visiting: set<string>)
    requires Sound(g, ref, visiting)
    ensures Walk(g, ref, visiting).Reached?
    decreases g.groups.Keys - visiting
  {
    assert PathFrom(g, [ref], ref) && Last([ref]) == ref;
    assert PathIsSound(g, [ref], visiting);
    if ref.kind == CoverageGroup {
      var children := g.groups[ref.id].children;
      forall c | c in children ensures Walk(g, c, visiting + {ref.id}).Reached? {
        ChildIsSound(g, ref, c, visiting);
        SoundMeansSuccess(g, c, visiting + {ref.id});
      }
      EachChildSucceeds(g, children, visiting + {ref.id});
      DeclaredMembers(g, ref, visiting);
    }
  }

  /** The walk succeeds exactly when the subgraph below the root is acyclic, every
      reference in it is known, in scope and of the right kind, and every group in it
      declares exactly the members it covers. */
  lemma WalkSucceedsExactlyWhenSound(g: Graph, root: Ref)
    ensures Walk(g, root, {}).Reached? <==> Sound(g, root, {})
  {
    if Walk(g, root, {}).Reached? {
      forall p | PathFrom(g, p, root) ensures PathIsSound(g, p, {}) {
        SuccessfulPaths(g, p, {});
      }
    } else if Sound(g, root, {}) {
      SoundMeansSuccess(g, root, {});
    }
  }

  // ---- a reported fault ----

  /** The path ends at a group that the walk had entered before: one of visiting, or one
      on the path itself. */
  ghost predicate Returns(g: Graph, p: seq<Ref>, visiting: set<string>)
    requires p != []
  {
    Last(p).kind == CoverageGroup && Last(p).scope == g.scope &&
    (Last(p).id in visiting || exists i :: 0 <= i < |p| - 1 && p[i] == Last(p))
  }

  lemma {:induction false} FailedChild(g: Graph, refs: seq<Ref>, visiting: set<string>) returns (c: Ref)
    requires WalkAll(g, refs, visiting).Failed?
    ensures c in refs && Walk(g, c, visiting) == WalkAll(g, refs, visiting)
    decreases |refs|
  {
    if Walk(g, refs[0], visiting).Failed? {
      c := refs[0];
    } else {
      c := FailedChild(g, refs[1..], visiting);
    }
  }

  lemma PrependReturns(g: Graph, ref: Ref, q: seq<Ref>, visiting: set<string>)
    requires q != [] && Returns(g, q, visiting + {ref.id}) && ref.kind == CoverageGroup && ref.scope == g.scope
    ensures Returns(g, [ref] + q, visiting)
  {
    var p := [ref] + q;
    assert Last(p) == Last(q);
    if Last(q).id == ref.id {
      assert p[0] == Last(p) && 0 < |p| - 1;
    } else if Last(q).id !in visiting {
      var i :| 0 <= i < |q| - 1 && q[i] == Last(q);
      assert p[i + 1] == Last(p);
    }
  }

  /** What is wrong with a reference, fault by fault; what the walk tests before it is
      in order. */
  ghost predicate IsWrong(g: Graph, ref: Ref, fault: Fault) {
    match fault
    case ScopeDiffers => ref.scope != g.scope
    case KindDiffers => ref.scope == g.scope && ref.kind != Kind.Component && ref.kind != CoverageGroup
    case UnknownComponent => ref.scope == g.scope && ref.kind == Kind.Component && ref.id !in g.components
    case InputRefDiffers =>
      ref.scope == g.scope && ref.kind == Kind.Component && ref.id in g.components &&
      exists r :: r in g.components[ref.id].inputRefs && (r.kind != TestInput || r.scope != g.scope)
    case SourceRefDiffers =>
      ref.scope == g.scope && ref.kind == Kind.Component && ref.id in g.components &&
      (forall r :: r in g.components[ref.id].inputRefs ==> r.kind == TestInput && r.scope == g.scope) &&
      exists r :: r in g.components[ref.id].memberRefs && (r.kind != SourceMember || r.scope != g.scope)
    case UnknownGroup => ref.scope == g.scope && ref.kind == CoverageGroup && ref.id !in g.groups
    case AncestryDiffers =>
      ref.scope == g.scope && ref.kind == CoverageGroup && ref.id in g.groups && !Declares(g, ref)
    case _ => false
  }

  /** The last reference of the path is wrong in the way reported, or has been met before. */
  ghost predicate Shows(g: Graph, p: seq<Ref>, visiting: set<string>, fault: Fault)
    requires p != []
  {
    if fault == Cycle then Returns(g, p, visiting) else IsWrong(g, Last(p), fault)
  }

  lemma WrongComponent(g: Graph, ref: Ref, visiting: set<string>)
    requires ref.scope == g.scope && ref.kind == Kind.Component && Walk(g, ref, visiting).Failed?
    ensures Walk(g, ref, visiting).fault != Cycle && IsWrong(g, ref, Walk(g, ref, visiting).fault)
  {
    if ref.id in g.components {
      var c := g.components[ref.id];
      if !Typed(c.inputRefs, TestInput, g.scope) {
        var i :| 0 <= i < |c.inputRefs| && (c.inputRefs[i].kind != TestInput || c.inputRefs[i].scope != g.scope);
        assert c.inputRefs[i] in c.inputRefs;
      } else {
        var i :| 0 <= i < |c.memberRefs| && (c.memberRefs[i].kind != SourceMember || c.memberRefs[i].scope != g.scope);
        assert c.memberRefs[i] in c.memberRefs;
      }
    }
  }

  lemma {:induction false} FaultPath(g: Graph, ref: Ref, visiting: set<string>) returns (p: seq<Ref>)
    requires Walk(g, ref, visiting).Failed?
    ensures PathFrom(g, p, ref) && Shows(g, p, visiting, Walk(g, ref, visiting).fault)
    decreases g.groups.Keys - visiting
  {
    p := [ref];
    if ref.scope == g.scope && ref.kind == Kind.Component {
      WrongComponent(g, ref, visiting);
    } else if ref.scope == g.scope && ref.kind == CoverageGroup && ref.id !in visiting && ref.id in g.groups {
      var children := g.groups[ref.id].children;
      if WalkAll(g, children, visiting + {ref.id}).Reached? {
        DeclaredMembers(g, ref, visiting);
      } else {
        var c := FailedChild(g, children, visiting + {ref.id});
        var q := FaultPath(g, c, visiting + {ref.id});
        p := [ref] + q;
        Prepend(g, ref, q, c);
        if Walk(g, c, visiting + {ref.id}).fault == Cycle {
          PrependReturns(g, ref, q, visiting);
        }
      }
    }
  }

  /** Whatever fault the walk reports is there: a path below the root ends at a reference
      that is wrong in just this way, or for a cycle where the path has been before. */
  lemma ReportedFaultsAreReal(g: Graph, root: Ref) returns (p: seq<Ref>)
    requires Walk(g, root, {}).Failed?
    ensures var fault := Walk(g, root, {}).fault;
            PathFrom(g, p, root) &&
            if fault == Cycle then exists i :: 0 <= i < |p| - 1 && p[i] == Last(p) else IsWrong(g, Last(p), fault)
  {
    p := FaultPath(g, root, {});
  }

  // ---- sharedCoverageRequirements ----

  function ComponentId(c: Component): string { c.id }

  function GroupId(group: Group): string { group.id }

  /** The coverage part of a semantics document. */
  datatype Document = Document(scope: string, components: seq<Component>, groups: seq<Group>)

  function GraphOf(d: Document): Graph {
    Graph(d.scope, IndexOf(d.components, ComponentId), IndexOf(d.groups, GroupId))
  }

  function Requirements(root: Ref, d: Document): Outcome {
    if !Keyed(d.components, ComponentId) then Failed(DuplicateComponent)
    else if !Keyed(d.groups, GroupId) then Failed(DuplicateGroup)
    else Walk(GraphOf(d), root, {})
  }

  /** The requirements are the closure of the root: every test input and every source
      member named by a component it reaches, and they exist exactly when the document is
      sound below it. */
  lemma RequirementsAreTheClosure(root: Ref, d: Document)
    ensures Requirements(root, d).Reached? <==>
            Keyed(d.components, ComponentId) && Keyed(d.groups, GroupId) && Sound(GraphOf(d), root, {})
    ensures !Keyed(d.components, ComponentId) ==> Requirements(root, d) == Failed(DuplicateComponent)
    ensures Keyed(d.components, ComponentId) && !Keyed(d.groups, GroupId) ==>
              Requirements(root, d) == Failed(DuplicateGroup)
    ensures Requirements(root, d).Reached? ==>
              forall x :: (x in Requirements(root, d).inputs <==> Covers(GraphOf(d), root, x, true)) &&
                          (x in Requirements(root, d).members <==> Covers(GraphOf(d), root, x, false))
  {
    WalkSucceedsExactlyWhenSound(GraphOf(d), root);
    if Requirements(root, d).Reached? {
      WalkFindsWhatIsCovered(GraphOf(d), root, {}, true);
      WalkFindsWhatIsCovered(GraphOf(d), root, {}, false);
    }
  }

  lemma NextRef(refs: seq<Ref>, i: nat)
    requires i < |refs|
    ensures Elements(Ids(refs[..i + 1])) == Elements(Ids(refs[..i])) + {refs[i].id}
  {
    assert Ids(refs[..i + 1]) == Ids(refs[..i]) + [refs[i].id];
  }

  /** The recursive closure of the source, with the set it shares between its calls. */
  class Walker {
    const graph: Graph
    var visiting: set<string>

    constructor (graph: Graph)
      ensures this.graph == graph && visiting == {}
    {
      this.graph := graph;
      visiting := {};
    }

    /** The two loops over the references of a component. */
    method VisitComponent(id: string) returns (o: Outcome)
      ensures o == WalkComponent(graph, id)
    {
      if id !in graph.components {
        return Failed(UnknownComponent);
      }
      var c := graph.components[id];
      var inputs, members := {}, {};
      for i := 0 to |c.inputRefs|
        invariant Typed(c.inputRefs[..i], TestInput, graph.scope) && inputs == Elements(Ids(c.inputRefs[..i]))
      {
        if c.inputRefs[i].kind != TestInput || c.inputRefs[i].scope != graph.scope {
          return Failed(InputRefDiffers);
        }
        NextRef(c.inputRefs, i);
        inputs := inputs + {c.inputRefs[i].id};
      }
      assert c.inputRefs[..|c.inputRefs|] == c.inputRefs;
      for i := 0 to |c.memberRefs|
        invariant Typed(c.memberRefs[..i], SourceMember, graph.scope) && members == Elements(Ids(c.memberRefs[..i]))
      {
        if c.memberRefs[i].kind != SourceMember || c.memberRefs[i].scope != graph.scope {
          return Failed(SourceRefDiffers);
        }
        NextRef(c.memberRefs, i);
        members := members + {c.memberRefs[i].id};
      }
      assert c.memberRefs[..|c.memberRefs|] == c.memberRefs;
      return Reached(inputs, members);
    }

    /** One reference. A successful call leaves visiting as it found it. */
    method Visit(ref: Ref) returns (o: Outcome)
      modifies this
      ensures o == Walk(graph, ref, old(visiting))
      ensures o.Reached? ==> visiting == old(visiting)
      decreases graph.groups.Keys - visiting, 0
    {
      if ref.scope != graph.scope {
        return Failed(ScopeDiffers);
      }
      if ref.kind == Kind.Component {
        o := VisitComponent(ref.id);
        return;
      }
      if ref.kind != CoverageGroup {
        return Failed(KindDiffers);
      }
      if ref.id in visiting {
        return Failed(Cycle);
      }
      if ref.id !in graph.groups {
        return Failed(UnknownGroup);
      }
      var group := graph.groups[ref.id];
      visiting := visiting + {ref.id};
      var below := VisitAll(group.children);
      if below.Failed? {
        return below;
      }
      visiting := visiting - {ref.id};
      var members := Keys(below.members);
      var same := SameStringSet(members, Ids(group.memberRefs));
      return if same then below else Failed(AncestryDiffers);
    }

    /** The loop over a group's children. */
    method VisitAll(refs: seq<Ref>) returns (o: Outcome)
      modifies this
      ensures o == WalkAll(graph, refs, old(visiting))
      ensures o.Reached? ==> visiting == old(visiting)
      decreases graph.groups.Keys - visiting, 1
    {
      o := Reached({}, {});
      for i := 0 to |refs|
        invariant o.Reached? && visiting == old(visiting)
        invariant Both(o, WalkAll(graph, refs[i..], visiting)) == WalkAll(graph, refs, visiting)
      {
        assert refs[i..][0] == refs[i] && refs[i..][1..] == refs[i + 1..];
        var child := Visit(refs[i]);
        if child.Failed? {
          return child;
        }
        o := Reached(o.inputs + child.inputs, o.members + child.members);
      }
    }
  }

  datatype Listing = Listed(inputs: seq<string>, members: seq<string>) | Refused(fault: Fault)

  method CoverageRequirements(root: Ref, d: Document) returns (r: Listing)
    ensures r.Refused? <==> Requirements(root, d).Failed?
    ensures r.Refused? ==> r.fault == Requirements(root, d).fault
    ensures r.Listed? ==> multiset(r.inputs) == multiset(Requirements(root, d).inputs)
    ensures r.Listed? ==> multiset(r.members) == multiset(Requirements(root, d).members)
  {
    var components := Index(d.components, ComponentId);
    if components.None? {
      return Refused(DuplicateComponent);
    }
    var groups := Index(d.groups, GroupId);
    if groups.None? {
      return Refused(DuplicateGroup);
    }
    var walker := new Walker(Graph(d.scope, components.value, groups.value));
    var o := walker.Visit(root);
    if o.Failed? {
      return Refused(o.fault);
    }
    var inputs := Keys(o.inputs);
    var members := Keys(o.members);
    return Listed(inputs, members);
  }
}
