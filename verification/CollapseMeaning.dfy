/** What a merged rule matches, compared with the alternatives it came from.

    A request is represented by what it hits: the (matcher, value) pairs whose match
    succeeds on it. A positive condition holds when one of its values hits, a negated
    one when none does. */
module CollapseMeaning {
  import opened Collections
  import opened RuleCollapse

  type Hits = iset<(Matcher, string)>

  ghost predicate Holds(m: Matcher, positive: bool, values: seq<string>, hits: Hits) {
    if positive then exists v :: v in values && (m, v) in hits else forall v :: v in values ==> (m, v) !in hits
  }

  ghost predicate AltMatches(alt: Alternative, hits: Hits) {
    forall i :: 0 <= i < |alt.conditions| ==>
      Holds(MatcherOf(alt.conditions[i]), alt.conditions[i].positive, alt.conditions[i].value, hits)
  }

  /** Some alternative matches, with all its conditions. */
  ghost predicate SetMatches(rules: seq<Alternative>, hits: Hits) {
    exists a :: 0 <= a < |rules| && AltMatches(rules[a], hits)
  }

  /** An alternative by its operation: all of its conditions hold, or for OR one of them. */
  ghost predicate AlternativeHolds(alt: Alternative, hits: Hits) {
    if alt.operation == "OR" then
      exists i :: 0 <= i < |alt.conditions| &&
        Holds(MatcherOf(alt.conditions[i]), alt.conditions[i].positive, alt.conditions[i].value, hits)
    else
      forall i :: 0 <= i < |alt.conditions| ==>
        Holds(MatcherOf(alt.conditions[i]), alt.conditions[i].positive, alt.conditions[i].value, hits)
  }

  /** What a rule set says, by its combination: of its alternatives, one matches for OR,
      and otherwise all. */
  ghost predicate Matches(rs: RuleSet, hits: Hits) {
    if rs.combination == "OR" then exists a :: 0 <= a < |rs.rules| && AlternativeHolds(rs.rules[a], hits)
    else forall a :: 0 <= a < |rs.rules| ==> AlternativeHolds(rs.rules[a], hits)
  }

  /** The emitted conditions, each matched as the condition of the first alternative that it
      was made from. */
  ghost predicate MatchesInPlace(emitted: seq<Structured>, base: Alternative, hits: Hits) {
    |emitted| == |base.conditions| &&
    forall i :: 0 <= i < |emitted| ==>
      Holds(MatcherOf(base.conditions[i]), emitted[i].positive, emitted[i].value, hits)
  }

  /** The code accepts the rule set and emits this for it. Several accepted alternatives
      line up, and a single one does so with itself. */
  ghost predicate Emits(rs: RuleSet, emitted: seq<Structured>) {
    rs.rules != [] && Collapse(rs) == Merged(emitted) && Aligned(rs.rules)
  }

  /** Condition i of alternative a. */
  function Cell(rules: seq<Alternative>, a: nat, i: nat): seq<string>
    requires Aligned(rules) && a < |rules| && i < |rules[0].conditions|
  {
    assert LinesUp(rules[0], rules[a]);
    rules[a].conditions[i].value
  }

  function MatcherAt(rules: seq<Alternative>, i: nat): Matcher
    requires Aligned(rules) && i < |rules[0].conditions|
  {
    MatcherOf(rules[0].conditions[i])
  }

  predicate PositiveAt(rules: seq<Alternative>, i: nat)
    requires Aligned(rules) && i < |rules[0].conditions|
  {
    rules[0].conditions[i].positive
  }

  /** All alternatives have the shapes of the first. */
  predicate ShapesAgree(rules: seq<Alternative>)
    requires Aligned(rules)
  {
    forall a, i :: 0 <= a < |rules| && 0 <= i < |rules[a].conditions| && i < |rules[0].conditions| ==>
      ShapeOf(rules[a].conditions[i]) == ShapeOf(rules[0].conditions[i])
  }

  /** The rule sets the theorems are about: the alternatives have one shape at every
      position, which is what the code means to check. */
  ghost predicate Accepted(rs: RuleSet, emitted: seq<Structured>) { Emits(rs, emitted) && ShapesAgree(rs.rules) }

  /** Its comparison of joined texts ensures that where the first alternative contains no
      NUL and the transformations have names. */
  lemma PlainSetIsCompared(rs: RuleSet, emitted: seq<Structured>)
    requires Emits(rs, emitted)
    requires forall i :: 0 <= i < |rs.rules[0].conditions| ==> NulFree(rs.rules[0].conditions[i])
    requires forall a, i :: 0 <= a < |rs.rules| && 0 <= i < |rs.rules[a].conditions| ==>
               NamesTransformations(rs.rules[a].conditions[i])
    ensures Accepted(rs, emitted)
  {
    forall a, i | 0 <= a < |rs.rules| && 0 <= i < |rs.rules[a].conditions| && i < |rs.rules[0].conditions|
      ensures ShapeOf(rs.rules[a].conditions[i]) == ShapeOf(rs.rules[0].conditions[i])
    {
      assert LinesUp(rs.rules[0], rs.rules[a]);
      ShapeStringIsFaithful(rs.rules[0].conditions[i], rs.rules[a].conditions[i]);
    }
  }

  lemma ConjunctionHolds(alt: Alternative, hits: Hits)
    requires alt.operation == "AND" || alt.operation == ""
    ensures AlternativeHolds(alt, hits) <==> AltMatches(alt, hits)
  {
  }

  /** Only conjunctions are merged, and several of them only where one is enough. */
  lemma OnlyDisjunctionsAreMerged(rs: RuleSet)
    requires rs.rules != [] && Collapse(rs).Merged?
    ensures forall a :: 0 <= a < |rs.rules| ==> rs.rules[a].operation == "AND" || rs.rules[a].operation == ""
    ensures |rs.rules| == 1 || rs.combination == "OR"
  {
    assert forall a :: 0 <= a < |rs.rules| ==> Collapsible(rs.rules[a]);
  }

  /** What is merged is a disjunction of conjunctions: a set of another kind is refused. */
  lemma EmittedSetIsAnOr(rs: RuleSet, emitted: seq<Structured>, hits: Hits)
    requires Emits(rs, emitted)
    ensures Matches(rs, hits) <==> SetMatches(rs.rules, hits)
  {
    OnlyDisjunctionsAreMerged(rs);
    forall a | 0 <= a < |rs.rules| ensures AlternativeHolds(rs.rules[a], hits) <==> AltMatches(rs.rules[a], hits) {
      ConjunctionHolds(rs.rules[a], hits);
    }
    SomeOrAll(rs, hits);
  }

  lemma SomeOrAll(rs: RuleSet, hits: Hits)
    requires |rs.rules| == 1 || rs.combination == "OR"
    ensures Matches(rs, hits) <==> exists a :: 0 <= a < |rs.rules| && AlternativeHolds(rs.rules[a], hits)
  {
    if |rs.rules| == 1 && AlternativeHolds(rs.rules[0], hits) {
      assert exists a :: 0 <= a < |rs.rules| && AlternativeHolds(rs.rules[a], hits);
    }
  }

  // ---- what is emitted ----

  /** Every position holds on the union of the values found there. */
  ghost predicate UnionMatches(rules: seq<Alternative>, hits: Hits)
    requires Aligned(rules)
  {
    forall i :: 0 <= i < |rules[0].conditions| ==>
        Holds(MatcherAt(rules, i), PositiveAt(rules, i), Union(rules, i), hits)
  }

  // ---- the union and the length test ----

  lemma {:induction false} ExtendMembers(values: seq<string>, vs: seq<string>, v: string)
    ensures v in Extend(values, vs) <==> v in values || v in vs
    decreases |vs|
  {
    if vs != [] {
      ExtendMembers(if vs[0] in values then values else values + [vs[0]], vs[1..], v);
      assert v in vs <==> v == vs[0] || v in vs[1..];
    }
  }

  lemma {:induction false} ExtendDistinct(values: seq<string>, vs: seq<string>)
    requires Distinct(values)
    ensures Distinct(Extend(values, vs))
    decreases |vs|
  {
    if vs != [] {
      ExtendDistinct(if vs[0] in values then values else values + [vs[0]], vs[1..]);
    }
  }

  lemma {:induction false} UnionMembers(rules: seq<Alternative>, i: nat, n: nat, v: string)
    requires Aligned(rules) && n <= |rules| && i < |rules[0].conditions|
    requires forall a :: 0 <= a < n ==> i < |rules[a].conditions|
    ensures v in UnionAt(rules, i, n) <==> exists a :: 0 <= a < n && v in rules[a].conditions[i].value
    ensures Distinct(UnionAt(rules, i, n))
  {
    if n > 0 {
      UnionMembers(rules, i, n - 1, v);
      ExtendMembers(UnionAt(rules, i, n - 1), rules[n - 1].conditions[i].value, v);
      ExtendDistinct(UnionAt(rules, i, n - 1), rules[n - 1].conditions[i].value);
    }
  }

  lemma InUnion(rules: seq<Alternative>, i: nat)
    requires Aligned(rules) && i < |rules[0].conditions|
    ensures forall v :: v in Union(rules, i) <==> exists a :: 0 <= a < |rules| && v in Cell(rules, a, i)
    ensures Distinct(Union(rules, i))
  {
    forall a | 0 <= a < |rules| ensures i < |rules[a].conditions| {
      assert LinesUp(rules[0], rules[a]);
    }
    forall v ensures v in Union(rules, i) <==> exists a :: 0 <= a < |rules| && v in Cell(rules, a, i) {
      UnionMembers(rules, i, |rules|, v);
      assert forall a :: 0 <= a < |rules| ==> (v in Cell(rules, a, i) <==> v in rules[a].conditions[i].value);
    }
    UnionMembers(rules, i, |rules|, "");
  }

  /** Where the base values are repeat-free, the length test says exactly whether
      some alternative has a value the base does not have. */
  lemma LengthTestFindsNewValues(rules: seq<Alternative>, i: nat)
    requires Aligned(rules) && i < |rules[0].conditions| && Distinct(Cell(rules, 0, i))
    ensures !VariesAt(rules, i) <==> Elements(Union(rules, i)) == Elements(Cell(rules, 0, i))
  {
    InUnion(rules, i);
    DistinctSize(Union(rules, i));
    DistinctSize(Cell(rules, 0, i));
    assert Elements(Cell(rules, 0, i)) <= Elements(Union(rules, i));
    if !VariesAt(rules, i) {
      SubsetOfEqualSize(Elements(Cell(rules, 0, i)), Elements(Union(rules, i)));
    }
  }

  /** An accepted count names one position such that all others do not vary. */
  lemma {:induction false} AtMostOneVaries(rules: seq<Alternative>, n: nat) returns (k: nat)
    requires Aligned(rules) && n <= |rules[0].conditions| && Varying(rules, n) <= 1
    ensures forall i :: 0 <= i < n && i != k ==> !VariesAt(rules, i)
    ensures if Varying(rules, n) == 0 then k >= n else k < n && VariesAt(rules, k)
  {
    if n == 0 {
      k := 0;
    } else if VariesAt(rules, n - 1) {
      var j := AtMostOneVaries(rules, n - 1);
      k := n - 1;
    } else {
      k := AtMostOneVaries(rules, n - 1);
      if k == n - 1 {
        k := n;
      }
    }
  }

  lemma HoldsOnElements(m: Matcher, positive: bool, v: seq<string>, w: seq<string>, hits: Hits)
    requires Elements(v) == Elements(w)
    ensures Holds(m, positive, v, hits) <==> Holds(m, positive, w, hits)
  {
    assert forall x :: x in v <==> x in Elements(v);
    assert forall x :: x in w <==> x in Elements(w);
  }

  /** The emitted values are the union, except that the repeats of a single alternative
      stay. */
  lemma EmittedValues(rs: RuleSet, emitted: seq<Structured>, i: nat)
    requires Emits(rs, emitted) && i < |rs.rules[0].conditions|
    ensures |emitted| == |rs.rules[0].conditions| && Elements(emitted[i].value) == Elements(Union(rs.rules, i))
    ensures emitted[i] == ToStructured(rs.rules[0].conditions[i]).(value := emitted[i].value)
  {
    InUnion(rs.rules, i);
    if |rs.rules| == 1 {
      assert forall v :: v in Cell(rs.rules, 0, i) <==> v in Union(rs.rules, i);
    }
  }

  /** Matched in place, the emitted rule says that every position holds on the union. */
  lemma InPlaceIsTheUnion(rs: RuleSet, emitted: seq<Structured>, hits: Hits)
    requires Emits(rs, emitted)
    ensures MatchesInPlace(emitted, rs.rules[0], hits) <==> UnionMatches(rs.rules, hits)
  {
    var base := rs.rules[0].conditions;
    assert base != [];
    EmittedValues(rs, emitted, 0);
    forall i | 0 <= i < |base|
      ensures Holds(MatcherOf(base[i]), emitted[i].positive, emitted[i].value, hits)
              <==> Holds(MatcherAt(rs.rules, i), PositiveAt(rs.rules, i), Union(rs.rules, i), hits)
    {
      EmittedValues(rs, emitted, i);
      HoldsOnElements(MatcherAt(rs.rules, i), PositiveAt(rs.rules, i), emitted[i].value, Union(rs.rules, i), hits);
    }
  }

  // ---- what the receiver can tell ----

  /** How the receiver of the emitted rule reads it: the emitted kind and wildcard flag
      are all it has to tell the matcher from. */
  type Reading = (string, bool) -> Matcher

  ghost predicate EmittedMatches(emitted: seq<Structured>, read: Reading, hits: Hits) {
    forall i :: 0 <= i < |emitted| ==>
      Holds(read(emitted[i].kind, emitted[i].wildcard), emitted[i].positive, emitted[i].value, hits)
  }

  /** The reading restores what the emitted conditions leave out. */
  ghost predicate Faithful(read: Reading, alt: Alternative) {
    forall i :: 0 <= i < |alt.conditions| ==>
        read(alt.conditions[i].kind, alt.conditions[i].wildcard) == MatcherOf(alt.conditions[i])
  }

  /** Read faithfully, the emitted conditions mean what they mean in place, so all that is
      proved below holds for such a receiver. */
  lemma FaithfulReadingIsInPlace(rs: RuleSet, emitted: seq<Structured>, read: Reading, hits: Hits)
    requires Emits(rs, emitted) && Faithful(read, rs.rules[0])
    ensures EmittedMatches(emitted, read, hits) <==> MatchesInPlace(emitted, rs.rules[0], hits)
  {
    var base := rs.rules[0].conditions;
    assert base != [];
    EmittedValues(rs, emitted, 0);
    forall i | 0 <= i < |base| ensures read(emitted[i].kind, emitted[i].wildcard) == MatcherOf(base[i]) {
      EmittedValues(rs, emitted, i);
    }
  }

  predicate EmittedAlike(c: Condition, d: Condition) { c.kind == d.kind && c.wildcard == d.wildcard }

  /** Conditions of one emitted form have one matcher. */
  predicate EmissionDetermines(alt: Alternative) {
    forall i, j ::
      && 0 <= i < |alt.conditions| && 0 <= j < |alt.conditions|
      && EmittedAlike(alt.conditions[i], alt.conditions[j])
      ==> MatcherOf(alt.conditions[i]) == MatcherOf(alt.conditions[j])
  }

  function FirstMatcher(cs: seq<Condition>, kind: string, wildcard: bool): Matcher {
    if cs == [] then Matcher(kind, "", false, wildcard, "", "", [])
    else if cs[0].kind == kind && cs[0].wildcard == wildcard then MatcherOf(cs[0])
    else FirstMatcher(cs[1..], kind, wildcard)
  }

  lemma {:induction false} FirstMatcherIsThere(cs: seq<Condition>, i: nat) returns (j: nat)
    requires i < |cs|
    ensures j < |cs| && cs[j].kind == cs[i].kind && cs[j].wildcard == cs[i].wildcard
    ensures FirstMatcher(cs, cs[i].kind, cs[i].wildcard) == MatcherOf(cs[j])
  {
    if cs[0].kind == cs[i].kind && cs[0].wildcard == cs[i].wildcard {
      j := 0;
    } else {
      j := FirstMatcherIsThere(cs[1..], i - 1);
      j := j + 1;
    }
  }

  /** There is a faithful reading exactly when the emitted fields determine the matcher. */
  lemma FaithfulReadingExists(alt: Alternative)
    ensures (exists read: Reading :: Faithful(read, alt)) <==> EmissionDetermines(alt)
  {
    if EmissionDetermines(alt) {
      var read: Reading := (kind, wildcard) => FirstMatcher(alt.conditions, kind, wildcard);
      forall i | 0 <= i < |alt.conditions|
        ensures read(alt.conditions[i].kind, alt.conditions[i].wildcard) == MatcherOf(alt.conditions[i])
      {
        var j := FirstMatcherIsThere(alt.conditions, i);
      }
      assert Faithful(read, alt);
    }
  }

  /** One condition as a rule set. */
  function Alone(c: Condition): RuleSet { RuleSet("", [Alternative("AND", [c])]) }

  lemma AloneMatches(c: Condition, hits: Hits)
    ensures Matches(Alone(c), hits) <==> Holds(MatcherOf(c), c.positive, c.value, hits)
  {
    assert Alone(c).rules[0].conditions[0] == c;
    assert AlternativeHolds(Alone(c).rules[0], hits) <==> Holds(MatcherOf(c), c.positive, c.value, hits);
  }

  /** What the emitted form leaves out matters: two rule sets that differ only there are
      emitted alike, and some request tells them apart. So no reading serves both. */
  lemma EmissionDropsTheMatcher(c: Condition, d: Condition) returns (hits: Hits)
    requires ToStructured(c) == ToStructured(d) && MatcherOf(c) != MatcherOf(d) && c.value != []
    ensures Collapse(Alone(c)) == Collapse(Alone(d)) == Merged([ToStructured(c)])
    ensures Matches(Alone(c), hits) != Matches(Alone(d), hits)
  {
    hits := iset{(MatcherOf(c), c.value[0])};
    AloneMatches(c, hits);
    AloneMatches(d, hits);
    assert c.value[0] in c.value && (MatcherOf(c), c.value[0]) in hits;
    assert ToStructuredConditions([c]) == [ToStructured(c)] == ToStructuredConditions([d]);
  }

  // ---- alternatives, position by position ----

  lemma AltMatchesByCell(rules: seq<Alternative>, a: nat, hits: Hits)
    requires Aligned(rules) && ShapesAgree(rules) && a < |rules|
    ensures AltMatches(rules[a], hits) <==>
            forall i :: 0 <= i < |rules[0].conditions| ==>
                Holds(MatcherAt(rules, i), PositiveAt(rules, i), Cell(rules, a, i), hits)
  {
    assert LinesUp(rules[0], rules[a]);
    forall i | 0 <= i < |rules[0].conditions|
      ensures Holds(MatcherAt(rules, i), PositiveAt(rules, i), Cell(rules, a, i), hits) <==>
              Holds(MatcherOf(rules[a].conditions[i]), rules[a].conditions[i].positive, rules[a].conditions[i].value,
                  hits)
    {
      assert ShapeOf(rules[a].conditions[i]) == ShapeOf(rules[0].conditions[i]);
    }
  }

  // ---- the law of the design: one differing position ----

  predicate Agrees(rules: seq<Alternative>, i: nat)
    requires Aligned(rules) && i < |rules[0].conditions|
  {
    forall a :: 0 <= a < |rules| ==> Elements(Cell(rules, a, i)) == Elements(Cell(rules, 0, i))
  }

  /** The hypothesis under which the length test is right: base values are
      repeat-free and every alternative contains them. */
  predicate CleanBase(rules: seq<Alternative>)
    requires Aligned(rules)
  {
    forall i :: 0 <= i < |rules[0].conditions| ==>
      Distinct(Cell(rules, 0, i)) && forall a :: 0 <= a < |rules| ==>
          Elements(Cell(rules, 0, i)) <= Elements(Cell(rules, a, i))
  }

  /** Under the hypothesis a position varies for the code exactly when the
      alternatives really differ there. */
  lemma CleanBaseVariesWhereItDiffers(rules: seq<Alternative>, i: nat)
    requires Aligned(rules) && CleanBase(rules) && i < |rules[0].conditions|
    ensures !VariesAt(rules, i) <==> Agrees(rules, i)
  {
    LengthTestFindsNewValues(rules, i);
    InUnion(rules, i);
    if !VariesAt(rules, i) {
      forall a | 0 <= a < |rules| ensures Elements(Cell(rules, a, i)) == Elements(Cell(rules, 0, i)) {
        forall v | v in Elements(Cell(rules, a, i)) ensures v in Elements(Cell(rules, 0, i)) {
          assert v in Union(rules, i);
          assert v in Elements(Union(rules, i));
        }
      }
    } else if Agrees(rules, i) {
      forall v | v in Elements(Union(rules, i)) ensures v in Elements(Cell(rules, 0, i)) {
        var a :| 0 <= a < |rules| && v in Cell(rules, a, i);
        assert v in Elements(Cell(rules, a, i));
      }
      forall v | v in Elements(Cell(rules, 0, i)) ensures v in Elements(Union(rules, i)) {
      }
    }
  }

  /** All positions but k agree. */
  predicate OnlyKDiffers(rules: seq<Alternative>, k: nat)
    requires Aligned(rules)
  {
    forall i :: 0 <= i < |rules[0].conditions| && i != k ==> Agrees(rules, i)
  }

  lemma AgreeingPosition(rules: seq<Alternative>, i: nat, a: nat, hits: Hits)
    requires Aligned(rules) && i < |rules[0].conditions| && a < |rules| && Agrees(rules, i)
    ensures Holds(MatcherAt(rules, i), PositiveAt(rules, i), Union(rules, i), hits)
            <==> Holds(MatcherAt(rules, i), PositiveAt(rules, i), Cell(rules, a, i), hits)
  {
    InUnion(rules, i);
    forall v | v in Elements(Union(rules, i)) ensures v in Elements(Cell(rules, a, i)) {
      var b :| 0 <= b < |rules| && v in Cell(rules, b, i);
      assert v in Elements(Cell(rules, b, i));
    }
    forall v | v in Elements(Cell(rules, a, i)) ensures v in Elements(Union(rules, i)) {
      assert v in Cell(rules, a, i);
    }
    HoldsOnElements(MatcherAt(rules, i), PositiveAt(rules, i), Union(rules, i), Cell(rules, a, i), hits);
  }

  lemma AgreeingPositions(rules: seq<Alternative>, k: nat, a: nat, hits: Hits)
    requires Aligned(rules) && OnlyKDiffers(rules, k) && a < |rules|
    ensures forall i :: 0 <= i < |rules[0].conditions| && i != k ==>
              (Holds(MatcherAt(rules, i), PositiveAt(rules, i), Union(rules, i), hits)
               <==> Holds(MatcherAt(rules, i), PositiveAt(rules, i), Cell(rules, a, i), hits))
  {
    forall i | 0 <= i < |rules[0].conditions| && i != k
      ensures Holds(MatcherAt(rules, i), PositiveAt(rules, i), Union(rules, i), hits)
              <==> Holds(MatcherAt(rules, i), PositiveAt(rules, i), Cell(rules, a, i), hits)
    {
      AgreeingPosition(rules, i, a, hits);
    }
  }

  /** Some alternative holds at the differing position where the union does. */
  lemma SomeCellHolds(rules: seq<Alternative>, k: nat, hits: Hits) returns (a: nat)
    requires Aligned(rules) && k < |rules[0].conditions|
    requires Holds(MatcherAt(rules, k), PositiveAt(rules, k), Union(rules, k), hits)
    ensures a < |rules| && Holds(MatcherAt(rules, k), PositiveAt(rules, k), Cell(rules, a, k), hits)
  {
    a := 0;
    InUnion(rules, k);
    if PositiveAt(rules, k) {
      var v :| v in Union(rules, k) && (MatcherAt(rules, k), v) in hits;
      a :| 0 <= a < |rules| && v in Cell(rules, a, k);
    }
    assert Holds(MatcherAt(rules, k), PositiveAt(rules, k), Cell(rules, a, k), hits);
  }

  lemma OneDifferenceNeverWidens(rules: seq<Alternative>, k: nat, hits: Hits)
    requires Aligned(rules) && ShapesAgree(rules) && OnlyKDiffers(rules, k) && UnionMatches(rules, hits)
    ensures SetMatches(rules, hits)
  {
    var a := 0;
    if k < |rules[0].conditions| {
      a := SomeCellHolds(rules, k, hits);
    }
    AgreeingPositions(rules, k, a, hits);
    AltMatchesByCell(rules, a, hits);
    assert AltMatches(rules[a], hits);
  }

  lemma OneDifferenceNeverNarrows(rules: seq<Alternative>, k: nat, hits: Hits)
    requires Aligned(rules) && ShapesAgree(rules) && OnlyKDiffers(rules, k) && SetMatches(rules, hits)
    requires k >= |rules[0].conditions| || PositiveAt(rules, k)
    ensures UnionMatches(rules, hits)
  {
    var a :| 0 <= a < |rules| && AltMatches(rules[a], hits);
    AltMatchesByCell(rules, a, hits);
    AgreeingPositions(rules, k, a, hits);
    if k < |rules[0].conditions| {
      InUnion(rules, k);
      var v :| v in Cell(rules, a, k) && (MatcherAt(rules, k), v) in hits;
      assert v in Union(rules, k);
    }
  }

  /** (A and B1) or (A and B2) is implied by A and (B1 or B2), and equal to it where
      the differing position is positive. */
  lemma OneDifferenceIsSound(rs: RuleSet, emitted: seq<Structured>, k: nat, hits: Hits)
    requires Accepted(rs, emitted) && OnlyKDiffers(rs.rules, k)
    ensures MatchesInPlace(emitted, rs.rules[0], hits) ==> Matches(rs, hits)
    ensures (k >= |rs.rules[0].conditions| || PositiveAt(rs.rules, k)) && Matches(rs, hits)
            ==> MatchesInPlace(emitted, rs.rules[0], hits)
  {
    InPlaceIsTheUnion(rs, emitted, hits);
    EmittedSetIsAnOr(rs, emitted, hits);
    if UnionMatches(rs.rules, hits) {
      OneDifferenceNeverWidens(rs.rules, k, hits);
    } else if (k >= |rs.rules[0].conditions| || PositiveAt(rs.rules, k)) && Matches(rs, hits) {
      OneDifferenceNeverNarrows(rs.rules, k, hits);
    }
  }

  /** A single alternative, or several whose base is clean. */
  predicate Undisguised(rules: seq<Alternative>)
    requires Aligned(rules)
  {
    |rules| == 1 || CleanBase(rules)
  }

  lemma AcceptedDiffersOnce(rs: RuleSet, emitted: seq<Structured>) returns (k: nat)
    requires Accepted(rs, emitted) && Undisguised(rs.rules)
    ensures OnlyKDiffers(rs.rules, k)
    ensures k < |rs.rules[0].conditions| ==> !Agrees(rs.rules, k)
  {
    var rules := rs.rules;
    var n := |rules[0].conditions|;
    if |rules| == 1 {
      k := n;
    } else {
      k := AtMostOneVaries(rules, n);
      forall i | 0 <= i < n ensures !VariesAt(rules, i) <==> Agrees(rules, i) {
        CleanBaseVariesWhereItDiffers(rules, i);
      }
    }
  }

  /** The collapse never widens: under the hypothesis, whatever the emitted rule matches,
      some alternative matches, whatever the polarity of the position that varies. */
  lemma CollapseNeverWidens(rs: RuleSet, emitted: seq<Structured>, hits: Hits)
    requires Accepted(rs, emitted) && Undisguised(rs.rules)
    ensures MatchesInPlace(emitted, rs.rules[0], hits) ==> Matches(rs, hits)
  {
    var k := AcceptedDiffersOnce(rs, emitted);
    OneDifferenceIsSound(rs, emitted, k, hits);
  }

  /** And it is exactly the OR of the alternatives when every position on which they
      differ is positive. */
  lemma CollapseIsExact(rs: RuleSet, emitted: seq<Structured>, hits: Hits)
    requires Accepted(rs, emitted) && Undisguised(rs.rules)
    requires forall i :: 0 <= i < |rs.rules[0].conditions| && !Agrees(rs.rules, i) ==> PositiveAt(rs.rules, i)
    ensures MatchesInPlace(emitted, rs.rules[0], hits) <==> Matches(rs, hits)
  {
    var k := AcceptedDiffersOnce(rs, emitted);
    OneDifferenceIsSound(rs, emitted, k, hits);
  }

  /** With positive conditions an accepted merge never narrows, clean base or not. */
  lemma PositiveCollapseNeverNarrows(rs: RuleSet, emitted: seq<Structured>, hits: Hits)
    requires Accepted(rs, emitted)
    requires forall i :: 0 <= i < |rs.rules[0].conditions| ==> PositiveAt(rs.rules, i)
    ensures Matches(rs, hits) ==> MatchesInPlace(emitted, rs.rules[0], hits)
  {
    InPlaceIsTheUnion(rs, emitted, hits);
    EmittedSetIsAnOr(rs, emitted, hits);
    if Matches(rs, hits) {
      var a :| 0 <= a < |rs.rules| && AltMatches(rs.rules[a], hits);
      AltMatchesByCell(rs.rules, a, hits);
      forall i | 0 <= i < |rs.rules[0].conditions|
        ensures Holds(MatcherAt(rs.rules, i), true, Union(rs.rules, i), hits)
      {
        InUnion(rs.rules, i);
        var v :| v in Cell(rs.rules, a, i) && (MatcherAt(rs.rules, i), v) in hits;
        assert v in Union(rs.rules, i);
      }
    }
  }
}
