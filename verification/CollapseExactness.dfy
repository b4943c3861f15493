/** Exactly when an accepted collapse keeps the meaning of the rule set: both
    directions, for every request, in terms of the values alone. */
module CollapseExactness {
  import opened Collections
  import opened JoinedText
  import opened RuleCollapse
  import opened CollapseMeaning

  ghost predicate NeverWidens(rs: RuleSet, emitted: seq<Structured>)
    requires rs.rules != []
  {
    forall hits: Hits :: MatchesInPlace(emitted, rs.rules[0], hits) ==> Matches(rs, hits)
  }

  ghost predicate NeverNarrows(rs: RuleSet, emitted: seq<Structured>)
    requires rs.rules != []
  {
    forall hits: Hits :: Matches(rs, hits) ==> MatchesInPlace(emitted, rs.rules[0], hits)
  }

  predicate Positive(rules: seq<Alternative>, i: nat)
    requires Aligned(rules)
  {
    i < |rules[0].conditions| && PositiveAt(rules, i)
  }

  predicate Negative(rules: seq<Alternative>, i: nat)
    requires Aligned(rules)
  {
    i < |rules[0].conditions| && !PositiveAt(rules, i)
  }

  /** Two positions whose values are matched in the same way. */
  predicate SameMatcher(rules: seq<Alternative>, i: nat, j: nat)
    requires Aligned(rules) && i < |rules[0].conditions| && j < |rules[0].conditions|
  {
    MatcherAt(rules, i) == MatcherAt(rules, j)
  }

  lemma CellInUnion(rules: seq<Alternative>, a: nat, i: nat, v: string)
    requires Aligned(rules) && a < |rules| && i < |rules[0].conditions| && v in Cell(rules, a, i)
    ensures v in Union(rules, i)
  {
    InUnion(rules, i);
  }

  // ---- widening ----

  /** One value per position, at the positive positions out of the union, and none that
      a negated position with the same matcher rules out. */
  ghost predicate IsPick(rules: seq<Alternative>, pick: seq<string>)
    requires Aligned(rules)
  {
    |pick| == |rules[0].conditions| &&
    (forall i: nat :: Positive(rules, i) ==> pick[i] in Union(rules, i)) &&
    forall i: nat, j: nat :: Positive(rules, i) && Negative(rules, j) && SameMatcher(rules, i, j) ==>
        pick[i] !in Union(rules, j)
  }

  /** The picked values let position i of alternative a hold. */
  ghost predicate Serves(rules: seq<Alternative>, a: nat, i: nat, pick: seq<string>)
    requires Aligned(rules) && a < |rules| && |pick| == |rules[0].conditions| && Positive(rules, i)
  {
    exists j: nat :: Positive(rules, j) && SameMatcher(rules, j, i) && pick[j] in Cell(rules, a, i)
  }

  ghost predicate Covers(rules: seq<Alternative>, a: nat, pick: seq<string>)
    requires Aligned(rules) && a < |rules| && |pick| == |rules[0].conditions|
  {
    forall i: nat :: Positive(rules, i) ==> Serves(rules, a, i, pick)
  }

  /** Every combination of merged values satisfies a single alternative. */
  ghost predicate Covered(rules: seq<Alternative>)
    requires Aligned(rules)
  {
    forall pick: seq<string> :: IsPick(rules, pick) ==> exists a :: 0 <= a < |rules| && Covers(rules, a, pick)
  }

  /** A value that hits, for each of the first n positions that needs one. */
  lemma {:induction false} ChoosePick(rules: seq<Alternative>, hits: Hits, n: nat) returns (pick: seq<string>)
    requires Aligned(rules) && UnionMatches(rules, hits) && n <= |rules[0].conditions|
    ensures |pick| == n
    ensures forall i: nat :: i < n && Positive(rules, i) ==>
              pick[i] in Union(rules, i) && (MatcherAt(rules, i), pick[i]) in hits
  {
    if n == 0 {
      pick := [];
    } else {
      var front := ChoosePick(rules, hits, n - 1);
      var v := "";
      assert Holds(MatcherAt(rules, n - 1), PositiveAt(rules, n - 1), Union(rules, n - 1), hits);
      if PositiveAt(rules, n - 1) {
        v :| v in Union(rules, n - 1) && (MatcherAt(rules, n - 1), v) in hits;
      }
      pick := front + [v];
    }
  }

  /** Values that hit are none that a negated position of the union rules out. */
  lemma HitsArePicks(rules: seq<Alternative>, hits: Hits, pick: seq<string>)
    requires Aligned(rules) && UnionMatches(rules, hits) && |pick| == |rules[0].conditions|
    requires forall i: nat :: Positive(rules, i) ==>
            pick[i] in Union(rules, i) && (MatcherAt(rules, i), pick[i]) in hits
    ensures IsPick(rules, pick)
  {
    forall i: nat, j: nat | Positive(rules, i) && Negative(rules, j) && SameMatcher(rules, i, j)
      ensures pick[i] !in Union(rules, j)
    {
      assert Holds(MatcherAt(rules, j), PositiveAt(rules, j), Union(rules, j), hits);
    }
  }

  lemma CoveredNeverWidens(rules: seq<Alternative>, hits: Hits)
    requires Aligned(rules) && ShapesAgree(rules) && Covered(rules) && UnionMatches(rules, hits)
    ensures SetMatches(rules, hits)
  {
    var n := |rules[0].conditions|;
    var pick := ChoosePick(rules, hits, n);
    HitsArePicks(rules, hits, pick);
    var a :| 0 <= a < |rules| && Covers(rules, a, pick);
    forall i | 0 <= i < n ensures Holds(MatcherAt(rules, i), PositiveAt(rules, i), Cell(rules, a, i), hits) {
      if PositiveAt(rules, i) {
        assert Positive(rules, i) && Serves(rules, a, i, pick);
      } else {
        NegatedCellHolds(rules, a, i, hits);
      }
    }
    AltMatchesByCell(rules, a, hits);
  }

  lemma NegatedCellHolds(rules: seq<Alternative>, a: nat, i: nat, hits: Hits)
    requires Aligned(rules) && UnionMatches(rules, hits) && a < |rules| && Negative(rules, i)
    ensures Holds(MatcherAt(rules, i), false, Cell(rules, a, i), hits)
  {
    assert Holds(MatcherAt(rules, i), PositiveAt(rules, i), Union(rules, i), hits);
    forall v | v in Cell(rules, a, i) ensures v in Union(rules, i) {
      CellInUnion(rules, a, i, v);
    }
  }

  /** The request that hits exactly the picked values. */
  ghost function PickedHits(rules: seq<Alternative>, pick: seq<string>): Hits
    requires Aligned(rules) && |pick| == |rules[0].conditions|
  {
    iset i: nat | Positive(rules, i) :: (MatcherAt(rules, i), pick[i])
  }

  lemma PickedMatchesTheUnion(rules: seq<Alternative>, pick: seq<string>)
    requires Aligned(rules) && IsPick(rules, pick)
    ensures UnionMatches(rules, PickedHits(rules, pick))
  {
    var hits := PickedHits(rules, pick);
    forall i | 0 <= i < |rules[0].conditions|
      ensures Holds(MatcherAt(rules, i), PositiveAt(rules, i), Union(rules, i), hits)
    {
      if PositiveAt(rules, i) {
        assert Positive(rules, i) && (MatcherAt(rules, i), pick[i]) in hits;
      } else {
        forall v | v in Union(rules, i) ensures (MatcherAt(rules, i), v) !in hits {
          assert forall j: nat :: Positive(rules, j) && SameMatcher(rules, j, i) ==> pick[j] != v;
        }
      }
    }
  }

  lemma MatchedIsCovered(rules: seq<Alternative>, pick: seq<string>, a: nat)
    requires Aligned(rules) && ShapesAgree(rules) && |pick| == |rules[0].conditions|
    requires a < |rules| && AltMatches(rules[a], PickedHits(rules, pick))
    ensures Covers(rules, a, pick)
  {
    var hits := PickedHits(rules, pick);
    AltMatchesByCell(rules, a, hits);
    forall i: nat | Positive(rules, i) ensures Serves(rules, a, i, pick) {
      var v :| v in Cell(rules, a, i) && (MatcherAt(rules, i), v) in hits;
      var j: nat :| Positive(rules, j) && (MatcherAt(rules, i), v) == (MatcherAt(rules, j), pick[j]);
      assert SameMatcher(rules, j, i);
    }
  }

  /** The collapse never widens exactly when every combination of merged values
      satisfies some alternative. */
  lemma WideningIsUncovered(rs: RuleSet, emitted: seq<Structured>)
    requires Accepted(rs, emitted)
    ensures NeverWidens(rs, emitted) <==> Covered(rs.rules)
  {
    var rules := rs.rules;
    if NeverWidens(rs, emitted) {
      forall pick | IsPick(rules, pick) ensures exists a :: 0 <= a < |rules| && Covers(rules, a, pick) {
        var hits := PickedHits(rules, pick);
        PickedMatchesTheUnion(rules, pick);
        InPlaceIsTheUnion(rs, emitted, hits);
        EmittedSetIsAnOr(rs, emitted, hits);
        var a :| 0 <= a < |rules| && AltMatches(rules[a], hits);
        MatchedIsCovered(rules, pick, a);
      }
    }
    if Covered(rules) {
      forall hits: Hits | MatchesInPlace(emitted, rs.rules[0], hits) ensures Matches(rs, hits) {
        InPlaceIsTheUnion(rs, emitted, hits);
        EmittedSetIsAnOr(rs, emitted, hits);
        CoveredNeverWidens(rules, hits);
      }
    }
  }

  // ---- narrowing ----

  /** No negated condition of the alternative with this matcher names the value. */
  ghost predicate Allowed(rules: seq<Alternative>, a: nat, m: Matcher, v: string)
    requires Aligned(rules) && a < |rules|
  {
    forall j: nat :: Negative(rules, j) && MatcherAt(rules, j) == m ==> v !in Cell(rules, a, j)
  }

  ghost predicate HasAllowed(rules: seq<Alternative>, a: nat, i: nat)
    requires Aligned(rules) && a < |rules| && i < |rules[0].conditions|
  {
    exists w :: w in Cell(rules, a, i) && Allowed(rules, a, MatcherAt(rules, i), w)
  }

  /** Some request satisfies the alternative. */
  ghost predicate Satisfiable(rules: seq<Alternative>, a: nat)
    requires Aligned(rules) && a < |rules|
  {
    forall i: nat :: Positive(rules, i) ==> HasAllowed(rules, a, i)
  }

  /** Every satisfiable alternative already rules out all that the union does. */
  ghost predicate NegativesShared(rules: seq<Alternative>)
    requires Aligned(rules)
  {
    forall a, i: nat, v :: 0 <= a < |rules| && Satisfiable(rules, a) && Negative(rules, i) && v in Union(rules, i)
                           ==> !Allowed(rules, a, MatcherAt(rules, i), v)
  }

  /** What hits does not meet a negated condition that holds. */
  lemma HitIsAllowed(rules: seq<Alternative>, a: nat, hits: Hits, m: Matcher, v: string)
    requires Aligned(rules) && ShapesAgree(rules) && a < |rules| && AltMatches(rules[a], hits) && (m, v) in hits
    ensures Allowed(rules, a, m, v)
  {
    AltMatchesByCell(rules, a, hits);
    forall j: nat | Negative(rules, j) && MatcherAt(rules, j) == m ensures v !in Cell(rules, a, j) {
      assert Holds(MatcherAt(rules, j), PositiveAt(rules, j), Cell(rules, a, j), hits);
    }
  }

  lemma MatchedIsSatisfiable(rules: seq<Alternative>, a: nat, hits: Hits)
    requires Aligned(rules) && ShapesAgree(rules) && a < |rules| && AltMatches(rules[a], hits)
    ensures Satisfiable(rules, a)
  {
    AltMatchesByCell(rules, a, hits);
    forall i: nat | Positive(rules, i) ensures HasAllowed(rules, a, i) {
      assert Holds(MatcherAt(rules, i), PositiveAt(rules, i), Cell(rules, a, i), hits);
      var w :| w in Cell(rules, a, i) && (MatcherAt(rules, i), w) in hits;
      HitIsAllowed(rules, a, hits, MatcherAt(rules, i), w);
    }
  }

  lemma SharedNeverNarrows(rules: seq<Alternative>, hits: Hits)
    requires Aligned(rules) && ShapesAgree(rules) && NegativesShared(rules) && SetMatches(rules, hits)
    ensures UnionMatches(rules, hits)
  {
    var a :| 0 <= a < |rules| && AltMatches(rules[a], hits);
    AltMatchesByCell(rules, a, hits);
    MatchedIsSatisfiable(rules, a, hits);
    forall i | 0 <= i < |rules[0].conditions|
      ensures Holds(MatcherAt(rules, i), PositiveAt(rules, i), Union(rules, i), hits)
    {
      if PositiveAt(rules, i) {
        var v :| v in Cell(rules, a, i) && (MatcherAt(rules, i), v) in hits;
        CellInUnion(rules, a, i, v);
      } else {
        assert Negative(rules, i);
        forall v | v in Union(rules, i) ensures (MatcherAt(rules, i), v) !in hits {
          if (MatcherAt(rules, i), v) in hits {
            HitIsAllowed(rules, a, hits, MatcherAt(rules, i), v);
          }
        }
      }
    }
  }

  /** The request that hits all that alternative a allows. */
  ghost function AllowedHits(rules: seq<Alternative>, a: nat): Hits
    requires Aligned(rules) && a < |rules|
  {
    iset m: Matcher, w: string | Allowed(rules, a, m, w) :: (m, w)
  }

  lemma AllowedMatches(rules: seq<Alternative>, a: nat)
    requires Aligned(rules) && ShapesAgree(rules) && a < |rules| && Satisfiable(rules, a)
    ensures AltMatches(rules[a], AllowedHits(rules, a))
  {
    var hits := AllowedHits(rules, a);
    forall i | 0 <= i < |rules[0].conditions|
      ensures Holds(MatcherAt(rules, i), PositiveAt(rules, i), Cell(rules, a, i), hits)
    {
      if PositiveAt(rules, i) {
        assert Positive(rules, i);
        var w :| w in Cell(rules, a, i) && Allowed(rules, a, MatcherAt(rules, i), w);
        assert (MatcherAt(rules, i), w) in hits;
      } else {
        assert Negative(rules, i);
      }
    }
    AltMatchesByCell(rules, a, hits);
  }

  /** It never narrows exactly when the satisfiable alternatives share what their negated
      positions rule out. */
  lemma NarrowingIsUnshared(rs: RuleSet, emitted: seq<Structured>)
    requires Accepted(rs, emitted)
    ensures NeverNarrows(rs, emitted) <==> NegativesShared(rs.rules)
  {
    var rules := rs.rules;
    if NeverNarrows(rs, emitted) {
      forall a, i: nat, v | 0 <= a < |rules| && Satisfiable(rules, a) && Negative(rules, i) && v in Union(rules, i)
        ensures !Allowed(rules, a, MatcherAt(rules, i), v)
      {
        var hits := AllowedHits(rules, a);
        AllowedMatches(rules, a);
        assert SetMatches(rules, hits);
        EmittedSetIsAnOr(rs, emitted, hits);
        InPlaceIsTheUnion(rs, emitted, hits);
        assert Holds(MatcherAt(rules, i), PositiveAt(rules, i), Union(rules, i), hits);
      }
    }
    if NegativesShared(rules) {
      forall hits: Hits | Matches(rs, hits) ensures MatchesInPlace(emitted, rs.rules[0], hits) {
        InPlaceIsTheUnion(rs, emitted, hits);
        EmittedSetIsAnOr(rs, emitted, hits);
        SharedNeverNarrows(rules, hits);
      }
    }
  }

  // ---- the receiver ----

  /** A receiver that reads the emitted rule faithfully finds in it exactly the rule set
      when both conditions hold, and only then. */
  lemma ReceiverFindsTheSetExactlyWhen(rs: RuleSet, emitted: seq<Structured>, read: Reading)
    requires Accepted(rs, emitted) && Faithful(read, rs.rules[0])
    ensures (forall hits: Hits :: EmittedMatches(emitted, read, hits) <==> Matches(rs, hits))
            <==> Covered(rs.rules) && NegativesShared(rs.rules)
  {
    WideningIsUncovered(rs, emitted);
    NarrowingIsUnshared(rs, emitted);
    forall hits: Hits
      ensures EmittedMatches(emitted, read, hits) <==> MatchesInPlace(emitted, rs.rules[0], hits)
    {
      FaithfulReadingIsInPlace(rs, emitted, read, hits);
    }
  }

  // ---- the same where no two positions match in the same way ----

  predicate DistinctMatchers(rules: seq<Alternative>)
    requires Aligned(rules)
  {
    forall i, j :: 0 <= i < j < |rules[0].conditions| ==> MatcherAt(rules, i) != MatcherAt(rules, j)
  }

  ghost predicate Within(rules: seq<Alternative>, a: nat, pick: seq<string>)
    requires Aligned(rules) && a < |rules| && |pick| == |rules[0].conditions|
  {
    forall i: nat :: Positive(rules, i) ==> pick[i] in Cell(rules, a, i)
  }

  lemma CoversIsWithin(rules: seq<Alternative>, a: nat, pick: seq<string>)
    requires Aligned(rules) && DistinctMatchers(rules) && a < |rules| && |pick| == |rules[0].conditions|
    ensures Covers(rules, a, pick) <==> Within(rules, a, pick)
  {
    forall i: nat | Positive(rules, i) ensures Serves(rules, a, i, pick) <==> pick[i] in Cell(rules, a, i) {
      assert SameMatcher(rules, i, i);
    }
  }

  /** There the merged values must lie, position by position, within one alternative. */
  lemma WideningLeavesTheAlternatives(rs: RuleSet, emitted: seq<Structured>)
    requires Accepted(rs, emitted) && DistinctMatchers(rs.rules)
    ensures NeverWidens(rs, emitted) <==>
            forall pick :: IsPick(rs.rules, pick) ==> exists a :: 0 <= a < |rs.rules| && Within(rs.rules, a, pick)
  {
    WideningIsUncovered(rs, emitted);
    forall pick, a | IsPick(rs.rules, pick) && 0 <= a < |rs.rules|
      ensures Covers(rs.rules, a, pick) <==> Within(rs.rules, a, pick)
    {
      CoversIsWithin(rs.rules, a, pick);
    }
  }

  lemma AllowedIsAbsent(rules: seq<Alternative>, a: nat, i: nat, v: string)
    requires Aligned(rules) && DistinctMatchers(rules) && a < |rules| && i < |rules[0].conditions|
    ensures Allowed(rules, a, MatcherAt(rules, i), v) <==> PositiveAt(rules, i) || v !in Cell(rules, a, i)
  {
  }

  /** No positive position of the alternative is without values. */
  ghost predicate Filled(rules: seq<Alternative>, a: nat)
    requires Aligned(rules) && a < |rules|
  {
    forall i: nat :: Positive(rules, i) ==> Cell(rules, a, i) != []
  }

  lemma SatisfiableIsNonEmpty(rules: seq<Alternative>, a: nat)
    requires Aligned(rules) && DistinctMatchers(rules) && a < |rules|
    ensures Satisfiable(rules, a) <==> Filled(rules, a)
  {
    forall i: nat | Positive(rules, i)
      ensures (exists w :: w in Cell(rules, a, i) && Allowed(rules, a, MatcherAt(rules, i), w)) <==>
              Cell(rules, a, i) != []
    {
      if Cell(rules, a, i) != [] {
        AllowedIsAbsent(rules, a, i, Cell(rules, a, i)[0]);
      }
    }
  }

  /** And the negated values must be in every alternative without an empty position. */
  lemma NarrowingDropsNegatives(rs: RuleSet, emitted: seq<Structured>)
    requires Accepted(rs, emitted) && DistinctMatchers(rs.rules)
    ensures NeverNarrows(rs, emitted) <==>
            forall a, i: nat, v :: 0 <= a < |rs.rules| && Filled(rs.rules, a) && Negative(rs.rules, i) ==>
              v in Union(rs.rules, i) ==> v in Cell(rs.rules, a, i)
  {
    NarrowingIsUnshared(rs, emitted);
    forall a | 0 <= a < |rs.rules|
      ensures Satisfiable(rs.rules, a) <==> Filled(rs.rules, a)
    {
      SatisfiableIsNonEmpty(rs.rules, a);
    }
    forall a, i: nat, v | 0 <= a < |rs.rules| && Negative(rs.rules, i)
      ensures Allowed(rs.rules, a, MatcherAt(rs.rules, i), v) <==> v !in Cell(rs.rules, a, i)
    {
      AllowedIsAbsent(rs.rules, a, i, v);
    }
  }

  // ---- what goes wrong outside ----

  lemma ExtendOne(values: seq<string>, x: string)
    ensures Extend(values, [x]) == if x in values then values else values + [x]
  {
    assert [x][1..] == [];
  }

  lemma ExtendTwo(values: seq<string>, x: string, y: string)
    ensures Extend(values, [x, y]) == Extend(Extend(values, [x]), [y])
  {
    assert [x, y][1..] == [y];
    ExtendOne(values, x);
  }

  /** The union over two alternatives. */
  lemma UnionOfTwo(r: seq<Alternative>, i: nat)
    requires Aligned(r) && |r| == 2 && i < |r[0].conditions|
    ensures Union(r, i) == Extend(Extend([], Cell(r, 0, i)), Cell(r, 1, i))
  {
    assert LinesUp(r[0], r[1]);
    assert UnionAt(r, i, 0) == [];
    assert UnionAt(r, i, 1) == Extend(UnionAt(r, i, 0), r[0].conditions[i].value);
    assert UnionAt(r, i, 2) == Extend(UnionAt(r, i, 1), r[1].conditions[i].value);
  }

  /** Two positive positions: the second alternative drops a value in one and adds a
      value in the other, which hides the first change from the length test. */
  ghost predicate Fooling(r: seq<Alternative>, a: string, b: string, x: string, y: string) {
    && |r| == 2 && Aligned(r) && ShapesAgree(r) && Collapsible(r[0]) && Collapsible(r[1])
    && |r[0].conditions| == 2 && Positive(r, 0) && Positive(r, 1) && MatcherAt(r, 0) != MatcherAt(r, 1)
    && Cell(r, 0, 0) == [a, b] && Cell(r, 0, 1) == [x]
    && Cell(r, 1, 0) == [a] && Cell(r, 1, 1) == [x, y] && a != b && x != y
  }

  lemma FooledUnions(r: seq<Alternative>, a: string, b: string, x: string, y: string)
    requires Fooling(r, a, b, x, y)
    ensures Union(r, 0) == [a, b] && Union(r, 1) == [x, y]
  {
    UnionOfTwo(r, 0);
    UnionOfTwo(r, 1);
    ExtendTwo([], a, b); ExtendOne([], a); ExtendOne([a], b); ExtendOne([a, b], a);
    ExtendOne([], x); ExtendTwo([x], x, y); ExtendOne([x], x); ExtendOne([x], y);
    assert [] + [a] == [a] && [a] + [b] == [a, b] && [] + [x] == [x] && [x] + [y] == [x, y];
  }

  lemma FoolingIsAccepted(r: seq<Alternative>, a: string, b: string, x: string, y: string)
    requires Fooling(r, a, b, x, y) && Union(r, 0) == [a, b] && Union(r, 1) == [x, y]
    ensures Collapse(RuleSet("OR", r)) == Merged(Unioned(r)) && !CleanBase(r)
  {
    assert Varying(r, 0) == 0;
    assert Varying(r, 1) == 0;
    assert Varying(r, 2) == 1;
    assert b in Elements(Cell(r, 0, 0)) && b !in Elements(Cell(r, 1, 0));
  }

  /** The hypothesis of CollapseNeverWidens is needed: such a set is accepted, and what is
      emitted matches a request with b and y, which no alternative matches. */
  lemma LengthTestCanBeFooled(r: seq<Alternative>, a: string, b: string, x: string, y: string)
    returns (hits: Hits)
    requires Fooling(r, a, b, x, y)
    ensures Collapse(RuleSet("OR", r)) == Merged(Unioned(r)) && !CleanBase(r)
    ensures MatchesInPlace(Unioned(r), r[0], hits) && !Matches(RuleSet("OR", r), hits)
    ensures forall read: Reading :: Faithful(read, r[0]) ==> EmittedMatches(Unioned(r), read, hits)
  {
    FooledUnions(r, a, b, x, y);
    FoolingIsAccepted(r, a, b, x, y);
    hits := iset{(MatcherAt(r, 0), b), (MatcherAt(r, 1), y)};
    FooledWidens(r, a, b, x, y, hits);
    InPlaceIsTheUnion(RuleSet("OR", r), Unioned(r), hits);
    EmittedSetIsAnOr(RuleSet("OR", r), Unioned(r), hits);
    forall read: Reading | Faithful(read, r[0]) ensures EmittedMatches(Unioned(r), read, hits) {
      FaithfulReadingIsInPlace(RuleSet("OR", r), Unioned(r), read, hits);
    }
  }

  lemma FooledWidens(r: seq<Alternative>, a: string, b: string, x: string, y: string, hits: Hits)
    requires Fooling(r, a, b, x, y) && Union(r, 0) == [a, b] && Union(r, 1) == [x, y]
    requires hits == iset{(MatcherAt(r, 0), b), (MatcherAt(r, 1), y)}
    ensures UnionMatches(r, hits) && !SetMatches(r, hits)
  {
    FooledUnionMatches(r, b, y, hits);
    OneMissedCell(r, 0, 1, hits);
    OneMissedCell(r, 1, 0, hits);
  }

  lemma OneMissedCell(r: seq<Alternative>, a: nat, i: nat, hits: Hits)
    requires Aligned(r) && ShapesAgree(r) && a < |r| && Positive(r, i)
    requires forall v :: v in Cell(r, a, i) ==> (MatcherAt(r, i), v) !in hits
    ensures !AltMatches(r[a], hits)
  {
    AltMatchesByCell(r, a, hits);
    assert !Holds(MatcherAt(r, i), PositiveAt(r, i), Cell(r, a, i), hits);
  }

  lemma FooledUnionMatches(r: seq<Alternative>, b: string, y: string, hits: Hits)
    requires Aligned(r) && |r[0].conditions| == 2 && Positive(r, 0) && Positive(r, 1)
    requires b in Union(r, 0) && y in Union(r, 1)
    requires (MatcherAt(r, 0), b) in hits && (MatcherAt(r, 1), y) in hits
    ensures UnionMatches(r, hits)
  {
  }

  function Cond(kind: string, value: seq<string>): Condition {
    Condition(kind, "", true, value, false, false, "", "", [])
  }

  /** There are such sets, and faithful readings of them: any two distinct kinds and
      distinct values do. */
  lemma FoolingSetsExist(p: string, q: string, a: string, b: string, x: string, y: string)
    requires p != q && a != b && x != y
    ensures var r := [Alternative("AND", [Cond(p, [a, b]), Cond(q, [x])]),
                      Alternative("AND", [Cond(p, [a]), Cond(q, [x, y])])];
            Fooling(r, a, b, x, y) && EmissionDetermines(r[0])
  {
    CondShape(p, [a, b], [a]);
    CondShape(q, [x], [x, y]);
    TwoKinds(Cond(p, [a, b]), Cond(q, [x]));
    var r := [Alternative("AND", [Cond(p, [a, b]), Cond(q, [x])]), Alternative("AND", [Cond(p, [a]), Cond(q, [x, y])])];
    assert LinesUp(r[0], r[0]) && LinesUp(r[0], r[1]);
  }

  lemma TwoKinds(c: Condition, d: Condition)
    requires c.kind != d.kind
    ensures EmissionDetermines(Alternative("AND", [c, d]))
  {
  }

  lemma CondShape(p: string, v: seq<string>, w: seq<string>)
    ensures ShapeString(Cond(p, v)) == ShapeString(Cond(p, w)) && ShapeOf(Cond(p, v)) == ShapeOf(Cond(p, w))
  {
    assert Fields(Cond(p, v)) == Fields(Cond(p, w));
  }

  /** NUL characters in the fields can make a negated condition line up with a
      positive one, so the comparison of joined strings does need conditions without NUL. */
  lemma ShapeStringCanConfusePolarity(kind: string, operator: string, e: string, f: string, g: string)
    ensures var s := [NUL];
            var c := Condition(kind, operator, true, [], false, false, Bool(false), Bool(false), [e + s + f + s + g]);
            var d := Condition(kind + s + operator + s + Bool(true), Bool(false), false, [], false, false, e, f, [g]);
            ShapeString(c) == ShapeString(d) && c.positive && !d.positive
  {
    var s := [NUL];
    var c := Condition(kind, operator, true, [], false, false, Bool(false), Bool(false), [e + s + f + s + g]);
    var d := Condition(kind + s + operator + s + Bool(true), Bool(false), false, [], false, false, e, f, [g]);
    JoinEight(c);
    JoinEight(d);
    var no := Bool(false);
    var tail := no + s + (no + s + (no + s + (no + s + (e + s + (f + s + g)))));
    assert e + s + (f + s + g) == e + s + f + s + g;
    assert ShapeString(c) == kind + s + (operator + s + (Bool(true) + s + tail));
    assert ShapeString(d) == kind + s + operator + s + Bool(true) + s + tail;
  }

  lemma JoinEight(c: Condition)
    ensures var f := Fields(c); var s := [NUL];
            Join(f, NUL)
            == f[0] + s + (f[1] + s + (f[2] + s + (f[3] + s + (f[4] + s + (f[5] + s + (f[6] + s + f[7]))))))
  {
    var f := Fields(c);
    assert f[1..][1..] == f[2..] && f[2..][1..] == f[3..] && f[3..][1..] == f[4..] && f[4..][1..] == f[5..]
           && f[5..][1..] == f[6..] && f[6..][1..] == f[7..];
    assert Join(f[7..], NUL) == f[7];
    assert Join(f[6..], NUL) == f[6] + [NUL] + Join(f[7..], NUL);
    assert Join(f[5..], NUL) == f[5] + [NUL] + Join(f[6..], NUL);
    assert Join(f[4..], NUL) == f[4] + [NUL] + Join(f[5..], NUL);
    assert Join(f[3..], NUL) == f[3] + [NUL] + Join(f[4..], NUL);
    assert Join(f[2..], NUL) == f[2] + [NUL] + Join(f[3..], NUL);
    assert Join(f[1..], NUL) == f[1] + [NUL] + Join(f[2..], NUL);
  }
}
