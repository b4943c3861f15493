/** The collapse of an OR of AND alternatives into one AND list: what the code compares
    and computes. */
module RuleCollapse {
  import opened Collections
  import opened JoinedText

  datatype Condition = Condition(kind: string, operator: string, positive: bool, value: seq<string>,
                                 valueCase: bool, wildcard: bool, carrier: string, selector: string,
                                 transformations: seq<string>)

  /** `operation` and `combination` stand trimmed and upper-cased. */
  datatype Alternative = Alternative(operation: string, conditions: seq<Condition>)
  datatype RuleSet = RuleSet(combination: string, rules: seq<Alternative>)

  datatype Structured = Structured(kind: string, positive: bool, value: seq<string>, wildcard: bool)

  datatype Merge = Merged(conditions: seq<Structured>) | Refused

  // ---- shapes ----

  /** What decides whether a value matches a request: everything about a condition except
      its values and its polarity. */
  datatype Matcher = Matcher(kind: string, operator: string, valueCase: bool, wildcard: bool,
                             carrier: string, selector: string, transformations: seq<string>)

  datatype Shape = Shape(matcher: Matcher, positive: bool)

  function MatcherOf(c: Condition): Matcher {
    Matcher(c.kind, c.operator, c.valueCase, c.wildcard, c.carrier, c.selector, c.transformations)
  }

  function ShapeOf(c: Condition): Shape { Shape(MatcherOf(c), c.positive) }

  function Bool(b: bool): string { if b then "true" else "false" }

  function Fields(c: Condition): seq<string> {
    [c.kind, c.operator, Bool(c.positive), Bool(c.valueCase), Bool(c.wildcard), c.carrier, c.selector,
     Join(c.transformations, '|')]
  }

  /** What the code compares: the fields joined by NUL. */
  function ShapeString(c: Condition): string { Join(Fields(c), NUL) }

  predicate NulFree(c: Condition) { Free(Fields(c), NUL) }

  lemma BoolIsInjective(a: bool, b: bool)
    ensures Bool(a) == Bool(b) ==> a == b
  {
    assert |Bool(true)| != |Bool(false)|;
  }

  /** Everything but the transformations stands in a field of its own. */
  predicate LikeIt(c: Condition, d: Condition) {
    ShapeOf(d.(transformations := c.transformations)) == ShapeOf(c)
  }

  lemma FieldsAreTheShape(c: Condition, d: Condition)
    ensures Fields(c) == Fields(d) <==> LikeIt(c, d) && Join(c.transformations, '|') == Join(d.transformations, '|')
  {
    var f, g := Fields(c), Fields(d);
    if f == g {
      assert f[0] == g[0] && f[1] == g[1] && f[2] == g[2] && f[3] == g[3];
      assert f[4] == g[4] && f[5] == g[5] && f[6] == g[6] && f[7] == g[7];
      BoolIsInjective(c.positive, d.positive);
      BoolIsInjective(c.valueCase, d.valueCase);
      BoolIsInjective(c.wildcard, d.wildcard);
    }
  }

  /** The transformations have names that the separator does not occur in. */
  predicate NamesTransformations(c: Condition) { AreNames(c.transformations, '|') }

  /** Between conditions with transformation names, one of them without NUL characters, the
      comparison of strings is the comparison of shapes. */
  lemma ShapeStringIsFaithful(c: Condition, d: Condition)
    requires NulFree(c) && NamesTransformations(c) && NamesTransformations(d)
    ensures ShapeString(c) == ShapeString(d) <==> ShapeOf(c) == ShapeOf(d)
  {
    FieldsAreTheShape(c, d);
    NamesJoinApart(c.transformations, d.transformations, '|');
    if ShapeString(c) == ShapeString(d) {
      JoinSplits(Fields(c), Fields(d), NUL);
    }
  }

  lemma BoolsAreFree(c: Condition)
    ensures NUL !in Bool(true) && NUL !in Bool(false)
    ensures NulFree(c) <==> NUL !in c.kind && NUL !in c.operator && NUL !in c.carrier && NUL !in c.selector
                            && NUL !in Join(c.transformations, '|')
  {
    var f := Fields(c);
    assert Free(f, NUL) <==> NUL !in f[0] && NUL !in f[1] && NUL !in f[2] && NUL !in f[3]
                             && NUL !in f[4] && NUL !in f[5] && NUL !in f[6] && NUL !in f[7];
  }

  /** One that contains NUL shares its string with a condition of another shape: the
      character moves into the neighbouring field. */
  lemma NulIsConfused(c: Condition) returns (d: Condition)
    requires !NulFree(c)
    ensures ShapeString(d) == ShapeString(c) && ShapeOf(d) != ShapeOf(c)
  {
    BoolsAreFree(c);
    if NUL in c.kind {
      var x, y := CutAt(c.kind, NUL);
      d := c.(kind := x, operator := y + [NUL] + c.operator);
      ShiftRight(Fields(c), 0, x, y, NUL);
      assert Fields(d) == Fields(c)[0 := x][1 := y + [NUL] + c.operator];
    } else if NUL in c.operator {
      var x, y := CutAt(c.operator, NUL);
      d := c.(kind := c.kind + [NUL] + x, operator := y);
      ShiftLeft(Fields(c), 1, x, y, NUL);
      assert Fields(d) == Fields(c)[0 := c.kind + [NUL] + x][1 := y];
    } else {
      d := CarrierIsConfused(c);
    }
  }

  lemma CarrierIsConfused(c: Condition) returns (d: Condition)
    requires NUL in c.carrier || NUL in c.selector || NUL in Join(c.transformations, '|')
    ensures ShapeString(d) == ShapeString(c) && ShapeOf(d) != ShapeOf(c)
  {
    if NUL in c.carrier {
      var x, y := CutAt(c.carrier, NUL);
      d := c.(carrier := x, selector := y + [NUL] + c.selector);
      ShiftRight(Fields(c), 5, x, y, NUL);
      assert Fields(d) == Fields(c)[5 := x][6 := y + [NUL] + c.selector];
    } else if NUL in c.selector {
      var x, y := CutAt(c.selector, NUL);
      d := c.(carrier := c.carrier + [NUL] + x, selector := y);
      ShiftLeft(Fields(c), 6, x, y, NUL);
      assert Fields(d) == Fields(c)[5 := c.carrier + [NUL] + x][6 := y];
    } else {
      var x, y := CutAt(Join(c.transformations, '|'), NUL);
      d := c.(selector := c.selector + [NUL] + x, transformations := [y]);
      ShiftLeft(Fields(c), 7, x, y, NUL);
      assert Fields(d) == Fields(c)[6 := c.selector + [NUL] + x][7 := y];
    }
  }

  /** Where the joined transformations stand for more than one list, another condition has
      that other list. */
  lemma BarIsConfused(c: Condition) returns (d: Condition)
    requires !(|c.transformations| == 1 && NamesTransformations(c))
    ensures ShapeString(d) == ShapeString(c) && ShapeOf(d) != ShapeOf(c)
  {
    var other := JoinIsShared(c.transformations, '|');
    d := c.(transformations := other);
    assert Fields(d) == Fields(c);
  }

  /** Against all others, also those with odd transformation names, a condition has its
      string to itself exactly when it contains no NUL and a single, proper one. */
  lemma ShapeStringIdentifies(c: Condition)
    ensures NulFree(c) && |c.transformations| == 1 && NamesTransformations(c)
            <==> forall d :: ShapeString(d) == ShapeString(c) ==> ShapeOf(d) == ShapeOf(c)
  {
    if !NulFree(c) {
      var d := NulIsConfused(c);
    } else if |c.transformations| == 1 && NamesTransformations(c) {
      forall d | ShapeString(d) == ShapeString(c) ensures ShapeOf(d) == ShapeOf(c) {
        JoinSplits(Fields(c), Fields(d), NUL);
        FieldsAreTheShape(c, d);
        SingleNameIsAlone(c.transformations, d.transformations, '|');
      }
    } else {
      var d := BarIsConfused(c);
    }
  }

  // ---- the collapse ----

  predicate Collapsible(alt: Alternative) {
    (alt.operation == "AND" || alt.operation == "") && alt.conditions != []
  }

  predicate LinesUp(base: Alternative, alt: Alternative) {
    |alt.conditions| == |base.conditions|
    && forall i :: 0 <= i < |base.conditions| ==> ShapeString(alt.conditions[i]) == ShapeString(base.conditions[i])
  }

  predicate Aligned(rules: seq<Alternative>) {
    rules != [] && forall a :: 0 <= a < |rules| ==> LinesUp(rules[0], rules[a])
  }

  function ToStructured(c: Condition): Structured { Structured(c.kind, c.positive, c.value, c.wildcard) }

  function ToStructuredConditions(cs: seq<Condition>): seq<Structured> {
    seq(|cs|, i requires 0 <= i < |cs| => ToStructured(cs[i]))
  }

  /** `values` followed by the members of `vs` it does not contain yet. */
  function Extend(values: seq<string>, vs: seq<string>): seq<string>
    decreases |vs|
  {
    if vs == [] then values
    else Extend(if vs[0] in values then values else values + [vs[0]], vs[1..])
  }

  /** The union of position i over the first n alternatives, in order of appearance. */
  function UnionAt(rules: seq<Alternative>, i: nat, n: nat): seq<string>
    requires n <= |rules| && forall a :: 0 <= a < n ==> i < |rules[a].conditions|
  {
    if n == 0 then [] else Extend(UnionAt(rules, i, n - 1), rules[n - 1].conditions[i].value)
  }

  function Union(rules: seq<Alternative>, i: nat): seq<string>
    requires Aligned(rules) && i < |rules[0].conditions|
  {
    UnionAt(rules, i, |rules|)
  }

  /** The test of the code: it compares lengths. */
  predicate VariesAt(rules: seq<Alternative>, i: nat)
    requires Aligned(rules) && i < |rules[0].conditions|
  {
    |Union(rules, i)| != |rules[0].conditions[i].value|
  }

  /** How many of the first n positions vary for the code. */
  function Varying(rules: seq<Alternative>, n: nat): (k: nat)
    requires Aligned(rules) && n <= |rules[0].conditions|
    ensures k <= n
  {
    if n == 0 then 0
    else Varying(rules, n - 1) + if VariesAt(rules, n - 1) then 1 else 0
  }

  function UnionedAt(rules: seq<Alternative>, i: nat): Structured
    requires Aligned(rules) && i < |rules[0].conditions|
  {
    ToStructured(rules[0].conditions[i]).(value := Union(rules, i))
  }

  function Unioned(rules: seq<Alternative>): seq<Structured>
    requires Aligned(rules)
  {
    seq(|rules[0].conditions|, i requires 0 <= i < |rules[0].conditions| => UnionedAt(rules, i))
  }

  /** The first n positions merged, the others as in the first alternative. */
  function UnionedUpTo(rules: seq<Alternative>, n: nat): seq<Structured>
    requires Aligned(rules)
  {
    seq(|rules[0].conditions|, i requires 0 <= i < |rules[0].conditions| =>
      if i < n then UnionedAt(rules, i) else ToStructured(rules[0].conditions[i]))
  }

  function Collapse(rs: RuleSet): Merge
    requires rs.rules != []
  {
    if exists a :: 0 <= a < |rs.rules| && !Collapsible(rs.rules[a]) then Refused
    else if |rs.rules| == 1 then Merged(ToStructuredConditions(rs.rules[0].conditions))
    else if rs.combination != "OR" || !Aligned(rs.rules) then Refused
    else if Varying(rs.rules, |rs.rules[0].conditions|) > 1 then Refused
    else Merged(Unioned(rs.rules))
  }

  /** The inner loops over one position: `seen` is membership in `values`. */
  method UnionOf(rules: seq<Alternative>, i: nat) returns (values: seq<string>)
    requires Aligned(rules) && i < |rules[0].conditions|
    ensures values == Union(rules, i)
  {
    values := [];
    for a := 0 to |rules|
      invariant values == UnionAt(rules, i, a)
    {
      assert LinesUp(rules[0], rules[a]);
      var vs := rules[a].conditions[i].value;
      ghost var before := values;
      for k := 0 to |vs|
        invariant Extend(values, vs[k..]) == Extend(before, vs)
      {
        assert vs[k..][1..] == vs[k + 1..];
        if vs[k] !in values {
          values := values + [vs[k]];
        }
      }
      assert vs[|vs|..] == [];
    }
  }

  method FirstUncollapsible(rules: seq<Alternative>) returns (found: bool)
    ensures found <==> exists a :: 0 <= a < |rules| && !Collapsible(rules[a])
  {
    for a := 0 to |rules|
      invariant forall k :: 0 <= k < a ==> Collapsible(rules[k])
    {
      if (rules[a].operation != "AND" && rules[a].operation != "") || rules[a].conditions == [] {
        return true;
      }
    }
    return false;
  }

  /** Every alternative must line up position by position with the first. */
  method CheckAligned(rules: seq<Alternative>) returns (ok: bool)
    requires rules != []
    ensures ok == Aligned(rules)
  {
    var base := rules[0].conditions;
    for a := 1 to |rules|
      invariant forall k :: 0 <= k < a ==> LinesUp(rules[0], rules[k])
    {
      if |rules[a].conditions| != |base| {
        return false;
      }
      for i := 0 to |base|
        invariant forall k :: 0 <= k < i ==> ShapeString(rules[a].conditions[k]) == ShapeString(base[k])
      {
        if ShapeString(rules[a].conditions[i]) != ShapeString(base[i]) {
          return false;
        }
      }
    }
    return true;
  }

  /** mergeAlternatives. The caller has rejected the empty rule set before. */
  method MergeAlternatives(rs: RuleSet) returns (res: Merge)
    requires rs.rules != []
    ensures res == Collapse(rs)
    ensures res.Merged? ==> |rs.rules| == 1 || rs.combination == "OR"
    ensures res.Merged? ==>
            forall alt :: alt in rs.rules ==> (alt.operation == "AND" || alt.operation == "") && alt.conditions != []
  {
    var rules := rs.rules;
    var bad := FirstUncollapsible(rules);
    if bad {
      return Refused;
    }
    var base := rules[0].conditions;
    if |rules| == 1 {
      return Merged(ToStructuredConditions(base));
    }
    if rs.combination != "OR" {
      return Refused;
    }
    var aligned := CheckAligned(rules);
    if !aligned {
      return Refused;
    }
    var merged, varying := UnionPositions(rules);
    if varying > 1 {
      return Refused;
    }
    return Merged(merged);
  }

  /** Union the values per position and count the positions that vary. */
  method UnionPositions(rules: seq<Alternative>) returns (merged: seq<Structured>, varying: nat)
    requires Aligned(rules)
    ensures merged == Unioned(rules) && varying == Varying(rules, |rules[0].conditions|)
  {
    var base := rules[0].conditions;
    merged := ToStructuredConditions(base);
    assert merged == UnionedUpTo(rules, 0);
    varying := 0;
    for i := 0 to |base|
      invariant merged == UnionedUpTo(rules, i)
      invariant varying == Varying(rules, i)
    {
      var values := UnionOf(rules, i);
      if |values| != |base[i].value| {
        varying := varying + 1;
      }
      merged := merged[i := merged[i].(value := values)];
      assert merged == UnionedUpTo(rules, i + 1);
    }
    assert UnionedUpTo(rules, |base|) == Unioned(rules);
  }
}
