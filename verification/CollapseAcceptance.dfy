/** Which rule sets are merged, and what exactly is emitted for them. */
module CollapseAcceptance {
  import opened Collections
  import opened RuleCollapse
  import opened CollapseMeaning

  /** All values that the alternatives have at a position. */
  function ValuesAt(rules: seq<Alternative>, i: nat): set<string>
    requires Aligned(rules) && i < |rules[0].conditions|
  {
    set a, v | 0 <= a < |rules| && v in Cell(rules, a, i) :: v
  }

  lemma UnionListsTheValues(rules: seq<Alternative>, i: nat)
    requires Aligned(rules) && i < |rules[0].conditions|
    ensures VariesAt(rules, i) <==> |ValuesAt(rules, i)| != |rules[0].conditions[i].value|
  {
    InUnion(rules, i);
    DistinctSize(Union(rules, i));
    assert Elements(Union(rules, i)) == ValuesAt(rules, i);
  }

  lemma {:induction false} FewVary(rules: seq<Alternative>, n: nat, k: nat)
    requires Aligned(rules) && n <= |rules[0].conditions|
    requires forall i :: 0 <= i < n && i != k ==> !VariesAt(rules, i)
    ensures Varying(rules, n) <= if k < n then 1 else 0
  {
    if n > 0 {
      FewVary(rules, n - 1, k);
    }
  }

  ghost predicate VariesOnlyAt(rules: seq<Alternative>, k: nat)
    requires Aligned(rules)
  {
    forall i :: 0 <= i < |rules[0].conditions| && i != k ==>
      |ValuesAt(rules, i)| == |rules[0].conditions[i].value|
  }

  /** At most one position has another number of values, over all alternatives, than the
      first alternative lists there. */
  ghost predicate VariesOnce(rules: seq<Alternative>)
    requires Aligned(rules)
  {
    exists k: nat :: VariesOnlyAt(rules, k)
  }

  lemma OnlyAtIsNotElsewhere(rules: seq<Alternative>, k: nat)
    requires Aligned(rules)
    ensures VariesOnlyAt(rules, k) <==> forall i :: 0 <= i < |rules[0].conditions| && i != k ==> !VariesAt(rules, i)
  {
    forall i | 0 <= i < |rules[0].conditions|
      ensures VariesAt(rules, i) <==> |ValuesAt(rules, i)| != |rules[0].conditions[i].value|
    {
      UnionListsTheValues(rules, i);
    }
  }

  lemma VariesOnceIsCounted(rules: seq<Alternative>)
    requires Aligned(rules)
    ensures VariesOnce(rules) <==> Varying(rules, |rules[0].conditions|) <= 1
  {
    var n := |rules[0].conditions|;
    if Varying(rules, n) <= 1 {
      var k := AtMostOneVaries(rules, n);
      OnlyAtIsNotElsewhere(rules, k);
    } else if k: nat :| VariesOnlyAt(rules, k) {
      OnlyAtIsNotElsewhere(rules, k);
      FewVary(rules, n, k);
    }
  }

  /** A rule set is merged exactly when all its alternatives are conjunctions with
      conditions, and there is one alternative, or the set is a disjunction whose
      alternatives compare alike position by position and vary in at most one of them. */
  lemma MergedExactlyWhen(rs: RuleSet)
    requires rs.rules != []
    ensures Collapse(rs).Merged? <==>
            (forall a :: 0 <= a < |rs.rules| ==>
               (rs.rules[a].operation == "AND" || rs.rules[a].operation == "") && rs.rules[a].conditions != []) &&
            (|rs.rules| == 1 || (rs.combination == "OR" && Aligned(rs.rules) && VariesOnce(rs.rules)))
  {
    assert (forall a :: 0 <= a < |rs.rules| ==> Collapsible(rs.rules[a])) <==>
           (forall a :: 0 <= a < |rs.rules| ==>
              (rs.rules[a].operation == "AND" || rs.rules[a].operation == "") && rs.rules[a].conditions != []);
    if Aligned(rs.rules) {
      VariesOnceIsCounted(rs.rules);
    }
  }

  // ---- the order of the emitted values ----

  function FirstIndex(s: seq<string>, v: string): (i: nat)
    requires v in s
    ensures i < |s| && s[i] == v && v !in s[..i]
  {
    if s[0] == v then 0 else 1 + FirstIndex(s[1..], v)
  }

  lemma {:induction false} FirstIndexStays(s: seq<string>, t: seq<string>, v: string)
    requires v in s
    ensures FirstIndex(s + t, v) == FirstIndex(s, v)
  {
    if s[0] != v {
      assert (s + t)[1..] == s[1..] + t;
      FirstIndexStays(s[1..], t, v);
    }
  }

  lemma {:induction false} NewIndex(s: seq<string>, v: string)
    requires v !in s
    ensures FirstIndex(s + [v], v) == |s|
  {
    if s != [] {
      assert (s + [v])[1..] == s[1..] + [v];
      NewIndex(s[1..], v);
    }
  }

  /** The list has the members of the text it was gathered from, in order of appearance. */
  ghost predicate GatheredFrom(values: seq<string>, all: seq<string>) {
    (forall v :: v in values <==> v in all) &&
    forall p, q :: 0 <= p < q < |values| ==> FirstIndex(all, values[p]) < FirstIndex(all, values[q])
  }

  lemma GatherOne(values: seq<string>, all: seq<string>, v: string)
    requires GatheredFrom(values, all)
    ensures GatheredFrom(if v in values then values else values + [v], all + [v])
  {
    var next := if v in values then values else values + [v];
    forall p, q | 0 <= p < q < |next|
      ensures FirstIndex(all + [v], next[p]) < FirstIndex(all + [v], next[q])
    {
      FirstIndexStays(all, [v], next[p]);
      if q < |values| {
        FirstIndexStays(all, [v], next[q]);
      } else {
        NewIndex(all, v);
      }
    }
  }

  lemma SplitFirst(all: seq<string>, vs: seq<string>)
    requires vs != []
    ensures all + vs == all + [vs[0]] + vs[1..]
  {
  }

  lemma {:induction false} ExtendGathers(values: seq<string>, all: seq<string>, vs: seq<string>)
    requires GatheredFrom(values, all)
    ensures GatheredFrom(Extend(values, vs), all + vs)
    decreases |vs|
  {
    if vs == [] {
      assert all + vs == all;
    } else {
      var next := if vs[0] in values then values else values + [vs[0]];
      GatherOne(values, all, vs[0]);
      ExtendGathers(next, all + [vs[0]], vs[1..]);
      SplitFirst(all, vs);
    }
  }

  /** The values of the first n alternatives at a position, one after the other. */
  function AllValues(rules: seq<Alternative>, i: nat, n: nat): seq<string>
    requires n <= |rules| && forall a :: 0 <= a < n ==> i < |rules[a].conditions|
  {
    if n == 0 then [] else AllValues(rules, i, n - 1) + rules[n - 1].conditions[i].value
  }

  lemma {:induction false} UnionGathers(rules: seq<Alternative>, i: nat, n: nat)
    requires n <= |rules| && forall a :: 0 <= a < n ==> i < |rules[a].conditions|
    ensures GatheredFrom(UnionAt(rules, i, n), AllValues(rules, i, n))
  {
    if n > 0 {
      UnionGathers(rules, i, n - 1);
      ExtendGathers(UnionAt(rules, i, n - 1), AllValues(rules, i, n - 1), rules[n - 1].conditions[i].value);
    }
  }

  /** What is emitted at a position: kind, polarity and wildcard flag of the first
      alternative, and the values of a single alternative as they are, or of several, each
      once, in order of appearance. */
  lemma EmittedPosition(rs: RuleSet, emitted: seq<Structured>, i: nat)
    requires Emits(rs, emitted) && i < |rs.rules[0].conditions|
    ensures |emitted| == |rs.rules[0].conditions|
    ensures emitted[i].kind == rs.rules[0].conditions[i].kind
    ensures emitted[i].positive == rs.rules[0].conditions[i].positive
    ensures emitted[i].wildcard == rs.rules[0].conditions[i].wildcard
    ensures |rs.rules| == 1 ==> emitted[i].value == rs.rules[0].conditions[i].value
    ensures |rs.rules| > 1 ==> Distinct(emitted[i].value)
    ensures |rs.rules| > 1 ==>
              (forall a :: 0 <= a < |rs.rules| ==> i < |rs.rules[a].conditions|) &&
              GatheredFrom(emitted[i].value, AllValues(rs.rules, i, |rs.rules|))
  {
    EmittedValues(rs, emitted, i);
    forall a | 0 <= a < |rs.rules| ensures i < |rs.rules[a].conditions| {
      assert LinesUp(rs.rules[0], rs.rules[a]);
    }
    UnionGathers(rs.rules, i, |rs.rules|);
    InUnion(rs.rules, i);
  }
}
