/** The readback of an application unit: one rule document, one carrier document, and the
    correspondence between their rules and bindings. */
module ApplicationUnit {
  import opened Collections
  import opened JoinedText
  import opened Wrappers

  /** A rule or a binding, by what identifies it; folded is its name in lower case. */
  datatype Entry = Entry(component: string, carrier: string, folded: string)

  datatype RuleDocument = RuleDocument(blocks: bool, ruleSet: string, rules: seq<Entry>)

  datatype CarrierDocument = CarrierDocument(ruleSet: string, bindings: seq<Entry>)

  datatype ArtifactKind = MatchRule | ConfigurationFragment | Unsupported

  /** An artifact with its content read as either document, None where that fails. */
  datatype Artifact = Artifact(kind: ArtifactKind, asRules: Option<RuleDocument>, asCarriers: Option<CarrierDocument>)

  datatype Unit = Unit(main: RuleDocument, carriers: CarrierDocument)

  function Fields(e: Entry): seq<string> { [e.component, e.carrier, e.folded] }

  function Key(e: Entry): string { Join(Fields(e), NUL) }

  predicate NulFree(e: Entry) { Free(Fields(e), NUL) }

  lemma NulIsConfused(e: Entry) returns (d: Entry)
    requires !NulFree(e)
    ensures Key(d) == Key(e) && d != e
  {
    assert NUL in e.component || NUL in e.carrier || NUL in e.folded;
    if NUL in e.component {
      var x, y := CutAt(e.component, NUL);
      d := Entry(x, y + [NUL] + e.carrier, e.folded);
      ShiftRight(Fields(e), 0, x, y, NUL);
      assert Fields(d) == Fields(e)[0 := x][1 := y + [NUL] + e.carrier];
    } else if NUL in e.carrier {
      var x, y := CutAt(e.carrier, NUL);
      d := Entry(e.component + [NUL] + x, y, e.folded);
      ShiftLeft(Fields(e), 1, x, y, NUL);
      assert Fields(d) == Fields(e)[0 := e.component + [NUL] + x][1 := y];
    } else {
      var x, y := CutAt(e.folded, NUL);
      d := Entry(e.component, e.carrier + [NUL] + x, y);
      ShiftLeft(Fields(e), 2, x, y, NUL);
      assert Fields(d) == Fields(e)[1 := e.carrier + [NUL] + x][2 := y];
    }
  }

  /** An entry has its key to itself exactly when it contains no NUL. */
  lemma KeyIdentifies(e: Entry)
    ensures NulFree(e) <==> forall d :: Key(d) == Key(e) ==> d == e
  {
    if NulFree(e) {
      forall d | Key(d) == Key(e) ensures d == e {
        JoinSplits(Fields(e), Fields(d), NUL);
        assert Fields(e)[0] == Fields(d)[0] && Fields(e)[1] == Fields(d)[1] && Fields(e)[2] == Fields(d)[2];
      }
    } else {
      var d := NulIsConfused(e);
    }
  }

  function EntryKeys(entries: seq<Entry>): (ks: seq<string>)
    ensures |ks| == |entries| && forall i :: 0 <= i < |entries| ==> ks[i] == Key(entries[i])
  {
    seq(|entries|, i requires 0 <= i < |entries| => Key(entries[i]))
  }

  // ---- what is accepted ----

  predicate OnlyOne(artifacts: seq<Artifact>, kind: ArtifactKind, at: int) {
    0 <= at < |artifacts| && forall i :: 0 <= i < |artifacts| ==> (artifacts[i].kind == kind <==> i == at)
  }

  predicate MainAt(artifacts: seq<Artifact>, at: int, main: Option<RuleDocument>) {
    OnlyOne(artifacts, MatchRule, at) && artifacts[at].asRules == main
  }

  predicate CarriersAt(artifacts: seq<Artifact>, at: int, carriers: Option<CarrierDocument>) {
    OnlyOne(artifacts, ConfigurationFragment, at) && artifacts[at].asCarriers == carriers
  }

  /** One artifact of each kind, and both can be read. */
  ghost predicate Holds(artifacts: seq<Artifact>, u: Unit) {
    (forall i :: 0 <= i < |artifacts| ==> artifacts[i].kind != Unsupported) &&
    (exists m :: MainAt(artifacts, m, Some(u.main))) && (exists c :: CarriersAt(artifacts, c, Some(u.carriers)))
  }

  predicate DocumentsAgree(u: Unit) {
    u.main.blocks && u.main.ruleSet != "" && u.main.ruleSet == u.carriers.ruleSet &&
    u.main.rules != [] && |u.main.rules| == |u.carriers.bindings|
  }

  predicate BindingsCoverRules(u: Unit) {
    Distinct(EntryKeys(u.carriers.bindings)) &&
        Elements(EntryKeys(u.main.rules)) <= Elements(EntryKeys(u.carriers.bindings))
  }

  predicate Reads(u: Unit) { DocumentsAgree(u) && BindingsCoverRules(u) }

  // ---- the loops ----

  /** What the loop over the artifacts has found so far. */
  ghost predicate Scanned(artifacts: seq<Artifact>, main: Option<RuleDocument>, carriers: Option<CarrierDocument>) {
    (forall i :: 0 <= i < |artifacts| ==> artifacts[i].kind != Unsupported) &&
    (if main.Some? then exists m :: MainAt(artifacts, m, main)
     else forall i :: 0 <= i < |artifacts| ==> artifacts[i].kind != MatchRule) &&
    (if carriers.Some? then exists c :: CarriersAt(artifacts, c, carriers)
     else forall i :: 0 <= i < |artifacts| ==> artifacts[i].kind != ConfigurationFragment)
  }

  lemma FirstOfKind(artifacts: seq<Artifact>, kind: ArtifactKind, a: Artifact)
    requires a.kind == kind && forall i :: 0 <= i < |artifacts| ==> artifacts[i].kind != kind
    ensures OnlyOne(artifacts + [a], kind, |artifacts|)
  {
  }

  lemma OtherOfKind(artifacts: seq<Artifact>, kind: ArtifactKind, at: int, a: Artifact)
    requires a.kind != kind && OnlyOne(artifacts, kind, at)
    ensures OnlyOne(artifacts + [a], kind, at)
  {
  }

  lemma ScanMain(artifacts: seq<Artifact>, carriers: Option<CarrierDocument>, a: Artifact)
    requires Scanned(artifacts, None, carriers) && a.kind == MatchRule && a.asRules.Some?
    ensures Scanned(artifacts + [a], a.asRules, carriers)
  {
    FirstOfKind(artifacts, MatchRule, a);
    assert MainAt(artifacts + [a], |artifacts|, a.asRules);
    if carriers.Some? {
      var c :| CarriersAt(artifacts, c, carriers);
      OtherOfKind(artifacts, ConfigurationFragment, c, a);
      assert CarriersAt(artifacts + [a], c, carriers);
    }
  }

  lemma ScanCarriers(artifacts: seq<Artifact>, main: Option<RuleDocument>, a: Artifact)
    requires Scanned(artifacts, main, None) && a.kind == ConfigurationFragment && a.asCarriers.Some?
    ensures Scanned(artifacts + [a], main, a.asCarriers)
  {
    FirstOfKind(artifacts, ConfigurationFragment, a);
    assert CarriersAt(artifacts + [a], |artifacts|, a.asCarriers);
    if main.Some? {
      var m :| MainAt(artifacts, m, main);
      OtherOfKind(artifacts, MatchRule, m, a);
      assert MainAt(artifacts + [a], m, main);
    }
  }

  /** Two of a kind, an unreadable one, or one of another kind: nothing holds. */
  lemma Refused(artifacts: seq<Artifact>, i: nat, main: Option<RuleDocument>, carriers: Option<CarrierDocument>)
    requires i < |artifacts| && Scanned(artifacts[..i], main, carriers)
    requires artifacts[i].kind == Unsupported
             || (artifacts[i].kind == MatchRule && (main.Some? || artifacts[i].asRules.None?))
             || (artifacts[i].kind == ConfigurationFragment && (carriers.Some? || artifacts[i].asCarriers.None?))
    ensures forall u :: !Holds(artifacts, u)
  {
    if main.Some? && artifacts[i].kind == MatchRule {
      forall u ensures !Holds(artifacts, u) {
        SecondMain(artifacts, i, main, carriers, u);
      }
    } else if carriers.Some? && artifacts[i].kind == ConfigurationFragment {
      forall u ensures !Holds(artifacts, u) {
        SecondCarriers(artifacts, i, main, carriers, u);
      }
    }
  }

  lemma SecondMain(artifacts: seq<Artifact>, i: nat, main: Option<RuleDocument>, carriers: Option<CarrierDocument>,
                   u: Unit)
    requires i < |artifacts| && Scanned(artifacts[..i], main, carriers) && main.Some? && artifacts[i].kind == MatchRule
    ensures !Holds(artifacts, u)
  {
    if Holds(artifacts, u) {
      var m :| MainAt(artifacts, m, Some(u.main));
      EarlierMain(artifacts, i, m, main, carriers);
    }
  }

  lemma SecondCarriers(artifacts: seq<Artifact>, i: nat, main: Option<RuleDocument>, carriers: Option<CarrierDocument>,
                       u: Unit)
    requires i < |artifacts| && Scanned(artifacts[..i], main, carriers) && carriers.Some? &&
            artifacts[i].kind == ConfigurationFragment
    ensures !Holds(artifacts, u)
  {
    if Holds(artifacts, u) {
      var c :| CarriersAt(artifacts, c, Some(u.carriers));
      EarlierCarriers(artifacts, i, c, main, carriers);
    }
  }

  lemma EarlierMain(artifacts: seq<Artifact>, i: nat, at: int, main: Option<RuleDocument>,
                    carriers: Option<CarrierDocument>)
    requires i < |artifacts| && Scanned(artifacts[..i], main, carriers) && main.Some? &&
            OnlyOne(artifacts, MatchRule, at)
    ensures at < i
  {
    var m :| MainAt(artifacts[..i], m, main);
    assert artifacts[m].kind == MatchRule;
  }

  lemma EarlierCarriers(artifacts: seq<Artifact>, i: nat, at: int, main: Option<RuleDocument>,
                        carriers: Option<CarrierDocument>)
    requires i < |artifacts| && Scanned(artifacts[..i], main, carriers) && carriers.Some? &&
            OnlyOne(artifacts, ConfigurationFragment, at)
    ensures at < i
  {
    var c :| CarriersAt(artifacts[..i], c, carriers);
    assert artifacts[c].kind == ConfigurationFragment;
  }

  lemma Incomplete(artifacts: seq<Artifact>, main: Option<RuleDocument>, carriers: Option<CarrierDocument>, u: Unit)
    requires Scanned(artifacts, main, carriers) && (main.None? || carriers.None?)
    ensures !Holds(artifacts, u)
  {
  }

  method FindDocuments(artifacts: seq<Artifact>) returns (unit: Option<Unit>)
    ensures unit.Some? ==> Holds(artifacts, unit.value)
    ensures unit.None? ==> forall u :: !Holds(artifacts, u)
  {
    var main: Option<RuleDocument> := None;
    var carriers: Option<CarrierDocument> := None;
    for i := 0 to |artifacts|
      invariant Scanned(artifacts[..i], main, carriers)
    {
      var a := artifacts[i];
      assert artifacts[..i + 1] == artifacts[..i] + [a];
      match a.kind {
        case MatchRule =>
          if main.Some? || a.asRules.None? {
            Refused(artifacts, i, main, carriers);
            return None;
          }
          ScanMain(artifacts[..i], carriers, a);
          main := a.asRules;
        case ConfigurationFragment =>
          if carriers.Some? || a.asCarriers.None? {
            Refused(artifacts, i, main, carriers);
            return None;
          }
          ScanCarriers(artifacts[..i], main, a);
          carriers := a.asCarriers;
        case Unsupported =>
          Refused(artifacts, i, main, carriers);
          return None;
      }
    }
    assert artifacts[..|artifacts|] == artifacts;
    if main.None? || carriers.None? {
      forall u ensures !Holds(artifacts, u) {
        Incomplete(artifacts, main, carriers, u);
      }
      return None;
    }
    return Some(Unit(main.value, carriers.value));
  }

  /** The two loops over bindings and rules. */
  method CheckBindings(u: Unit) returns (ok: bool)
    ensures ok <==> BindingsCoverRules(u)
  {
    var keys := EntryKeys(u.carriers.bindings);
    var bindings: set<string> := {};
    for i := 0 to |keys|
      invariant Distinct(keys[..i]) && bindings == Elements(keys[..i])
    {
      if keys[i] in bindings {
        RepeatedAt(keys, i);
        return false;
      }
      assert keys[..i + 1] == keys[..i] + [keys[i]];
      bindings := bindings + {keys[i]};
    }
    assert keys[..|keys|] == keys;
    for i := 0 to |u.main.rules|
      invariant forall j :: 0 <= j < i ==> Key(u.main.rules[j]) in bindings
    {
      if Key(u.main.rules[i]) !in bindings {
        assert EntryKeys(u.main.rules)[i] in Elements(EntryKeys(u.main.rules));
        return false;
      }
    }
    return true;
  }

  lemma RepeatedAt(keys: seq<string>, i: nat)
    requires i < |keys| && keys[i] in keys[..i]
    ensures !Distinct(keys)
  {
    var j :| 0 <= j < i && keys[..i][j] == keys[i];
    assert keys[j] == keys[i];
  }

  /** sharedV2ApplicationUnit: it yields a unit exactly when the artifacts hold one that
      reads back, and then that one. */
  method ReadBack(unitRefs: nat, contents: nat, artifacts: seq<Artifact>) returns (unit: Option<Unit>)
    ensures unit.Some? ==> unitRefs == contents && Holds(artifacts, unit.value) && Reads(unit.value)
    ensures unit.None? ==> unitRefs != contents || forall u :: Holds(artifacts, u) ==> !Reads(u)
  {
    if unitRefs != contents {
      return None;
    }
    unit := FindDocuments(artifacts);
    if unit.None? {
      return;
    }
    var u := unit.value;
    OneUnit(artifacts, u);
    if !DocumentsAgree(u) {
      return None;
    }
    var bound := CheckBindings(u);
    if !bound {
      return None;
    }
  }

  /** The artifacts hold at most one unit. */
  lemma OneUnit(artifacts: seq<Artifact>, u: Unit)
    requires Holds(artifacts, u)
    ensures forall v :: Holds(artifacts, v) ==> v == u
  {
    forall v | Holds(artifacts, v) ensures v == u {
      var m :| MainAt(artifacts, m, Some(u.main));
      var c :| CarriersAt(artifacts, c, Some(u.carriers));
      var n :| MainAt(artifacts, n, Some(v.main));
      var d :| CarriersAt(artifacts, d, Some(v.carriers));
      assert m == n && c == d;
    }
  }

  // ---- what acceptance means ----

  lemma Place(artifacts: seq<Artifact>, m: int, c: int, i: int)
    requires OnlyOne(artifacts, MatchRule, m) && OnlyOne(artifacts, ConfigurationFragment, c)
    requires 0 <= i < |artifacts| && artifacts[i].kind != Unsupported
    ensures i == m || i == c
  {
  }

  /** The artifact is this rule document, the other one this carrier document. */
  predicate TheyAre(main: Artifact, carriers: Artifact, u: Unit) {
    main.kind == MatchRule && main.asRules == Some(u.main) &&
    carriers.kind == ConfigurationFragment && carriers.asCarriers == Some(u.carriers)
  }

  /** An application unit is exactly two artifacts, the rules and the carriers, in either
      order. */
  lemma UnitIsTwoArtifacts(artifacts: seq<Artifact>, u: Unit)
    ensures Holds(artifacts, u) <==>
            |artifacts| == 2 && (TheyAre(artifacts[0], artifacts[1], u) || TheyAre(artifacts[1], artifacts[0], u))
  {
    if Holds(artifacts, u) {
      var m :| MainAt(artifacts, m, Some(u.main));
      var c :| CarriersAt(artifacts, c, Some(u.carriers));
      Place(artifacts, m, c, 0);
      Place(artifacts, m, c, |artifacts| - 1);
      if |artifacts| > 2 {
        Place(artifacts, m, c, 1);
      }
    } else if |artifacts| == 2 && TheyAre(artifacts[0], artifacts[1], u) {
      assert MainAt(artifacts, 0, Some(u.main)) && CarriersAt(artifacts, 1, Some(u.carriers));
    } else if |artifacts| == 2 && TheyAre(artifacts[1], artifacts[0], u) {
      assert MainAt(artifacts, 1, Some(u.main)) && CarriersAt(artifacts, 0, Some(u.carriers));
    }
  }

  /** Some binding has the key of the rule. */
  predicate IsBound(u: Unit, rule: Entry) {
    exists k :: 0 <= k < |u.carriers.bindings| && Key(u.carriers.bindings[k]) == Key(rule)
  }

  lemma BoundByKey(u: Unit, rule: Entry)
    ensures Key(rule) in Elements(EntryKeys(u.carriers.bindings)) <==> IsBound(u, rule)
  {
    var bindings := EntryKeys(u.carriers.bindings);
    if Key(rule) in Elements(bindings) {
      var k :| 0 <= k < |bindings| && bindings[k] == Key(rule);
      assert Key(u.carriers.bindings[k]) == Key(rule);
    }
    if IsBound(u, rule) {
      var k :| 0 <= k < |bindings| && Key(u.carriers.bindings[k]) == Key(rule);
      assert bindings[k] == Key(rule);
    }
  }

  lemma BoundRules(u: Unit)
    ensures Elements(EntryKeys(u.main.rules)) <= Elements(EntryKeys(u.carriers.bindings)) <==>
            forall i :: 0 <= i < |u.main.rules| ==> IsBound(u, u.main.rules[i])
  {
    var rules, bindings := EntryKeys(u.main.rules), EntryKeys(u.carriers.bindings);
    forall i | 0 <= i < |rules| ensures rules[i] in Elements(bindings) <==> IsBound(u, u.main.rules[i]) {
      BoundByKey(u, u.main.rules[i]);
    }
    assert forall i :: 0 <= i < |rules| ==> rules[i] in Elements(rules);
  }

  /** A unit reads back exactly when it blocks, the two documents name one rule set, there
      are as many bindings as rules and some rule, no two bindings share a key, and every
      rule has the key of a binding. */
  lemma ReadsExactlyWhen(u: Unit)
    ensures var rules, bindings := u.main.rules, u.carriers.bindings;
            Reads(u) <==>
            && u.main.blocks && u.main.ruleSet != "" && u.carriers.ruleSet == u.main.ruleSet
            && 0 < |rules| == |bindings|
            && (forall k, l :: 0 <= k < l < |bindings| ==> Key(bindings[k]) != Key(bindings[l]))
            && forall i :: 0 <= i < |rules| ==> IsBound(u, rules[i])
  {
    BoundRules(u);
    var keys := EntryKeys(u.carriers.bindings);
    assert forall k :: 0 <= k < |keys| ==> keys[k] == Key(u.carriers.bindings[k]);
  }

  /** Every rule has one binding under its key and no second one; and that binding is the
      rule's own component, carrier and name unless the rule contains a NUL. */
  lemma EveryRuleHasOneBinding(u: Unit, i: nat) returns (k: nat)
    requires Reads(u) && i < |u.main.rules|
    ensures k < |u.carriers.bindings| && Key(u.carriers.bindings[k]) == Key(u.main.rules[i])
    ensures forall l :: 0 <= l < |u.carriers.bindings| && Key(u.carriers.bindings[l]) == Key(u.main.rules[i]) ==> l == k
    ensures NulFree(u.main.rules[i]) ==> u.carriers.bindings[k] == u.main.rules[i]
  {
    KeyIdentifies(u.main.rules[i]);
    var keys := EntryKeys(u.carriers.bindings);
    assert EntryKeys(u.main.rules)[i] in Elements(EntryKeys(u.main.rules));
    k :| 0 <= k < |keys| && keys[k] == Key(u.main.rules[i]);
    assert forall l :: 0 <= l < |keys| ==> keys[l] == Key(u.carriers.bindings[l]);
  }

  /** Every binding serves some rule. */
  predicate EveryBindingIsUsed(u: Unit) {
    Elements(EntryKeys(u.carriers.bindings)) <= Elements(EntryKeys(u.main.rules))
  }

  lemma {:induction false} FewerElements(s: seq<string>)
    ensures |Elements(s)| <= |s|
    ensures |Elements(s)| == |s| ==> Distinct(s)
  {
    if s != [] {
      var n := |s| - 1;
      FewerElements(s[..n]);
      assert s == s[..n] + [s[n]];
      assert Elements(s) == Elements(s[..n]) + {s[n]};
    }
  }

  /** Counting both lists makes the correspondence a bijection exactly when no two rules
      share a key; otherwise some binding is left over and the unit is accepted all the
      same. */
  lemma BindingsMatchRulesOneToOne(u: Unit)
    requires Reads(u)
    ensures EveryBindingIsUsed(u) <==> Distinct(EntryKeys(u.main.rules))
  {
    var rules, bindings := EntryKeys(u.main.rules), EntryKeys(u.carriers.bindings);
    DistinctSize(bindings);
    FewerElements(rules);
    if Distinct(rules) {
      DistinctSize(rules);
      SubsetOfEqualSize(Elements(rules), Elements(bindings));
    }
    if EveryBindingIsUsed(u) {
      assert Elements(rules) == Elements(bindings);
    }
  }

  /** Two rules on one binding, and a binding nothing uses. */
  lemma DoubledRuleIsAccepted(ruleSet: string, a: Entry, b: Entry)
    requires ruleSet != "" && Key(a) != Key(b)
    ensures var u := Unit(RuleDocument(true, ruleSet, [a, a]), CarrierDocument(ruleSet, [a, b]));
            Reads(u) && !EveryBindingIsUsed(u)
  {
    assert EntryKeys([a, a]) == [Key(a), Key(a)] && EntryKeys([a, b]) == [Key(a), Key(b)];
    assert [Key(a), Key(b)][1] == Key(b) && Key(b) in Elements([Key(a), Key(b)]);
    assert Key(b) !in Elements([Key(a), Key(a)]);
  }
}
