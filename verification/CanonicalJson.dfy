/** The RFC 8785 writer: a recursive printer over JSON trees, the text it produces, and
    why no two trees share a text. */
module CanonicalJson {
  import opened Wrappers
  import opened CanonicalText

  /** The alphabet of a formatted float64; a numeral never starts like another kind of value. */
  predicate NumeralChar(c: char) { '0' <= c <= '9' || c == '-' || c == '+' || c == '.' || c == 'e' }

  predicate IsNumeral(s: string) {
    s != "" && ('0' <= s[0] <= '9' || s[0] == '-') && forall i :: 0 <= i < |s| ==> NumeralChar(s[i])
  }

  type Numeral = s: string | IsNumeral(s) witness ['0']

  /** A decoded value. A number is its formatted float64, None when it does not parse to a
      finite one; Foreign is any Go type the writer's switch does not name. */
  datatype Json =
    | Null
    | Bool(truth: bool)
    | Str(text: string)
    | Num(numeral: Option<Numeral>)
    | Arr(items: seq<Json>)
    | Obj(members: map<string, Json>)
    | Foreign

  // ---- key order ----

  predicate Sorted(ks: seq<string>) { forall i, j :: 0 <= i < j < |ks| ==> Before(ks[i], ks[j]) }

  /** ks lists the set in strictly increasing UTF-16 order. */
  ghost predicate Enumerates(ks: seq<string>, keys: set<string>) {
    Sorted(ks) && (forall k :: k in ks <==> k in keys)
  }

  lemma SortedTail(ks: seq<string>, keys: set<string>)
    requires ks != [] && Enumerates(ks, keys)
    ensures Enumerates(ks[1..], keys - {ks[0]}) && ks[0] in keys
    ensures forall k :: k in keys && k != ks[0] ==> Before(ks[0], k)
  {
    BeforeIsAStrictTotalOrder(ks[0], ks[0], ks[0]);
    assert forall k :: k in ks[1..] ==> k in ks && Before(ks[0], k);
    assert forall k :: k in ks && k != ks[0] ==> k in ks[1..];
  }

  lemma EmptyTogether(ks: seq<string>, keys: set<string>)
    requires Enumerates(ks, keys)
    ensures ks == [] <==> keys == {}
  {
    if ks != [] {
      assert ks[0] in ks;
    }
  }

  /** There is only one such list, so nothing printed in this order can depend on the
      order in which a map hands out its keys. */
  lemma {:induction false} EnumerationIsUnique(ks: seq<string>, ls: seq<string>, keys: set<string>)
    requires Enumerates(ks, keys) && Enumerates(ls, keys)
    ensures ks == ls
  {
    EmptyTogether(ks, keys);
    EmptyTogether(ls, keys);
    if keys != {} {
      SortedTail(ks, keys);
      SortedTail(ls, keys);
      if ks[0] != ls[0] {
        BeforeIsAStrictTotalOrder(ks[0], ls[0], ks[0]);
        assert false;
      }
      EnumerationIsUnique(ks[1..], ls[1..], keys - {ks[0]});
      assert ks == [ks[0]] + ks[1..] && ls == [ls[0]] + ls[1..];
    }
  }

  /** Where a new key goes in a sorted list. */
  method Position(ks: seq<string>, key: string) returns (p: nat)
    requires Sorted(ks) && key !in ks
    ensures p <= |ks|
    ensures forall i :: 0 <= i < p ==> Before(ks[i], key)
    ensures forall i :: p <= i < |ks| ==> Before(key, ks[i])
  {
    p := 0;
    while p < |ks|
      invariant p <= |ks|
      invariant forall i :: 0 <= i < p ==> Before(ks[i], key)
    {
      var less := Utf16Less(ks[p], key);
      if !less {
        After(ks, key, p);
        return;
      }
      p := p + 1;
    }
  }

  lemma After(ks: seq<string>, key: string, p: nat)
    requires Sorted(ks) && key !in ks && p < |ks| && !Before(ks[p], key)
    ensures forall i :: p <= i < |ks| ==> Before(key, ks[i])
  {
    forall i | p <= i < |ks| ensures Before(key, ks[i]) {
      BeforeIsAStrictTotalOrder(ks[p], key, ks[p]);
      BeforeIsAStrictTotalOrder(key, ks[p], ks[i]);
    }
  }

  function Insert(ks: seq<string>, key: string, p: nat): seq<string>
    requires p <= |ks|
  {
    ks[..p] + [key] + ks[p..]
  }

  lemma InsertAt(ks: seq<string>, key: string, p: nat, i: nat)
    requires p <= |ks| && i <= |ks|
    ensures |Insert(ks, key, p)| == |ks| + 1
    ensures Insert(ks, key, p)[i] == if i < p then ks[i] else if i == p then key else ks[i - 1]
  {
  }

  lemma InsertKeepsOrder(ks: seq<string>, key: string, p: nat)
    requires Sorted(ks) && p <= |ks|
    requires forall i :: 0 <= i < p ==> Before(ks[i], key)
    requires forall i :: p <= i < |ks| ==> Before(key, ks[i])
    ensures Sorted(Insert(ks, key, p))
  {
    var r := Insert(ks, key, p);
    forall i, j | 0 <= i < j < |r| ensures Before(r[i], r[j]) {
      InsertAt(ks, key, p, i);
      InsertAt(ks, key, p, j);
    }
  }

  lemma InsertAddsTheKey(ks: seq<string>, key: string, p: nat, k: string)
    requires p <= |ks|
    ensures k in Insert(ks, key, p) <==> k in ks || k == key
  {
    assert ks == ks[..p] + ks[p..];
  }

  lemma InsertSorted(ks: seq<string>, key: string, p: nat, keys: set<string>)
    requires Enumerates(ks, keys) && p <= |ks|
    requires forall i :: 0 <= i < p ==> Before(ks[i], key)
    requires forall i :: p <= i < |ks| ==> Before(key, ks[i])
    ensures Enumerates(Insert(ks, key, p), keys + {key})
  {
    InsertKeepsOrder(ks, key, p);
    forall k ensures k in Insert(ks, key, p) <==> k in keys + {key} {
      InsertAddsTheKey(ks, key, p, k);
    }
  }

  /** sort.Slice over the keys of a map, which come in any order. */
  method SortedKeysOf(members: map<string, Json>) returns (ks: seq<string>)
    ensures Enumerates(ks, members.Keys)
  {
    ks := [];
    var rest := members.Keys;
    while rest != {}
      invariant rest <= members.Keys
      invariant Enumerates(ks, members.Keys - rest)
    {
      var key :| key in rest;
      var p := Position(ks, key);
      InsertSorted(ks, key, p, members.Keys - rest);
      ks := Insert(ks, key, p);
      rest := rest - {key};
      assert members.Keys - rest == (members.Keys - (rest + {key})) + {key};
    }
    assert members.Keys - rest == members.Keys;
  }

  lemma {:induction false} EnumerationExists(keys: set<string>) returns (ks: seq<string>)
    ensures Enumerates(ks, keys)
  {
    ks := [];
    if keys != {} {
      var key :| key in keys;
      var ls := EnumerationExists(keys - {key});
      var p := 0;
      while p < |ls| && Before(ls[p], key)
        invariant p <= |ls| && forall i :: 0 <= i < p ==> Before(ls[i], key)
      {
        p := p + 1;
      }
      if p < |ls| {
        After(ls, key, p);
      }
      InsertSorted(ls, key, p, keys - {key});
      ks := ls[..p] + [key] + ls[p..];
      assert keys - {key} + {key} == keys;
    }
  }

  ghost function SortedKeys(keys: set<string>): (ks: seq<string>)
    ensures Enumerates(ks, keys)
  {
    assert exists ks :: Enumerates(ks, keys) by { var ks := EnumerationExists(keys); }
    var ks :| Enumerates(ks, keys);
    ks
  }

  // ---- the text of a value ----

  /** Nothing in the value makes the writer return an error. */
  ghost predicate Printable(v: Json) {
    match v
    case Num(n) => n.Some?
    case Foreign => false
    case Arr(items) => forall i :: 0 <= i < |items| ==> Printable(items[i])
    case Obj(members) => forall k :: k in members ==> Printable(members[k])
    case _ => true
  }

  /** A value is within another when it is the other or within one of its parts. */
  ghost predicate Within(w: Json, v: Json)
    decreases v
  {
    w == v || (v.Arr? && exists i :: 0 <= i < |v.items| && Within(w, v.items[i])) ||
    (v.Obj? && exists k :: k in v.members && Within(w, v.members[k]))
  }

  /** The writer succeeds exactly when every number within the value is finite and every
      type in it is one the switch names. */
  lemma {:induction false} PrintableExactlyWhen(v: Json)
    ensures Printable(v) <==> forall w :: Within(w, v) ==> !w.Foreign? && (w.Num? ==> w.numeral.Some?)
    decreases v
  {
    match v {
      case Arr(items) =>
        forall i | 0 <= i < |items|
          ensures Printable(items[i]) <==>
                  forall w :: Within(w, items[i]) ==> !w.Foreign? && (w.Num? ==> w.numeral.Some?)
        {
          PrintableExactlyWhen(items[i]);
        }
        assert forall i, w :: 0 <= i < |items| && Within(w, items[i]) ==> Within(w, v);
      case Obj(members) =>
        forall k | k in members
          ensures Printable(members[k]) <==>
                  forall w :: Within(w, members[k]) ==> !w.Foreign? && (w.Num? ==> w.numeral.Some?)
        {
          PrintableExactlyWhen(members[k]);
        }
        assert forall k, w :: k in members && Within(w, members[k]) ==> Within(w, v);
      case _ => assert Within(v, v);
    }
  }

  /** The text of a string: as canonicalJSONString writes it, or as RFC 8785 defines it. */
  function Quoted(s: string, rfc: bool): string { if rfc then RfcString(s) else CanonicalString(s) }

  ghost function Print(v: Json, rfc: bool := false): string
    decreases v, 2
  {
    match v
    case Null => "null"
    case Bool(t) => if t then "true" else "false"
    case Str(s) => Quoted(s, rfc)
    case Num(n) => if n.Some? then n.value else ""
    case Arr(items) => ['['] + PrintItems(v, 0, rfc) + [']']
    case Obj(members) => ['{'] + PrintMembers(v, SortedKeys(members.Keys), rfc) + ['}']
    case Foreign => ""
  }

  ghost function PrintItems(v: Json, i: nat, rfc: bool): string
    requires v.Arr? && i <= |v.items|
    decreases v, 1, |v.items| - i
  {
    if i == |v.items| then ""
    else (if i > 0 then [','] else []) + Print(v.items[i], rfc) + PrintItems(v, i + 1, rfc)
  }

  ghost function PrintMembers(v: Json, ks: seq<string>, rfc: bool): string
    requires v.Obj? && forall k :: k in ks ==> k in v.members
    decreases v, 1, |ks|, 0
  {
    if ks == [] then ""
    else Quoted(ks[0], rfc) + ([':'] + (Print(v.members[ks[0]], rfc) + PrintMore(v, ks, rfc)))
  }

  ghost function PrintMore(v: Json, ks: seq<string>, rfc: bool): string
    requires v.Obj? && ks != [] && forall k :: k in ks ==> k in v.members
    decreases v, 1, |ks| - 1, 1
  {
    if |ks| > 1 then [','] + PrintMembers(v, ks[1..], rfc) else ""
  }

  // ---- no two values share a text ----

  /** What may follow a complete value in a larger text. */
  predicate Ends(x: string) { x == "" || x[0] == ',' || x[0] == ']' || x[0] == '}' }

  predicate Digit(c: char) { '0' <= c <= '9' || c == '-' }

  /** The first character tells the kind of value. */
  lemma Lead(v: Json)
    requires Printable(v)
    ensures var t := Print(v);
            t != "" &&
            (v.Null? <==> t[0] == 'n') && (v.Str? <==> t[0] == QUOTE) && (v.Num? <==> Digit(t[0])) &&
            (v.Arr? <==> t[0] == '[') && (v.Obj? <==> t[0] == '{') &&
            (v == Bool(true) <==> t[0] == 't') && (v == Bool(false) <==> t[0] == 'f') &&
            t[0] != ']' && t[0] != ','
  {
    if v.Str? {
      CanonicalStringIsEncoded(v.text);
    }
  }

  lemma NumeralsArePrefixFree(m: Numeral, n: Numeral, x: string, y: string)
    requires m + x == n + y && Ends(x) && Ends(y)
    ensures m == n && x == y
  {
    if |m| < |n| {
      Overhang(m, n, x, y);
    } else if |n| < |m| {
      Overhang(n, m, y, x);
    }
    EqualWidths(m, n, x, y);
  }

  lemma Overhang(m: string, n: string, x: string, y: string)
    requires m + x == n + y && |m| < |n|
    ensures x != "" && x[0] == n[|m|]
  {
    assert (n + y)[|m|] == n[|m|] && (m + x)[|m|] == x[0];
  }

  /** The items of an array from i on, its bracket, and what follows. */
  ghost function ItemsThen(v: Json, i: nat, x: string): string
    requires v.Arr? && i <= |v.items|
  {
    PrintItems(v, i, false) + ([']'] + x)
  }

  lemma ItemsUnfold(v: Json, i: nat, x: string)
    requires v.Arr? && i < |v.items|
    ensures ItemsThen(v, i, x) == (if i > 0 then [','] else []) + (Print(v.items[i]) + ItemsThen(v, i + 1, x))
  {
  }

  lemma ItemsEnd(v: Json, i: nat, x: string)
    requires v.Arr? && 0 < i <= |v.items|
    ensures ItemsThen(v, i, x) != "" && Ends(ItemsThen(v, i, x))
    ensures ItemsThen(v, i, x)[0] == if i < |v.items| then ',' else ']'
  {
    if i < |v.items| {
      ItemsUnfold(v, i, x);
    }
  }

  /** Whether the array ends here is visible in the text. */
  lemma ItemsStop(v: Json, i: nat, x: string)
    requires Printable(v) && v.Arr? && i <= |v.items|
    ensures ItemsThen(v, i, x) != "" && (ItemsThen(v, i, x)[0] == ']' <==> i == |v.items|)
    ensures i == |v.items| ==> ItemsThen(v, i, x) == [']'] + x
  {
    if i < |v.items| {
      Lead(v.items[i]);
      ItemsUnfold(v, i, x);
    } else {
      assert "" + ([']'] + x) == [']'] + x;
    }
  }

  ghost function MembersThen(v: Json, ks: seq<string>, x: string): string
    requires v.Obj? && forall k :: k in ks ==> k in v.members
  {
    PrintMembers(v, ks, false) + (['}'] + x)
  }

  ghost function MoreThen(v: Json, ks: seq<string>, x: string): (t: string)
    requires v.Obj? && ks != [] && forall k :: k in ks ==> k in v.members
    ensures t != "" && Ends(t) && (t[0] == ',' <==> |ks| > 1)
  {
    PrintMore(v, ks, false) + (['}'] + x)
  }

  lemma MembersUnfold(v: Json, ks: seq<string>, x: string)
    requires v.Obj? && ks != [] && forall k :: k in ks ==> k in v.members
    ensures MembersThen(v, ks, x) == CanonicalString(ks[0]) + ([':'] + (Print(v.members[ks[0]]) + MoreThen(v, ks, x)))
  {
    Reassociate(CanonicalString(ks[0]), [':'], Print(v.members[ks[0]]), PrintMore(v, ks, false), ['}'] + x);
  }

  lemma Reassociate(a: string, b: string, c: string, d: string, e: string)
    ensures a + (b + (c + d)) + e == a + (b + (c + (d + e)))
  {
    Associate(a, b + (c + d), e);
    Associate(b, c + d, e);
    Associate(c, d, e);
  }

  /** After a member comes a comma and the next one, or the end of the object. */
  lemma MoreUnfold(v: Json, ks: seq<string>, x: string)
    requires v.Obj? && ks != [] && forall k :: k in ks ==> k in v.members
    ensures MoreThen(v, ks, x) == if |ks| > 1 then [','] + MembersThen(v, ks[1..], x) else ['}'] + x
  {
    if |ks| > 1 {
      Associate([','], PrintMembers(v, ks[1..], false), ['}'] + x);
    } else {
      assert "" + (['}'] + x) == ['}'] + x;
    }
  }

  lemma MembersStop(v: Json, ks: seq<string>, x: string)
    requires v.Obj? && forall k :: k in ks ==> k in v.members
    ensures MembersThen(v, ks, x) != "" && (MembersThen(v, ks, x)[0] == '}' <==> ks == [])
    ensures ks == [] ==> MembersThen(v, ks, x) == ['}'] + x
  {
    if ks != [] {
      MembersUnfold(v, ks, x);
      CanonicalStringIsEncoded(ks[0]);
    } else {
      assert "" + (['}'] + x) == ['}'] + x;
    }
  }

  lemma {:induction false} ItemsArePrefixFree(a: Json, b: Json, i: nat, x: string, y: string)
    requires a.Arr? && b.Arr? && Printable(a) && Printable(b) && i <= |a.items| && i <= |b.items|
    requires ItemsThen(a, i, x) == ItemsThen(b, i, y)
    ensures a.items[i..] == b.items[i..] && x == y
    decreases a, 1, |a.items| - i
  {
    ItemsStop(a, i, x);
    ItemsStop(b, i, y);
    if i < |a.items| {
      ItemsUnfold(a, i, x);
      ItemsUnfold(b, i, y);
      var u, v := Print(a.items[i]) + ItemsThen(a, i + 1, x), Print(b.items[i]) + ItemsThen(b, i + 1, y);
      EqualWidths(if i > 0 then [','] else [], if i > 0 then [','] else [], u, v);
      ItemsEnd(a, i + 1, x);
      ItemsEnd(b, i + 1, y);
      PrintIsPrefixFree(a.items[i], b.items[i], ItemsThen(a, i + 1, x), ItemsThen(b, i + 1, y));
      ItemsArePrefixFree(a, b, i + 1, x, y);
      assert a.items[i..] == [a.items[i]] + a.items[i + 1..] && b.items[i..] == [b.items[i]] + b.items[i + 1..];
    } else {
      EqualWidths([']'], [']'], x, y);
    }
  }

  lemma {:induction false} MembersArePrefixFree(a: Json, b: Json, ks: seq<string>, ls: seq<string>, x: string,
                                                y: string)
    requires a.Obj? && b.Obj? && Printable(a) && Printable(b)
    requires (forall k :: k in ks ==> k in a.members) && (forall k :: k in ls ==> k in b.members)
    requires MembersThen(a, ks, x) == MembersThen(b, ls, y)
    ensures ks == ls && x == y && forall k :: k in ks ==> a.members[k] == b.members[k]
    decreases a, 1, |ks|
  {
    MembersStop(a, ks, x);
    MembersStop(b, ls, y);
    if ks == [] {
      EqualWidths(['}'], ['}'], x, y);
    } else {
      MembersUnfold(a, ks, x);
      MembersUnfold(b, ls, y);
      var p, q := Print(a.members[ks[0]]) + MoreThen(a, ks, x), Print(b.members[ls[0]]) + MoreThen(b, ls, y);
      CanonicalStringIsPrefixFree(ks[0], ls[0], [':'] + p, [':'] + q);
      EqualWidths([':'], [':'], p, q);
      PrintIsPrefixFree(a.members[ks[0]], b.members[ls[0]], MoreThen(a, ks, x), MoreThen(b, ls, y));
      MoreUnfold(a, ks, x);
      MoreUnfold(b, ls, y);
      if |ks| > 1 {
        EqualWidths([','], [','], MembersThen(a, ks[1..], x), MembersThen(b, ls[1..], y));
        MembersArePrefixFree(a, b, ks[1..], ls[1..], x, y);
      } else {
        EqualWidths(['}'], ['}'], x, y);
      }
      assert ks == [ks[0]] + ks[1..] && ls == [ls[0]] + ls[1..];
    }
  }

  /** Two values that head the same text, each followed by a delimiter or nothing, are
      the same value. */
  lemma {:induction false} PrintIsPrefixFree(a: Json, b: Json, x: string, y: string)
    requires Printable(a) && Printable(b) && Ends(x) && Ends(y)
    requires Print(a) + x == Print(b) + y
    ensures a == b && x == y
    decreases a, 2
  {
    Lead(a);
    Lead(b);
    EqualHeads(Print(a), Print(b), x, y, 0);
    match a {
      case Str(s) => CanonicalStringIsPrefixFree(s, b.text, x, y);
      case Num(n) => NumeralsArePrefixFree(n.value, b.numeral.value, x, y);
      case Arr(_) => ArraysArePrefixFree(a, b, x, y);
      case Obj(_) => ObjectsArePrefixFree(a, b, x, y);
      case _ => EqualWidths(Print(a), Print(b), x, y);
    }
  }

  lemma {:induction false} ArraysArePrefixFree(a: Json, b: Json, x: string, y: string)
    requires a.Arr? && b.Arr? && Printable(a) && Printable(b) && Print(a) + x == Print(b) + y
    ensures a == b && x == y
    decreases a, 1, |a.items| + 1
  {
    assert Print(a) + x == ['['] + ItemsThen(a, 0, x) && Print(b) + y == ['['] + ItemsThen(b, 0, y);
    EqualWidths(['['], ['['], ItemsThen(a, 0, x), ItemsThen(b, 0, y));
    ItemsArePrefixFree(a, b, 0, x, y);
    assert a.items[0..] == a.items && b.items[0..] == b.items;
  }

  lemma {:induction false} ObjectsArePrefixFree(a: Json, b: Json, x: string, y: string)
    requires a.Obj? && b.Obj? && Printable(a) && Printable(b) && Print(a) + x == Print(b) + y
    ensures a == b && x == y
    decreases a, 1, |SortedKeys(a.members.Keys)| + 1
  {
    var ks, ls := SortedKeys(a.members.Keys), SortedKeys(b.members.Keys);
    ObjectText(a, x);
    ObjectText(b, y);
    EqualWidths(['{'], ['{'], MembersThen(a, ks, x), MembersThen(b, ls, y));
    MembersArePrefixFree(a, b, ks, ls, x, y);
    SameMembers(a, b, ks);
  }

  lemma ObjectText(a: Json, x: string)
    requires a.Obj?
    ensures Print(a) + x == ['{'] + MembersThen(a, SortedKeys(a.members.Keys), x)
  {
    var members := PrintMembers(a, SortedKeys(a.members.Keys), false);
    assert ['{'] + members + ['}'] + x == ['{'] + (members + (['}'] + x));
  }

  lemma SameMembers(a: Json, b: Json, ks: seq<string>)
    requires a.Obj? && b.Obj? && Enumerates(ks, a.members.Keys) && Enumerates(ks, b.members.Keys)
    requires forall k :: k in ks ==> a.members[k] == b.members[k]
    ensures a == b
  {
    assert a.members.Keys == b.members.Keys;
    assert a.members == b.members;
  }

  /** The digest input identifies the value: two printable values have the same canonical
      text exactly when they are equal, whatever order their maps are walked in. */
  lemma CanonicalTextIdentifies(a: Json, b: Json)
    requires Printable(a) && Printable(b)
    ensures Print(a) == Print(b) <==> a == b
  {
    if Print(a) == Print(b) {
      assert Print(a) + "" == Print(b) + "";
      PrintIsPrefixFree(a, b, "", "");
    }
  }

  // ---- when the text is the one RFC 8785 defines ----

  /** No text or member name, at any depth, holds a literal backslash-u2028 or -u2029. */
  ghost predicate Clean(v: Json) {
    match v
    case Str(s) => !HasLiteral(s)
    case Arr(items) => forall i :: 0 <= i < |items| ==> Clean(items[i])
    case Obj(members) => forall k :: k in members ==> !HasLiteral(k) && Clean(members[k])
    case _ => true
  }

  lemma QuotedIsShorter(s: string)
    ensures |Quoted(s, false)| <= |Quoted(s, true)|
    ensures HasLiteral(s) ==> |Quoted(s, false)| < |Quoted(s, true)|
    ensures !HasLiteral(s) ==> Quoted(s, false) == Quoted(s, true)
  {
    CanonicalStringIsEncoded(s);
    EncodedIsShorterByLiterals(s);
  }

  lemma {:induction false} ItemsAreShorter(v: Json, i: nat)
    requires v.Arr? && i <= |v.items|
    ensures |PrintItems(v, i, false)| <= |PrintItems(v, i, true)|
    ensures (forall j :: i <= j < |v.items| ==> Clean(v.items[j])) ==> PrintItems(v, i, false) == PrintItems(v, i, true)
    ensures (exists j :: i <= j < |v.items| && !Clean(v.items[j])) ==>
            |PrintItems(v, i, false)| < |PrintItems(v, i, true)|
    decreases v, 1, |v.items| - i
  {
    if i < |v.items| {
      PrintIsShorter(v.items[i]);
      ItemsAreShorter(v, i + 1);
    }
  }

  lemma {:induction false} MembersAreShorter(v: Json, ks: seq<string>)
    requires v.Obj? && forall k :: k in ks ==> k in v.members
    ensures |PrintMembers(v, ks, false)| <= |PrintMembers(v, ks, true)|
    ensures (forall k :: k in ks ==> !HasLiteral(k) && Clean(v.members[k])) ==>
            PrintMembers(v, ks, false) == PrintMembers(v, ks, true)
    ensures (exists k :: k in ks && (HasLiteral(k) || !Clean(v.members[k]))) ==>
            |PrintMembers(v, ks, false)| < |PrintMembers(v, ks, true)|
    decreases v, 1, |ks|
  {
    if ks != [] {
      QuotedIsShorter(ks[0]);
      PrintIsShorter(v.members[ks[0]]);
      MembersAreShorter(v, ks[1..]);
      assert forall k :: k in ks ==> k == ks[0] || k in ks[1..];
    }
  }

  lemma {:induction false} PrintIsShorter(v: Json)
    ensures |Print(v, false)| <= |Print(v, true)|
    ensures Clean(v) ==> Print(v, false) == Print(v, true)
    ensures !Clean(v) ==> |Print(v, false)| < |Print(v, true)|
    decreases v, 2
  {
    match v {
      case Str(s) => QuotedIsShorter(s);
      case Arr(_) => ItemsAreShorter(v, 0);
      case Obj(members) => MembersAreShorter(v, SortedKeys(members.Keys));
      case _ =>
    }
  }

  /** The writer produces the RFC 8785 text exactly when no text or member name contains
      a literal backslash-u2028 or -u2029. */
  lemma CanonicalTextIsRfcWhenClean(v: Json)
    ensures Print(v) == Print(v, true) <==> Clean(v)
  {
    PrintIsShorter(v);
  }

  // ---- the writer ----

  class Buffer {
    var text: string

    constructor ()
      ensures text == ""
    {
      text := "";
    }

    method Write(s: string)
      modifies this
      ensures text == old(text) + s
    {
      text := text + s;
    }
  }

  lemma ItemStep(v: Json, i: nat, t: string)
    requires v.Arr? && i < |v.items|
    ensures (if i > 0 then t + [','] else t) + Print(v.items[i]) + PrintItems(v, i + 1, false) ==
            t + PrintItems(v, i, false)
  {
    var item, more := Print(v.items[i]), PrintItems(v, i + 1, false);
    if i > 0 {
      assert t + [','] + item + more == t + ([','] + item + more);
    } else {
      assert [] + item + more == item + more;
      Associate(t, item, more);
    }
  }

  lemma MemberStep(v: Json, ks: seq<string>, t: string)
    requires v.Obj? && ks != [] && forall k :: k in ks ==> k in v.members
    ensures var u := t + CanonicalString(ks[0]) + [':'] + Print(v.members[ks[0]]);
            (if |ks| > 1 then u + [','] else u) + PrintMembers(v, ks[1..], false) == t + PrintMembers(v, ks, false)
  {
    var key, item, more := CanonicalString(ks[0]), Print(v.members[ks[0]]), PrintMore(v, ks, false);
    assert t + key + [':'] + item + more == t + (key + ([':'] + (item + more)));
    var u, rest := t + key + [':'] + item, PrintMembers(v, ks[1..], false);
    if |ks| > 1 {
      Associate(u, [','], rest);
    } else {
      assert rest == "" == more;
    }
  }

  /** writeRFC8785: append the value to the buffer, or fail part-way. */
  method WriteRfc8785(buffer: Buffer, value: Json) returns (ok: bool)
    modifies buffer
    ensures ok == Printable(value)
    ensures ok ==> buffer.text == old(buffer.text) + Print(value)
    decreases value, 1
  {
    match value {
      case Null => buffer.Write("null");
      case Bool(truth) => buffer.Write(if truth then "true" else "false");
      case Str(text) => buffer.Write(CanonicalString(text));
      case Num(numeral) =>
        if numeral.None? {
          return false;
        }
        buffer.Write(numeral.value);
      case Arr(_) =>
        ok := WriteArray(buffer, value);
        return;
      case Obj(_) =>
        ok := WriteObject(buffer, value);
        return;
      case Foreign =>
        return false;
    }
    return true;
  }

  /** The []any case of its switch. */
  method WriteArray(buffer: Buffer, value: Json) returns (ok: bool)
    requires value.Arr?
    modifies buffer
    ensures ok == Printable(value)
    ensures ok ==> buffer.text == old(buffer.text) + Print(value)
    decreases value, 0, 2
  {
    buffer.Write(['[']);
    ok := WriteItems(buffer, value);
    if !ok {
      return;
    }
    buffer.Write([']']);
    ArrayPrint(value, old(buffer.text));
  }

  lemma ArrayPrint(value: Json, t: string)
    requires value.Arr?
    ensures t + ['['] + PrintItems(value, 0, false) + [']'] == t + Print(value)
  {
    Associate(t, ['['], PrintItems(value, 0, false));
    Associate(t, ['['] + PrintItems(value, 0, false), [']']);
  }

  method WriteItems(buffer: Buffer, value: Json) returns (ok: bool)
    requires value.Arr?
    modifies buffer
    ensures ok == Printable(value)
    ensures ok ==> buffer.text == old(buffer.text) + PrintItems(value, 0, false)
    decreases value, 0, 1
  {
    ghost var whole := buffer.text + PrintItems(value, 0, false);
    var index := 0;
    while index < |value.items|
      invariant index <= |value.items|
      invariant forall i :: 0 <= i < index ==> Printable(value.items[i])
      invariant buffer.text + PrintItems(value, index, false) == whole
    {
      ItemStep(value, index, buffer.text);
      if index > 0 {
        buffer.Write([',']);
      }
      var item := WriteRfc8785(buffer, value.items[index]);
      if !item {
        return false;
      }
      index := index + 1;
    }
    assert buffer.text == whole;
    return true;
  }

  method WriteMember(buffer: Buffer, value: Json, key: string) returns (ok: bool)
    requires value.Obj? && key in value.members
    modifies buffer
    ensures ok == Printable(value.members[key])
    ensures ok ==> buffer.text == old(buffer.text) + CanonicalString(key) + [':'] + Print(value.members[key])
    decreases value, 0, 0
  {
    buffer.Write(CanonicalString(key));
    buffer.Write([':']);
    ok := WriteRfc8785(buffer, value.members[key]);
  }

  lemma Suffix(ks: seq<string>, i: nat)
    requires i < |ks|
    ensures ks[i..] != [] && ks[i..][0] == ks[i] && ks[i..][1..] == ks[i + 1..] && |ks[i..]| == |ks| - i
    ensures ks[i] in ks && forall k :: k in ks[i..] ==> k in ks
  {
  }

  method WriteMembers(buffer: Buffer, value: Json, keys: seq<string>) returns (ok: bool)
    requires value.Obj? && forall k :: k in keys ==> k in value.members
    modifies buffer
    ensures ok == forall k :: k in keys ==> Printable(value.members[k])
    ensures ok ==> buffer.text == old(buffer.text) + PrintMembers(value, keys, false)
    decreases value, 0, 1
  {
    ghost var whole := buffer.text + PrintMembers(value, keys, false);
    ghost var rest := keys;
    var index := 0;
    while index < |keys|
      invariant index <= |keys| && rest == keys[index..]
      invariant forall i :: 0 <= i < index ==> Printable(value.members[keys[i]])
      invariant forall k :: k in rest ==> k in value.members
      invariant buffer.text + PrintMembers(value, rest, false) == whole
    {
      Suffix(keys, index);
      MemberStep(value, rest, buffer.text);
      var member := WriteMember(buffer, value, keys[index]);
      if !member {
        return false;
      }
      index := index + 1;
      rest := rest[1..];
      if index < |keys| {
        buffer.Write([',']);
      }
    }
    return true;
  }

  lemma ObjectPrint(value: Json, keys: seq<string>, t: string)
    requires value.Obj? && Enumerates(keys, value.members.Keys)
    ensures t + ['{'] + PrintMembers(value, keys, false) + ['}'] == t + Print(value)
  {
    EnumerationIsUnique(keys, SortedKeys(value.members.Keys), value.members.Keys);
    Associate(t, ['{'], PrintMembers(value, keys, false));
    Associate(t, ['{'] + PrintMembers(value, keys, false), ['}']);
  }

  /** The map[string]any case of its switch. */
  method WriteObject(buffer: Buffer, value: Json) returns (ok: bool)
    requires value.Obj?
    modifies buffer
    ensures ok == Printable(value)
    ensures ok ==> buffer.text == old(buffer.text) + Print(value)
    decreases value, 0, 2
  {
    var keys := SortedKeysOf(value.members);
    buffer.Write(['{']);
    ok := WriteMembers(buffer, value, keys);
    if !ok {
      return;
    }
    buffer.Write(['}']);
    ObjectPrint(value, keys, old(buffer.text));
  }

  /** marshalRFC8785: the whole text, or an error and no text. */
  method MarshalRfc8785(value: Json) returns (text: Option<string>)
    ensures text == if Printable(value) then Some(Print(value)) else None
  {
    var buffer := new Buffer();
    var ok := WriteRfc8785(buffer, value);
    assert "" + Print(value) == Print(value);
    text := if ok then Some(buffer.text) else None;
  }
}
