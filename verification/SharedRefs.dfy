/** Typed references of the shared contracts, and the loops every validator leans on. */
module SharedRefs {
  import opened Collections
  import opened Wrappers

  datatype Kind =
    | Component | CoverageGroup | TestInput | SourceMember | SourceArtifact
    | Artifact | AtomicGroup | Directive | OtherKind(name: string)

  datatype Ref = Ref(kind: Kind, scope: string, id: string)

  function Ids(refs: seq<Ref>): (ids: seq<string>)
    ensures |ids| == |refs| && forall i :: 0 <= i < |refs| ==> ids[i] == refs[i].id
  {
    seq(|refs|, i requires 0 <= i < |refs| => refs[i].id)
  }

  /** Every reference has the kind and the scope. */
  predicate Typed(refs: seq<Ref>, kind: Kind, scope: string) {
    forall i :: 0 <= i < |refs| ==> refs[i].kind == kind && refs[i].scope == scope
  }

  /** StableId of the contract schemas: 1 to 128 letters, digits and . _ : / -, the first
      a letter or a digit. */
  predicate StableChar(c: char) {
    'a' <= c <= 'z' || 'A' <= c <= 'Z' || '0' <= c <= '9' || c == '.' || c == '_' || c == ':' || c == '/' || c == '-'
  }

  predicate StableId(id: string) {
    1 <= |id| <= 128 && (forall i :: 0 <= i < |id| ==> StableChar(id[i])) &&
    ('a' <= id[0] <= 'z' || 'A' <= id[0] <= 'Z' || '0' <= id[0] <= '9')
  }

  lemma StableIdHasNoNul(id: string)
    requires StableId(id)
    ensures NUL !in id
  {
  }

  predicate StableRefs(refs: seq<Ref>) {
    forall i :: 0 <= i < |refs| ==> StableId(refs[i].scope) && StableId(refs[i].id)
  }

  // ---- sameStringSetLocal ----

  function Count(seen: map<string, int>, v: string): int { if v in seen then seen[v] else 0 }

  lemma Extend(s: seq<string>, i: nat)
    requires i < |s|
    ensures multiset(s[..i + 1]) == multiset(s[..i]) + multiset{s[i]}
  {
    assert s[..i + 1] == s[..i] + [s[i]];
  }

  lemma Surplus(s: seq<string>, i: nat, v: string)
    requires i <= |s|
    ensures multiset(s[..i])[v] <= multiset(s)[v]
  {
    assert s == s[..i] + s[i..];
  }

  /** The counts of what has been seen, less what has been taken off again. */
  ghost predicate Balance(seen: map<string, int>, a: multiset<string>, b: multiset<string>) {
    forall v :: Count(seen, v) + b[v] == a[v]
  }

  lemma TakeOff(seen: map<string, int>, a: multiset<string>, b: multiset<string>, x: string)
    requires Balance(seen, a, b)
    ensures Balance(seen[x := Count(seen, x) - 1], a, b + multiset{x})
  {
  }

  /** The first loop of sameStringSetLocal. */
  method Tally(a: seq<string>) returns (seen: map<string, int>)
    ensures Balance(seen, multiset(a), multiset{})
  {
    seen := map[];
    for i := 0 to |a|
      invariant Balance(seen, multiset(a[..i]), multiset{})
    {
      Extend(a, i);
      seen := seen[a[i] := Count(seen, a[i]) + 1];
    }
    assert a[..|a|] == a;
  }

  /** sameStringSetLocal counts occurrences up and then down: despite its name it decides
      equality as multisets, so a repeated element is never ignored. */
  method SameStringSet(a: seq<string>, b: seq<string>) returns (same: bool)
    ensures same <==> multiset(a) == multiset(b)
  {
    if |a| != |b| {
      assert |multiset(a)| != |multiset(b)|;
      return false;
    }
    var seen := Tally(a);
    for i := 0 to |b|
      invariant Balance(seen, multiset(a), multiset(b[..i]))
      invariant forall v :: Count(seen, v) >= 0
    {
      Extend(b, i);
      TakeOff(seen, multiset(a), multiset(b[..i]), b[i]);
      seen := seen[b[i] := Count(seen, b[i]) - 1];
      if seen[b[i]] < 0 {
        Surplus(b, i + 1, b[i]);
        return false;
      }
    }
    assert b[..|b|] == b;
    NothingLeft(a, b, seen);
    return true;
  }

  lemma NothingLeft(a: seq<string>, b: seq<string>, seen: map<string, int>)
    requires |a| == |b|
    requires Balance(seen, multiset(a), multiset(b)) && forall v :: Count(seen, v) >= 0
    ensures multiset(a) == multiset(b)
  {
    forall v ensures multiset(b)[v] <= multiset(a)[v] {
      assert Count(seen, v) >= 0;
    }
    EqualSizes(multiset(a), multiset(b));
  }

  /** Equality as multisets with a set of keys: the list names each of them once. */
  lemma {:induction false} ListsASet(s: seq<string>, keys: set<string>)
    ensures multiset(s) == multiset(keys) <==> Distinct(s) && Elements(s) == keys
  {
    if multiset(s) == multiset(keys) {
      forall i, j | 0 <= i < j < |s| ensures s[i] != s[j] {
        if s[i] == s[j] {
          TwoOccurrences(s, i, j);
        }
      }
      assert forall x :: x in s <==> x in multiset(s);
      assert Elements(s) == keys;
    }
    if Distinct(s) && Elements(s) == keys {
      DistinctCounts(s);
    }
  }

  // ---- checkedRefs ----

  /** What checkedRefs demands: right kind and scope, known, none twice. */
  predicate Checked(refs: seq<Ref>, kind: Kind, scope: string, index: set<string>) {
    Typed(refs, kind, scope) && Distinct(Ids(refs)) && Elements(Ids(refs)) <= index
  }

  method CheckedRefs(refs: seq<Ref>, kind: Kind, scope: string, index: set<string>) returns (out: Option<seq<string>>)
    ensures out == if Checked(refs, kind, scope, index) then Some(Ids(refs)) else None
  {
    var seen: set<string> := {};
    var ids := [];
    for i := 0 to |refs|
      invariant ids == Ids(refs[..i]) && seen == Elements(ids)
      invariant Checked(refs[..i], kind, scope, index)
    {
      var ref := refs[i];
      if ref.kind != kind || ref.scope != scope {
        return None;
      }
      if ref.id !in index || ref.id in seen {
        NotChecked(refs, i, kind, scope, index);
        return None;
      }
      seen := seen + {ref.id};
      ids := ids + [ref.id];
      assert ids == Ids(refs[..i + 1]);
    }
    assert refs[..|refs|] == refs;
    return Some(ids);
  }

  lemma NotChecked(refs: seq<Ref>, i: nat, kind: Kind, scope: string, index: set<string>)
    requires i < |refs| && (refs[i].id !in index || refs[i].id in Ids(refs[..i]))
    ensures !Checked(refs, kind, scope, index)
  {
    assert Ids(refs)[i] == refs[i].id;
    if refs[i].id in Ids(refs[..i]) {
      var j :| 0 <= j < i && Ids(refs[..i])[j] == refs[i].id;
      assert Ids(refs)[j] == Ids(refs)[i];
    }
  }

  // ---- indexing a list by a name ----

  predicate Keyed<T>(items: seq<T>, key: T -> string) {
    (forall i :: 0 <= i < |items| ==> key(items[i]) != "") &&
    forall i, j :: 0 <= i < j < |items| ==> key(items[i]) != key(items[j])
  }

  function IndexOf<T>(items: seq<T>, key: T -> string): map<string, T> {
    if items == [] then map[]
    else
      var n := |items| - 1;
      IndexOf(items[..n], key)[key(items[n]) := items[n]]
  }

  function Names<T>(items: seq<T>, key: T -> string): (names: seq<string>)
    ensures |names| == |items| && forall i :: 0 <= i < |items| ==> names[i] == key(items[i])
  {
    seq(|items|, i requires 0 <= i < |items| => key(items[i]))
  }

  lemma NamesOfPrefix<T>(items: seq<T>, key: T -> string)
    requires items != []
    ensures Elements(Names(items, key)) == Elements(Names(items[..|items| - 1], key)) + {key(items[|items| - 1])}
  {
    var n := |items| - 1;
    assert Names(items, key) == Names(items[..n], key) + [key(items[n])];
  }

  /** The index has an entry for every name that occurs. */
  lemma {:induction false} IndexedNames<T>(items: seq<T>, key: T -> string)
    ensures IndexOf(items, key).Keys == Elements(Names(items, key))
  {
    if items != [] {
      var n := |items| - 1;
      IndexedNames(items[..n], key);
      NamesOfPrefix(items, key);
    }
  }

  /** With distinct names it has exactly one entry an item... */
  lemma IndexSize<T>(items: seq<T>, key: T -> string)
    requires Keyed(items, key)
    ensures |IndexOf(items, key)| == |items|
  {
    IndexedNames(items, key);
    DistinctSize(Names(items, key));
  }

  /** ... which is that item. */
  lemma {:induction false} IndexHolds<T>(items: seq<T>, key: T -> string, i: nat)
    requires Keyed(items, key) && i < |items|
    ensures key(items[i]) in IndexOf(items, key) && IndexOf(items, key)[key(items[i])] == items[i]
  {
    var n := |items| - 1;
    if i < n {
      IndexHolds(items[..n], key, i);
    }
  }

  /** One more item with a new name... */
  lemma NextKeyed<T>(items: seq<T>, key: T -> string, i: nat)
    requires i < |items| && Keyed(items[..i], key) && key(items[i]) != "" &&
            key(items[i]) !in Elements(Names(items[..i], key))
    ensures Keyed(items[..i + 1], key)
    ensures Elements(Names(items[..i + 1], key)) == Elements(Names(items[..i], key)) + {key(items[i])}
  {
    var now, next := items[..i], items[..i + 1];
    assert next[..i] == now && next[i] == items[i];
    NamesOfPrefix(next, key);
    assert forall j :: 0 <= j < i ==> next[j] == now[j] && key(now[j]) == Names(now, key)[j];
  }

  lemma NextIndexed<T>(items: seq<T>, key: T -> string, i: nat)
    requires i < |items|
    ensures IndexOf(items[..i + 1], key) == IndexOf(items[..i], key)[key(items[i]) := items[i]]
  {
    assert items[..i + 1][..i] == items[..i];
  }

  /** ... or with an empty or an old one. */
  lemma RepeatedKey<T>(items: seq<T>, key: T -> string, i: nat)
    requires i < |items| && (key(items[i]) == "" || key(items[i]) in Elements(Names(items[..i], key)))
    ensures !Keyed(items, key)
  {
    if key(items[i]) != "" {
      var j :| 0 <= j < i && Names(items[..i], key)[j] == key(items[i]);
      assert items[..i][j] == items[j];
    }
  }

  /** The loop that indexes a list and refuses an empty or repeated name. */
  method Index<T>(items: seq<T>, key: T -> string) returns (r: Option<map<string, T>>)
    ensures r == if Keyed(items, key) then Some(IndexOf(items, key)) else None
  {
    var index: map<string, T> := map[];
    for i := 0 to |items|
      invariant Keyed(items[..i], key)
      invariant index == IndexOf(items[..i], key)
    {
      var name := key(items[i]);
      IndexedNames(items[..i], key);
      if name == "" || name in index {
        RepeatedKey(items, key, i);
        return None;
      }
      NextKeyed(items, key, i);
      NextIndexed(items, key, i);
      index := index[name := items[i]];
    }
    assert items[..|items|] == items;
    return Some(index);
  }

  /** keys: the names in a set as a list, each once. The source sorts it; none of its
      callers here depends on the order. */
  method Keys(s: set<string>) returns (names: seq<string>)
    ensures multiset(names) == multiset(s)
  {
    names := [];
    var rest := s;
    while rest != {}
      invariant rest <= s && multiset(names) == multiset(s - rest)
    {
      var name :| name in rest;
      assert s - (rest - {name}) == (s - rest) + {name};
      names := names + [name];
      rest := rest - {name};
    }
    assert s - rest == s;
  }
}
