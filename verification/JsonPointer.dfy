/** JSON Pointers: escaping, splitting and resolving. */
module JsonPointer {
  import opened ArrayIndex
  import opened Wrappers

  const SLASH := '/'
  const TILDE := '~'

  // ---- the two escapes ----

  /** strings.ReplaceAll of one character by a text. */
  function ReplaceChar(s: string, c: char, sub: string): string {
    if s == "" then "" else (if s[0] == c then sub else [s[0]]) + ReplaceChar(s[1..], c, sub)
  }

  /** strings.ReplaceAll of a two-character text by one character, left to right. */
  function ReplacePair(t: string, a: char, b: char, c: char): string
    decreases |t|
  {
    if |t| < 2 then t
    else if t[0] == a && t[1] == b then [c] + ReplacePair(t[2..], a, b, c)
    else [t[0]] + ReplacePair(t[1..], a, b, c)
  }

  function Escape(s: string): string { ReplaceChar(ReplaceChar(s, TILDE, [TILDE, '0']), SLASH, [TILDE, '1']) }

  function Unescape(t: string): string { ReplacePair(ReplacePair(t, TILDE, '1', SLASH), TILDE, '0', TILDE) }

  function EscapeChar(c: char): string {
    if c == TILDE then [TILDE, '0'] else if c == SLASH then [TILDE, '1'] else [c]
  }

  lemma {:induction false} ReplaceCharAppend(s: string, t: string, c: char, b: string)
    ensures ReplaceChar(s + t, c, b) == ReplaceChar(s, c, b) + ReplaceChar(t, c, b)
  {
    if s == "" {
      assert s + t == t;
    } else {
      assert (s + t)[1..] == s[1..] + t;
      ReplaceCharAppend(s[1..], t, c, b);
    }
  }

  /** Escaping works character by character. */
  lemma EscapeHead(s: string)
    requires s != ""
    ensures Escape(s) == EscapeChar(s[0]) + Escape(s[1..])
  {
    var head, rest := if s[0] == TILDE then [TILDE, '0'] else [s[0]], ReplaceChar(s[1..], TILDE, [TILDE, '0']);
    assert ReplaceChar(s, TILDE, [TILDE, '0']) == head + rest;
    ReplaceCharAppend(head, rest, SLASH, [TILDE, '1']);
    HeadEscape(s[0]);
  }

  lemma HeadEscape(c: char)
    ensures ReplaceChar(if c == TILDE then [TILDE, '0'] else [c], SLASH, [TILDE, '1']) == EscapeChar(c)
  {
    var one := [TILDE, '1'];
    assert [TILDE, '0'][1..] == ['0'] && ['0'][1..] == "" && [c][1..] == "";
    assert ReplaceChar(['0'], SLASH, one) == ['0'];
    assert ReplaceChar([TILDE, '0'], SLASH, one) == [TILDE] + ReplaceChar(['0'], SLASH, one);
    assert ReplaceChar([c], SLASH, one) == (if c == SLASH then one else [c]) + "";
  }

  /** The escapes of section 3 of RFC 6901: a tilde and a slash are escaped, and nothing
      else is. */
  lemma EscapesAreStandard(c: char, s: string)
    ensures Escape("") == ""
    ensures Escape([c] + s) == (if c == '~' then "~0" else if c == '/' then "~1" else [c]) + Escape(s)
  {
    EscapeHead([c] + s);
    assert ([c] + s)[1..] == s;
  }

  lemma {:induction false} EscapeHasNoSlash(s: string)
    ensures SLASH !in Escape(s)
  {
    if s != "" {
      EscapeHead(s);
      EscapeHasNoSlash(s[1..]);
    }
  }

  lemma PairMissed(h: char, t: string, a: char, b: char, c: char)
    requires h != a || (t != "" && t[0] != b)
    ensures ReplacePair([h] + t, a, b, c) == [h] + ReplacePair(t, a, b, c)
  {
    assert ([h] + t)[1..] == t;
  }

  lemma PairHit(t: string, a: char, b: char, c: char)
    ensures ReplacePair([a, b] + t, a, b, c) == [c] + ReplacePair(t, a, b, c)
  {
    assert ([a, b] + t)[2..] == t;
  }

  /** After the first replacement of Unescape only the tildes are still escaped. */
  lemma {:induction false} SlashesBack(s: string)
    ensures ReplacePair(Escape(s), TILDE, '1', SLASH) == ReplaceChar(s, TILDE, [TILDE, '0'])
  {
    if s != "" {
      var rest := Escape(s[1..]);
      EscapeHead(s);
      SlashesBack(s[1..]);
      if s[0] == SLASH {
        PairHit(rest, TILDE, '1', SLASH);
      } else if s[0] == TILDE {
        PairMissed('0', rest, TILDE, '1', SLASH);
        PairMissed(TILDE, ['0'] + rest, TILDE, '1', SLASH);
        assert [TILDE, '0'] + rest == [TILDE] + (['0'] + rest);
      } else {
        PairMissed(s[0], rest, TILDE, '1', SLASH);
      }
    }
  }

  lemma {:induction false} TildesBack(s: string)
    ensures ReplacePair(ReplaceChar(s, TILDE, [TILDE, '0']), TILDE, '0', TILDE) == s
  {
    if s != "" {
      var rest := ReplaceChar(s[1..], TILDE, [TILDE, '0']);
      TildesBack(s[1..]);
      if s[0] == TILDE {
        PairHit(rest, TILDE, '0', TILDE);
      } else {
        PairMissed(s[0], rest, TILDE, '0', TILDE);
      }
      assert s == [s[0]] + s[1..];
    }
  }

  /** The order of the two replacements is right: unescaping undoes escaping, also for
      names that contain the escapes themselves. */
  lemma UnescapeUndoesEscape(s: string)
    ensures Unescape(Escape(s)) == s
  {
    SlashesBack(s);
    TildesBack(s);
  }

  // ---- splitting ----

  /** strings.Split at the slash: always at least one token. */
  function Split(t: string): (tokens: seq<string>)
    ensures tokens != []
  {
    if t == "" then [""]
    else
      var rest := Split(t[1..]);
      if t[0] == SLASH then [""] + rest else [[t[0]] + rest[0]] + rest[1..]
  }

  /** The pointer to a path of member names. */
  function PointerTo(path: seq<string>): string {
    if path == [] then "" else [SLASH] + Escape(path[0]) + PointerTo(path[1..])
  }

  function Escaped(path: seq<string>): seq<string> {
    if path == [] then [] else [Escape(path[0])] + Escaped(path[1..])
  }

  /** Names of a pointer, when it is one. */
  function Unescaped(tokens: seq<string>): seq<string> {
    if tokens == [] then [] else [Unescape(tokens[0])] + Unescaped(tokens[1..])
  }

  lemma {:induction false} SplitToken(a: string, t: string)
    requires SLASH !in a && (t == "" || t[0] == SLASH)
    ensures Split(a + t) == [a] + (if t == "" then [] else Split(t[1..]))
  {
    if a == "" {
      assert a + t == t;
    } else {
      assert (a + t)[1..] == a[1..] + t && (a + t)[0] == a[0];
      SplitToken(a[1..], t);
      assert a == [a[0]] + a[1..];
    }
  }

  lemma {:induction false} SplitPointer(path: seq<string>)
    requires path != []
    ensures PointerTo(path)[0] == SLASH && Split(PointerTo(path)[1..]) == Escaped(path)
  {
    var rest := PointerTo(path[1..]);
    EscapeHasNoSlash(path[0]);
    assert PointerTo(path)[1..] == Escape(path[0]) + rest;
    if path[1..] != [] {
      SplitPointer(path[1..]);
    }
    SplitToken(Escape(path[0]), rest);
  }

  lemma {:induction false} UnescapedEscaped(path: seq<string>)
    ensures Unescaped(Escaped(path)) == path
  {
    if path != [] {
      UnescapeUndoesEscape(path[0]);
      assert Escaped(path)[1..] == Escaped(path[1..]);
      UnescapedEscaped(path[1..]);
    }
  }

  /** The member names a pointer text stands for; None when it is no pointer. */
  function Parse(pointer: string): Option<seq<string>> {
    if pointer == "" then Some([])
    else if pointer[0] != SLASH then None
    else Some(Unescaped(Split(pointer[1..])))
  }

  /** Escape, join, split, unescape: the path comes back, whatever the names contain. */
  lemma ParseUndoesPointerTo(path: seq<string>)
    ensures Parse(PointerTo(path)) == Some(path)
  {
    if path != [] {
      SplitPointer(path);
      UnescapedEscaped(path);
    }
  }

  lemma PointersIdentifyPaths(p: seq<string>, q: seq<string>)
    ensures PointerTo(p) == PointerTo(q) <==> p == q
  {
    ParseUndoesPointerTo(p);
    ParseUndoesPointerTo(q);
  }

  // ---- resolving ----

  /** A decoded document. Scalar is anything that has no parts. */
  datatype Node = Object(members: map<string, Node>) | Array(items: seq<Node>) | Scalar(value: string)

  datatype Target = Found(node: Node) | InvalidPointer | MemberAbsent | IndexInvalid | TraversesScalar

  /** One name further down. */
  function Child(node: Node, name: string): Target {
    match node
    case Object(members) => if name in members then Found(members[name]) else MemberAbsent
    case Array(items) =>
      (match IndexIn(name, |items|)
       case Some(i) => Found(items[i])
       case None => IndexInvalid)
    case Scalar(_) => TraversesScalar
  }

  function Follow(node: Node, path: seq<string>): Target
    decreases |path|
  {
    if path == [] then Found(node)
    else if Child(node, path[0]).Found? then Follow(Child(node, path[0]).node, path[1..])
    else Child(node, path[0])
  }

  /** resolveSharedJSONPointer. */
  method Resolve(root: Node, pointer: string) returns (r: Target)
    ensures r == if Parse(pointer).Some? then Follow(root, Parse(pointer).value) else InvalidPointer
    ensures forall path :: pointer == PointerTo(path) ==> r == Follow(root, path)
    ensures r.InvalidPointer? <==> pointer != "" && pointer[0] != '/'
  {
    forall path | pointer == PointerTo(path) ensures Parse(pointer) == Some(path) {
      ParseUndoesPointerTo(path);
    }
    if pointer == "" {
      return Found(root);
    }
    if pointer[0] != SLASH {
      return InvalidPointer;
    }
    var tokens := Split(pointer[1..]);
    var current := root;
    for i := 0 to |tokens|
      invariant Follow(current, Unescaped(tokens[i..])) == Follow(root, Unescaped(tokens))
    {
      var name := Unescape(tokens[i]);
      assert Unescaped(tokens[i..]) == [name] + Unescaped(tokens[i + 1..]) by {
        assert tokens[i..][1..] == tokens[i + 1..];
      }
      match current {
        case Object(members) =>
          if name !in members {
            return MemberAbsent;
          }
          current := members[name];
        case Array(items) =>
          var index := Scan(name);
          if index.None? || index.value < 0 || index.value >= |items| {
            return IndexInvalid;
          }
          current := items[index.value];
        case Scalar(_) =>
          return TraversesScalar;
      }
    }
    return Found(current);
  }

  /** The name selects a part of the node: a member, or an item by its index. */
  predicate Leads(node: Node, name: string) {
    (node.Object? && name in node.members) ||
    (node.Array? && Scan(name).Some? && 0 <= Scan(name).value < |node.items|)
  }

  function PartOf(node: Node, name: string): Node
    requires Leads(node, name)
  {
    if node.Object? then node.members[name] else node.items[Scan(name).value]
  }

  /** Following a path walks from part to part; it finds the last one, or stops at the
      first name that selects nothing and says why. */
  lemma {:induction false} FollowWalks(node: Node, path: seq<string>) returns (trail: seq<Node>)
    ensures 0 < |trail| <= |path| + 1 && trail[0] == node
    ensures forall k :: 0 <= k < |trail| - 1 ==> Leads(trail[k], path[k]) && trail[k + 1] == PartOf(trail[k], path[k])
    ensures Follow(node, path).Found? ==> |trail| == |path| + 1 && Follow(node, path) == Found(trail[|path|])
    ensures !Follow(node, path).Found? ==>
            && |trail| <= |path| && !Leads(trail[|trail| - 1], path[|trail| - 1])
            && Follow(node, path) == match trail[|trail| - 1]
                                     case Object(_) => MemberAbsent
                                     case Array(_) => IndexInvalid
                                     case Scalar(_) => TraversesScalar
    decreases |path|
  {
    if path == [] || !Child(node, path[0]).Found? {
      trail := [node];
    } else {
      var next := Child(node, path[0]).node;
      var rest := FollowWalks(next, path[1..]);
      trail := [node] + rest;
      assert forall k :: 0 < k < |trail| ==> trail[k] == rest[k - 1];
      assert forall k :: 0 < k < |path| ==> path[k] == path[1..][k - 1];
    }
  }

  predicate IsItem(node: Node, name: string) { node.Array? && IndexIn(name, |node.items|).Some? }

  /** The document with a value put under the names of a path, making way where the path
      leads through something that cannot hold the name. */
  function Put(root: Node, path: seq<string>, leaf: Node): Node
    decreases |path|
  {
    if path == [] then leaf
    else if IsItem(root, path[0]) then
      var i := IndexIn(path[0], |root.items|).value;
      Array(root.items[i := Put(root.items[i], path[1..], leaf)])
    else
      var members := if root.Object? then root.members else map[];
      var child := if path[0] in members then members[path[0]] else Object(map[]);
      Object(members[path[0] := Put(child, path[1..], leaf)])
  }

  lemma {:induction false} FollowPut(root: Node, path: seq<string>, leaf: Node)
    ensures Follow(Put(root, path, leaf), path) == Found(leaf)
    decreases |path|
  {
    if path != [] {
      if IsItem(root, path[0]) {
        FollowPut(root.items[IndexIn(path[0], |root.items|).value], path[1..], leaf);
      } else {
        var members := if root.Object? then root.members else map[];
        FollowPut(if path[0] in members then members[path[0]] else Object(map[]), path[1..], leaf);
      }
    }
  }

  /** In every document, the pointer to a nested member or item finds it. */
  lemma PointerReachesNestedMember(root: Node, path: seq<string>, leaf: Node)
    ensures Parse(PointerTo(path)).Some?
    ensures Follow(Put(root, path, leaf), Parse(PointerTo(path)).value) == Found(leaf)
  {
    ParseUndoesPointerTo(path);
    FollowPut(root, path, leaf);
  }

  /** Two names of one part of a node. Different names may select one item. */
  predicate SamePart(node: Node, x: string, y: string) {
    if node.Array? then IsItem(node, x) && IndexIn(x, |node.items|) == IndexIn(y, |node.items|) else x == y
  }

  /** Two names of different parts. In an array that takes two items. */
  predicate Apart(node: Node, x: string, y: string) {
    !SamePart(node, x, y) && (node.Array? ==> IsItem(node, x) && IsItem(node, y))
  }

  /** The paths part: at some place they lead into different parts. */
  predicate Part(root: Node, p: seq<string>, q: seq<string>)
    decreases |q|
  {
    p != [] && q != [] && Child(root, q[0]).Found? &&
    (Apart(root, p[0], q[0]) || (SamePart(root, p[0], q[0]) && Part(Child(root, q[0]).node, p[1..], q[1..])))
  }

  lemma {:induction false} ElsewhereStays(root: Node, path: seq<string>, leaf: Node, other: seq<string>)
    requires Part(root, path, other) && Follow(root, other).Found?
    ensures Follow(Put(root, path, leaf), other) == Follow(root, other)
    decreases |path|
  {
    var child := Child(root, other[0]).node;
    if !Apart(root, path[0], other[0]) {
      ElsewhereStays(child, path[1..], leaf, other[1..]);
      assert Child(Put(root, path, leaf), other[0]) == Found(Put(child, path[1..], leaf));
    } else {
      assert Child(Put(root, path, leaf), other[0]) == Found(child);
    }
  }

  /** And where a pointer leads elsewhere it finds what it found before. */
  lemma OtherPointersStay(root: Node, path: seq<string>, leaf: Node, other: seq<string>)
    requires Part(root, path, other) && Follow(root, other).Found?
    ensures Parse(PointerTo(other)).Some?
    ensures Follow(Put(root, path, leaf), Parse(PointerTo(other)).value) == Follow(root, other)
  {
    ParseUndoesPointerTo(other);
    ElsewhereStays(root, path, leaf, other);
  }

  /** The pointer to an item finds it, and so does every pointer with more text after the
      index that does not begin with a digit. */
  lemma TrailingTextResolves(items: seq<Node>, i: nat, rest: string)
    requires i < |items| && (rest != "" ==> !Digit(rest[0]))
    ensures Parse(PointerTo([Decimal(i) + rest])) == Some([Decimal(i) + rest])
    ensures Follow(Array(items), [Decimal(i) + rest]) == Found(items[i])
  {
    ParseUndoesPointerTo([Decimal(i) + rest]);
    TrailingTextIsIgnored(i, rest);
  }
}
