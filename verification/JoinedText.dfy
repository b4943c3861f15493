/** Texts joined by a separator: when the joined text determines its parts. */
module JoinedText {
  /** strings.Join with a one-character separator. */
  function Join(parts: seq<string>, sep: char): string {
    if parts == [] then "" else if |parts| == 1 then parts[0] else parts[0] + [sep] + Join(parts[1..], sep)
  }

  /** No part contains the separator. */
  predicate Free(parts: seq<string>, sep: char) { forall k :: 0 <= k < |parts| ==> sep !in parts[k] }

  function Seps(s: string, sep: char): nat {
    if s == "" then 0 else (if s[0] == sep then 1 else 0) + Seps(s[1..], sep)
  }

  lemma {:induction false} SepsAppend(s: string, t: string, sep: char)
    ensures Seps(s + t, sep) == Seps(s, sep) + Seps(t, sep)
  {
    if s == "" {
      assert s + t == t;
    } else {
      assert (s + t)[1..] == s[1..] + t;
      SepsAppend(s[1..], t, sep);
    }
  }

  lemma {:induction false} NoSeps(s: string, sep: char)
    ensures Seps(s, sep) == 0 <==> sep !in s
  {
    if s != "" {
      NoSeps(s[1..], sep);
      assert forall c :: c in s <==> c == s[0] || c in s[1..];
    }
  }

  /** A joined text has one separator fewer than parts, and more only where a part has
      its own. */
  lemma {:induction false} JoinSeps(parts: seq<string>, sep: char)
    requires parts != []
    ensures Seps(Join(parts, sep), sep) >= |parts| - 1
    ensures Seps(Join(parts, sep), sep) == |parts| - 1 <==> Free(parts, sep)
  {
    NoSeps(parts[0], sep);
    if |parts| > 1 {
      var rest := Join(parts[1..], sep);
      JoinSeps(parts[1..], sep);
      SepsAppend(parts[0] + [sep], rest, sep);
      SepsAppend(parts[0], [sep], sep);
      assert Seps([sep], sep) == 1;
      FreeTail(parts, sep);
    }
  }

  lemma FreeTail(parts: seq<string>, sep: char)
    requires parts != []
    ensures Free(parts, sep) <==> sep !in parts[0] && Free(parts[1..], sep)
  {
    assert forall k :: 0 < k < |parts| ==> parts[k] == parts[1..][k - 1];
  }

  lemma FirstSeparator(a: string, b: string, x: string, y: string, sep: char)
    requires sep !in a && sep !in b && a + [sep] + x == b + [sep] + y
    ensures a == b && x == y
  {
    var s := a + [sep] + x;
    if |a| < |b| {
      SeparatorInside(a, b, x, y, sep);
    } else if |b| < |a| {
      SeparatorInside(b, a, y, x, sep);
    }
    assert s[..|a|] == a && s[..|b|] == b;
    assert s[|a| + 1..] == x && s[|b| + 1..] == y;
  }

  lemma SeparatorInside(a: string, b: string, x: string, y: string, sep: char)
    requires a + [sep] + x == b + [sep] + y && |a| < |b|
    ensures sep in b
  {
    assert b[|a|] == (b + [sep] + y)[|a|] == (a + [sep] + x)[|a|] == sep;
  }

  /** As many parts without the separator: one text, one list. */
  lemma {:induction false} FreeJoinSplits(a: seq<string>, b: seq<string>, sep: char)
    requires |a| == |b| > 0 && Free(a, sep) && Free(b, sep) && Join(a, sep) == Join(b, sep)
    ensures a == b
  {
    if |a| == 1 {
      assert a == [a[0]] && b == [b[0]];
    } else {
      FreeTail(a, sep);
      FreeTail(b, sep);
      FirstSeparator(a[0], b[0], Join(a[1..], sep), Join(b[1..], sep), sep);
      FreeJoinSplits(a[1..], b[1..], sep);
      assert a == [a[0]] + a[1..] && b == [b[0]] + b[1..];
    }
  }

  /** It is enough that one of the lists is free of the separator: a second list with
      the same text has no room for another one. */
  lemma JoinSplits(a: seq<string>, b: seq<string>, sep: char)
    requires |a| == |b| > 0 && Free(a, sep) && Join(a, sep) == Join(b, sep)
    ensures a == b
  {
    JoinSeps(a, sep);
    JoinSeps(b, sep);
    FreeJoinSplits(a, b, sep);
  }

  /** Names: not empty, and without the separator. */
  predicate AreNames(parts: seq<string>, sep: char) { Free(parts, sep) && "" !in parts }

  /** Among lists of names of any length, one text belongs to one list. */
  lemma NamesJoinApart(a: seq<string>, b: seq<string>, sep: char)
    requires AreNames(a, sep) && AreNames(b, sep)
    ensures Join(a, sep) == Join(b, sep) <==> a == b
  {
    JoinIsEmpty(a, sep);
    JoinIsEmpty(b, sep);
    if Join(a, sep) == Join(b, sep) && a != [] {
      JoinSeps(a, sep);
      JoinSeps(b, sep);
      FreeJoinSplits(a, b, sep);
    }
  }

  lemma JoinIsEmpty(a: seq<string>, sep: char)
    requires "" !in a
    ensures Join(a, sep) == "" <==> a == []
  {
    if a != [] {
      assert a[0] in a;
    }
  }

  /** Where a text contains the separator it can be cut there. */
  lemma CutAt(s: string, sep: char) returns (x: string, y: string)
    requires sep in s
    ensures s == x + [sep] + y
  {
    var i :| 0 <= i < |s| && s[i] == sep;
    x, y := s[..i], s[i + 1..];
  }

  /** Among all lists, only a single name has its text to itself: of anything else there
      is another list with the same text. */
  lemma JoinIsShared(parts: seq<string>, sep: char) returns (other: seq<string>)
    requires !(|parts| == 1 && AreNames(parts, sep))
    ensures other != parts && Join(other, sep) == Join(parts, sep)
  {
    if parts == [] {
      other := [""];
    } else if |parts| > 1 {
      other := [Join(parts, sep)];
    } else if parts[0] == "" {
      other := [];
    } else {
      var x, y := CutAt(parts[0], sep);
      other := [x, y];
      assert [x, y][1..] == [y];
    }
  }

  lemma SingleNameIsAlone(parts: seq<string>, other: seq<string>, sep: char)
    requires |parts| == 1 && AreNames(parts, sep) && Join(other, sep) == Join(parts, sep)
    ensures other == parts
  {
    assert parts[0] in parts && parts == [parts[0]];
    JoinSeps(parts, sep);
    if other != [] {
      JoinSeps(other, sep);
      assert other == [other[0]];
    }
  }

  lemma JoinCons(head: string, tail: seq<string>, sep: char)
    requires tail != []
    ensures Join([head] + tail, sep) == head + [sep] + Join(tail, sep)
  {
    assert ([head] + tail)[1..] == tail;
  }

  /** A separator inside a part can just as well be the one after it... */
  lemma {:induction false} ShiftRight(parts: seq<string>, k: nat, x: string, y: string, sep: char)
    requires k + 1 < |parts| && parts[k] == x + [sep] + y
    ensures Join(parts, sep) == Join(parts[k := x][k + 1 := y + [sep] + parts[k + 1]], sep)
  {
    var moved := parts[k := x][k + 1 := y + [sep] + parts[k + 1]];
    assert parts == [parts[0]] + parts[1..] && moved == [moved[0]] + moved[1..];
    JoinCons(parts[0], parts[1..], sep);
    JoinCons(moved[0], moved[1..], sep);
    if k == 0 {
      ShiftFirst(x, y, parts[1..], sep);
      assert moved[1..] == [y + [sep] + parts[1]] + parts[2..];
    } else {
      ShiftRight(parts[1..], k - 1, x, y, sep);
      assert moved[1..] == parts[1..][k - 1 := x][k := y + [sep] + parts[k + 1]];
    }
  }

  lemma ShiftFirst(x: string, y: string, rest: seq<string>, sep: char)
    requires rest != []
    ensures x + [sep] + y + [sep] + Join(rest, sep) == x + [sep] + Join([y + [sep] + rest[0]] + rest[1..], sep)
  {
    assert rest == [rest[0]] + rest[1..];
    if |rest| == 1 {
      assert [y + [sep] + rest[0]] + rest[1..] == [y + [sep] + rest[0]];
    } else {
      JoinCons(rest[0], rest[1..], sep);
      JoinCons(y + [sep] + rest[0], rest[1..], sep);
    }
  }

  /** ... or the one before it. */
  lemma ShiftLeft(parts: seq<string>, k: nat, x: string, y: string, sep: char)
    requires 0 < k < |parts| && parts[k] == x + [sep] + y
    ensures Join(parts, sep) == Join(parts[k - 1 := parts[k - 1] + [sep] + x][k := y], sep)
  {
    var moved := parts[k - 1 := parts[k - 1] + [sep] + x][k := y];
    ShiftRight(moved, k - 1, parts[k - 1], x, sep);
    assert moved[k - 1 := parts[k - 1]][k := x + [sep] + moved[k]] == parts;
  }
}
