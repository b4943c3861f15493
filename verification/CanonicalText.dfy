/** Canonical JSON strings, and the key order of the canonical form.

    Characters are Unicode scalar values; the UTF-8 bytes of the output are not
    modelled, only its characters. */
module CanonicalText {

  // ---- the order of UTF-16 code units (section 3.2.3 of RFC 8785) ----

  function Units(c: char): (u: seq<nat>)
    ensures |u| == 1 || |u| == 2
  {
    var n := c as int;
    if n < 0x1_0000 then [n]
    else [0xD800 + (n - 0x1_0000) / 0x400, 0xDC00 + (n - 0x1_0000) % 0x400]
  }

  function Utf16(s: string): seq<nat> {
    if s == "" then [] else Units(s[0]) + Utf16(s[1..])
  }

  predicate LexLess(a: seq<nat>, b: seq<nat>) {
    b != [] && (a == [] || a[0] < b[0] || (a[0] == b[0] && LexLess(a[1..], b[1..])))
  }

  predicate Before(a: string, b: string) { LexLess(Utf16(a), Utf16(b)) }

  lemma {:induction false} LexSkip(a: seq<nat>, b: seq<nat>, k: nat)
    requires k <= |a| && k <= |b| && a[..k] == b[..k]
    ensures LexLess(a, b) <==> LexLess(a[k..], b[k..])
  {
    if k > 0 {
      assert a[0] == a[..k][0] == b[..k][0] == b[0];
      assert a[1..][..k - 1] == a[..k][1..] && b[1..][..k - 1] == b[..k][1..];
      LexSkip(a[1..], b[1..], k - 1);
      assert a[1..][k - 1..] == a[k..] && b[1..][k - 1..] == b[k..];
    }
  }

  /** The comparison loop of utf16Less. */
  method Utf16Less(first: string, second: string) returns (less: bool)
    ensures less == Before(first, second)
    ensures less <==> UnitsComeFirst(first, second)
  {
    BeforeByUnits(first, second);
    var a, b := Utf16(first), Utf16(second);
    var index := 0;
    while index < |a| && index < |b|
      invariant index <= |a| && index <= |b| && a[..index] == b[..index]
    {
      LexSkip(a, b, index);
      if a[index] != b[index] {
        return a[index] < b[index];
      }
      index := index + 1;
    }
    LexSkip(a, b, index);
    return |a| < |b|;
  }

  lemma {:induction false} LexTrans(a: seq<nat>, b: seq<nat>, c: seq<nat>)
    requires LexLess(a, b) && LexLess(b, c)
    ensures LexLess(a, c)
  {
    if a != [] && a[0] == b[0] && b[0] == c[0] {
      LexTrans(a[1..], b[1..], c[1..]);
    }
  }

  lemma {:induction false} LexTotal(a: seq<nat>, b: seq<nat>)
    ensures LexLess(a, b) || LexLess(b, a) || a == b
    ensures !(LexLess(a, b) && LexLess(b, a)) && !LexLess(a, a)
  {
    if a != [] && b != [] && a[0] == b[0] {
      LexTotal(a[1..], b[1..]);
      assert a == [a[0]] + a[1..] && b == [b[0]] + b[1..];
    }
    if a != [] {
      LexTotal(a[1..], a[1..]);
    }
  }

  lemma UnitsIsInjective(c: char, d: char)
    requires Units(c)[0] == Units(d)[0] && (|Units(c)| == 2 && |Units(d)| == 2 ==> Units(c)[1] == Units(d)[1])
    ensures c == d
  {
    var m, n := c as int, d as int;
    if m >= 0x1_0000 && n >= 0x1_0000 {
      assert m - 0x1_0000 == (m - 0x1_0000) / 0x400 * 0x400 + (m - 0x1_0000) % 0x400;
      assert n - 0x1_0000 == (n - 0x1_0000) / 0x400 * 0x400 + (n - 0x1_0000) % 0x400;
      assert m == n;
    }
  }

  lemma {:induction false} Utf16IsInjective(s: string, t: string)
    requires Utf16(s) == Utf16(t)
    ensures s == t
  {
    if s != "" && t != "" {
      var u, v := Utf16(s), Utf16(t);
      assert u[0] == Units(s[0])[0] && v[0] == Units(t[0])[0];
      if |Units(s[0])| == 2 && |Units(t[0])| == 2 {
        assert u[1] == Units(s[0])[1] && v[1] == Units(t[0])[1];
      }
      UnitsIsInjective(s[0], t[0]);
      assert Utf16(s[1..]) == u[|Units(s[0])|..] && Utf16(t[1..]) == v[|Units(t[0])|..];
      Utf16IsInjective(s[1..], t[1..]);
      assert s == [s[0]] + s[1..] && t == [t[0]] + t[1..];
    }
  }

  /** utf16Less is a strict total order on strings. */
  lemma BeforeIsAStrictTotalOrder(a: string, b: string, c: string)
    ensures !Before(a, a)
    ensures Before(a, b) && Before(b, c) ==> Before(a, c)
    ensures a != b <==> Before(a, b) || Before(b, a)
    ensures !(Before(a, b) && Before(b, a))
  {
    LexTotal(Utf16(a), Utf16(b));
    LexTotal(Utf16(a), Utf16(a));
    if Before(a, b) && Before(b, c) {
      LexTrans(Utf16(a), Utf16(b), Utf16(c));
    }
    if Utf16(a) == Utf16(b) {
      Utf16IsInjective(a, b);
    }
  }

  // ---- the order, unit by unit ----

  /** At k the two sequences part: up to there they agree, and then the first ends or has
      the smaller unit. */
  predicate PartsAt(a: seq<nat>, b: seq<nat>, k: nat) {
    k <= |a| && k < |b| && (forall i :: 0 <= i < k ==> a[i] == b[i]) && (k == |a| || a[k] < b[k])
  }

  lemma {:induction false} LexLessParts(a: seq<nat>, b: seq<nat>)
    ensures LexLess(a, b) <==> exists k: nat :: PartsAt(a, b, k)
  {
    if a == [] || b == [] || a[0] != b[0] {
      assert b != [] && (a == [] || a[0] < b[0]) ==> PartsAt(a, b, 0);
    } else {
      LexLessParts(a[1..], b[1..]);
      if LexLess(a, b) {
        var k: nat :| PartsAt(a[1..], b[1..], k);
        assert forall i :: 0 < i <= k ==> a[i] == a[1..][i - 1] && b[i] == b[1..][i - 1];
        assert PartsAt(a, b, k + 1);
      }
      if k: nat :| PartsAt(a, b, k) {
        assert k > 0 && PartsAt(a[1..], b[1..], k - 1);
      }
    }
  }

  ghost predicate UnitsComeFirst(s: string, t: string) { exists k: nat :: PartsAt(Utf16(s), Utf16(t), k) }

  /** A string comes before another exactly when, at the first code unit in which they
      differ, it has the smaller one, or it ends there (section 3.2.3 of RFC 8785). */
  lemma BeforeByUnits(s: string, t: string)
    ensures Before(s, t) <==> UnitsComeFirst(s, t)
  {
    LexLessParts(Utf16(s), Utf16(t));
  }

  /** The code units of a character: itself below 0x10000, and else a high and a low
      surrogate that give its code point back. */
  lemma UnitsOfCharacter(c: char)
    ensures c as int < 0x1_0000 ==> Units(c) == [c as int]
    ensures c as int >= 0x1_0000 ==>
              |Units(c)| == 2 && 0xD800 <= Units(c)[0] < 0xDC00 && 0xDC00 <= Units(c)[1] < 0xE000
              && c as int == 0x1_0000 + 0x400 * (Units(c)[0] - 0xD800) + (Units(c)[1] - 0xDC00)
  {
  }

  lemma UnitsOfText(c: char, s: string)
    ensures Utf16("") == [] && Utf16([c] + s) == Units(c) + Utf16(s)
  {
    assert ([c] + s)[1..] == s;
  }

  // ---- string escapes ----

  const QUOTE := '"'
  const BACKSLASH := '\\'

  function HexDigit(n: nat): char
    requires n < 16
  {
    "0123456789abcdef"[n]
  }

  /** The escape of the encoder, one character at a time (HTML escaping is off). */
  function Escape(c: char): (e: string)
    ensures e != ""
  {
    var n := c as int;
    if c == QUOTE then [BACKSLASH, QUOTE]
    else if c == BACKSLASH then [BACKSLASH, BACKSLASH]
    else if n == 8 then [BACKSLASH, 'b']
    else if n == 12 then [BACKSLASH, 'f']
    else if n == 10 then [BACKSLASH, 'n']
    else if n == 13 then [BACKSLASH, 'r']
    else if n == 9 then [BACKSLASH, 't']
    else if n < 0x20 then [BACKSLASH, 'u', '0', '0', HexDigit(n / 16), HexDigit(n % 16)]
    else if c == Separator(0) then Literal(0)
    else if c == Separator(1) then Literal(1)
    else [c]
  }

  /** LINE SEPARATOR and PARAGRAPH SEPARATOR. */
  function Separator(k: nat): char { if k == 0 then 0x2028 as char else 0x2029 as char }

  /** The six characters of their escape. */
  function Literal(k: nat): (l: string)
    ensures |l| == 6
  {
    [BACKSLASH, 'u', '2', '0', '2', if k == 0 then '8' else '9']
  }

  /** bytes.ReplaceAll of a six-character pattern by one character. */
  function ReplaceAll(t: string, pattern: string, sub: char): string
    requires |pattern| == 6
    decreases |t|
  {
    if |t| < 6 then t
    else if t[..6] == pattern then [sub] + ReplaceAll(t[6..], pattern, sub)
    else [t[0]] + ReplaceAll(t[1..], pattern, sub)
  }

  function EncodeAll(s: string): string {
    if s == "" then "" else Escape(s[0]) + EncodeAll(s[1..])
  }

  /** canonicalJSONString: encode, then put the two separators back as themselves. */
  function CanonicalString(s: string): string {
    var encoded := [QUOTE] + EncodeAll(s) + [QUOTE];
    ReplaceAll(ReplaceAll(encoded, Literal(0), Separator(0)), Literal(1), Separator(1))
  }

  // ---- what the two replacements amount to ----

  predicate StartsWith(s: string, p: string) { |p| <= |s| && s[..|p|] == p }

  /** The encoding after the first k replacements: a separator stands for itself, and
      a literal backslash-u2028 in the source loses its doubled backslash. */
  function Encoded(s: string, k: nat): string
    requires k <= 2
    decreases |s|
  {
    if s == "" then ""
    else if k > 0 && StartsWith(s, Literal(0)) then [BACKSLASH, Separator(0)] + Encoded(s[6..], k)
    else if k > 1 && StartsWith(s, Literal(1)) then [BACKSLASH, Separator(1)] + Encoded(s[6..], k)
    else EscapeAfter(s[0], k) + Encoded(s[1..], k)
  }

  function EscapeAfter(c: char, k: nat): (e: string)
    ensures e != ""
  {
    if (k > 0 && c == Separator(0)) || (k > 1 && c == Separator(1)) then [c] else Escape(c)
  }

  lemma {:induction false} EncodedZero(s: string)
    ensures Encoded(s, 0) == EncodeAll(s)
  {
    if s != "" {
      EncodedZero(s[1..]);
    }
  }

  lemma StartsAt(t: string, p: string)
    ensures StartsWith(t, p) ==> forall i :: 0 <= i < |p| ==> t[i] == p[i]
  {
    assert StartsWith(t, p) ==> forall i :: 0 <= i < |p| ==> t[..|p|][i] == t[i];
  }

  lemma Skip(t: string, pattern: string, sub: char)
    requires |pattern| == 6 && t != "" && !StartsWith(t, pattern)
    ensures ReplaceAll(t, pattern, sub) == [t[0]] + ReplaceAll(t[1..], pattern, sub)
  {
    if |t| < 6 {
      assert t == [t[0]] + t[1..];
    }
  }

  lemma {:induction false} CopyPlain(p: string, t: string, k: nat)
    requires BACKSLASH !in p
    ensures ReplaceAll(p + t, Literal(k), Separator(k)) == p + ReplaceAll(t, Literal(k), Separator(k))
    decreases |p|
  {
    if p == "" {
      assert p + t == t;
    } else {
      assert (p + t)[0] == p[0] != BACKSLASH;
      StartsAt(p + t, Literal(k));
      Skip(p + t, Literal(k), Separator(k));
      assert (p + t)[1..] == p[1..] + t;
      CopyPlain(p[1..], t, k);
    }
  }

  predicate Plain(c: char) {
    Escape(c) == [c] && c != BACKSLASH && c != QUOTE && c != Separator(0) && c != Separator(1)
  }

  /** A plain word heads the encoding exactly when it heads the source. */
  lemma {:induction false} PlainPrefix(x: string, w: string, k: nat)
    requires k <= 2 && forall i :: 0 <= i < |w| ==> Plain(w[i])
    ensures StartsWith(Encoded(x, k) + [QUOTE], w) <==> StartsWith(x, w)
    ensures StartsWith(x, w) ==> Encoded(x, k) == w + Encoded(x[|w|..], k)
    decreases |w|
  {
    var r := Encoded(x, k) + [QUOTE];
    if w == "" {
      assert x[0..] == x;
    } else if x == "" {
      assert r[0] == QUOTE;
    } else if x[0] == w[0] {
      StartsAt(x, Literal(0));
      StartsAt(x, Literal(1));
      PlainPrefix(x[1..], w[1..], k);
      PlainHead(Encoded(x, k), Encoded(x[1..], k), x, w);
      HeadAndTail(x, w);
      if StartsWith(x, w) {
        assert x[1..][|w| - 1..] == x[|w|..];
        PlainTail(Encoded(x, k), Encoded(x[1..], k), w, Encoded(x[|w|..], k));
      }
    } else {
      assert r[0] == x[0] || r[0] == BACKSLASH;
      HeadAndTail(r, w);
      HeadAndTail(x, w);
    }
  }

  /** Two texts with one first character, after which they agree about the word's rest. */
  lemma PlainHead(e: string, e1: string, x: string, w: string)
    requires x != "" && w != "" && x[0] == w[0] && e == [w[0]] + e1
    requires StartsWith(e1 + [QUOTE], w[1..]) <==> StartsWith(x[1..], w[1..])
    ensures StartsWith(e + [QUOTE], w) <==> StartsWith(x, w)
  {
    assert e + [QUOTE] == [w[0]] + (e1 + [QUOTE]);
    assert (e + [QUOTE])[1..] == e1 + [QUOTE];
    HeadAndTail(e + [QUOTE], w);
    HeadAndTail(x, w);
  }

  lemma PlainTail(e: string, e1: string, w: string, rest: string)
    requires w != "" && e == [w[0]] + e1 && e1 == w[1..] + rest
    ensures e == w + rest
  {
    assert w == [w[0]] + w[1..];
  }

  lemma HeadAndTail(s: string, w: string)
    requires s != "" && w != ""
    ensures StartsWith(s, w) <==> s[0] == w[0] && StartsWith(s[1..], w[1..])
  {
    if |w| <= |s| {
      assert s[..|w|] == [s[0]] + s[1..][..|w| - 1];
      assert w == [w[0]] + w[1..];
      assert s[..|w|][1..] == s[1..][..|w| - 1];
    }
  }

  lemma LiteralIsPlain(k: nat)
    ensures forall i :: 1 <= i < 6 ==> Plain(Literal(k)[i])
  {
    assert Literal(k)[1] == 'u' && Literal(k)[2] == '2' && Literal(k)[3] == '0' && Literal(k)[4] == '2';
    assert Literal(k)[5] == '8' || Literal(k)[5] == '9';
  }

  /** A two-character or longer start that differs from the pattern in its second or
      sixth character. */
  lemma NotTheLiteral(t: string, k: nat)
    requires |t| >= 2 && (t[0] != BACKSLASH || t[1] != 'u' || (|t| >= 6 && (t[2] != '2' || t[5] != Literal(k)[5])))
    ensures !StartsWith(t, Literal(k))
  {
    StartsAt(t, Literal(k));
  }

  /** One replacement turns the encoding after k of them into the one after k + 1. */
  lemma {:induction false} ReplacementStep(s: string, k: nat)
    requires k < 2
    ensures ReplaceAll(Encoded(s, k) + [QUOTE], Literal(k), Separator(k)) == Encoded(s, k + 1) + [QUOTE]
    decreases |s|
  {
    if s == "" {
      assert Encoded(s, k) + [QUOTE] == [QUOTE];
    } else if k > 0 && StartsWith(s, Literal(0)) {
      PairStep(s, k);
      ReplacementStep(s[6..], k);
    } else if StartsWith(s, Literal(k)) {
      LiteralStep(s, k);
      ReplacementStep(s[6..], k);
    } else {
      if s[0] == BACKSLASH {
        BackslashStep(s, k);
      } else {
        CharStep(s, k);
      }
      ReplacementStep(s[1..], k);
      assert EscapeAfter(s[0], k + 1) + (Encoded(s[1..], k + 1) + [QUOTE]) == Encoded(s, k + 1) + [QUOTE];
    }
  }

  // The steps of the scan, over whatever follows.

  lemma PairReplace(r: string)
    ensures ReplaceAll([BACKSLASH, Separator(0)] + r, Literal(1), Separator(1))
            == [BACKSLASH, Separator(0)] + ReplaceAll(r, Literal(1), Separator(1))
  {
    var t := [BACKSLASH, Separator(0)] + r;
    NotTheLiteral(t, 1);
    Skip(t, Literal(1), Separator(1));
    assert t[1..] == [Separator(0)] + r;
    CopyPlain([Separator(0)], r, 1);
  }

  lemma Hit(r: string, k: nat)
    ensures ReplaceAll(Literal(k) + r, Literal(k), Separator(k)) ==
            [Separator(k)] + ReplaceAll(r, Literal(k), Separator(k))
  {
    assert (Literal(k) + r)[..6] == Literal(k) && (Literal(k) + r)[6..] == r;
  }

  lemma LiteralReplace(r: string, k: nat)
    ensures ReplaceAll([BACKSLASH] + (Literal(k) + r), Literal(k), Separator(k))
            == [BACKSLASH, Separator(k)] + ReplaceAll(r, Literal(k), Separator(k))
  {
    var t := [BACKSLASH] + (Literal(k) + r);
    NotTheLiteral(t, k);
    Skip(t, Literal(k), Separator(k));
    assert t[1..] == Literal(k) + r;
    Hit(r, k);
  }

  lemma BackslashReplace(r: string, k: nat)
    requires !StartsWith(r, Literal(k)[1..]) && r != ""
    ensures ReplaceAll([BACKSLASH, BACKSLASH] + r, Literal(k), Separator(k))
            == [BACKSLASH, BACKSLASH] + ReplaceAll(r, Literal(k), Separator(k))
  {
    var t, u := [BACKSLASH, BACKSLASH] + r, [BACKSLASH] + r;
    NotTheLiteral(t, k);
    Skip(t, Literal(k), Separator(k));
    assert t[1..] == u && u[1..] == r;
    HeadAndTail(u, Literal(k));
    Skip(u, Literal(k), Separator(k));
  }

  lemma CharReplace(c: char, r: string, k: nat)
    requires k < 2 && c != BACKSLASH
    ensures ReplaceAll(EscapeAfter(c, k) + r, Literal(k), Separator(k))
            == EscapeAfter(c, k + 1) + ReplaceAll(r, Literal(k), Separator(k))
  {
    var e := EscapeAfter(c, k);
    if c == Separator(k) {
      assert e == Literal(k);
      Hit(r, k);
    } else if |e| == 1 {
      assert e == [c];
      CopyPlain(e, r, k);
    } else {
      EscapeIsNotTheLiteral(c, r, k);
      CopyEscape(e, r, k);
    }
  }

  lemma CopyEscape(e: string, r: string, k: nat)
    requires e != "" && !StartsWith(e + r, Literal(k)) && BACKSLASH !in e[1..]
    ensures ReplaceAll(e + r, Literal(k), Separator(k)) == e + ReplaceAll(r, Literal(k), Separator(k))
  {
    var p := e[1..];
    Skip(e + r, Literal(k), Separator(k));
    assert (e + r)[0] == e[0] && (e + r)[1..] == p + r;
    CopyPlain(p, r, k);
    Rejoin(e, ReplaceAll(r, Literal(k), Separator(k)));
  }

  lemma Rejoin(e: string, r: string)
    requires e != ""
    ensures [e[0]] + (e[1..] + r) == e + r
  {
  }

  lemma EscapeIsNotTheLiteral(c: char, r: string, k: nat)
    requires k < 2 && c != BACKSLASH && c != Separator(k) && |EscapeAfter(c, k)| > 1
    ensures !StartsWith(EscapeAfter(c, k) + r, Literal(k)) && BACKSLASH !in EscapeAfter(c, k)[1..]
    ensures EscapeAfter(c, k + 1) == EscapeAfter(c, k)
  {
    NotTheLiteral(EscapeAfter(c, k) + r, k);
  }

  // The same steps, over the encoding.

  lemma PairStep(s: string, k: nat)
    requires k == 1 && StartsWith(s, Literal(0))
    ensures ReplaceAll(Encoded(s, k) + [QUOTE], Literal(k), Separator(k))
            == [BACKSLASH, Separator(0)] + ReplaceAll(Encoded(s[6..], k) + [QUOTE], Literal(k), Separator(k))
  {
    PairReplace(Encoded(s[6..], k) + [QUOTE]);
    assert Encoded(s, k) + [QUOTE] == [BACKSLASH, Separator(0)] + (Encoded(s[6..], k) + [QUOTE]);
  }

  /** A literal backslash-u2028 in the source: the first backslash stays, the second
      one and the five characters after it become the separator. */
  lemma LiteralStep(s: string, k: nat)
    requires k < 2 && StartsWith(s, Literal(k))
    ensures ReplaceAll(Encoded(s, k) + [QUOTE], Literal(k), Separator(k))
            == [BACKSLASH, Separator(k)] + ReplaceAll(Encoded(s[6..], k) + [QUOTE], Literal(k), Separator(k))
  {
    LiteralEncodes(s, k);
    LiteralReplace(Encoded(s[6..], k) + [QUOTE], k);
    assert Encoded(s, k) + [QUOTE] == [BACKSLASH] + (Literal(k) + (Encoded(s[6..], k) + [QUOTE]));
  }

  lemma LiteralEncodes(s: string, k: nat)
    requires k < 2 && StartsWith(s, Literal(k))
    ensures Encoded(s, k) == [BACKSLASH] + (Literal(k) + Encoded(s[6..], k))
  {
    var w := Literal(k)[1..];
    StartsAt(s, Literal(k));
    BackslashEncodes(s, k);
    LiteralIsPlain(k);
    HeadAndTail(s, Literal(k));
    PlainPrefix(s[1..], w, k);
    TailOfTail(s);
    Regroup(w, Encoded(s[6..], k));
    assert Literal(k) == [BACKSLASH] + w;
  }

  lemma Regroup(w: string, r: string)
    ensures [BACKSLASH, BACKSLASH] + (w + r) == [BACKSLASH] + (([BACKSLASH] + w) + r)
  {
  }

  lemma TailOfTail(s: string)
    requires |s| >= 6
    ensures s[1..][5..] == s[6..]
  {
  }

  lemma BackslashEncodes(s: string, k: nat)
    requires k < 2 && s != "" && s[0] == BACKSLASH &&
            !(k > 0 && StartsWith(s, Literal(0)) && !StartsWith(s, Literal(k)))
    ensures Encoded(s, k) == [BACKSLASH, BACKSLASH] + Encoded(s[1..], k)
  {
    StartsAt(s, Literal(k));
    StartsAt(s, Literal(0));
  }

  lemma BackslashStep(s: string, k: nat)
    requires k < 2 && s != "" && s[0] == BACKSLASH && !StartsWith(s, Literal(k)) &&
            !(k > 0 && StartsWith(s, Literal(0)))
    ensures ReplaceAll(Encoded(s, k) + [QUOTE], Literal(k), Separator(k))
            == EscapeAfter(s[0], k + 1) + ReplaceAll(Encoded(s[1..], k) + [QUOTE], Literal(k), Separator(k))
  {
    var r := Encoded(s[1..], k) + [QUOTE];
    LiteralIsPlain(k);
    PlainPrefix(s[1..], Literal(k)[1..], k);
    HeadAndTail(s, Literal(k));
    BackslashReplace(r, k);
    assert Encoded(s, k) + [QUOTE] == [BACKSLASH, BACKSLASH] + r;
  }

  lemma CharStep(s: string, k: nat)
    requires k < 2 && s != "" && s[0] != BACKSLASH
    ensures ReplaceAll(Encoded(s, k) + [QUOTE], Literal(k), Separator(k))
            == EscapeAfter(s[0], k + 1) + ReplaceAll(Encoded(s[1..], k) + [QUOTE], Literal(k), Separator(k))
  {
    CharReplace(s[0], Encoded(s[1..], k) + [QUOTE], k);
    StartsAt(s, Literal(0));
    StartsAt(s, Literal(1));
    assert Encoded(s, k) + [QUOTE] == EscapeAfter(s[0], k) + (Encoded(s[1..], k) + [QUOTE]);
  }

  /** Both replacements together. */
  lemma CanonicalStringIsEncoded(s: string)
    ensures CanonicalString(s) == [QUOTE] + Encoded(s, 2) + [QUOTE]
  {
    EncodedZero(s);
    var body := EncodeAll(s) + [QUOTE];
    assert [QUOTE] + EncodeAll(s) + [QUOTE] == [QUOTE] + body;
    CopyPlain([QUOTE], body, 0);
    ReplacementStep(s, 0);
    CopyPlain([QUOTE], Encoded(s, 1) + [QUOTE], 1);
    ReplacementStep(s, 1);
    assert [QUOTE] + (Encoded(s, 2) + [QUOTE]) == [QUOTE] + Encoded(s, 2) + [QUOTE];
  }

  // ---- the form of section 3.2.2.2 of RFC 8785 ----

  /** Two-character escapes where JSON has one, lower-case hexadecimal for the other
      control characters, everything else as itself. */
  function RfcEscape(c: char): (e: string)
    ensures e != ""
  {
    var n := c as int;
    if c == QUOTE || c == BACKSLASH then [BACKSLASH, c]
    else if n == 8 then [BACKSLASH, 'b']
    else if n == 9 then [BACKSLASH, 't']
    else if n == 10 then [BACKSLASH, 'n']
    else if n == 12 then [BACKSLASH, 'f']
    else if n == 13 then [BACKSLASH, 'r']
    else if n < 0x20 then [BACKSLASH, 'u', '0', '0', HexDigit(n / 16), HexDigit(n % 16)]
    else [c]
  }

  /** Section 3.2.2.2 of RFC 8785: five control characters have short escapes, the others
      lower-case hexadecimal ones; quote and backslash are escaped, all else stands as it is. */
  lemma EscapesAreStandard(c: char)
    ensures var n := c as int;
            RfcEscape(c) ==
            if n == 8 then "\\b" else if n == 9 then "\\t" else if n == 10 then "\\n" else if n == 12 then "\\f"
            else if n == 13 then "\\r"
            else if n < 32 then "\\u00" + [if n < 16 then '0' else '1', "0123456789abcdef"[n % 16]]
            else if n == 34 then "\\\"" else if n == 92 then "\\\\" else [c]
  {
  }

  function RfcBody(s: string): string { if s == "" then "" else RfcEscape(s[0]) + RfcBody(s[1..]) }

  function RfcString(s: string): string { [QUOTE] + RfcBody(s) + [QUOTE] }

  lemma SameEscape(c: char)
    ensures EscapeAfter(c, 2) == RfcEscape(c)
  {
  }

  lemma PartIsWritten(s: string, head: string, k: nat)
    requires k <= |s| && Encoded(s, 2) == head + Encoded(s[k..], 2)
    ensures CanonicalString(s) == [QUOTE] + head + CanonicalString(s[k..])[1..]
  {
    CanonicalStringIsEncoded(s);
    CanonicalStringIsEncoded(s[k..]);
    Requoted(head, Encoded(s[k..], 2));
  }

  lemma Requoted(head: string, rest: string)
    ensures [QUOTE] + (head + rest) + [QUOTE] == [QUOTE] + head + ([QUOTE] + rest + [QUOTE])[1..]
  {
    assert ([QUOTE] + rest + [QUOTE])[1..] == rest + [QUOTE];
  }

  /** canonicalJSONString, read off the string from left to right: a literal backslash-u2028
      or -u2029 becomes a backslash and the separator itself, and any other character is
      written as RFC 8785 says. */
  lemma CanonicalStringByParts(s: string)
    ensures s == "" ==> CanonicalString(s) == "\"\""
    ensures s != "" ==>
            CanonicalString(s) ==
            if StartsWith(s, "\\u2028") then ['"', '\\', 0x2028 as char] + CanonicalString(s[6..])[1..]
            else if StartsWith(s, "\\u2029") then ['"', '\\', 0x2029 as char] + CanonicalString(s[6..])[1..]
            else ['"'] + RfcEscape(s[0]) + CanonicalString(s[1..])[1..]
  {
    assert Literal(0) == "\\u2028" && Literal(1) == "\\u2029";
    if s == "" {
      CanonicalStringIsEncoded(s);
    } else if StartsWith(s, Literal(0)) {
      PartIsWritten(s, [BACKSLASH, Separator(0)], 6);
    } else if StartsWith(s, Literal(1)) {
      PartIsWritten(s, [BACKSLASH, Separator(1)], 6);
    } else {
      SameEscape(s[0]);
      PartIsWritten(s, RfcEscape(s[0]), 1);
    }
  }

  /** The six characters of an escaped separator occur in the string itself. */
  predicate HasLiteral(s: string) {
    exists i :: 0 <= i < |s| && (StartsWith(s[i..], Literal(0)) || StartsWith(s[i..], Literal(1)))
  }

  lemma LiteralSomewhere(s: string)
    requires s != ""
    ensures HasLiteral(s) <==> StartsWith(s, Literal(0)) || StartsWith(s, Literal(1)) || HasLiteral(s[1..])
  {
    assert s[0..] == s;
    if HasLiteral(s) {
      var i :| 0 <= i < |s| && (StartsWith(s[i..], Literal(0)) || StartsWith(s[i..], Literal(1)));
      if i > 0 {
        assert s[1..][i - 1..] == s[i..];
        assert i - 1 < |s[1..]|;
      }
    }
    if HasLiteral(s[1..]) {
      var i :| 0 <= i < |s[1..]| && (StartsWith(s[1..][i..], Literal(0)) || StartsWith(s[1..][i..], Literal(1)));
      assert s[1..][i..] == s[i + 1..];
    }
  }

  lemma {:induction false} RfcBodyIsLonger(s: string)
    ensures |RfcBody(s)| >= |s|
  {
    if s != "" {
      RfcBodyIsLonger(s[1..]);
    }
  }

  lemma {:induction false} RfcBodyAppend(s: string, t: string)
    ensures RfcBody(s + t) == RfcBody(s) + RfcBody(t)
  {
    if s == "" {
      assert s + t == t;
    } else {
      assert (s + t)[1..] == s[1..] + t;
      RfcBodyAppend(s[1..], t);
    }
  }

  lemma {:induction false} EncodedIsShorterByLiterals(s: string)
    ensures |Encoded(s, 2)| <= |RfcBody(s)|
    ensures !HasLiteral(s) ==> Encoded(s, 2) == RfcBody(s)
    ensures HasLiteral(s) ==> |Encoded(s, 2)| < |RfcBody(s)|
    decreases |s|
  {
    if s != "" {
      LiteralSomewhere(s);
      if StartsWith(s, Literal(0)) || StartsWith(s, Literal(1)) {
        EncodedIsShorterByLiterals(s[6..]);
        assert s == s[..6] + s[6..];
        RfcBodyAppend(s[..6], s[6..]);
        RfcBodyIsLonger(s[..6]);
      } else {
        EncodedIsShorterByLiterals(s[1..]);
        assert EscapeAfter(s[0], 2) == RfcEscape(s[0]);
      }
    }
  }

  /** canonicalJSONString produces the RFC 8785 string exactly when the text does not
      itself contain a backslash followed by u2028 or u2029. */
  lemma CanonicalStringIsRfcUnlessLiteral(s: string)
    ensures CanonicalString(s) == RfcString(s) <==> !HasLiteral(s)
  {
    CanonicalStringIsEncoded(s);
    EncodedIsShorterByLiterals(s);
  }

  // ---- distinct strings stay distinct, all the same ----

  /** What the first token of the encoding stands for. */
  function Taken(s: string): nat
    requires s != ""
  {
    if StartsWith(s, Literal(0)) || StartsWith(s, Literal(1)) then 6 else 1
  }

  function Token(s: string): string
    requires s != ""
  {
    if StartsWith(s, Literal(0)) then [BACKSLASH, Separator(0)]
    else if StartsWith(s, Literal(1)) then [BACKSLASH, Separator(1)]
    else EscapeAfter(s[0], 2)
  }

  lemma EncodedByToken(s: string)
    requires s != ""
    ensures Taken(s) <= |s| && Encoded(s, 2) == Token(s) + Encoded(s[Taken(s)..], 2)
  {
  }

  lemma TokenFirst(s: string, x: string)
    requires s != ""
    ensures Taken(s) <= |s| && Encoded(s, 2) + x == Token(s) + (Encoded(s[Taken(s)..], 2) + x)
  {
    EncodedByToken(s);
    Associate(Token(s), Encoded(s[Taken(s)..], 2), x);
  }

  lemma Associate(a: string, b: string, c: string)
    ensures a + b + c == a + (b + c)
  {
  }

  lemma HexIsInjective(m: nat, n: nat)
    requires m < 256 && n < 256 && HexDigit(m / 16) == HexDigit(n / 16) && HexDigit(m % 16) == HexDigit(n % 16)
    ensures m == n
  {
    DigitIsInjective(m / 16, n / 16);
    DigitIsInjective(m % 16, n % 16);
  }

  lemma DigitIsInjective(m: nat, n: nat)
    requires m < 16 && n < 16 && HexDigit(m) == HexDigit(n)
    ensures m == n
  {
    assert forall i :: 0 <= i < 10 ==> HexDigit(i) as int == 48 + i;
    assert forall i :: 10 <= i < 16 ==> HexDigit(i) as int == 87 + i;
  }

  /** The first two characters of an escape tell how long it is. */
  lemma EscapeWidth(c: char)
    ensures var u := EscapeAfter(c, 2);
            (u[0] != BACKSLASH ==> u == [c]) &&
            (u[0] == BACKSLASH ==> |u| >= 2 && |u| == if u[1] == 'u' then 6 else 2) &&
            (|u| == 6 ==> (c as int) < 0x20 && u[4] == HexDigit(c as int / 16) && u[5] == HexDigit(c as int % 16))
  {
  }

  lemma EqualEscapes(c: char, d: char)
    requires EscapeAfter(c, 2) == EscapeAfter(d, 2)
    ensures c == d
  {
    EscapeWidth(c);
    EscapeWidth(d);
    if |EscapeAfter(c, 2)| == 6 {
      HexIsInjective(c as int, d as int);
    }
  }

  lemma EqualHeads(u: string, v: string, x: string, y: string, k: nat)
    requires u + x == v + y && k < |u| && k < |v|
    ensures u[k] == v[k]
  {
    assert (u + x)[k] == u[k] && (v + y)[k] == v[k];
  }

  lemma EqualWidths(u: string, v: string, x: string, y: string)
    requires u + x == v + y && |u| == |v|
    ensures u == v && x == y
  {
    assert u == (u + x)[..|u|] && v == (v + y)[..|v|];
    assert x == (u + x)[|u|..] && y == (v + y)[|v|..];
  }

  /** Escapes are prefix-free: two that head the same text are equal and stand for the
      same character. */
  lemma EscapesArePrefixFree(c: char, d: char, x: string, y: string)
    requires EscapeAfter(c, 2) + x == EscapeAfter(d, 2) + y
    ensures c == d && x == y
  {
    var u, v := EscapeAfter(c, 2), EscapeAfter(d, 2);
    EscapeWidth(c);
    EscapeWidth(d);
    EqualHeads(u, v, x, y, 0);
    if u[0] == BACKSLASH {
      EqualHeads(u, v, x, y, 1);
    }
    EqualWidths(u, v, x, y);
    EqualEscapes(c, d);
  }

  lemma PairIsNoEscape(c: char, k: nat, x: string, y: string)
    requires k < 2
    ensures EscapeAfter(c, 2) + x != [BACKSLASH, Separator(k)] + y
  {
    var u := EscapeAfter(c, 2);
    if |u| >= 2 {
      assert (u + x)[1] == u[1] != Separator(k);
    } else {
      assert (u + x)[0] == u[0] != BACKSLASH;
    }
    assert ([BACKSLASH, Separator(k)] + y)[0] == BACKSLASH && ([BACKSLASH, Separator(k)] + y)[1] == Separator(k);
  }

  lemma TokensAreUnique(s: string, t: string, x: string, y: string)
    requires s != "" && t != "" && Token(s) + x == Token(t) + y
    ensures x == y && Taken(s) == Taken(t) && s[..Taken(s)] == t[..Taken(t)]
  {
    var sp := StartsWith(s, Literal(0)) || StartsWith(s, Literal(1));
    var tp := StartsWith(t, Literal(0)) || StartsWith(t, Literal(1));
    if !sp && !tp {
      EscapesArePrefixFree(s[0], t[0], x, y);
    } else if sp && tp {
      assert (Token(s) + x)[1] == Token(s)[1] && (Token(t) + y)[1] == Token(t)[1];
      assert x == (Token(s) + x)[2..] && y == (Token(t) + y)[2..];
    } else if sp {
      PairIsNoEscape(t[0], if StartsWith(s, Literal(0)) then 0 else 1, y, x);
    } else {
      PairIsNoEscape(s[0], if StartsWith(t, Literal(0)) then 0 else 1, x, y);
    }
  }

  lemma TokenIsNoQuote(s: string, x: string)
    requires s != ""
    ensures Token(s) != "" && (Token(s) + x)[0] != QUOTE
  {
  }

  lemma {:induction false} EncodedIsPrefixFree(s: string, t: string, x: string, y: string)
    requires Encoded(s, 2) + ([QUOTE] + x) == Encoded(t, 2) + ([QUOTE] + y)
    ensures s == t && x == y
    decreases |s|
  {
    if s == "" && t == "" {
      assert x == ([QUOTE] + x)[1..] && y == ([QUOTE] + y)[1..];
      assert Encoded(s, 2) + ([QUOTE] + x) == [QUOTE] + x && Encoded(t, 2) + ([QUOTE] + y) == [QUOTE] + y;
    } else if s == "" {
      EncodedByToken(t);
      EmptyMeetsToken(t, x, y);
    } else if t == "" {
      EncodedByToken(s);
      EmptyMeetsToken(s, y, x);
    } else {
      TokenFirst(s, [QUOTE] + x);
      TokenFirst(t, [QUOTE] + y);
      var s', t' := s[Taken(s)..], t[Taken(t)..];
      TokensAreUnique(s, t, Encoded(s', 2) + ([QUOTE] + x), Encoded(t', 2) + ([QUOTE] + y));
      EncodedIsPrefixFree(s', t', x, y);
      assert s == s[..Taken(s)] + s' && t == t[..Taken(t)] + t';
    }
  }

  lemma EmptyMeetsToken(t: string, x: string, y: string)
    requires t != "" && Encoded(t, 2) == Token(t) + Encoded(t[Taken(t)..], 2)
    ensures Encoded("", 2) + ([QUOTE] + x) != Encoded(t, 2) + ([QUOTE] + y)
  {
    TokenIsNoQuote(t, Encoded(t[Taken(t)..], 2) + ([QUOTE] + y));
    assert Encoded(t, 2) + ([QUOTE] + y) == Token(t) + (Encoded(t[Taken(t)..], 2) + ([QUOTE] + y));
    assert (Encoded("", 2) + ([QUOTE] + x))[0] == QUOTE;
  }

  /** canonicalJSONString is injective on all strings, and where it ends in a longer
      text is determined by the text. */
  lemma CanonicalStringIsPrefixFree(s: string, t: string, x: string, y: string)
    requires CanonicalString(s) + x == CanonicalString(t) + y
    ensures s == t && x == y
  {
    CanonicalStringIsEncoded(s);
    CanonicalStringIsEncoded(t);
    assert CanonicalString(s) + x == [QUOTE] + (Encoded(s, 2) + ([QUOTE] + x));
    assert CanonicalString(t) + y == [QUOTE] + (Encoded(t, 2) + ([QUOTE] + y));
    assert (CanonicalString(s) + x)[1..] == Encoded(s, 2) + ([QUOTE] + x);
    assert (CanonicalString(t) + y)[1..] == Encoded(t, 2) + ([QUOTE] + y);
    EncodedIsPrefixFree(s, t, x, y);
  }
}
