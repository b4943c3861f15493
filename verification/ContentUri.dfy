/** The URI of an artifact's content: url.QueryEscape of the result id, and a pointer
    into the result as its fragment. */
module ContentUri {
  import opened JoinedText
  import opened JsonPointer
  import opened Wrappers

  /** A Go string is its UTF-8 bytes, and QueryEscape works on them. */
  type Byte = b: int | 0 <= b < 256

  predicate Unreserved(b: Byte) {
    'a' as int <= b <= 'z' as int || 'A' as int <= b <= 'Z' as int || '0' as int <= b <= '9' as int
    || b == '-' as int || b == '_' as int || b == '.' as int || b == '~' as int
  }

  const SPACE: Byte := 32

  function HexDigit(d: int): (c: char)
    requires 0 <= d < 16
  {
    (if d < 10 then '0' as int + d else 'A' as int + d - 10) as char
  }

  function EscapeByte(b: Byte): string {
    if b == SPACE then "+" else if Unreserved(b) then [b as char] else ['%', HexDigit(b / 16), HexDigit(b % 16)]
  }

  function QueryEscape(bytes: seq<Byte>): string {
    if bytes == [] then "" else EscapeByte(bytes[0]) + QueryEscape(bytes[1..])
  }

  lemma ByteHasNoHash(b: Byte)
    ensures '#' !in EscapeByte(b)
  {
  }

  lemma {:induction false} QueryHasNoHash(bytes: seq<Byte>)
    ensures '#' !in QueryEscape(bytes)
  {
    if bytes != [] {
      ByteHasNoHash(bytes[0]);
      QueryHasNoHash(bytes[1..]);
    }
  }

  lemma HexIsInjective(d: int, e: int)
    requires 0 <= d < 16 && 0 <= e < 16 && HexDigit(d) == HexDigit(e)
    ensures d == e
  {
  }

  /** The escapes of two bytes that start one text are those of one byte. */
  lemma FirstByte(a: Byte, b: Byte, x: string, y: string)
    requires EscapeByte(a) + x == EscapeByte(b) + y
    ensures a == b && x == y
  {
    var t := EscapeByte(a) + x;
    assert t[0] == EscapeByte(a)[0] == EscapeByte(b)[0];
    if t[0] == '%' {
      assert t[1] == EscapeByte(a)[1] == EscapeByte(b)[1] && t[2] == EscapeByte(a)[2] == EscapeByte(b)[2];
      HexIsInjective(a / 16, b / 16);
      HexIsInjective(a % 16, b % 16);
    }
    assert a == b;
    assert t[|EscapeByte(a)|..] == x && t[|EscapeByte(b)|..] == y;
  }

  lemma {:induction false} QueryEscapeIsInjective(p: seq<Byte>, q: seq<Byte>)
    ensures QueryEscape(p) == QueryEscape(q) <==> p == q
  {
    if QueryEscape(p) == QueryEscape(q) && p != [] && q != [] {
      FirstByte(p[0], q[0], QueryEscape(p[1..]), QueryEscape(q[1..]));
      QueryEscapeIsInjective(p[1..], q[1..]);
      assert p == [p[0]] + p[1..] && q == [q[0]] + q[1..];
    }
  }

  // ---- reading it back ----

  function HexValue(c: char): Option<nat> {
    if '0' <= c <= '9' then Some(c as int - '0' as int)
    else if 'A' <= c <= 'F' then Some(c as int - 'A' as int + 10)
    else None
  }

  function Prepend(b: Byte, rest: Option<seq<Byte>>): Option<seq<Byte>> {
    if rest.Some? then Some([b] + rest.value) else None
  }

  /** The bytes of a query component: a plus is a space, a per cent sign is followed by two
      upper-case hexadecimal digits, and letters, digits and four marks stand for themselves. */
  function ReadQuery(t: string): Option<seq<Byte>>
    decreases |t|
  {
    if t == "" then Some([])
    else if t[0] == '+' then Prepend(32, ReadQuery(t[1..]))
    else if t[0] == '%' then
      if |t| < 3 || HexValue(t[1]).None? || HexValue(t[2]).None? then None
      else Prepend(HexValue(t[1]).value * 16 + HexValue(t[2]).value, ReadQuery(t[3..]))
    else if 'a' <= t[0] <= 'z' || 'A' <= t[0] <= 'Z' || '0' <= t[0] <= '9' || t[0] in {'-', '_', '.', '~'} then
      Prepend(t[0] as int, ReadQuery(t[1..]))
    else None
  }

  lemma ByteReads(b: Byte, x: string)
    ensures ReadQuery(EscapeByte(b) + x) == Prepend(b, ReadQuery(x))
    ensures |EscapeByte(b)| == 1 <==> b == 32 || Unreserved(b)
  {
    var t := EscapeByte(b) + x;
    assert t[|EscapeByte(b)|..] == x && t[0] == EscapeByte(b)[0];
    if b != SPACE && !Unreserved(b) {
      assert t[1] == HexDigit(b / 16) && t[2] == HexDigit(b % 16);
      assert HexValue(t[1]) == Some(b / 16) && HexValue(t[2]) == Some(b % 16);
      assert b / 16 * 16 + b % 16 == b;
    }
  }

  /** The escaped text reads back as the bytes, and is as short as the form allows. */
  lemma {:induction false} QueryEscapeReads(bytes: seq<Byte>)
    ensures ReadQuery(QueryEscape(bytes)) == Some(bytes)
  {
    if bytes != [] {
      ByteReads(bytes[0], QueryEscape(bytes[1..]));
      QueryEscapeReads(bytes[1..]);
      assert bytes == [bytes[0]] + bytes[1..];
    }
  }

  /** A byte is written as one character exactly when it is a space, a letter, a digit or
      one of four marks. */
  lemma ShortBytes(b: Byte)
    ensures |QueryEscape([b])| == 1 <==>
            b == 32 || 'a' as int <= b <= 'z' as int || 'A' as int <= b <= 'Z' as int
            || '0' as int <= b <= '9' as int || b in {45, 46, 95, 126}
  {
    assert [b][1..] == [] && QueryEscape([]) == "";
    assert QueryEscape([b]) == EscapeByte(b);
  }

  // ---- the URI ----

  const SCHEME: string := "janus-result-internal:"
  const CONTENTS: string := "candidate_artifact_contents"

  /** The URI validCandidateContentURI expects. */
  function ContentUri(result: seq<Byte>, artifact: string): string {
    SCHEME + QueryEscape(result) + ['#'] + ContentPointer(artifact)
  }

  function ContentPointer(artifact: string): string { [SLASH] + CONTENTS + ([SLASH] + Escape(artifact)) }

  lemma {:induction false} PlainEscape(s: string)
    requires TILDE !in s && SLASH !in s
    ensures Escape(s) == s
  {
    if s != "" {
      EscapeHead(s);
      PlainEscape(s[1..]);
      assert s == [s[0]] + s[1..];
    }
  }

  /** The fragment is the pointer to the artifact's entry among the contents. */
  lemma ContentPointerIsThePointer(artifact: string)
    ensures ContentPointer(artifact) == PointerTo([CONTENTS, artifact])
  {
    PlainEscape(CONTENTS);
    var path := [CONTENTS, artifact];
    assert path[1..] == [artifact] && [artifact][1..] == [];
    assert PointerTo([artifact]) == [SLASH] + Escape(artifact);
  }

  /** The URI, written out. */
  lemma ContentUriReads(result: seq<Byte>, artifact: string)
    ensures ContentUri(result, artifact)
            == "janus-result-internal:" + QueryEscape(result) + "#" + "/" + "candidate_artifact_contents" + "/"
               + Escape(artifact)
  {
    Rebracket(SCHEME + QueryEscape(result), CONTENTS, Escape(artifact));
  }

  lemma Rebracket(uri: string, contents: string, name: string)
    ensures uri + ['#'] + ([SLASH] + contents + ([SLASH] + name)) == uri + "#" + "/" + contents + "/" + name
  {
  }

  /** One URI serves one artifact of one result. */
  lemma ContentUrisAreInjective(r: seq<Byte>, q: seq<Byte>, a: string, b: string)
    ensures ContentUri(r, a) == ContentUri(q, b) <==> r == q && a == b
  {
    if ContentUri(r, a) == ContentUri(q, b) {
      var x, y := QueryEscape(r), QueryEscape(q);
      QueryHasNoHash(r);
      QueryHasNoHash(q);
      assert '#' !in SCHEME;
      FirstSeparator(SCHEME + x, SCHEME + y, ContentPointer(a), ContentPointer(b), '#');
      assert (SCHEME + x)[|SCHEME|..] == x && (SCHEME + y)[|SCHEME|..] == y;
      QueryEscapeIsInjective(r, q);
      ContentPointerIsThePointer(a);
      ContentPointerIsThePointer(b);
      PointersIdentifyPaths([CONTENTS, a], [CONTENTS, b]);
      assert [CONTENTS, a][1] == a && [CONTENTS, b][1] == b;
    }
  }
}
