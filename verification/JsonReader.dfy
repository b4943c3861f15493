/** A reader of JSON texts, as section 2 of RFC 8259 has them without white space: what it
    makes of what the writer writes. */
module JsonReader {
  import opened Wrappers
  import opened CanonicalText
  import opened CanonicalJson
  import opened JoinedText

  // ---- strings ----

  function HexValue(c: char): Option<nat> {
    if '0' <= c <= '9' then Some(c as int - '0' as int)
    else if 'a' <= c <= 'f' then Some(10 + (c as int - 'a' as int))
    else if 'A' <= c <= 'F' then Some(10 + (c as int - 'A' as int))
    else None
  }

  /** The code of four hexadecimal digits, unless it is half of a surrogate pair: the
      writer never escapes a character that needs two. */
  function FourHex(t: string): Option<nat>
    requires |t| >= 4
  {
    var a, b, c, d := HexValue(t[0]), HexValue(t[1]), HexValue(t[2]), HexValue(t[3]);
    if a.None? || b.None? || c.None? || d.None? then None
    else
      var n := 0x1000 * a.value + 0x100 * b.value + 0x10 * c.value + d.value;
      if n < 0xD800 || 0xE000 <= n < 0x1_0000 then Some(n) else None
  }

  function ShortEscape(c: char): Option<char> {
    match c
    case '"' => Some('"')
    case '\\' => Some('\\')
    case '/' => Some('/')
    case 'b' => Some(8 as char)
    case 'f' => Some(12 as char)
    case 'n' => Some(10 as char)
    case 'r' => Some(13 as char)
    case 't' => Some(9 as char)
    case _ => None
  }

  datatype Chars = Chars(text: string, rest: string)

  function Then(c: char, more: Option<Chars>): Option<Chars> {
    if more.None? then None else Some(Chars([c] + more.value.text, more.value.rest))
  }

  /** The characters up to the closing quotation mark, and what follows it. */
  function ReadChars(t: string): (r: Option<Chars>)
    ensures r.Some? ==> |r.value.rest| < |t|
    decreases |t|
  {
    if t == "" then None
    else if t[0] == QUOTE then Some(Chars("", t[1..]))
    else if t[0] as int < 0x20 then None
    else if t[0] != BACKSLASH then Then(t[0], ReadChars(t[1..]))
    else if |t| < 2 then None
    else if t[1] == 'u' then
      (if |t| < 6 || FourHex(t[2..]).None? then None
       else Then(FourHex(t[2..]).value as char, ReadChars(t[6..])))
    else if ShortEscape(t[1]).None? then None
    else Then(ShortEscape(t[1]).value, ReadChars(t[2..]))
  }

  lemma DigitReads(n: nat)
    requires n < 16
    ensures HexValue(HexDigit(n)) == Some(n)
  {
  }

  /** Whatever follows, one escaped character is read as that character. */
  lemma EscapeReads(c: char, t: string)
    ensures ReadChars(RfcEscape(c) + t) == Then(c, ReadChars(t))
  {
    if |RfcEscape(c)| == 6 {
      HexReads(c, t);
    } else if |RfcEscape(c)| == 2 {
      ShortReads(c, t);
    } else {
      assert ([c] + t)[1..] == t;
    }
  }

  lemma ShortForm(c: char)
    requires |RfcEscape(c)| == 2
    ensures RfcEscape(c)[0] == BACKSLASH && RfcEscape(c)[1] != 'u' && ShortEscape(RfcEscape(c)[1]) == Some(c)
  {
  }

  lemma ShortReads(c: char, t: string)
    requires |RfcEscape(c)| == 2
    ensures ReadChars(RfcEscape(c) + t) == Then(c, ReadChars(t))
  {
    var e := RfcEscape(c);
    var u := e + t;
    ShortForm(c);
    assert u[0] == BACKSLASH && u[1] == e[1] && u[2..] == t;
  }

  lemma HexReads(c: char, t: string)
    requires |RfcEscape(c)| == 6
    ensures ReadChars(RfcEscape(c) + t) == Then(c, ReadChars(t))
  {
    var n := c as int;
    var u := RfcEscape(c) + t;
    DigitReads(n / 16);
    DigitReads(n % 16);
    assert u[2..][0] == '0' && u[2..][1] == '0' && u[2..][2] == HexDigit(n / 16) && u[2..][3] == HexDigit(n % 16);
    assert FourHex(u[2..]) == Some(n);
    assert u[6..] == t;
  }

  lemma {:induction false} BodyReads(s: string, x: string)
    ensures ReadChars(RfcBody(s) + ([QUOTE] + x)) == Some(Chars(s, x))
  {
    if s == "" {
      assert RfcBody(s) + ([QUOTE] + x) == [QUOTE] + x;
      assert ([QUOTE] + x)[1..] == x;
    } else {
      var more := RfcBody(s[1..]) + ([QUOTE] + x);
      assert RfcBody(s) + ([QUOTE] + x) == RfcEscape(s[0]) + more;
      EscapeReads(s[0], more);
      BodyReads(s[1..], x);
      assert s == [s[0]] + s[1..];
    }
  }

  lemma BadEscape(c: char, t: string)
    requires c != 'u' && ShortEscape(c).None?
    ensures ReadChars([BACKSLASH, c] + t) == None
  {
    var u := [BACKSLASH, c] + t;
    assert u[0] == BACKSLASH && u[1] == c;
  }

  lemma LiteralHead(s: string, k: nat, x: string)
    requires k < 2 && StartsWith(s, Literal(k)) && (k == 1 ==> !StartsWith(s, Literal(0)))
    ensures ReadChars(Encoded(s, 2) + x) == None
  {
    var rest := Encoded(s[6..], 2);
    assert Encoded(s, 2) == [BACKSLASH, Separator(k)] + rest;
    assert Encoded(s, 2) + x == [BACKSLASH, Separator(k)] + (rest + x);
    BadEscape(Separator(k), rest + x);
  }

  lemma PlainHead(s: string, x: string)
    requires s != "" && !StartsWith(s, Literal(0)) && !StartsWith(s, Literal(1))
    ensures ReadChars(Encoded(s, 2) + x) == Then(s[0], ReadChars(Encoded(s[1..], 2) + x))
  {
    SameEscape(s[0]);
    var e, rest := RfcEscape(s[0]), Encoded(s[1..], 2);
    assert Encoded(s, 2) == e + rest;
    assert e + rest + x == e + (rest + x);
    EscapeReads(s[0], rest + x);
  }

  /** A literal backslash-u2028 or -u2029 is written as a backslash and a separator, which
      no reader takes. */
  lemma {:induction false} LiteralIsUnreadable(s: string, x: string)
    requires HasLiteral(s)
    ensures ReadChars(Encoded(s, 2) + x) == None
  {
    LiteralSomewhere(s);
    if StartsWith(s, Literal(0)) {
      LiteralHead(s, 0, x);
    } else if StartsWith(s, Literal(1)) {
      LiteralHead(s, 1, x);
    } else {
      LiteralIsUnreadable(s[1..], x);
      PlainHead(s, x);
    }
  }

  function ReadString(t: string): (r: Option<Chars>)
    ensures r.Some? ==> |r.value.rest| < |t|
  {
    if t == "" || t[0] != QUOTE then None else ReadChars(t[1..])
  }

  /** What canonicalJSONString writes is read back as the text it was given, unless that
      contains a literal backslash-u2028 or -u2029: then it is not a JSON string. */
  lemma CanonicalStringReads(s: string, x: string)
    ensures ReadString(CanonicalString(s) + x) == if HasLiteral(s) then None else Some(Chars(s, x))
  {
    CanonicalStringIsEncoded(s);
    var body := Encoded(s, 2) + ([QUOTE] + x);
    assert CanonicalString(s) + x == [QUOTE] + body;
    assert ([QUOTE] + body)[1..] == body;
    if HasLiteral(s) {
      LiteralIsUnreadable(s, [QUOTE] + x);
    } else {
      EncodedIsShorterByLiterals(s);
      BodyReads(s, x);
    }
  }

  // ---- values ----

  datatype Value = Value(json: Json, rest: string)
  datatype Items = Items(items: seq<Json>, rest: string)
  datatype Members = Members(members: map<string, Json>, rest: string)

  /** The longest start of t made of characters of numerals. */
  function NumeralAt(t: string): (n: string)
    ensures |n| <= |t|
  {
    if t == "" || !NumeralChar(t[0]) then "" else [t[0]] + NumeralAt(t[1..])
  }

  function ReadWord(t: string, word: string, v: Json): Option<Value> {
    if StartsWith(t, word) then Some(Value(v, t[|word|..])) else None
  }

  function ReadNumber(t: string): Option<Value> {
    var n := NumeralAt(t);
    if IsNumeral(n) then Some(Value(Num(Some(n)), t[|n|..])) else None
  }

  function ReadText(t: string): Option<Value> {
    var s := ReadString(t);
    if s.None? then None else Some(Value(Str(s.value.text), s.value.rest))
  }

  function ReadValue(t: string): (r: Option<Value>)
    ensures r.Some? ==> |r.value.rest| < |t|
    decreases |t|, 1
  {
    if t == "" then None
    else match t[0]
      case 'n' => ReadWord(t, "null", Null)
      case 't' => ReadWord(t, "true", Bool(true))
      case 'f' => ReadWord(t, "false", Bool(false))
      case '"' => ReadText(t)
      case '[' => ReadArray(t[1..])
      case '{' => ReadObject(t[1..])
      case _ => ReadNumber(t)
  }

  function ReadArray(t: string): (r: Option<Value>)
    ensures r.Some? ==> |r.value.rest| <= |t|
    decreases |t|, 3
  {
    if t != "" && t[0] == ']' then Some(Value(Arr([]), t[1..]))
    else
      var r := ReadItems(t);
      if r.None? then None else Some(Value(Arr(r.value.items), r.value.rest))
  }

  function ReadObject(t: string): (r: Option<Value>)
    ensures r.Some? ==> |r.value.rest| <= |t|
    decreases |t|, 3
  {
    if t != "" && t[0] == '}' then Some(Value(Obj(map[]), t[1..]))
    else
      var r := ReadMembers(t);
      if r.None? then None else Some(Value(Obj(r.value.members), r.value.rest))
  }

  /** Items up to the closing bracket. */
  function ReadItems(t: string): (r: Option<Items>)
    ensures r.Some? ==> |r.value.rest| < |t|
    decreases |t|, 2
  {
    var v := ReadValue(t);
    if v.None? || v.value.rest == "" then None
    else if v.value.rest[0] == ']' then Some(Items([v.value.json], v.value.rest[1..]))
    else if v.value.rest[0] != ',' then None
    else
      var more := ReadItems(v.value.rest[1..]);
      if more.None? then None else Some(Items([v.value.json] + more.value.items, more.value.rest))
  }

  /** Members up to the closing brace; of several under one name the last counts. */
  function ReadMembers(t: string): (r: Option<Members>)
    ensures r.Some? ==> |r.value.rest| < |t|
    decreases |t|, 2
  {
    var k := ReadString(t);
    if k.None? || k.value.rest == "" || k.value.rest[0] != ':' then None
    else
      var v := ReadValue(k.value.rest[1..]);
      if v.None? || v.value.rest == "" then None
      else if v.value.rest[0] == '}' then Some(Members(map[k.value.text := v.value.json], v.value.rest[1..]))
      else if v.value.rest[0] != ',' then None
      else
        var more := ReadMembers(v.value.rest[1..]);
        if more.None? then None
        else Some(Members(map[k.value.text := v.value.json] + more.value.members, more.value.rest))
  }

  // ---- the round trip ----

  lemma {:induction false} NumeralReads(n: string, x: string)
    requires (forall i :: 0 <= i < |n| ==> NumeralChar(n[i])) && Ends(x)
    ensures NumeralAt(n + x) == n
  {
    if n == "" {
      assert n + x == x;
    } else {
      assert (n + x)[1..] == n[1..] + x;
      NumeralReads(n[1..], x);
    }
  }

  lemma NumberReads(n: Numeral, x: string)
    requires Ends(x)
    ensures ReadValue(n + x) == Some(Value(Num(Some(n)), x))
  {
    var t := n + x;
    NumeralReads(n, x);
    assert t[0] == n[0] && t[|n|..] == x;
    assert ReadNumber(t) == Some(Value(Num(Some(n)), x));
  }

  lemma WordReads(word: string, v: Json, x: string)
    ensures ReadWord(word + x, word, v) == Some(Value(v, x))
  {
    assert (word + x)[..|word|] == word && (word + x)[|word|..] == x;
  }

  // Reading, step by step.

  lemma EmptyReads(x: string)
    ensures ReadArray([']'] + x) == Some(Value(Arr([]), x))
    ensures ReadObject(['}'] + x) == Some(Value(Obj(map[]), x))
  {
    assert ([']'] + x)[1..] == x && (['}'] + x)[1..] == x;
  }

  lemma BracketReads(t: string)
    ensures ReadValue(['['] + t) == ReadArray(t)
  {
    assert (['['] + t)[1..] == t;
  }

  lemma BraceReads(t: string)
    ensures ReadValue(['{'] + t) == ReadObject(t)
  {
    assert (['{'] + t)[1..] == t;
  }

  lemma ItemStepReads(t: string, v: Json, rest: string)
    requires rest != "" && ReadValue(t) == Some(Value(v, rest))
    ensures rest[0] == ']' ==> ReadItems(t) == Some(Items([v], rest[1..]))
    ensures rest[0] == ',' ==> ReadItems(t) == var more := ReadItems(rest[1..]);
                                               if more.None? then None
                                               else Some(Items([v] + more.value.items, more.value.rest))
  {
  }

  lemma MemberStepReads(t: string, key: string, u: string, v: Json, rest: string)
    requires ReadString(t) == Some(Chars(key, [':'] + u)) && rest != "" && ReadValue(u) == Some(Value(v, rest))
    ensures rest[0] == '}' ==> ReadMembers(t) == Some(Members(map[key := v], rest[1..]))
    ensures rest[0] == ',' ==> ReadMembers(t) == var more := ReadMembers(rest[1..]);
                                                 if more.None? then None
                                                 else Some(Members(map[key := v] + more.value.members, more.value.rest))
  {
    assert ([':'] + u)[1..] == u;
  }

  lemma MemberFails(t: string, key: string, u: string)
    requires ReadString(t) == None || (ReadString(t) == Some(Chars(key, [':'] + u)) && ReadValue(u) == None)
    ensures ReadMembers(t) == None
  {
    assert ([':'] + u)[1..] == u;
  }

  /** An item, and the text of those after it. */
  ghost function FromItem(v: Json, i: nat, x: string): string
    requires v.Arr? && i < |v.items|
  {
    Print(v.items[i]) + ItemsThen(v, i + 1, x)
  }

  lemma NextItem(v: Json, i: nat, x: string)
    requires v.Arr? && i + 1 < |v.items|
    ensures ItemsThen(v, i + 1, x) == [','] + FromItem(v, i + 1, x)
  {
    ItemsUnfold(v, i + 1, x);
  }

  ghost predicate CleanFrom(items: seq<Json>, i: nat) { forall j :: i <= j < |items| ==> Clean(items[j]) }

  ghost predicate ItemsAreRead(v: Json, i: nat, x: string)
    requires v.Arr? && i < |v.items|
  {
    ReadItems(FromItem(v, i, x)) == if CleanFrom(v.items, i) then Some(Items(v.items[i..], x)) else None
  }

  lemma LastItemReads(v: Json, i: nat, x: string)
    requires v.Arr? && i + 1 == |v.items| && Printable(v)
    requires var item, rest := v.items[i], ItemsThen(v, i + 1, x);
             ReadValue(Print(item) + rest) == if Clean(item) then Some(Value(item, rest)) else None
    ensures ItemsAreRead(v, i, x)
  {
    ItemsStop(v, i + 1, x);
    assert ([']'] + x)[1..] == x && v.items[i..] == [v.items[i]];
    if Clean(v.items[i]) {
      ItemStepReads(FromItem(v, i, x), v.items[i], ItemsThen(v, i + 1, x));
    }
  }

  lemma FirstItemsRead(items: seq<Json>, i: nat, x: string, r: Option<Items>, rest: Option<Items>)
    requires i + 1 < |items| && Clean(items[i])
    requires rest == if CleanFrom(items, i + 1) then Some(Items(items[i + 1..], x)) else None
    requires r == if rest.None? then None else Some(Items([items[i]] + rest.value.items, rest.value.rest))
    ensures r == if CleanFrom(items, i) then Some(Items(items[i..], x)) else None
  {
    assert items[i..] == [items[i]] + items[i + 1..];
    assert CleanFrom(items, i) <==> CleanFrom(items, i + 1);
  }

  lemma CleanItemReads(v: Json, i: nat, x: string)
    requires v.Arr? && i + 1 < |v.items|
    requires ReadValue(FromItem(v, i, x)) == Some(Value(v.items[i], ItemsThen(v, i + 1, x)))
    ensures ReadItems(FromItem(v, i, x)) == var more := ReadItems(FromItem(v, i + 1, x));
                                            if more.None? then None
                                            else Some(Items([v.items[i]] + more.value.items, more.value.rest))
  {
    NextItem(v, i, x);
    assert ([','] + FromItem(v, i + 1, x))[1..] == FromItem(v, i + 1, x);
    ItemStepReads(FromItem(v, i, x), v.items[i], ItemsThen(v, i + 1, x));
  }

  lemma FirstItemReads(v: Json, i: nat, x: string)
    requires v.Arr? && i + 1 < |v.items| && ItemsAreRead(v, i + 1, x)
    requires ReadValue(FromItem(v, i, x))
             == if Clean(v.items[i]) then Some(Value(v.items[i], ItemsThen(v, i + 1, x))) else None
    ensures ItemsAreRead(v, i, x)
  {
    if Clean(v.items[i]) {
      CleanItemReads(v, i, x);
      FirstItemsRead(v.items, i, x, ReadItems(FromItem(v, i, x)), ReadItems(FromItem(v, i + 1, x)));
    }
  }

  lemma {:induction false} ItemsRead(v: Json, i: nat, x: string)
    requires v.Arr? && Printable(v) && i < |v.items|
    ensures ItemsAreRead(v, i, x)
    decreases v, 1, |v.items| - i
  {
    ItemsEnd(v, i + 1, x);
    PrintReads(v.items[i], ItemsThen(v, i + 1, x));
    if i + 1 < |v.items| {
      ItemsRead(v, i + 1, x);
      FirstItemReads(v, i, x);
    } else {
      LastItemReads(v, i, x);
    }
  }

  lemma ArrayText(v: Json, x: string)
    requires v.Arr? && v.items != []
    ensures Print(v) + x == ['['] + FromItem(v, 0, x)
  {
    ItemsUnfold(v, 0, x);
    assert ['['] + PrintItems(v, 0, false) + [']'] + x == ['['] + (PrintItems(v, 0, false) + ([']'] + x));
  }

  lemma FirstItem(v: Json, x: string)
    requires v.Arr? && Printable(v) && v.items != []
    ensures FromItem(v, 0, x) != "" && FromItem(v, 0, x)[0] != ']'
  {
    Lead(v.items[0]);
  }

  lemma {:induction false} ArrayReads(v: Json, x: string)
    requires v.Arr? && Printable(v)
    ensures ReadValue(Print(v) + x) == if CleanFrom(v.items, 0) then Some(Value(v, x)) else None
    decreases v, 1, |v.items| + 1
  {
    if v.items == [] {
      EmptyReads(x);
      assert Print(v) + x == ['['] + ([']'] + x) && v == Arr([]);
      BracketReads([']'] + x);
    } else {
      ItemsRead(v, 0, x);
      ArrayText(v, x);
      FirstItem(v, x);
      BracketReads(FromItem(v, 0, x));
      assert v.items[0..] == v.items;
    }
  }

  /** The part of the members under these names. */
  function Part(v: Json, ks: seq<string>): map<string, Json>
    requires v.Obj? && forall k :: k in ks ==> k in v.members
  {
    map k | k in ks :: v.members[k]
  }

  ghost predicate AllClean(v: Json, ks: seq<string>)
    requires v.Obj? && forall k :: k in ks ==> k in v.members
  {
    forall k :: k in ks ==> !HasLiteral(k) && Clean(v.members[k])
  }

  lemma FirstPart(v: Json, ks: seq<string>)
    requires v.Obj? && ks != [] && forall k :: k in ks ==> k in v.members
    ensures Part(v, ks) == map[ks[0] := v.members[ks[0]]] + Part(v, ks[1..])
    ensures AllClean(v, ks) <==> !HasLiteral(ks[0]) && Clean(v.members[ks[0]]) && AllClean(v, ks[1..])
  {
    assert forall k :: k in ks <==> k == ks[0] || k in ks[1..];
  }

  lemma KeyReads(v: Json, ks: seq<string>, x: string)
    requires v.Obj? && ks != [] && forall k :: k in ks ==> k in v.members
    ensures var u := Print(v.members[ks[0]]) + MoreThen(v, ks, x);
            ReadString(MembersThen(v, ks, x)) == if HasLiteral(ks[0]) then None else Some(Chars(ks[0], [':'] + u))
  {
    MembersUnfold(v, ks, x);
    CanonicalStringReads(ks[0], [':'] + (Print(v.members[ks[0]]) + MoreThen(v, ks, x)));
  }

  /** What the members after the first are read as. */
  ghost predicate RestReads(v: Json, ks: seq<string>, x: string)
    requires v.Obj? && forall k :: k in ks ==> k in v.members
  {
    ReadMembers(MembersThen(v, ks, x)) == if AllClean(v, ks) then Some(Members(Part(v, ks), x)) else None
  }

  lemma LastMemberReads(v: Json, ks: seq<string>, x: string)
    requires v.Obj? && |ks| == 1 && ks[0] in v.members && !HasLiteral(ks[0])
    requires ReadValue(Print(v.members[ks[0]]) + MoreThen(v, ks, x))
             == Some(Value(v.members[ks[0]], MoreThen(v, ks, x)))
    ensures ReadMembers(MembersThen(v, ks, x)) == Some(Members(map[ks[0] := v.members[ks[0]]], x))
  {
    var item, more := v.members[ks[0]], MoreThen(v, ks, x);
    KeyReads(v, ks, x);
    MoreUnfold(v, ks, x);
    assert (['}'] + x)[1..] == x;
    MemberStepReads(MembersThen(v, ks, x), ks[0], Print(item) + more, item, more);
  }

  lemma FirstMemberReads(v: Json, ks: seq<string>, x: string)
    requires v.Obj? && |ks| > 1 && (forall k :: k in ks ==> k in v.members) && !HasLiteral(ks[0])
    requires ReadValue(Print(v.members[ks[0]]) + MoreThen(v, ks, x))
             == Some(Value(v.members[ks[0]], MoreThen(v, ks, x)))
    ensures ReadMembers(MembersThen(v, ks, x))
            == var r := ReadMembers(MembersThen(v, ks[1..], x));
               if r.None? then None
               else Some(Members(map[ks[0] := v.members[ks[0]]] + r.value.members, r.value.rest))
  {
    var item, more := v.members[ks[0]], MoreThen(v, ks, x);
    KeyReads(v, ks, x);
    MoreUnfold(v, ks, x);
    assert ([','] + MembersThen(v, ks[1..], x))[1..] == MembersThen(v, ks[1..], x);
    MemberStepReads(MembersThen(v, ks, x), ks[0], Print(item) + more, item, more);
  }

  lemma FirstPartRead(v: Json, ks: seq<string>, x: string, r: Option<Members>, rest: Option<Members>)
    requires v.Obj? && ks != [] && (forall k :: k in ks ==> k in v.members)
    requires !HasLiteral(ks[0]) && Clean(v.members[ks[0]])
    requires rest == if AllClean(v, ks[1..]) then Some(Members(Part(v, ks[1..]), x)) else None
    requires r == if rest.None? then None
                  else Some(Members(map[ks[0] := v.members[ks[0]]] + rest.value.members, rest.value.rest))
    ensures r == if AllClean(v, ks) then Some(Members(Part(v, ks), x)) else None
  {
    FirstPart(v, ks);
  }

  lemma OnlyPartRead(v: Json, ks: seq<string>)
    requires v.Obj? && |ks| == 1 && ks[0] in v.members && !HasLiteral(ks[0]) && Clean(v.members[ks[0]])
    ensures AllClean(v, ks) && Part(v, ks) == map[ks[0] := v.members[ks[0]]]
  {
  }

  lemma BadMemberReads(v: Json, ks: seq<string>, x: string)
    requires v.Obj? && ks != [] && forall k :: k in ks ==> k in v.members
    requires HasLiteral(ks[0]) || !Clean(v.members[ks[0]])
    requires !Clean(v.members[ks[0]]) ==> ReadValue(Print(v.members[ks[0]]) + MoreThen(v, ks, x)) == None
    ensures ReadMembers(MembersThen(v, ks, x)) == None && !AllClean(v, ks)
  {
    KeyReads(v, ks, x);
    MemberFails(MembersThen(v, ks, x), ks[0], Print(v.members[ks[0]]) + MoreThen(v, ks, x));
    assert ks[0] in ks;
  }

  lemma MemberReads(v: Json, ks: seq<string>, x: string)
    requires v.Obj? && ks != [] && forall k :: k in ks ==> k in v.members
    requires var item, more := v.members[ks[0]], MoreThen(v, ks, x);
             ReadValue(Print(item) + more) == if Clean(item) then Some(Value(item, more)) else None
    requires |ks| > 1 ==> RestReads(v, ks[1..], x)
    ensures RestReads(v, ks, x)
  {
    if HasLiteral(ks[0]) || !Clean(v.members[ks[0]]) {
      BadMemberReads(v, ks, x);
    } else if |ks| > 1 {
      FirstMemberReads(v, ks, x);
      FirstPartRead(v, ks, x, ReadMembers(MembersThen(v, ks, x)), ReadMembers(MembersThen(v, ks[1..], x)));
    } else {
      LastMemberReads(v, ks, x);
      OnlyPartRead(v, ks);
    }
  }

  lemma {:induction false} MembersRead(v: Json, ks: seq<string>, x: string)
    requires v.Obj? && Printable(v) && ks != [] && forall k :: k in ks ==> k in v.members
    ensures RestReads(v, ks, x)
    decreases v, 1, |ks|
  {
    PrintReads(v.members[ks[0]], MoreThen(v, ks, x));
    if |ks| > 1 {
      MembersRead(v, ks[1..], x);
    }
    MemberReads(v, ks, x);
  }

  lemma {:induction false} ObjectReads(v: Json, ks: seq<string>, x: string)
    requires v.Obj? && Printable(v) && ks == SortedKeys(v.members.Keys)
    ensures ReadValue(Print(v) + x) == if AllClean(v, ks) then Some(Value(v, x)) else None
    decreases v, 1, |ks| + 1
  {
    ObjectText(v, x);
    MembersStop(v, ks, x);
    assert Part(v, ks) == v.members;
    if ks == [] {
      EmptyReads(x);
      BraceReads(['}'] + x);
      assert v == Obj(map[]);
    } else {
      MembersRead(v, ks, x);
      BraceReads(MembersThen(v, ks, x));
    }
  }

  lemma SimpleReads(v: Json, x: string)
    requires Printable(v) && Ends(x) && !v.Arr? && !v.Obj?
    ensures ReadValue(Print(v) + x) == if Clean(v) then Some(Value(v, x)) else None
  {
    var t := Print(v) + x;
    Lead(v);
    assert t[0] == Print(v)[0];
    match v {
      case Null => WordReads("null", v, x);
      case Bool(b) => WordReads(if b then "true" else "false", v, x);
      case Str(s) => CanonicalStringReads(s, x);
      case Num(n) => NumberReads(n.value, x);
    }
  }

  /** What the writer writes is read back as the value it was given, exactly when no text
      or member name in it holds a literal backslash-u2028 or -u2029; otherwise it is no
      JSON text at all. */
  lemma {:induction false} PrintReads(v: Json, x: string)
    requires Printable(v) && Ends(x)
    ensures ReadValue(Print(v) + x) == if Clean(v) then Some(Value(v, x)) else None
    decreases v, 2
  {
    match v {
      case Null => SimpleReads(v, x);
      case Bool(_) => SimpleReads(v, x);
      case Str(_) => SimpleReads(v, x);
      case Num(_) => SimpleReads(v, x);
      case Arr(_) => ArrayReads(v, x);
      case Obj(members) => ObjectReads(v, SortedKeys(members.Keys), x);
    }
  }

  // ---- the written object ----

  /** The members as they are written: each key once, in the order of their code units. */
  lemma WrittenKeysAscend(v: Json) returns (ks: seq<string>)
    requires v.Obj?
    ensures forall k :: k in ks <==> k in v.members
    ensures forall i, j :: 0 <= i < j < |ks| ==> UnitsComeFirst(ks[i], ks[j])
    ensures Print(v) == "{" + Join(MemberTexts(v, ks), ',') + "}"
  {
    ks := SortedKeys(v.members.Keys);
    forall i, j | 0 <= i < j < |ks| ensures UnitsComeFirst(ks[i], ks[j]) {
      assert Before(ks[i], ks[j]);
      BeforeByUnits(ks[i], ks[j]);
    }
    MembersAreJoined(v, ks);
  }

  ghost function MemberTexts(v: Json, ks: seq<string>): (texts: seq<string>)
    requires v.Obj? && forall k :: k in ks ==> k in v.members
    ensures |texts| == |ks|
    ensures forall i :: 0 <= i < |ks| ==> texts[i] == CanonicalString(ks[i]) + ":" + Print(v.members[ks[i]])
  {
    seq(|ks|, i requires 0 <= i < |ks| => CanonicalString(ks[i]) + ":" + Print(v.members[ks[i]]))
  }

  lemma {:induction false} MembersAreJoined(v: Json, ks: seq<string>)
    requires v.Obj? && forall k :: k in ks ==> k in v.members
    ensures PrintMembers(v, ks, false) == Join(MemberTexts(v, ks), ',')
    decreases |ks|
  {
    if ks != [] {
      MembersAreJoined(v, ks[1..]);
      assert MemberTexts(v, ks)[1..] == MemberTexts(v, ks[1..]);
      FirstMemberText(v, ks);
    }
  }

  lemma FirstMemberText(v: Json, ks: seq<string>)
    requires v.Obj? && ks != [] && forall k :: k in ks ==> k in v.members
    ensures PrintMembers(v, ks, false) == MemberTexts(v, ks)[0] + PrintMore(v, ks, false)
  {
    var key, item, more := CanonicalString(ks[0]), Print(v.members[ks[0]]), PrintMore(v, ks, false);
    assert key + ([':'] + (item + more)) == key + ":" + item + more;
  }

  ghost function ItemTexts(v: Json, i: nat): (texts: seq<string>)
    requires v.Arr? && i <= |v.items|
    ensures |texts| == |v.items| - i && forall j :: 0 <= j < |texts| ==> texts[j] == Print(v.items[i + j])
  {
    seq(|v.items| - i, j requires 0 <= j < |v.items| - i => Print(v.items[i + j]))
  }

  lemma {:induction false} ItemsAreJoined(v: Json, i: nat)
    requires v.Arr? && i < |v.items|
    ensures PrintItems(v, i, false) == (if i > 0 then [','] else []) + Join(ItemTexts(v, i), ',')
    decreases |v.items| - i
  {
    if i + 1 < |v.items| {
      ItemsAreJoined(v, i + 1);
    }
    FirstItemText(v, i);
  }

  lemma FirstItemText(v: Json, i: nat)
    requires v.Arr? && i < |v.items|
    requires i + 1 < |v.items| ==> PrintItems(v, i + 1, false) == [','] + Join(ItemTexts(v, i + 1), ',')
    ensures PrintItems(v, i, false) == (if i > 0 then [','] else []) + Join(ItemTexts(v, i), ',')
  {
    var item, rest, comma := Print(v.items[i]), PrintItems(v, i + 1, false), if i > 0 then [','] else [];
    assert ItemTexts(v, i) == [item] + ItemTexts(v, i + 1);
    assert PrintItems(v, i, false) == (comma + item) + rest;
    Associate(comma, item, rest);
    if i + 1 < |v.items| {
      ItemsFollow(item, ItemTexts(v, i + 1));
    } else {
      assert rest == "" && ItemTexts(v, i + 1) == [];
      assert item + "" == item;
    }
  }

  lemma ItemsFollow(item: string, texts: seq<string>)
    requires texts != []
    ensures Join([item] + texts, ',') == item + ([','] + Join(texts, ','))
  {
    JoinCons(item, texts, ',');
    Associate(item, [','], Join(texts, ','));
  }

  /** Items in their order, between brackets, with commas. */
  lemma WrittenItems(v: Json)
    requires v.Arr?
    ensures Print(v) == "[" + Join(ItemTexts(v, 0), ',') + "]"
  {
    if v.items != [] {
      ItemsAreJoined(v, 0);
    }
  }

  lemma WrittenWords(n: Numeral)
    ensures Print(Null) == "null" && Print(Bool(true)) == "true" && Print(Bool(false)) == "false"
    ensures Print(Num(Some(n))) == n
  {
  }
}
