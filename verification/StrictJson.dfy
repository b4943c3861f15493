/** The duplicate-key recogniser: what it accepts, over every token stream. */
module StrictJson {

  /** What the decoder reads next; commas and colons are its own business, and Bad is any
      place where it reports a syntax error. */
  datatype Lexeme = Open(curly: bool) | Close(curly: bool) | Word(text: string) | Atom(literal: string) | Bad

  // ---- documents and their tokens ----

  datatype Doc = Text(text: string) | Leaf(literal: string) | List(items: seq<Doc>) | Record(members: seq<Member>)

  /** A document keeps the members of an object in order, repeats included. */
  datatype Member = Member(key: string, value: Doc)

  function Tokens(d: Doc): seq<Lexeme>
    decreases d
  {
    match d
    case Text(t) => [Word(t)]
    case Leaf(l) => [Atom(l)]
    case List(items) => [Open(false)] + ItemTokens(items)
    case Record(members) => [Open(true)] + MemberTokens(members)
  }

  function ItemTokens(items: seq<Doc>): seq<Lexeme>
    decreases items
  {
    if items == [] then [Close(false)] else Tokens(items[0]) + ItemTokens(items[1..])
  }

  function MemberTokens(members: seq<Member>): seq<Lexeme>
    decreases members
  {
    if members == [] then [Close(true)]
    else [Word(members[0].key)] + (Tokens(members[0].value) + MemberTokens(members[1..]))
  }

  /** No object, at any depth, names a member twice. */
  predicate NoRepeats(d: Doc)
    decreases d
  {
    match d
    case Text(_) => true
    case Leaf(_) => true
    case List(items) => forall i :: 0 <= i < |items| ==> NoRepeats(items[i])
    case Record(members) =>
      (forall i, j :: 0 <= i < j < |members| ==> members[i].key != members[j].key) &&
      forall i :: 0 <= i < |members| ==> NoRepeats(members[i].value)
  }

  // ---- what the recogniser computes ----

  datatype Scan = Rest(rest: seq<Lexeme>) | Duplicate(key: string) | Malformed

  function ScanValue(ts: seq<Lexeme>): (s: Scan)
    ensures s.Rest? ==> |s.rest| < |ts|
    decreases |ts|, 0
  {
    if ts == [] then Malformed
    else match ts[0]
      case Word(_) => Rest(ts[1..])
      case Atom(_) => Rest(ts[1..])
      case Open(curly) => if curly then ScanMembers(ts[1..], {}) else ScanItems(ts[1..])
      case Close(_) => Malformed
      case Bad => Malformed
  }

  function ScanItems(ts: seq<Lexeme>): (s: Scan)
    ensures s.Rest? ==> |s.rest| < |ts|
    decreases |ts|, 1
  {
    if ts == [] then Malformed
    else if ts[0].Close? then if ts[0].curly then Malformed else Rest(ts[1..])
    else
      var item := ScanValue(ts);
      if item.Rest? then ScanItems(item.rest) else item
  }

  function ScanMembers(ts: seq<Lexeme>, seen: set<string>): (s: Scan)
    ensures s.Rest? ==> |s.rest| < |ts|
    decreases |ts|, 1
  {
    if ts == [] then Malformed
    else if ts[0].Close? then if ts[0].curly then Rest(ts[1..]) else Malformed
    else if !ts[0].Word? then Malformed
    else if ts[0].text in seen then Duplicate(ts[0].text)
    else
      var value := ScanValue(ts[1..]);
      if value.Rest? then ScanMembers(value.rest, seen + {ts[0].text}) else value
  }

  // ---- a document's own tokens ----

  /** The members from here on are new and hold no repeats. */
  predicate FreshMembers(members: seq<Member>, seen: set<string>) {
    (forall i :: 0 <= i < |members| ==> members[i].key !in seen && NoRepeats(members[i].value)) &&
    forall i, j :: 0 <= i < j < |members| ==> members[i].key != members[j].key
  }

  lemma FreshStep(members: seq<Member>, seen: set<string>)
    requires members != []
    ensures FreshMembers(members, seen) <==>
            members[0].key !in seen && NoRepeats(members[0].value) &&
                FreshMembers(members[1..], seen + {members[0].key})
  {
    var tail := members[1..];
    assert forall i :: 0 <= i < |tail| ==> tail[i] == members[i + 1];
    assert forall i :: 0 < i < |members| ==> members[i] == tail[i - 1];
  }

  lemma NoClose(d: Doc)
    ensures Tokens(d) != [] && !Tokens(d)[0].Close?
  {
  }

  /** Running over a document's tokens consumes exactly that document, whatever follows,
      or reports a repeated key when there is one; never a syntax error. */
  lemma {:induction false} ScanOfDocument(d: Doc, rest: seq<Lexeme>)
    ensures NoRepeats(d) ==> ScanValue(Tokens(d) + rest) == Rest(rest)
    ensures !NoRepeats(d) ==> ScanValue(Tokens(d) + rest).Duplicate?
    decreases d
  {
    var ts := Tokens(d) + rest;
    match d {
      case Text(_) => assert ts[1..] == rest;
      case Leaf(_) => assert ts[1..] == rest;
      case List(items) =>
        ScanOfItems(items, rest);
        assert ts[1..] == ItemTokens(items) + rest;
      case Record(members) =>
        ScanOfMembers(members, {}, rest);
        assert ts[1..] == MemberTokens(members) + rest;
    }
  }

  lemma {:induction false} ScanOfItems(items: seq<Doc>, rest: seq<Lexeme>)
    ensures (forall i :: 0 <= i < |items| ==> NoRepeats(items[i])) ==> ScanItems(ItemTokens(items) + rest) == Rest(rest)
    ensures (exists i :: 0 <= i < |items| && !NoRepeats(items[i])) ==> ScanItems(ItemTokens(items) + rest).Duplicate?
    decreases items
  {
    var ts := ItemTokens(items) + rest;
    if items == [] {
      assert ts[1..] == rest;
    } else {
      var more := ItemTokens(items[1..]) + rest;
      assert ts == Tokens(items[0]) + more;
      NoClose(items[0]);
      ScanOfDocument(items[0], more);
      ScanOfItems(items[1..], rest);
      assert forall i :: 0 < i < |items| ==> items[i] == items[1..][i - 1];
    }
  }

  lemma {:induction false} ScanOfMembers(members: seq<Member>, seen: set<string>, rest: seq<Lexeme>)
    ensures FreshMembers(members, seen) ==> ScanMembers(MemberTokens(members) + rest, seen) == Rest(rest)
    ensures !FreshMembers(members, seen) ==> ScanMembers(MemberTokens(members) + rest, seen).Duplicate?
    decreases members
  {
    var ts := MemberTokens(members) + rest;
    if members == [] {
      assert ts[1..] == rest;
    } else {
      var key, value := members[0].key, members[0].value;
      var more := MemberTokens(members[1..]) + rest;
      assert ts[0] == Word(key) && ts[1..] == Tokens(value) + more;
      ScanOfDocument(value, more);
      ScanOfMembers(members[1..], seen + {key}, rest);
      FreshStep(members, seen);
    }
  }

  // ---- nothing else is accepted ----

  /** What was consumed is one document without repeats. */
  lemma {:induction false} ScannedDocument(ts: seq<Lexeme>) returns (d: Doc)
    requires ScanValue(ts).Rest?
    ensures NoRepeats(d) && ts == Tokens(d) + ScanValue(ts).rest
    decreases |ts|, 0
  {
    var rest := ScanValue(ts).rest;
    match ts[0] {
      case Word(t) =>
        d := Text(t);
        assert ts == [ts[0]] + ts[1..];
      case Atom(l) =>
        d := Leaf(l);
        assert ts == [ts[0]] + ts[1..];
      case Open(curly) =>
        assert ts == [ts[0]] + ts[1..];
        if curly {
          var members := ScannedMembers(ts[1..], {});
          d := Record(members);
        } else {
          var items := ScannedItems(ts[1..]);
          d := List(items);
        }
    }
  }

  lemma {:induction false} ScannedItems(ts: seq<Lexeme>) returns (items: seq<Doc>)
    requires ScanItems(ts).Rest?
    ensures (forall i :: 0 <= i < |items| ==> NoRepeats(items[i])) && ts == ItemTokens(items) + ScanItems(ts).rest
    decreases |ts|, 1
  {
    if ts[0].Close? {
      items := [];
      assert ts == [ts[0]] + ts[1..];
    } else {
      var d := ScannedDocument(ts);
      var more := ScannedItems(ScanValue(ts).rest);
      items := [d] + more;
      assert items[1..] == more;
    }
  }

  lemma MemberComesFirst(ts: seq<Lexeme>, m: Member, more: seq<Member>, after: seq<Lexeme>, rest: seq<Lexeme>)
    requires ts != [] && ts[0] == Word(m.key) && ts[1..] == Tokens(m.value) + after
    requires after == MemberTokens(more) + rest
    ensures ts == MemberTokens([m] + more) + rest
  {
    var t, u := Tokens(m.value), MemberTokens(more);
    assert ([m] + more)[1..] == more;
    assert MemberTokens([m] + more) == [Word(m.key)] + (t + u);
    assert ts == [ts[0]] + ts[1..];
    assert [Word(m.key)] + (t + (u + rest)) == [Word(m.key)] + (t + u) + rest;
  }

  lemma {:induction false} ScannedMembers(ts: seq<Lexeme>, seen: set<string>) returns (members: seq<Member>)
    requires ScanMembers(ts, seen).Rest?
    ensures FreshMembers(members, seen) && ts == MemberTokens(members) + ScanMembers(ts, seen).rest
    decreases |ts|, 1
  {
    if ts[0].Close? {
      members := [];
      assert ts == [ts[0]] + ts[1..];
    } else {
      var key := ts[0].text;
      var d := ScannedDocument(ts[1..]);
      var more := ScannedMembers(ScanValue(ts[1..]).rest, seen + {key});
      members := [Member(key, d)] + more;
      assert members[1..] == more;
      FreshStep(members, seen);
      MemberComesFirst(ts, Member(key, d), more, ScanValue(ts[1..]).rest, ScanMembers(ts, seen).rest);
    }
  }

  // ---- what is reported does repeat ----

  /** Members without the closing brace. */
  function Listed(members: seq<Member>): seq<Lexeme>
    decreases members
  {
    if members == [] then [] else [Word(members[0].key)] + Tokens(members[0].value) + Listed(members[1..])
  }

  predicate Names(members: seq<Member>, key: string) { exists i :: 0 <= i < |members| && members[i].key == key }

  /** Somewhere an object opens, lists these members, and then names one of them again. */
  predicate RepeatsAfter(ts: seq<Lexeme>, front: seq<Lexeme>, members: seq<Member>, key: string) {
    front + [Open(true)] + Listed(members) + [Word(key)] <= ts && Names(members, key)
  }

  lemma RepeatsFurtherOn(ts: seq<Lexeme>, before: seq<Lexeme>, after: seq<Lexeme>, front: seq<Lexeme>,
                         members: seq<Member>, key: string)
    requires ts == before + after && RepeatsAfter(after, front, members, key)
    ensures RepeatsAfter(ts, before + front, members, key)
  {
    var inner := front + [Open(true)] + Listed(members) + [Word(key)];
    assert before + front + [Open(true)] + Listed(members) + [Word(key)] == before + inner;
    assert ts[..|before| + |inner|] == before + after[..|inner|];
  }

  /** A key that the recogniser reports does occur twice in one object. */
  lemma {:induction false} ReportedKeyRepeats(ts: seq<Lexeme>) returns (front: seq<Lexeme>, members: seq<Member>)
    requires ScanValue(ts).Duplicate?
    ensures RepeatsAfter(ts, front, members, ScanValue(ts).key)
    decreases |ts|, 0
  {
    var first, key := [ts[0]], ScanValue(ts).key;
    assert ts == first + ts[1..];
    if ts[0].curly {
      var here: bool;
      here, front, members := RepeatsInMembers(ts[1..], {});
      if here {
        var inner := Listed(members) + [Word(key)];
        assert front == [] && [] + [Open(true)] + Listed(members) + [Word(key)] == first + inner;
        assert ts[..1 + |inner|] == first + ts[1..][..|inner|];
      } else {
        RepeatsFurtherOn(ts, first, ts[1..], front, members, key);
        front := first + front;
      }
    } else {
      front, members := RepeatsInItems(ts[1..]);
      RepeatsFurtherOn(ts, first, ts[1..], front, members, key);
      front := first + front;
    }
  }

  lemma {:induction false} RepeatsInItems(ts: seq<Lexeme>) returns (front: seq<Lexeme>, members: seq<Member>)
    requires ScanItems(ts).Duplicate?
    ensures RepeatsAfter(ts, front, members, ScanItems(ts).key)
    decreases |ts|, 1
  {
    if ScanValue(ts).Duplicate? {
      front, members := ReportedKeyRepeats(ts);
    } else {
      var d := ScannedDocument(ts);
      var rest := ScanValue(ts).rest;
      front, members := RepeatsInItems(rest);
      RepeatsFurtherOn(ts, Tokens(d), rest, front, members, ScanItems(ts).key);
      front := Tokens(d) + front;
    }
  }

  /** In an object: the repeated key is one of its own, or of an object within. */
  lemma {:induction false} RepeatsInMembers(ts: seq<Lexeme>, seen: set<string>)
    returns (here: bool, front: seq<Lexeme>, members: seq<Member>)
    requires ScanMembers(ts, seen).Duplicate?
    ensures var key := ScanMembers(ts, seen).key;
            if here then front == [] && Listed(members) + [Word(key)] <= ts && (key in seen || Names(members, key))
            else RepeatsAfter(ts, front, members, key)
    decreases |ts|, 1
  {
    var own := ts[0].text;
    assert ts == [ts[0]] + ts[1..];
    if own in seen {
      here, front, members := true, [], [];
    } else if ScanValue(ts[1..]).Duplicate? {
      front, members := ReportedKeyRepeats(ts[1..]);
      RepeatsFurtherOn(ts, [ts[0]], ts[1..], front, members, ScanMembers(ts, seen).key);
      here, front := false, [ts[0]] + front;
    } else {
      var d := ScannedDocument(ts[1..]);
      var rest := ScanValue(ts[1..]).rest;
      var before := [ts[0]] + Tokens(d);
      assert ts == before + rest;
      here, front, members := RepeatsInMembers(rest, seen + {own});
      if here {
        members := PrependMember(ts, rest, Member(own, d), members, ScanMembers(ts, seen).key);
      } else {
        RepeatsFurtherOn(ts, before, rest, front, members, ScanMembers(ts, seen).key);
        front := before + front;
      }
    }
  }

  lemma PrependMember(ts: seq<Lexeme>, rest: seq<Lexeme>, m: Member, more: seq<Member>, key: string)
    returns (members: seq<Member>)
    requires ts == [Word(m.key)] + Tokens(m.value) + rest && Listed(more) + [Word(key)] <= rest
    ensures members == [m] + more && Listed(members) + [Word(key)] <= ts
    ensures Names(members, key) <==> key == m.key || Names(more, key)
  {
    members := [m] + more;
    var before, inner := [Word(m.key)] + Tokens(m.value), Listed(more) + [Word(key)];
    assert members[1..] == more;
    assert Listed(members) + [Word(key)] == before + inner;
    assert ts[..|before| + |inner|] == before + rest[..|inner|];
    assert members[0].key == m.key && forall i :: 0 < i < |members| ==> members[i] == more[i - 1];
    assert forall i :: 0 <= i < |more| ==> more[i] == members[i + 1];
  }

  /** The recogniser accepts a stream exactly when it is the token stream of one document
      with no repeated key at any depth and nothing after it. */
  lemma AcceptsExactlyStrictDocuments(ts: seq<Lexeme>)
    ensures ScanValue(ts) == Rest([]) <==> exists d :: NoRepeats(d) && ts == Tokens(d)
  {
    if ScanValue(ts) == Rest([]) {
      var d := ScannedDocument(ts);
      assert ts == Tokens(d);
    }
    if exists d :: NoRepeats(d) && ts == Tokens(d) {
      var d :| NoRepeats(d) && ts == Tokens(d);
      ScanOfDocument(d, []);
      assert Tokens(d) + [] == ts;
    }
  }

  // ---- the decoder ----

  /** Where the next token falls: a list item, a member name, or a member value. */
  datatype Slot = ItemSlot | KeySlot | ValueSlot

  predicate ValueAllowed(slots: seq<Slot>) { slots == [] || slots[|slots| - 1] != KeySlot }

  /** A complete value puts the enclosing object back to expecting a name. */
  function Filled(slots: seq<Slot>): seq<Slot> {
    if slots != [] && slots[|slots| - 1] == ValueSlot then slots[..|slots| - 1] + [KeySlot] else slots
  }

  datatype Read = Got(token: Lexeme) | Eof | Failed

  /** json.Decoder over its input: a cursor, and the nesting it checks. */
  class Decoder {
    var ahead: seq<Lexeme>
    var slots: seq<Slot>

    constructor (content: seq<Lexeme>)
      ensures ahead == content && slots == []
    {
      ahead, slots := content, [];
    }

    /** More: another element is there before the enclosing list or object closes. */
    predicate More()
      reads this
    {
      ahead != [] && !ahead[0].Close?
    }

    /** Whether the next token may stand here. */
    predicate Fits()
      reads this
    {
      ahead != [] &&
      match ahead[0]
      case Word(_) => true
      case Atom(_) => ValueAllowed(slots)
      case Open(_) => ValueAllowed(slots)
      case Close(curly) => slots != [] && slots[|slots| - 1] == if curly then KeySlot else ItemSlot
      case Bad => false
    }

    method Token() returns (r: Read)
      modifies this
      ensures r == if old(ahead) == [] then Eof else if old(Fits()) then Got(old(ahead)[0]) else Failed
      ensures r.Got? ==> ahead == old(ahead)[1..]
      ensures r.Got? && r.token.Open? ==> slots == old(slots) + [if r.token.curly then KeySlot else ItemSlot]
      ensures r.Got? && r.token.Close? ==> slots == Filled(old(slots)[..|old(slots)| - 1])
      ensures r.Got? && r.token.Atom? ==> slots == Filled(old(slots))
      ensures r.Got? && r.token.Word? && old(ValueAllowed(slots)) ==> slots == Filled(old(slots))
      ensures r.Got? && r.token.Word? && !old(ValueAllowed(slots)) ==>
              slots == old(slots)[..|old(slots)| - 1] + [ValueSlot]
      ensures !r.Got? ==> ahead == old(ahead) && slots == old(slots)
    {
      if ahead == [] {
        return Eof;
      }
      if !Fits() {
        return Failed;
      }
      var token := ahead[0];
      ahead := ahead[1..];
      match token {
        case Open(curly) => slots := slots + [if curly then KeySlot else ItemSlot];
        case Close(_) => slots := Filled(slots[..|slots| - 1]);
        case Atom(_) => slots := Filled(slots);
        case Word(_) =>
          slots := if ValueAllowed(slots) then Filled(slots) else slots[..|slots| - 1] + [ValueSlot];
        case Bad =>
      }
      return Got(token);
    }
  }

  datatype Verdict = Fine | Repeated(key: string) | Invalid

  function Judge(s: Scan): Verdict {
    match s
    case Rest(_) => Fine
    case Duplicate(key) => Repeated(key)
    case Malformed => Invalid
  }

  /** The recursive closure: read one value off the decoder. */
  method Value(decoder: Decoder) returns (verdict: Verdict)
    requires ValueAllowed(decoder.slots)
    modifies decoder
    ensures verdict == Judge(ScanValue(old(decoder.ahead)))
    ensures verdict == Fine ==> decoder.ahead == ScanValue(old(decoder.ahead)).rest
    ensures verdict == Fine ==> decoder.slots == Filled(old(decoder.slots))
    decreases |decoder.ahead|, 0
  {
    var first := decoder.Token();
    if !first.Got? {
      return Invalid;
    }
    if first.token.Close? {
      return Invalid;
    }
    if !first.token.Open? {
      return Fine;
    }
    if first.token.curly {
      verdict := Members(decoder);
    } else {
      verdict := Items(decoder);
    }
  }

  /** Its '{' case. */
  method Members(decoder: Decoder) returns (verdict: Verdict)
    requires decoder.slots != [] && decoder.slots[|decoder.slots| - 1] == KeySlot
    modifies decoder
    ensures verdict == Judge(ScanMembers(old(decoder.ahead), {}))
    ensures verdict == Fine ==> decoder.ahead == ScanMembers(old(decoder.ahead), {}).rest
    ensures verdict == Fine ==> decoder.slots == Filled(old(decoder.slots)[..|old(decoder.slots)| - 1])
    decreases |decoder.ahead|, 1
  {
    ghost var whole := ScanMembers(decoder.ahead, {});
    var seen := {};
    while decoder.More()
      invariant |decoder.ahead| <= |old(decoder.ahead)|
      invariant decoder.slots == old(decoder.slots)
      invariant ScanMembers(decoder.ahead, seen) == whole
      decreases |decoder.ahead|
    {
      var name := decoder.Token();
      if !name.Got? || !name.token.Word? {
        return Invalid;
      }
      var key := name.token.text;
      if key in seen {
        return Repeated(key);
      }
      seen := seen + {key};
      var value := Value(decoder);
      if value != Fine {
        return value;
      }
    }
    var last := decoder.Token();
    return if last.Got? then Fine else Invalid;
  }

  /** Its '[' case. */
  method Items(decoder: Decoder) returns (verdict: Verdict)
    requires decoder.slots != [] && decoder.slots[|decoder.slots| - 1] == ItemSlot
    modifies decoder
    ensures verdict == Judge(ScanItems(old(decoder.ahead)))
    ensures verdict == Fine ==> decoder.ahead == ScanItems(old(decoder.ahead)).rest
    ensures verdict == Fine ==> decoder.slots == Filled(old(decoder.slots)[..|old(decoder.slots)| - 1])
    decreases |decoder.ahead|, 1
  {
    ghost var whole := ScanItems(decoder.ahead);
    while decoder.More()
      invariant |decoder.ahead| <= |old(decoder.ahead)|
      invariant decoder.slots == old(decoder.slots)
      invariant ScanItems(decoder.ahead) == whole
      decreases |decoder.ahead|
    {
      var item := Value(decoder);
      if item != Fine {
        return item;
      }
    }
    var last := decoder.Token();
    return if last.Got? then Fine else Invalid;
  }

  /** rejectDuplicateJSONKeys: it returns no error exactly on the tokens of one strict
      document; it reports a repeated key whenever the input starts with a document that
      has one, and only a key that an object of the input does name twice. */
  method RejectDuplicateKeys(content: seq<Lexeme>) returns (verdict: Verdict)
    ensures verdict == Fine <==> exists d :: NoRepeats(d) && content == Tokens(d)
    ensures (exists d, rest :: !NoRepeats(d) && content == Tokens(d) + rest) ==> verdict.Repeated?
    ensures verdict.Repeated? ==> exists front, members :: RepeatsAfter(content, front, members, verdict.key)
  {
    AcceptsExactlyStrictDocuments(content);
    forall d, rest | !NoRepeats(d) && content == Tokens(d) + rest ensures ScanValue(content).Duplicate? {
      ScanOfDocument(d, rest);
    }
    if ScanValue(content).Duplicate? {
      var front, members := ReportedKeyRepeats(content);
    }
    var decoder := new Decoder(content);
    verdict := Value(decoder);
    if verdict != Fine {
      return;
    }
    var trailing := decoder.Token();
    verdict := if trailing == Eof then Fine else Invalid;
  }
}
