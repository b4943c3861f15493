/** Array indices in a JSON pointer: fmt.Sscanf with %d, and the decimal spelling that
    section 4 of RFC 6901 asks for. */
module ArrayIndex {
  import opened Wrappers

  // ---- what the code reads ----

  predicate Digit(c: char) { '0' <= c <= '9' }

  function DigitValue(c: char): (d: nat)
    requires Digit(c)
    ensures d < 10
  {
    c as int - '0' as int
  }

  /** What fmt skips before a number: its white space without the line feed, which is an
      error there. */
  predicate Blank(c: char) {
    var n := c as int;
    n == 9 || 11 <= n <= 13 || n == 0x20 || n == 0x85 || n == 0xA0 || n == 0x1680 || 0x2000 <= n <= 0x200A
    || n == 0x2028 || n == 0x2029 || n == 0x202F || n == 0x205F || n == 0x3000
  }

  function SkipBlanks(t: string): string { if t != "" && Blank(t[0]) then SkipBlanks(t[1..]) else t }

  /** The digits at the start of t, after those that made `acc`. */
  function Number(t: string, acc: nat): nat
    decreases |t|
  {
    if t == "" || !Digit(t[0]) then acc else Number(t[1..], 10 * acc + DigitValue(t[0]))
  }

  function ScanDigits(t: string): Option<int> {
    if t == "" || !Digit(t[0]) then None else Some(Number(t, 0))
  }

  predicate Signed(t: string) { t != "" && (t[0] == '-' || t[0] == '+') }

  /** What follows the blanks and the sign. */
  function Unsigned(token: string): string {
    var t := SkipBlanks(token);
    if Signed(t) then t[1..] else t
  }

  predicate Negative(token: string) {
    var t := SkipBlanks(token);
    t != "" && t[0] == '-'
  }

  /** Blanks, a sign, digits; what follows them is not looked at. A number outside the
      64-bit range, an error in the source, is the index of no item either way. */
  function Scan(token: string): Option<int> {
    var digits := ScanDigits(Unsigned(token));
    if digits.None? then None else Some(if Negative(token) then -digits.value else digits.value)
  }

  /** The item of an array of n that a token selects. */
  function IndexIn(token: string, n: nat): (i: Option<nat>)
    ensures i.Some? ==> i.value < n
  {
    match Scan(token)
    case Some(i) => if 0 <= i < n then Some(i) else None
    case None => None
  }

  // ---- the decimal spelling ----

  function DigitOf(d: nat): (c: char)
    requires d < 10
    ensures Digit(c) && DigitValue(c) == d
  {
    ('0' as int + d) as char
  }

  function Decimal(n: nat): string { if n < 10 then [DigitOf(n)] else Decimal(n / 10) + [DigitOf(n % 10)] }

  predicate AllDigits(t: string) { forall i :: 0 <= i < |t| ==> Digit(t[i]) }

  /** Digits only, without a leading zero. */
  predicate Strict(t: string) { t != "" && AllDigits(t) && (|t| > 1 ==> t[0] != '0') }

  lemma {:induction false} NumberAppend(s: string, t: string, acc: nat)
    requires AllDigits(s)
    ensures Number(s + t, acc) == Number(t, Number(s, acc))
    decreases |s|
  {
    if s == "" {
      assert s + t == t;
    } else {
      assert (s + t)[1..] == s[1..] + t;
      NumberAppend(s[1..], t, 10 * acc + DigitValue(s[0]));
    }
  }

  lemma LastDigit(s: string, c: char)
    requires AllDigits(s) && Digit(c)
    ensures Number(s + [c], 0) == 10 * Number(s, 0) + DigitValue(c)
  {
    NumberAppend(s, [c], 0);
  }

  lemma {:induction false} DecimalReads(n: nat)
    ensures Strict(Decimal(n)) && Number(Decimal(n), 0) == n
    ensures Decimal(n)[0] == '0' ==> n == 0
  {
    if n >= 10 {
      DecimalReads(n / 10);
      LastDigit(Decimal(n / 10), DigitOf(n % 10));
    }
  }

  lemma {:induction false} StrictIsDecimal(t: string)
    requires Strict(t)
    ensures Decimal(Number(t, 0)) == t
    decreases |t|
  {
    if |t| == 1 {
      assert t == [t[0]] && DigitOf(DigitValue(t[0])) == t[0];
    } else {
      var s, c := t[..|t| - 1], t[|t| - 1];
      assert t == s + [c];
      StrictIsDecimal(s);
      LastDigit(s, c);
      assert Number(s, 0) != 0;
      assert DigitOf(DigitValue(c)) == c;
    }
  }

  lemma StartsUnsigned(t: string)
    requires t != "" && Digit(t[0])
    ensures SkipBlanks(t) == t && Scan(t) == Some(Number(t, 0))
  {
  }

  /** Every index can be written: its decimal spelling, with any text after it that does
      not begin with a digit, is read as that index. */
  lemma TrailingTextIsIgnored(n: nat, rest: string)
    requires rest != "" ==> !Digit(rest[0])
    ensures Scan(Decimal(n) + rest) == Some(n)
  {
    DecimalReads(n);
    StartsUnsigned(Decimal(n) + rest);
    NumberAppend(Decimal(n), rest, 0);
  }

  /** The decimal spelling is made of the ten digits. */
  lemma DecimalDigits(n: nat)
    ensures Decimal(n) == if n < 10 then ["0123456789"[n]] else Decimal(n / 10) + Decimal(n % 10)
  {
  }

  /** Tab, vertical tab, form feed, carriage return and the other white space of Unicode. */
  lemma BlanksAre(c: char)
    ensures Blank(c) <==>
            c as int in {9, 11, 12, 13, 0x20, 0x85, 0xA0, 0x1680, 0x2000, 0x2001, 0x2002, 0x2003, 0x2004, 0x2005,
                         0x2006, 0x2007, 0x2008, 0x2009, 0x200A, 0x2028, 0x2029, 0x202F, 0x205F, 0x3000}
  {
  }

  lemma {:induction false} BlanksAreSkipped(blanks: string, t: string)
    requires (forall i :: 0 <= i < |blanks| ==> Blank(blanks[i])) && (t != "" ==> !Blank(t[0]))
    ensures SkipBlanks(blanks + t) == t
  {
    if blanks == "" {
      assert blanks + t == t;
    } else {
      assert (blanks + t)[1..] == blanks[1..] + t;
      BlanksAreSkipped(blanks[1..], t);
    }
  }

  /** What the code reads: a number may follow blanks and one sign, and any text that does
      not go on with a digit may follow the number. */
  lemma SignedNumbersAreRead(blanks: string, sign: string, n: int, rest: string)
    requires forall i :: 0 <= i < |blanks| ==> Blank(blanks[i])
    requires n >= 0 && (sign == "" || sign == "+" || sign == "-")
    requires rest != "" ==> !('0' <= rest[0] <= '9')
    ensures Scan(blanks + (sign + (Decimal(n) + rest))) == Some(if sign == "-" then -n else n)
  {
    var number := Decimal(n) + rest;
    DecimalReads(n);
    assert number[0] == Decimal(n)[0];
    BlanksAreSkipped(blanks, sign + number);
    if sign == "" {
      assert sign + number == number;
    } else {
      assert (sign + number)[0] == sign[0] && (sign + number)[1..] == number;
    }
    NumberAppend(Decimal(n), rest, 0);
  }

  /** The digits at the start of t hold another one than zero. */
  predicate NonZero(t: string) { t != "" && Digit(t[0]) && (t[0] != '0' || NonZero(t[1..])) }

  lemma {:induction false} NonZeroNumber(t: string, acc: nat)
    ensures Number(t, acc) > 0 <==> acc > 0 || NonZero(t)
    decreases |t|
  {
    if t != "" && Digit(t[0]) {
      NonZeroNumber(t[1..], 10 * acc + DigitValue(t[0]));
    }
  }

  /** No digit where the number should begin, or a minus before one that is not zero. */
  predicate NoIndex(token: string) {
    var t := Unsigned(token);
    t == "" || !Digit(t[0]) || (Negative(token) && NonZero(t))
  }

  lemma ScansNoIndex(token: string)
    ensures NoIndex(token) <==> forall n: nat :: Scan(token) != Some(n)
  {
    var t := Unsigned(token);
    NonZeroNumber(t, 0);
    if !NoIndex(token) {
      var n: nat := Scan(token).value;
      assert Scan(token) == Some(n);
    }
  }

  /** The code reads a token as section 4 of RFC 6901 does, as an index exactly when it is
      the decimal spelling of one, exactly on the tokens that consist of digits without a
      leading zero, have no digit after blanks and sign, or have a minus before a number
      that is not zero. */
  lemma IndexIsStandardExactlyWhenStrict(token: string)
    ensures (forall n: nat :: Scan(token) == Some(n) <==> token == Decimal(n)) <==> Strict(token) || NoIndex(token)
  {
    ScansNoIndex(token);
    if Strict(token) {
      StrictIsDecimal(token);
      StartsUnsigned(token);
      forall n: nat ensures Scan(token) == Some(n) <==> token == Decimal(n) {
        DecimalReads(n);
      }
    } else {
      forall n: nat ensures token != Decimal(n) {
        DecimalReads(n);
      }
    }
  }
}
