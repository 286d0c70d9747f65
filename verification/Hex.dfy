/** Hexadecimal IDs: printing, parsing, and the two validity checks. */
module Hex {
  import opened Basics

  const DIGITS: string := "0123456789abcdef"

  predicate IsLowerHexDigit(c: char) {
    '0' <= c <= '9' || 'a' <= c <= 'f'
  }

  predicate AllLowerHex(s: string) {
    forall i | 0 <= i < |s| :: IsLowerHexDigit(s[i])
  }

  /** The check of the client's disk cache (any length from 4 to 100). */
  predicate ValidClientId(s: string) {
    4 <= |s| <= 100 && AllLowerHex(s)
  }

  /** The check of the server, which also wants an even length, up to 1000. */
  predicate ValidServerId(s: string) {
    4 <= |s| <= 1000 && |s| % 2 == 0 && AllLowerHex(s)
  }

  /** The "%x" formatting verb. */
  function Print(bytes: Bytes): (s: string)
    ensures |s| == 2 * |bytes|
    ensures AllLowerHex(s)
  {
    if bytes == [] then ""
    else [DIGITS[bytes[0] as int / 16], DIGITS[bytes[0] as int % 16]] + Print(bytes[1..])
  }

  /** The value of one digit; upper case is accepted when parsing. */
  function DigitValue(c: char): Option<int> {
    if '0' <= c <= '9' then Some(c as int - '0' as int)
    else if 'a' <= c <= 'f' then Some(c as int - 'a' as int + 10)
    else if 'A' <= c <= 'F' then Some(c as int - 'A' as int + 10)
    else None
  }

  /** The byte of two digits. */
  function ByteValue(high: char, low: char): Option<Byte> {
    match (DigitValue(high), DigitValue(low))
    case (Some(h), Some(l)) => Some((16 * h + l) as Byte)
    case _ => None
  }

  /** hex.DecodeString: None for an odd length or a character that is no digit. */
  function Parse(s: string): Option<Bytes> {
    if s == "" then Some([])
    else if |s| == 1 then None
    else
      match (ByteValue(s[0], s[1]), Parse(s[2..]))
      case (Some(b), Some(rest)) => Some([b] + rest)
      case _ => None
  }

  lemma DigitRoundTrip(d: int)
    requires 0 <= d < 16
    ensures DigitValue(DIGITS[d]) == Some(d)
  {
    assert d == 0 || d == 1 || d == 2 || d == 3 || d == 4 || d == 5 || d == 6 || d == 7
        || d == 8 || d == 9 || d == 10 || d == 11 || d == 12 || d == 13 || d == 14 || d == 15;
  }

  lemma ByteRoundTrip(b: Byte)
    ensures ByteValue(DIGITS[b as int / 16], DIGITS[b as int % 16]) == Some(b)
  {
    DigitRoundTrip(b as int / 16);
    DigitRoundTrip(b as int % 16);
  }

  /** Both directions, two digits at a time. */
  lemma ParseTwoMore(high: char, low: char, rest: string)
    ensures Parse([high, low] + rest) ==
              if ByteValue(high, low) == None || Parse(rest) == None then None
              else Some([ByteValue(high, low).value] + Parse(rest).value)
  {
    var s := [high, low] + rest;
    assert s[0] == high && s[1] == low && s[2..] == rest;
  }

  lemma PrintOneMore(b: Byte, rest: Bytes)
    ensures Print([b] + rest) == [DIGITS[b as int / 16], DIGITS[b as int % 16]] + Print(rest)
  {
    assert ([b] + rest)[1..] == rest;
  }

  /** Parsing undoes printing, for every byte string. */
  lemma {:induction false} PrintThenParse(bytes: Bytes)
    ensures Parse(Print(bytes)) == Some(bytes)
  {
    if bytes != [] {
      var b, rest := bytes[0], bytes[1..];
      assert bytes == [b] + rest;
      PrintThenParse(rest);
      ByteRoundTrip(b);
      PrintOneMore(b, rest);
      ParseTwoMore(DIGITS[b as int / 16], DIGITS[b as int % 16], Print(rest));
    }
  }

  /** Hence two byte strings with the same printed ID are the same. */
  lemma PrintIsInjective(a: Bytes, b: Bytes)
    requires Print(a) == Print(b)
    ensures a == b
  {
    PrintThenParse(a);
    PrintThenParse(b);
  }

  lemma LowerDigit(c: char)
    requires IsLowerHexDigit(c)
    ensures DigitValue(c).Some? && 0 <= DigitValue(c).value < 16 && DIGITS[DigitValue(c).value] == c
  {
    var d := DigitValue(c).value;
    assert d == 0 || d == 1 || d == 2 || d == 3 || d == 4 || d == 5 || d == 6 || d == 7
        || d == 8 || d == 9 || d == 10 || d == 11 || d == 12 || d == 13 || d == 14 || d == 15;
  }

  lemma DigitsOfByte(high: int, low: int)
    requires 0 <= high < 16 && 0 <= low < 16
    ensures (16 * high + low) / 16 == high && (16 * high + low) % 16 == low
  {
  }

  lemma ByteOfDigits(high: char, low: char) returns (h: int, l: int)
    requires IsLowerHexDigit(high) && IsLowerHexDigit(low)
    ensures 0 <= h < 16 && 0 <= l < 16 && DIGITS[h] == high && DIGITS[l] == low
    ensures ByteValue(high, low).Some? && ByteValue(high, low).value as int == 16 * h + l
  {
    LowerDigit(high);
    LowerDigit(low);
    h, l := DigitValue(high).value, DigitValue(low).value;
  }

  lemma ByteDigits(high: char, low: char)
    requires IsLowerHexDigit(high) && IsLowerHexDigit(low)
    ensures ByteValue(high, low).Some?
    ensures var b := ByteValue(high, low).value as int; DIGITS[b / 16] == high && DIGITS[b % 16] == low
  {
    var h, l := ByteOfDigits(high, low);
    var b := ByteValue(high, low).value as int;
    DigitsOfByte(h, l);
    assert b / 16 == h && b % 16 == l;
  }

  /** The byte of two lower-case digits prints as these digits. */
  lemma PrintTwoDigits(high: char, low: char, rest: Bytes)
    requires IsLowerHexDigit(high) && IsLowerHexDigit(low)
    ensures ByteValue(high, low).Some? && Print([ByteValue(high, low).value] + rest) == [high, low] + Print(rest)
  {
    ByteDigits(high, low);
    PrintOneMore(ByteValue(high, low).value, rest);
  }

  predicate ParsesBack(s: string) {
    && (Parse(s).Some? <==> |s| % 2 == 0)
    && (Parse(s).Some? ==> Print(Parse(s).value) == s)
  }

  lemma TwoMoreParseBack(high: char, low: char, rest: string)
    requires IsLowerHexDigit(high) && IsLowerHexDigit(low) && ParsesBack(rest)
    ensures ParsesBack([high, low] + rest)
  {
    ParseTwoMore(high, low, rest);
    if Parse(rest).Some? {
      PrintTwoDigits(high, low, Parse(rest).value);
    } else {
      PrintTwoDigits(high, low, []);
    }
  }

  /** The other direction: lower-case digits parse exactly when their number is even, and then printing
      undoes parsing. */
  lemma {:induction false} ParseThenPrint(s: string)
    requires AllLowerHex(s)
    ensures ParsesBack(s)
  {
    if |s| >= 2 {
      ParseThenPrint(s[2..]);
      TwoMoreParseBack(s[0], s[1], s[2..]);
      assert s == [s[0], s[1]] + s[2..];
    }
  }

  // ---- Upper case and other characters ----

  function Lower(s: string): (r: string)
    ensures |r| == |s|
    ensures forall i | 0 <= i < |s| :: r[i] == if 'A' <= s[i] <= 'F' then s[i] + ' ' else s[i]
  {
    seq(|s|, i requires 0 <= i < |s| => if 'A' <= s[i] <= 'F' then s[i] + ' ' else s[i])
  }

  lemma LowerTwoMore(high: char, low: char, rest: string)
    ensures Lower([high, low] + rest) == Lower([high, low]) + Lower(rest)
    ensures AllLowerHex(Lower([high, low] + rest)) <==> AllLowerHex(Lower([high, low])) && AllLowerHex(Lower(rest))
  {
    var s := [high, low] + rest;
    assert Lower(s) == Lower([high, low]) + Lower(rest);
    if AllLowerHex(Lower(s)) {
      assert forall i | 0 <= i < |rest| :: Lower(rest)[i] == Lower(s)[i + 2];
      assert forall i | 0 <= i < 2 :: Lower([high, low])[i] == Lower(s)[i];
    }
  }

  lemma ByteIgnoresCase(high: char, low: char)
    ensures var l := Lower([high, low]);
            && ByteValue(high, low) == ByteValue(l[0], l[1])
            && (ByteValue(high, low).Some? <==> AllLowerHex(l))
  {
    var l := Lower([high, low]);
    assert AllLowerHex(l) <==> IsLowerHexDigit(l[0]) && IsLowerHexDigit(l[1]);
  }

  lemma {:induction false} ParseIgnoresCase(s: string)
    ensures Parse(s) == Parse(Lower(s))
    ensures Parse(s).Some? ==> AllLowerHex(Lower(s))
  {
    if |s| >= 2 {
      ParseIgnoresCase(s[2..]);
      assert s == [s[0], s[1]] + s[2..];
      var l := Lower([s[0], s[1]]);
      LowerTwoMore(s[0], s[1], s[2..]);
      ByteIgnoresCase(s[0], s[1]);
      ParseTwoMore(s[0], s[1], s[2..]);
      assert l == [l[0], l[1]];
      ParseTwoMore(l[0], l[1], Lower(s[2..]));
    }
  }

  /** Exactly the strings of an even number of digits of either case parse, and printing what they give
      restores them in lower case. */
  lemma ParsesExactly(s: string)
    ensures Parse(s).Some? <==> |s| % 2 == 0 && AllLowerHex(Lower(s))
    ensures Parse(s).Some? ==> Print(Parse(s).value) == Lower(s)
  {
    ParseIgnoresCase(s);
    if AllLowerHex(Lower(s)) {
      ParseThenPrint(Lower(s));
    }
  }

  // ---- Which IDs are valid ----

  /** s is what "%x" prints for some ID of low to high bytes. */
  ghost predicate Printed(s: string, low: nat, high: nat) {
    exists b: Bytes :: low <= |b| <= high && s == Print(b)
  }

  lemma PrintedHasShape(s: string, low: nat, high: nat)
    requires Printed(s, low, high)
    ensures 2 * low <= |s| <= 2 * high && |s| % 2 == 0 && AllLowerHex(s)
  {
    var b: Bytes :| low <= |b| <= high && s == Print(b);
  }

  lemma ShapeIsPrinted(s: string, low: nat, high: nat)
    requires 2 * low <= |s| <= 2 * high && |s| % 2 == 0 && AllLowerHex(s)
    ensures Printed(s, low, high)
  {
    ParseThenPrint(s);
    var b := Parse(s).value;
    assert low <= |b| <= high && s == Print(b);
  }

  lemma PrintedMeans(s: string, low: nat, high: nat)
    ensures Printed(s, low, high) <==> 2 * low <= |s| <= 2 * high && |s| % 2 == 0 && AllLowerHex(s)
  {
    if Printed(s, low, high) {
      PrintedHasShape(s, low, high);
    }
    if 2 * low <= |s| <= 2 * high && |s| % 2 == 0 && AllLowerHex(s) {
      ShapeIsPrinted(s, low, high);
    }
  }

  /** The server takes exactly the printed IDs of 2 to 500 bytes. */
  lemma ServerIdsArePrinted(s: string)
    ensures ValidServerId(s) <==> Printed(s, 2, 500)
  {
    PrintedMeans(s, 2, 500);
  }

  /** The disk cache takes exactly the printed IDs of 2 to 50 bytes, and those of 2 to 49 bytes with one
      digit more. */
  lemma ClientIdsArePrinted(s: string)
    ensures ValidClientId(s) <==>
              Printed(s, 2, 50) || (s != "" && IsLowerHexDigit(s[|s| - 1]) && Printed(s[..|s| - 1], 2, 49))
  {
    PrintedMeans(s, 2, 50);
    if s != "" {
      PrintedMeans(s[..|s| - 1], 2, 49);
      LastDigit(s);
    }
  }

  lemma LastDigit(s: string)
    requires s != ""
    ensures AllLowerHex(s) <==> AllLowerHex(s[..|s| - 1]) && IsLowerHexDigit(s[|s| - 1])
  {
    forall i | 0 <= i < |s|
      ensures s[i] == if i < |s| - 1 then s[..|s| - 1][i] else s[|s| - 1]
    {
    }
  }

  /** The ID of any real action or output, a hash of 32 bytes, is valid on both sides. */
  lemma HashesAreValid(b: Bytes)
    requires |b| == 32
    ensures ValidServerId(Print(b)) && ValidClientId(Print(b))
  {
  }

  /** High digit first, in lower case. */
  lemma PrintsHighDigitFirst()
    ensures Print([0x01, 0xAB, 0xF0]) == "01abf0"
  {
    assert Print([0xF0]) == "f0";
    assert Print([0xAB, 0xF0]) == "abf0" by { assert [0xAB, 0xF0][1..] == [0xF0 as Byte]; }
    assert [0x01, 0xAB, 0xF0][1..] == [0xAB as Byte, 0xF0];
  }
}
