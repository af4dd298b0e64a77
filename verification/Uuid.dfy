/** Identifiers as text: the 8-4-4-4-12 form of section 3 of RFC 4122. */
module Uuid {
  import opened Outcomes

  newtype byte = x: int | 0 <= x < 256

  const TEXT_LENGTH := 36
  const BYTES := 16
  const DIGITS := "0123456789abcdef"

  function DigitValue(symbol: char): Option<nat> {
    if '0' <= symbol <= '9' then Some(symbol as int - '0' as int)
    else if 'a' <= symbol <= 'f' then Some(symbol as int - 'a' as int + 10)
    else if 'A' <= symbol <= 'F' then Some(symbol as int - 'A' as int + 10)
    else None
  }

  predicate IsHyphenPosition(position: nat) {
    position == 8 || position == 13 || position == 18 || position == 23
  }

  /** The well-formed texts. */
  predicate Shaped(text: string) {
    |text| == TEXT_LENGTH &&
    forall p :: 0 <= p < TEXT_LENGTH ==> if IsHyphenPosition(p) then text[p] == '-' else DigitValue(text[p]).Some?
  }

  /** Where the two digits of a byte stand. */
  function PositionOf(k: nat): nat {
    2 * k + (if k >= 4 then 1 else 0) + (if k >= 6 then 1 else 0) + (if k >= 8 then 1 else 0)
        + (if k >= 10 then 1 else 0)
  }

  /** How many digits stand before a position. */
  function DigitsBefore(p: nat): nat {
    p - (if p > 8 then 1 else 0) - (if p > 13 then 1 else 0) - (if p > 18 then 1 else 0) - (if p > 23 then 1 else 0)
  }

  function Pair(high: nat, low: nat): byte
    requires high < 16 && low < 16
  {
    (high * 16 + low) as byte
  }

  function Value(symbol: char): (v: nat)
    requires DigitValue(symbol).Some?
    ensures v < 16
  {
    DigitValue(symbol).value
  }

  /** The byte that a well-formed text spells at index `k`. */
  function Spelled(text: string, k: nat): byte
    requires Shaped(text) && k < BYTES
  {
    Pair(Value(text[PositionOf(k)]), Value(text[PositionOf(k) + 1]))
  }

  predicate Spells(text: string, bytes: seq<byte>) {
    Shaped(text) && |bytes| == BYTES && forall k :: 0 <= k < BYTES ==> bytes[k] == Spelled(text, k)
  }

  /** A text is parsed exactly when it has the shape, into exactly the bytes it spells. */
  method ParseUuid(text: string) returns (parsed: Option<seq<byte>>)
    ensures parsed.Some? <==> Shaped(text)
    ensures parsed.Some? ==> Spells(text, parsed.value)
  {
    if |text| != TEXT_LENGTH {
      return None;
    }
    var bytes := new byte[BYTES](_ => 0);
    var next := 0;
    var high: Option<nat> := None;
    for position := 0 to |text|
      invariant forall p :: 0 <= p < position ==>
                  if IsHyphenPosition(p) then text[p] == '-' else DigitValue(text[p]).Some?
      invariant 2 * next + (if high.Some? then 1 else 0) == DigitsBefore(position)
      invariant high.Some? ==> PositionOf(next) + 1 == position && DigitValue(text[position - 1]) == high
      invariant forall k :: 0 <= k < next ==> PositionOf(k) + 1 < position && SpelledSoFar(text, position, k, bytes[k])
    {
      if IsHyphenPosition(position) {
        if text[position] != '-' {
          return None;
        }
        continue;
      }
      var digit := DigitValue(text[position]);
      if digit.None? {
        return None;
      }
      if high.None? {
        high := digit;
        continue;
      }
      assert next < BYTES;
      bytes[next] := Pair(high.value, digit.value);
      next := next + 1;
      high := None;
    }
    return Some(bytes[..]);
  }

  ghost predicate SpelledSoFar(text: string, position: nat, k: nat, value: byte) {
    && PositionOf(k) + 1 < position <= |text|
    && DigitValue(text[PositionOf(k)]).Some?
    && DigitValue(text[PositionOf(k) + 1]).Some?
    && value == Pair(Value(text[PositionOf(k)]), Value(text[PositionOf(k) + 1]))
  }

  ghost predicate Canonical(bytes: seq<byte>, text: string) {
    && |bytes| == BYTES && |text| == TEXT_LENGTH
    && (forall p :: 0 <= p < TEXT_LENGTH && IsHyphenPosition(p) ==> text[p] == '-')
    && (forall k :: 0 <= k < BYTES ==>
          text[PositionOf(k)] == DIGITS[bytes[k] as int / 16]
          && text[PositionOf(k) + 1] == DIGITS[bytes[k] as int % 16])
  }

  /** The canonical text: hyphens in place, two lower-case digits per byte. */
  method FormatUuid(bytes: seq<byte>) returns (text: string)
    requires |bytes| == BYTES
    ensures Canonical(bytes, text)
  {
    text := "";
    for index := 0 to |bytes|
      invariant |text| == if index == 0 then 0 else PositionOf(index - 1) + 2
      invariant forall p :: 0 <= p < |text| && IsHyphenPosition(p) ==> text[p] == '-'
      invariant forall k :: 0 <= k < index ==>
                  text[PositionOf(k)] == DIGITS[bytes[k] as int / 16]
                  && text[PositionOf(k) + 1] == DIGITS[bytes[k] as int % 16]
    {
      if index == 4 || index == 6 || index == 8 || index == 10 {
        text := text + ['-'];
      }
      text := text + [DIGITS[bytes[index] as int / 16]];
      text := text + [DIGITS[bytes[index] as int % 16]];
    }
  }

  // ----- the two directions fit together

  lemma DigitsHaveTheirValues(v: nat)
    requires v < 16
    ensures DigitValue(DIGITS[v]) == Some(v)
  {
  }

  /** What is formatted parses back to the same bytes: for every text, only these bytes are spelled by it. */
  lemma FormattedSpellsItsBytes(bytes: seq<byte>, text: string)
    requires Canonical(bytes, text)
    ensures Spells(text, bytes)
    ensures forall other :: Spells(text, other) ==> other == bytes
  {
    forall p | 0 <= p < TEXT_LENGTH && !IsHyphenPosition(p)
      ensures DigitValue(text[p]).Some?
    {
      var k := DigitsBefore(p) / 2;
      DigitsHaveTheirValues(bytes[k] as int / 16);
      DigitsHaveTheirValues(bytes[k] as int % 16);
    }
    forall k | 0 <= k < BYTES
      ensures bytes[k] == Spelled(text, k)
    {
      DigitsHaveTheirValues(bytes[k] as int / 16);
      DigitsHaveTheirValues(bytes[k] as int % 16);
    }
  }

  function Lower(symbol: char): char {
    if 'A' <= symbol <= 'F' then symbol - 'A' + 'a' else symbol
  }

  lemma ByteIsLowerCased(text: string, bytes: seq<byte>, again: string, k: nat)
    requires Spells(text, bytes) && Canonical(bytes, again) && k < BYTES
    ensures again[PositionOf(k)] == Lower(text[PositionOf(k)])
    ensures again[PositionOf(k) + 1] == Lower(text[PositionOf(k) + 1])
  {
    assert !IsHyphenPosition(PositionOf(k)) && !IsHyphenPosition(PositionOf(k) + 1);
    var high, low := Value(text[PositionOf(k)]), Value(text[PositionOf(k) + 1]);
    assert bytes[k] == Pair(high, low);
    assert bytes[k] as int / 16 == high && bytes[k] as int % 16 == low;
  }

  /** Formatting what was parsed lower-cases the text and changes nothing else. */
  lemma ReformattingLowerCases(text: string, bytes: seq<byte>, again: string)
    requires Spells(text, bytes) && Canonical(bytes, again)
    ensures |again| == |text| && forall p :: 0 <= p < |text| ==> again[p] == Lower(text[p])
  {
    forall p | 0 <= p < TEXT_LENGTH
      ensures again[p] == Lower(text[p])
    {
      if !IsHyphenPosition(p) {
        ByteIsLowerCased(text, bytes, again, DigitsBefore(p) / 2);
      }
    }
  }

  // ----- which texts there are

  /** The digits, in both cases. */
  lemma DigitIff(symbol: char, v: nat)
    ensures DigitValue(symbol) == Some(v)
            <==> v < 16 && (symbol == "0123456789abcdef"[v] || symbol == "0123456789ABCDEF"[v])
  {
    if v < 16 { DigitsHaveTheirValues(v); }
  }

  predicate Hexadecimal(group: string) {
    forall i :: 0 <= i < |group| ==> group[i] in "0123456789abcdefABCDEF"
  }

  lemma HexadecimalIff(symbol: char)
    ensures DigitValue(symbol).Some? <==> symbol in "0123456789abcdefABCDEF"
  {
    var all := "0123456789abcdefABCDEF";
    if DigitValue(symbol).Some? {
      var v := DigitValue(symbol).value;
      DigitIff(symbol, v);
      assert symbol == all[v] || (v >= 10 && symbol == all[v + 6]);
    }
  }

  function Grouped(a: string, b: string, c: string, d: string, e: string): string {
    a + "-" + b + "-" + c + "-" + d + "-" + e
  }

  /** Five groups of hexadecimal digits, 8-4-4-4-12, and nothing else. */
  ghost predicate FiveGroups(text: string, a: string, b: string, c: string, d: string, e: string) {
    && text == Grouped(a, b, c, d, e)
    && |a| == 8 && |b| == 4 && |c| == 4 && |d| == 4 && |e| == 12
    && Hexadecimal(a) && Hexadecimal(b) && Hexadecimal(c) && Hexadecimal(d) && Hexadecimal(e)
  }

  lemma ShapedIsGrouped(text: string)
    requires Shaped(text)
    ensures FiveGroups(text, text[..8], text[9..13], text[14..18], text[19..23], text[24..])
  {
    forall p | 0 <= p < 36 && !IsHyphenPosition(p)
      ensures text[p] in "0123456789abcdefABCDEF"
    {
      HexadecimalIff(text[p]);
    }
    assert text == text[..8] + [text[8]] + text[9..13] + [text[13]] + text[14..18] + [text[18]] + text[19..23]
                   + [text[23]] + text[24..];
  }

  lemma GroupedIsShaped(text: string, a: string, b: string, c: string, d: string, e: string)
    requires FiveGroups(text, a, b, c, d, e)
    ensures Shaped(text)
  {
    forall p | 0 <= p < 36
      ensures if IsHyphenPosition(p) then text[p] == '-' else DigitValue(text[p]).Some?
    {
      if !IsHyphenPosition(p) { HexadecimalIff(text[p]); }
    }
  }

  /** So `ParseUuid` succeeds exactly on five groups of digits in either case. */
  lemma ShapedIff(text: string)
    ensures Shaped(text) <==> exists a, b, c, d, e :: FiveGroups(text, a, b, c, d, e)
  {
    if Shaped(text) { ShapedIsGrouped(text); }
    if a, b, c, d, e :| FiveGroups(text, a, b, c, d, e) { GroupedIsShaped(text, a, b, c, d, e); }
  }
}
