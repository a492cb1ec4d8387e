/** What the compressor writes, as data: literals and matches, their bits under
    the fixed Huffman code, and the proof that the reference decoder inverts
    them.  Follows the tables and macros of src/import/stb_image_write.h. */
module Deflate {
  import opened Bits
  import opened Wrappers
  import opened Inflate

  const LENGTHC: seq<nat> :=
    [3, 4, 5, 6, 7, 8, 9, 10, 11, 13, 15, 17, 19, 23, 27, 31, 35, 43, 51, 59,
     67, 83, 99, 115, 131, 163, 195, 227, 258, 259]
  const LENGTHEB: seq<nat> :=
    [0, 0, 0, 0, 0, 0, 0, 0, 1, 1, 1, 1, 2, 2, 2, 2, 3, 3, 3, 3, 4, 4, 4, 4, 5, 5, 5, 5, 0]
  const DISTC: seq<nat> :=
    [1, 2, 3, 4, 5, 7, 9, 13, 17, 25, 33, 49, 65, 97, 129, 193, 257, 385, 513, 769,
     1025, 1537, 2049, 3073, 4097, 6145, 8193, 12289, 16385, 24577, 32768]
  const DISTEB: seq<nat> :=
    [0, 0, 0, 0, 1, 1, 2, 2, 3, 3, 4, 4, 5, 5, 6, 6, 7, 7, 8, 8, 9, 9, 10, 10, 11, 11,
     12, 12, 13, 13]

  /** One element of the LZ77 stream. */
  datatype Token = Literal(byte: Byte) | Match(length: nat, distance: nat)

  predicate TokenOk(t: Token, output: seq<Byte>) {
    t.Match? ==> 3 <= t.length <= 258 && 1 <= t.distance <= 32767 && t.distance <= |output|
  }

  function ExpandToken(t: Token, output: seq<Byte>): seq<Byte>
    requires TokenOk(t, output)
  {
    match t
    case Literal(b) => output + [b]
    case Match(length, distance) => CopyMatch(output, length, distance)
  }

  /** The bytes a token stream stands for after output; None if some match
      has an illegal length or reaches before the first byte. */
  function Expand(tokens: seq<Token>, output: seq<Byte>): Option<seq<Byte>>
    decreases |tokens|
  {
    if tokens == [] then Some(output)
    else if !TokenOk(tokens[0], output) then None
    else Expand(tokens[1..], ExpandToken(tokens[0], output))
  }

  lemma {:induction false} ExpandSnoc(tokens: seq<Token>, t: Token, output: seq<Byte>)
    requires Expand(tokens, output).Some?
    requires TokenOk(t, Expand(tokens, output).value)
    ensures Expand(tokens + [t], output) == Some(ExpandToken(t, Expand(tokens, output).value))
    decreases |tokens|
  {
    if tokens == [] {
      assert (tokens + [t])[1..] == [];
    } else {
      assert (tokens + [t])[1..] == tokens[1..] + [t];
      ExpandSnoc(tokens[1..], t, ExpandToken(tokens[0], output));
    }
  }

  /** A Huffman code: most significant bit first. */
  function Code(code: nat, n: nat): (bits: seq<bool>)
    ensures |bits| == n
  {
    Reverse(LowBits(code, n))
  }

  /** The fixed code of a literal/length symbol. */
  function SymbolBits(n: nat): seq<bool>
    requires n <= 287
  {
    if n <= 143 then Code(0x30 + n, 8)
    else if n <= 255 then Code(0x190 + n - 144, 9)
    else if n <= 279 then Code(n - 256, 7)
    else Code(0xc0 + n - 280, 8)
  }

  predicate LengthIndexOk(length: nat, j: nat) {
    j < 29 && LENGTHC[j] <= length < LENGTHC[j + 1]
  }

  predicate DistanceIndexOk(distance: nat, j: nat) {
    j < 30 && DISTC[j] <= distance < DISTC[j + 1]
  }

  function LengthIndex(length: nat, from: nat): (j: nat)
    requires from < 29 && LENGTHC[from] <= length <= 258
    ensures LengthIndexOk(length, j)
    decreases 29 - from
  {
    if length > LENGTHC[from + 1] - 1 then LengthIndex(length, from + 1) else from
  }

  function DistanceIndex(distance: nat, from: nat): (j: nat)
    requires from < 30 && DISTC[from] <= distance <= 32767
    ensures DistanceIndexOk(distance, j)
    decreases 30 - from
  {
    if distance > DISTC[from + 1] - 1 then DistanceIndex(distance, from + 1) else from
  }

  function LengthBits(length: nat): seq<bool>
    requires 3 <= length <= 258
  {
    var j := LengthIndex(length, 0);
    SymbolBits(257 + j) + LowBits(length - LENGTHC[j], LENGTHEB[j])
  }

  function DistanceBits(distance: nat): seq<bool>
    requires 1 <= distance <= 32767
  {
    var j := DistanceIndex(distance, 0);
    Code(j, 5) + LowBits(distance - DISTC[j], DISTEB[j])
  }

  function TokenBits(t: Token): seq<bool>
    requires t.Match? ==> 3 <= t.length <= 258 && 1 <= t.distance <= 32767
  {
    match t
    case Literal(b) => SymbolBits(b)
    case Match(length, distance) => LengthBits(length) + DistanceBits(distance)
  }

  predicate Encodable(tokens: seq<Token>) {
    forall t <- tokens :: t.Match? ==> 3 <= t.length <= 258 && 1 <= t.distance <= 32767
  }

  function StreamBits(tokens: seq<Token>): seq<bool>
    requires Encodable(tokens)
  {
    if tokens == [] then [] else TokenBits(tokens[0]) + StreamBits(tokens[1..])
  }

  lemma {:induction false} StreamBitsSnoc(tokens: seq<Token>, t: Token)
    requires Encodable(tokens) && Encodable([t])
    ensures Encodable(tokens + [t])
    ensures StreamBits(tokens + [t]) == StreamBits(tokens) + TokenBits(t)
  {
    if tokens == [] {
      assert tokens + [t] == [t];
      assert StreamBits([t]) == TokenBits(t) + StreamBits([]);
    } else {
      assert (tokens + [t])[1..] == tokens[1..] + [t];
      StreamBitsSnoc(tokens[1..], t);
    }
  }

  // ----- the tables agree with the arithmetic rule of RFC 1951 -----

  lemma PowTable()
    ensures Pow2(1) == 2 && Pow2(2) == 4 && Pow2(3) == 8 && Pow2(4) == 16 && Pow2(5) == 32
    ensures Pow2(6) == 64 && Pow2(7) == 128 && Pow2(8) == 256 && Pow2(9) == 512
    ensures Pow2(10) == 1024 && Pow2(11) == 2048 && Pow2(12) == 4096 && Pow2(13) == 8192
  {
  }

  predicate LengthEntryOk(j: nat)
    requires j < 29
  {
    && LENGTHC[j] == LengthBase(257 + j) && LENGTHEB[j] == LengthExtraBits(257 + j) <= 5
    && LENGTHC[j + 1] - LENGTHC[j] <= Pow2(LENGTHEB[j])
  }

  predicate LengthGroupIs(e: nat)
    requires 1 <= e <= 5
  {
    && LENGTHC[4 * e + 4] == 3 + 4 * Pow2(e) && LENGTHC[4 * e + 5] == 3 + 5 * Pow2(e)
    && LENGTHC[4 * e + 6] == 3 + 6 * Pow2(e) && LENGTHC[4 * e + 7] == 3 + 7 * Pow2(e)
    && LENGTHC[4 * e + 8] <= 3 + 8 * Pow2(e)
    && LENGTHEB[4 * e + 4] == LENGTHEB[4 * e + 5] == LENGTHEB[4 * e + 6] == LENGTHEB[4 * e + 7] == e
  }

  lemma LengthGroup(e: nat)
    requires 1 <= e <= 5
    ensures LengthGroupIs(e)
  {
    hide LengthGroupIs;
    if e <= 2 {
      LengthGroupLow(e);
    } else {
      LengthGroupHigh(e);
    }
  }

  lemma LengthGroupLow(e: nat)
    requires 1 <= e <= 2
    ensures LengthGroupIs(e)
  {
    PowTable();
    hide Pow2;
    assert e == 1 || e == 2;
  }

  lemma LengthGroupHigh(e: nat)
    requires 3 <= e <= 5
    ensures LengthGroupIs(e)
  {
    PowTable();
    hide Pow2;
    assert e == 3 || e == 4 || e == 5;
  }

  lemma {:induction false} LengthRule(e: nat)
    requires 1 <= e <= 5
    ensures LengthBase(261 + 4 * e) == 3 + 4 * Pow2(e) && LengthExtraBits(261 + 4 * e) == e
    ensures LengthBase(262 + 4 * e) == 3 + 5 * Pow2(e) && LengthExtraBits(262 + 4 * e) == e
    ensures LengthBase(263 + 4 * e) == 3 + 6 * Pow2(e) && LengthExtraBits(263 + 4 * e) == e
    ensures LengthBase(264 + 4 * e) == 3 + 7 * Pow2(e) && LengthExtraBits(264 + 4 * e) == e
  {
    hide Pow2;
    assert 4 * e / 4 == (4 * e + 1) / 4 == (4 * e + 2) / 4 == (4 * e + 3) / 4 == e;
  }

  lemma LengthGroupOk(e: nat)
    requires 1 <= e <= 5
    ensures LengthEntryOk(4 * e + 4) && LengthEntryOk(4 * e + 5)
    ensures LengthEntryOk(4 * e + 6) && LengthEntryOk(4 * e + 7)
  {
    hide Pow2, LengthBase, LengthExtraBits;
    LengthGroup(e);
    LengthRule(e);
  }

  lemma LengthEnds(j: nat)
    requires j < 8 || j == 28
    ensures LengthEntryOk(j)
  {
    assert j == 0 || j == 1 || j == 2 || j == 3 || j == 4 || j == 5 || j == 6 || j == 7 || j == 28;
  }

  lemma LengthTable(j: nat)
    requires j < 29
    ensures LengthEntryOk(j)
  {
    hide LengthEntryOk;
    if j < 8 || j == 28 {
      LengthEnds(j);
    } else {
      LengthGroupOk((j - 4) / 4);
    }
  }

  predicate DistanceEntryOk(j: nat)
    requires j < 30
  {
    && DISTC[j] == DistanceBase(j) && DISTEB[j] == DistanceExtraBits(j) <= 13
    && DISTC[j + 1] - DISTC[j] <= Pow2(DISTEB[j]) && DISTC[j + 1] <= 32768
  }

  predicate DistancePairOk(e: nat)
    requires e <= 13
  {
    && DISTC[2 * e + 2] == 1 + 2 * Pow2(e)
    && DISTC[2 * e + 3] == 1 + 3 * Pow2(e) <= 32768
    && DISTC[2 * e + 4] <= 1 + 4 * Pow2(e) && DISTC[2 * e + 4] <= 32768
    && DISTEB[2 * e + 2] == DISTEB[2 * e + 3] == e
  }

  lemma DistancePairLow(e: nat)
    requires 1 <= e < 5
    ensures DistancePairOk(e)
  {
    PowTable();
    hide Pow2;
    assert e == 1 || e == 2 || e == 3 || e == 4;
  }

  lemma DistancePairMiddle(e: nat)
    requires 5 <= e < 9
    ensures DistancePairOk(e)
  {
    PowTable();
    hide Pow2;
    assert e == 5 || e == 6 || e == 7 || e == 8;
  }

  lemma DistancePairHigh(e: nat)
    requires 9 <= e <= 13
    ensures DistancePairOk(e)
  {
    PowTable();
    hide Pow2;
    assert e == 9 || e == 10 || e == 11 || e == 12 || e == 13;
  }

  lemma DistanceRule(e: nat)
    requires 1 <= e <= 13
    ensures DistanceBase(2 * e + 2) == 1 + 2 * Pow2(e) && DistanceExtraBits(2 * e + 2) == e
    ensures DistanceBase(2 * e + 3) == 1 + 3 * Pow2(e) && DistanceExtraBits(2 * e + 3) == e
  {
    hide Pow2;
    assert (2 * e + 2) / 2 - 1 == e == (2 * e + 3) / 2 - 1;
    assert (2 * e + 2) % 2 == 0 && (2 * e + 3) % 2 == 1;
  }

  lemma DistanceStart(j: nat)
    requires j < 4
    ensures DistanceEntryOk(j)
  {
    assert j == 0 || j == 1 || j == 2 || j == 3;
  }

  lemma DistancePairEntries(e: nat)
    requires 1 <= e <= 13
    ensures DistanceEntryOk(2 * e + 2) && DistanceEntryOk(2 * e + 3)
  {
    hide Pow2, DistanceBase, DistanceExtraBits;
    if e < 5 {
      DistancePairLow(e);
    } else if e < 9 {
      DistancePairMiddle(e);
    } else {
      DistancePairHigh(e);
    }
    DistanceRule(e);
  }

  lemma DistanceTable(j: nat)
    requires j < 30
    ensures DistanceEntryOk(j)
  {
    hide DistanceEntryOk;
    if j < 4 {
      DistanceStart(j);
    } else {
      DistancePairEntries(j / 2 - 1);
    }
  }

  // ----- decoding what was encoded -----

  lemma ReadNumberOf(v: nat, n: nat, rest: seq<bool>)
    requires v < Pow2(n)
    ensures ReadNumber(LowBits(v, n) + rest, n) == Some(Read(v, rest))
  {
    NumberOfLowBits(v, n);
    assert (LowBits(v, n) + rest)[..n] == LowBits(v, n);
    assert (LowBits(v, n) + rest)[n..] == rest;
  }

  lemma ReadCodeOf(c: nat, n: nat, rest: seq<bool>)
    requires c < Pow2(n)
    ensures ReadCode(Code(c, n) + rest, n) == Some(Read(c, rest))
  {
    NumberOfLowBits(c, n);
    ReverseReverse(LowBits(c, n));
    assert (Code(c, n) + rest)[..n] == Code(c, n);
    assert (Code(c, n) + rest)[n..] == rest;
  }

  /** A longer code starts with its high bits. */
  lemma CodeSplit(c: nat, n: nat)
    ensures Code(c, n + 1) == Code(c / 2, n) + [c % 2 == 1]
  {
    assert LowBits(c, n + 1)[1..] == LowBits(c / 2, n);
  }

  lemma CodePrefix(c: nat, n: nat, rest: seq<bool>)
    ensures Code(c, n + 1) + rest == Code(c / 2, n) + ([c % 2 == 1] + rest)
  {
    hide Code;
    CodeSplit(c, n);
    Assoc(Code(c / 2, n), [c % 2 == 1], rest);
  }

  lemma ReadCodePrefix(c: nat, n: nat, rest: seq<bool>)
    requires c < Pow2(n + 1)
    ensures ReadCode(Code(c, n + 1) + rest, n) == Some(Read(c / 2, [c % 2 == 1] + rest))
  {
    hide ReadCode, Code;
    CodePrefix(c, n, rest);
    assert c / 2 < Pow2(n);
    ReadCodeOf(c / 2, n, [c % 2 == 1] + rest);
  }

  lemma ReadSymbol7(bits: seq<bool>, c7: Read)
    requires ReadCode(bits, 7) == Some(c7) && c7.value < 24
    ensures ReadSymbol(bits) == Some(Read(256 + c7.value, c7.rest))
  {
  }

  lemma ReadSymbol8(bits: seq<bool>, c7: Read, c8: Read)
    requires ReadCode(bits, 7) == Some(c7) && c7.value >= 24
    requires ReadCode(bits, 8) == Some(c8) && 48 <= c8.value < 200
    ensures ReadSymbol(bits) == Some(Read(if c8.value < 192 then c8.value - 48 else c8.value + 88, c8.rest))
  {
  }

  lemma ReadSymbol9(bits: seq<bool>, c7: Read, c8: Read, c9: Read)
    requires ReadCode(bits, 7) == Some(c7) && c7.value >= 24
    requires ReadCode(bits, 8) == Some(c8) && c8.value >= 200
    requires ReadCode(bits, 9) == Some(c9) && 400 <= c9.value < 512
    ensures ReadSymbol(bits) == Some(Read(c9.value - 256, c9.rest))
  {
  }

  lemma ReadSymbolOf(n: nat, rest: seq<bool>)
    requires n <= 287
    ensures ReadSymbol(SymbolBits(n) + rest) == Some(Read(n, rest))
  {
    hide ReadSymbol, ReadCode, Code;
    PowTable();
    if n <= 143 || n >= 280 {
      var c := if n <= 143 then 0x30 + n else 0xc0 + n - 280;
      ReadCodePrefix(c, 7, rest);
      ReadCodeOf(c, 8, rest);
      ReadSymbol8(Code(c, 8) + rest, Read(c / 2, [c % 2 == 1] + rest), Read(c, rest));
    } else if n <= 255 {
      ReadSymbolNine(0x190 + n - 144, rest);
    } else {
      ReadCodeOf(n - 256, 7, rest);
      ReadSymbol7(Code(n - 256, 7) + rest, Read(n - 256, rest));
    }
  }

  lemma ReadSymbolNine(c: nat, rest: seq<bool>)
    requires 400 <= c < 512
    ensures ReadSymbol(Code(c, 9) + rest) == Some(Read(c - 256, rest))
  {
    hide ReadSymbol, ReadCode, Code;
    PowTable();
    var tail := [c % 2 == 1] + rest;
    CodeSplit(c, 8);
    assert Code(c, 9) + rest == Code(c / 2, 8) + tail;
    ReadCodePrefix(c / 2, 7, tail);
    ReadCodePrefix(c, 8, rest);
    ReadCodeOf(c, 9, rest);
    ReadSymbol9(Code(c, 9) + rest, Read(c / 2 / 2, [c / 2 % 2 == 1] + tail), Read(c / 2, tail), Read(c, rest));
  }

  lemma ReadLengthCode(code: nat, start: nat, n: nat, extra: nat, rest: seq<bool>)
    requires 257 <= code <= 285 && start == LengthBase(code) && n == LengthExtraBits(code) && extra < Pow2(n)
    ensures ReadLength(code, LowBits(extra, n) + rest) == Some(Read(start + extra, rest))
  {
    hide LengthBase, LengthExtraBits, ReadNumber, LowBits;
    ReadNumberOf(extra, n, rest);
  }

  lemma ReadLengthOf(length: nat, j: nat, rest: seq<bool>)
    requires LengthIndexOk(length, j)
    ensures ReadLength(257 + j, LowBits(length - LENGTHC[j], LENGTHEB[j]) + rest) == Some(Read(length, rest))
  {
    hide ReadLength, LengthBase, LengthExtraBits, LowBits, Pow2;
    LengthTable(j);
    ReadLengthCode(257 + j, LENGTHC[j], LENGTHEB[j], length - LENGTHC[j], rest);
  }

  lemma ReadDistanceFields(bits: seq<bool>, code: Read, extra: Read)
    requires ReadCode(bits, 5) == Some(code) && code.value < 30
    requires ReadNumber(code.rest, DistanceExtraBits(code.value)) == Some(extra)
    ensures ReadDistance(bits) == Some(Read(DistanceBase(code.value) + extra.value, extra.rest))
  {
  }

  lemma ReadDistanceCode(k: nat, start: nat, n: nat, extra: nat, rest: seq<bool>)
    requires k < 30 && start == DistanceBase(k) && n == DistanceExtraBits(k) && extra < Pow2(n)
    ensures ReadDistance(Code(k, 5) + (LowBits(extra, n) + rest)) == Some(Read(start + extra, rest))
  {
    hide ReadDistance, ReadCode, ReadNumber, LowBits, Code;
    var tail := LowBits(extra, n) + rest;
    ReadNumberOf(extra, n, rest);
    assert k < Pow2(5) by { PowTable(); }
    ReadCodeOf(k, 5, tail);
    ReadDistanceFields(Code(k, 5) + tail, Read(k, tail), Read(extra, rest));
  }

  lemma {:induction false} ReadDistanceOf(distance: nat, k: nat, rest: seq<bool>)
    requires DistanceIndexOk(distance, k)
    ensures ReadDistance(Code(k, 5) + (LowBits(distance - DISTC[k], DISTEB[k]) + rest)) == Some(Read(distance, rest))
  {
    hide ReadDistance, DistanceBase, DistanceExtraBits, Code, LowBits;
    DistanceTable(k);
    ReadDistanceCode(k, DISTC[k], DISTEB[k], distance - DISTC[k], rest);
  }

  lemma ReadMatchOf(code: nat, bits: seq<bool>, length: Read, distance: Read, output: seq<Byte>)
    requires 257 <= code <= 285
    requires ReadLength(code, bits) == Some(length) && ReadDistance(length.rest) == Some(distance)
    requires 1 <= distance.value <= |output| && distance.value <= 32768
    ensures ReadMatch(code, bits, output) == Some(Body(CopyMatch(output, length.value, distance.value), distance.rest))
  {
  }

  lemma ReadBlockMatch(code: nat, tail: seq<bool>, rest: seq<bool>, output: seq<Byte>, copied: seq<Byte>)
    requires 257 <= code <= 285
    requires ReadMatch(code, tail, output) == Some(Body(copied, rest))
    ensures ReadFixedBlock(SymbolBits(code) + tail, output) == ReadFixedBlock(rest, copied)
  {
    hide ReadSymbol, ReadMatch, SymbolBits, CopyMatch;
    ReadSymbolOf(code, tail);
  }

  lemma ReadBlockLiteral(b: Byte, rest: seq<bool>, output: seq<Byte>)
    ensures ReadFixedBlock(SymbolBits(b) + rest, output) == ReadFixedBlock(rest, output + [b])
  {
    hide ReadSymbol, ReadMatch, SymbolBits;
    ReadSymbolOf(b, rest);
  }

  lemma ReadBlockEnd(rest: seq<bool>, output: seq<Byte>)
    ensures ReadFixedBlock(SymbolBits(256) + rest, output) == Some(Body(output, rest))
  {
    hide ReadSymbol, ReadMatch, SymbolBits;
    ReadSymbolOf(256, rest);
  }

  lemma ReadToken(t: Token, rest: seq<bool>, output: seq<Byte>)
    requires TokenOk(t, output)
    ensures ReadFixedBlock(TokenBits(t) + rest, output) == ReadFixedBlock(rest, ExpandToken(t, output))
  {
    hide ReadFixedBlock, SymbolBits, LengthBits, DistanceBits, CopyMatch;
    match t
    case Literal(b) =>
      ReadBlockLiteral(b, rest, output);
    case Match(length, distance) =>
      ReadMatchToken(length, distance, rest, output);
  }

  lemma LengthBitsAre(length: nat) returns (j: nat)
    requires 3 <= length <= 258
    ensures LengthIndexOk(length, j)
    ensures LengthBits(length) == SymbolBits(257 + j) + LowBits(length - LENGTHC[j], LENGTHEB[j])
  {
    hide LengthIndex, SymbolBits, LowBits;
    j := LengthIndex(length, 0);
  }

  lemma DistanceBitsAre(distance: nat) returns (k: nat)
    requires 1 <= distance <= 32767
    ensures DistanceIndexOk(distance, k)
    ensures DistanceBits(distance) == Code(k, 5) + LowBits(distance - DISTC[k], DISTEB[k])
  {
    hide DistanceIndex, Code, LowBits;
    k := DistanceIndex(distance, 0);
  }

  /** What the decoder makes of the four fields of a match. */
  lemma ReadFields(code: nat, extra: seq<bool>, dist: seq<bool>, more: seq<bool>, rest: seq<bool>,
                   length: nat, distance: nat, output: seq<Byte>)
    requires 257 <= code <= 285 && 1 <= distance <= |output| && distance <= 32768
    requires ReadLength(code, extra + (dist + (more + rest))) == Some(Read(length, dist + (more + rest)))
    requires ReadDistance(dist + (more + rest)) == Some(Read(distance, rest))
    ensures ReadFixedBlock((SymbolBits(code) + extra) + (dist + more) + rest, output)
            == ReadFixedBlock(rest, CopyMatch(output, length, distance))
  {
    hide ReadFixedBlock, ReadMatch, ReadLength, ReadDistance, SymbolBits, CopyMatch;
    var tail := dist + (more + rest);
    FieldsAssoc(SymbolBits(code), extra, dist, more, rest);
    ReadMatchOf(code, extra + tail, Read(length, tail), Read(distance, rest), output);
    ReadBlockMatch(code, extra + tail, rest, output, CopyMatch(output, length, distance));
  }

  lemma ReadMatchToken(length: nat, distance: nat, rest: seq<bool>, output: seq<Byte>)
    requires 3 <= length <= 258 && 1 <= distance <= 32767 && distance <= |output|
    ensures ReadFixedBlock(LengthBits(length) + DistanceBits(distance) + rest, output)
            == ReadFixedBlock(rest, CopyMatch(output, length, distance))
  {
    hide ReadFixedBlock, ReadLength, ReadDistance, SymbolBits, Code, LowBits, CopyMatch, LengthBits, DistanceBits;
    var j := LengthBitsAre(length);
    var k := DistanceBitsAre(distance);
    var extra, more := LowBits(length - LENGTHC[j], LENGTHEB[j]), LowBits(distance - DISTC[k], DISTEB[k]);
    ReadLengthOf(length, j, Code(k, 5) + (more + rest));
    ReadDistanceOf(distance, k, rest);
    ReadFields(257 + j, extra, Code(k, 5), more, rest, length, distance, output);
  }

  lemma Assoc(a: seq<bool>, b: seq<bool>, c: seq<bool>)
    ensures (a + b) + c == a + (b + c)
  {
  }

  lemma FieldsAssoc(a: seq<bool>, b: seq<bool>, c: seq<bool>, d: seq<bool>, e: seq<bool>)
    ensures (a + b) + (c + d) + e == a + (b + (c + (d + e)))
  {
  }

  /** Decoding the bits of a token stream and its end-of-block code gives the
      bytes the stream expands to. */
  lemma {:induction false} ReadTokens(tokens: seq<Token>, rest: seq<bool>, output: seq<Byte>)
    requires Encodable(tokens) && Expand(tokens, output).Some?
    ensures ReadFixedBlock(StreamBits(tokens) + SymbolBits(256) + rest, output)
            == Some(Body(Expand(tokens, output).value, rest))
    decreases |tokens|
  {
    hide ReadFixedBlock, TokenBits, SymbolBits, ExpandToken;
    if tokens == [] {
      assert StreamBits(tokens) + SymbolBits(256) + rest == SymbolBits(256) + rest;
      ReadBlockEnd(rest, output);
    } else {
      var tail := StreamBits(tokens[1..]) + SymbolBits(256) + rest;
      assert StreamBits(tokens) + SymbolBits(256) + rest == TokenBits(tokens[0]) + tail;
      ReadToken(tokens[0], tail, output);
      ReadTokens(tokens[1..], rest, ExpandToken(tokens[0], output));
    }
  }

  /** Copying from an equal earlier stretch of the data continues the data,
      even when source and target overlap. */
  lemma {:induction false} CopyFromData(data: seq<Byte>, p: nat, i: nat, length: nat)
    requires p < i && i + length <= |data| && Repeats(data, p, i, length)
    ensures CopyMatch(data[..i], length, i - p) == data[..i + length]
    decreases length
  {
    if length > 0 {
      assert data[p] == data[i];
      assert data[..i] + [data[p]] == data[..i + 1];
      CopyFromData(data, p + 1, i + 1, length - 1);
    }
  }

  /** The n bytes at p are also the n bytes at i. */
  predicate Repeats(data: seq<Byte>, p: nat, i: nat, n: nat)
    requires p <= i && i + n <= |data|
  {
    forall k :: p <= k < p + n ==> data[k] == data[k + (i - p)]
  }
}
