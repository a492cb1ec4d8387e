/** Reference decoder for the compressed streams: stored and fixed-Huffman
    DEFLATE blocks (RFC 1951, sections 3.2.3 to 3.2.6) inside the zlib wrapper
    (RFC 1950, section 2.2).  Length and distance codes are given by the
    arithmetic rule behind the tables of section 3.2.5, not by tables. */
module Inflate {
  import opened Bits
  import opened Wrappers
  import Adler32

  datatype Read = Read(value: nat, rest: seq<bool>)
  datatype Body = Body(output: seq<Byte>, rest: seq<bool>)

  /** n bits as a number, least significant bit first. */
  function ReadNumber(bits: seq<bool>, n: nat): (r: Option<Read>)
    ensures r.Some? ==> n <= |bits| && r.value.rest == bits[n..]
  {
    if n <= |bits| then Some(Read(Number(bits[..n]), bits[n..])) else None
  }

  /** n bits as a number, most significant bit first (Huffman codes). */
  function ReadCode(bits: seq<bool>, n: nat): (r: Option<Read>)
    ensures r.Some? ==> n <= |bits| && r.value.rest == bits[n..]
  {
    if n <= |bits| then Some(Read(Number(Reverse(bits[..n])), bits[n..])) else None
  }

  /** One literal/length symbol of the fixed Huffman code (section 3.2.6). */
  function ReadSymbol(bits: seq<bool>): (r: Option<Read>)
    ensures r.Some? ==> |r.value.rest| < |bits|
  {
    var c7 :- ReadCode(bits, 7);
    if c7.value < 24 then Some(Read(256 + c7.value, c7.rest)) else
    var c8 :- ReadCode(bits, 8);
    if 48 <= c8.value < 192 then Some(Read(c8.value - 48, c8.rest))
    else if 192 <= c8.value < 200 then Some(Read(280 + c8.value - 192, c8.rest)) else
    var c9 :- ReadCode(bits, 9);
    if 400 <= c9.value < 512 then Some(Read(144 + c9.value - 400, c9.rest)) else None
  }

  function LengthExtraBits(code: nat): nat
    requires 257 <= code <= 285
  {
    if code < 265 || code == 285 then 0 else (code - 261) / 4
  }

  function LengthBase(code: nat): nat
    requires 257 <= code <= 285
  {
    if code < 265 then code - 254
    else if code == 285 then 258 else
    var unit, step := Pow2((code - 261) / 4), (code - 261) % 4;
    3 + 4 * unit + (if step == 0 then 0 else if step == 1 then unit else if step == 2 then 2 * unit else 3 * unit)
  }

  function DistanceExtraBits(code: nat): nat
    requires code < 30
  {
    if code < 4 then 0 else code / 2 - 1
  }

  function DistanceBase(code: nat): nat
    requires code < 30
  {
    if code < 4 then code + 1 else
    var unit := Pow2(code / 2 - 1);
    1 + 2 * unit + (if code % 2 == 1 then unit else 0)
  }

  /** Copies length bytes from distance back, one at a time (runs may overlap). */
  function CopyMatch(output: seq<Byte>, length: nat, distance: nat): (r: seq<Byte>)
    requires 1 <= distance <= |output|
    ensures |r| == |output| + length
    decreases length
  {
    if length == 0 then output
    else CopyMatch(output + [output[|output| - distance]], length - 1, distance)
  }

  /** The match length announced by a length code and its extra bits. */
  function ReadLength(code: nat, bits: seq<bool>): (r: Option<Read>)
    requires 257 <= code <= 285
    ensures r.Some? ==> |r.value.rest| <= |bits|
  {
    var extra :- ReadNumber(bits, LengthExtraBits(code));
    Some(Read(LengthBase(code) + extra.value, extra.rest))
  }

  /** A match distance: a five-bit code and its extra bits. */
  function ReadDistance(bits: seq<bool>): (r: Option<Read>)
    ensures r.Some? ==> |r.value.rest| <= |bits|
  {
    var code :- ReadCode(bits, 5);
    if code.value >= 30 then None else
    var extra :- ReadNumber(code.rest, DistanceExtraBits(code.value));
    Some(Read(DistanceBase(code.value) + extra.value, extra.rest))
  }

  /** The rest of a match after its length code. */
  function ReadMatch(code: nat, bits: seq<bool>, output: seq<Byte>): (r: Option<Body>)
    requires 257 <= code <= 285
    ensures r.Some? ==> |r.value.rest| <= |bits|
  {
    var length :- ReadLength(code, bits);
    var distance :- ReadDistance(length.rest);
    if 1 <= distance.value <= |output| && distance.value <= 32768
    then Some(Body(CopyMatch(output, length.value, distance.value), distance.rest))
    else None
  }

  /** The symbols of a fixed-Huffman block, up to and including end-of-block. */
  function ReadFixedBlock(bits: seq<bool>, output: seq<Byte>): (r: Option<Body>)
    ensures r.Some? ==> |r.value.rest| < |bits|
    decreases |bits|
  {
    var sym :- ReadSymbol(bits);
    if sym.value < 256 then ReadFixedBlock(sym.rest, output + [sym.value])
    else if sym.value == 256 then Some(Body(output, sym.rest))
    else if sym.value > 285 then None else
    var m :- ReadMatch(sym.value, sym.rest, output);
    ReadFixedBlock(m.rest, m.output)
  }

  function ReadBytes(bits: seq<bool>, n: nat): (r: Option<Body>)
    ensures r.Some? ==> 8 * n <= |bits| && r.value.rest == bits[8 * n..]
  {
    if n == 0 then Some(Body([], bits)) else
    var head :- ReadNumber(bits, 8);
    var tail :- ReadBytes(head.rest, n - 1);
    assert Pow2(8) == 256;
    Some(Body([head.value] + tail.output, tail.rest))
  }

  /** Drops bits up to the next byte boundary; the stream is whole bytes. */
  function Align(bits: seq<bool>): seq<bool> {
    bits[|bits| % 8..]
  }

  /** A stored block (section 3.2.4). */
  function ReadStoredBlock(bits: seq<bool>, output: seq<Byte>): (r: Option<Body>)
    ensures r.Some? ==> |r.value.rest| <= |bits|
  {
    var len :- ReadNumber(Align(bits), 16);
    var nlen :- ReadNumber(len.rest, 16);
    if len.value + nlen.value != 0xffff then None else
    var bytes :- ReadBytes(nlen.rest, len.value);
    Some(Body(output + bytes.output, bytes.rest))
  }

  /** A sequence of blocks, the last one carrying BFINAL (section 3.2.3). */
  function ReadBlocks(bits: seq<bool>, output: seq<Byte>): Option<Body>
    decreases |bits|
  {
    var final :- ReadNumber(bits, 1);
    var kind :- ReadNumber(final.rest, 2);
    var block :-
      if kind.value == 0 then ReadStoredBlock(kind.rest, output)
      else if kind.value == 1 then ReadFixedBlock(kind.rest, output)
      else None;
    if final.value == 1 then Some(block) else ReadBlocks(block.rest, block.output)
  }

  /** The zlib format: header, DEFLATE data, big-endian Adler-32 trailer. */
  function Decompress(stream: seq<Byte>): Option<seq<Byte>> {
    if |stream| < 2 then None else
    var cmf: nat, flg: nat := stream[0], stream[1];
    if cmf % 16 != 8 || cmf / 16 > 7 then None
    else if (cmf * 256 + flg) % 31 != 0 || flg / 32 % 2 != 0 then None else
    var body :- ReadBlocks(BytesToBits(stream[2..]), []);
    var sum :- ReadBytes(Align(body.rest), 4);
    if sum.output == Adler32.Trailer(body.output) then Some(body.output) else None
  }
}
