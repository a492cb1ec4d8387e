/** Every format of the MessagePack specification, section "Formats", whoever wrote it:
    what the reader makes of it. */
module MsgPackWire {

  import opened Bits
  import opened MsgPackFormat
  import opened MsgPackReader
  import opened MsgPackTrees

  // ----- the formats -----

  /** width is the number of bytes of a number, size or count; 0 where it is part of the
      first byte. */
  datatype Wire =
    | WNil
    | WBool(b: bool)
    | WPositive(v: int)
    | WNegative(v: int)
    | WUInt(width: nat, v: int)
    | WInt(width: nat, v: int)
    | WFloat(width: nat, bits: nat)
    | WStr(width: nat, s: seq<Byte>)
    | WBin(width: nat, s: seq<Byte>)
    | WFixExt(kind: Byte, data: seq<Byte>)
    | WExt(width: nat, kind: Byte, data: seq<Byte>)

  /** How many numbers fit so many bytes. */
  function Range(width: nat): nat {
    match width
    case 1 => 0x100
    case 2 => 0x1_0000
    case 4 => 0x1_0000_0000
    case 8 => 0x1_0000_0000_0000_0000
    case _ => 0
  }

  predicate Legal(w: Wire) {
    match w
    case WNil => true
    case WBool(_) => true
    case WPositive(v) => 0 <= v < 128
    case WNegative(v) => -32 <= v < 0
    case WUInt(width, v) => width in {1, 2, 4, 8} && 0 <= v < Range(width)
    case WInt(width, v) => width in {1, 2, 4, 8} && -(Range(width) as int) / 2 <= v < Range(width) / 2
    case WFloat(width, bits) => width in {4, 8} && bits < Range(width)
    case WStr(width, s) => if width == 0 then |s| < 32 else width in {1, 2, 4} && |s| < Range(width)
    case WBin(width, s) => width in {1, 2, 4} && |s| < Range(width)
    case WFixExt(_, data) => |data| in {1, 2, 4, 8, 16}
    case WExt(width, _, data) => width in {1, 2, 4} && |data| < Range(width)
  }

  /** The n bytes of a number, most significant first, negative ones in two's complement. */
  function Big(v: int, width: nat): (bytes: seq<Byte>)
    ensures |bytes| == if width in {1, 2, 4, 8} then width else 0
  {
    match width
    case 1 => [v % 256]
    case 2 => [v / 256 % 256, v % 256]
    case 4 => [v / 0x100_0000 % 256, v / 0x1_0000 % 256, v / 256 % 256, v % 256]
    case 8 =>
      [v / 0x100_0000_0000_0000 % 256, v / 0x1_0000_0000_0000 % 256, v / 0x100_0000_0000 % 256,
       v / 0x1_0000_0000 % 256, v / 0x100_0000 % 256, v / 0x1_0000 % 256, v / 256 % 256, v % 256]
    case _ => []
  }

  function ByWidth(one: Byte, two: Byte, four: Byte, eight: Byte, width: nat): Byte {
    if width == 1 then one else if width == 2 then two else if width == 4 then four else eight
  }

  function Bytes(w: Wire): (bytes: seq<Byte>)
    requires Legal(w)
    ensures bytes != []
  {
    match w
    case WNil => [0xc0]
    case WBool(b) => [if b then 0xc3 else 0xc2]
    case WPositive(v) => [v]
    case WNegative(v) => [256 + v]
    case WUInt(width, v) => [ByWidth(0xcc, 0xcd, 0xce, 0xcf, width)] + Big(v, width)
    case WInt(width, v) => [ByWidth(0xd0, 0xd1, 0xd2, 0xd3, width)] + Big(v, width)
    case WFloat(width, bits) => [if width == 4 then 0xca else 0xcb] + Big(bits, width)
    case WStr(width, s) =>
      (if width == 0 then [0xa0 + |s|] else [ByWidth(0xd9, 0xda, 0xdb, 0, width)] + Big(|s|, width)) + s
    case WBin(width, s) => [ByWidth(0xc4, 0xc5, 0xc6, 0, width)] + Big(|s|, width) + s
    case WFixExt(kind, data) =>
      [if |data| == 16 then 0xd8 else ByWidth(0xd4, 0xd5, 0xd6, 0xd7, |data|), kind] + data
    case WExt(width, kind, data) => [ByWidth(0xc7, 0xc8, 0xc9, 0, width)] + Big(|data|, width) + ([kind] + data)
  }

  predicate IsExt(w: Wire) {
    w.WFixExt? || w.WExt?
  }

  /** The value that the format stands for. */
  function Meaning(w: Wire): Value
    requires !IsExt(w)
  {
    match w
    case WNil => Nil
    case WBool(b) => Bool(b)
    case WPositive(v) => Int(v)
    case WNegative(v) => Int(v)
    case WUInt(_, v) => UInt(v)
    case WInt(_, v) => Int(v)
    case WFloat(width, bits) => Float(width, bits)
    case WStr(_, s) => Str(s)
    case WBin(_, s) => Bin(s)
  }

  // ----- big-endian numbers -----

  lemma BigIs(v: int, width: nat)
    requires width in {1, 2, 4, 8}
    ensures Big(v, width) == BigEndian(v, width) && Radix(width) == Range(width)
  {
    RadixValues();
    hide Radix;
    if width == 1 {
      assert BigEndian(v, 1) == BigEndian(v / 256, 0) + [v % 256];
    } else if width == 2 {
      BigTwo(v);
    } else if width == 4 {
      BigFour(v);
    } else {
      BigEight(v);
    }
  }

  lemma BigTwo(v: int)
    ensures BigEndian(v, 2) == [v / 256 % 256, v % 256]
  {
    assert BigEndian(v / 256, 1) == [v / 256 % 256];
  }

  lemma BigFour(v: int)
    ensures BigEndian(v, 4) == [v / 0x100_0000 % 256, v / 0x1_0000 % 256, v / 256 % 256, v % 256]
  {
    BigTwo(v / 0x1_0000);
    assert BigEndian(v / 256, 3) == BigEndian(v / 0x1_0000, 2) + [v / 256 % 256];
    assert BigEndian(v, 4) == BigEndian(v / 256, 3) + [v % 256];
    hide BigEndian;
  }

  lemma BigEight(v: int)
    ensures BigEndian(v, 8)
            == [v / 0x100_0000_0000_0000 % 256, v / 0x1_0000_0000_0000 % 256, v / 0x100_0000_0000 % 256,
                v / 0x1_0000_0000 % 256, v / 0x100_0000 % 256, v / 0x1_0000 % 256, v / 256 % 256, v % 256]
  {
    var high := v / 0x1_0000_0000;
    RadixValues();
    BigSplit(v, 4, 4);
    BigFour(high);
    BigFour(v);
    DivTwice(v, 0x1_0000_0000, 0x100_0000);
    DivTwice(v, 0x1_0000_0000, 0x1_0000);
    DivTwice(v, 0x1_0000_0000, 0x100);
    hide BigEndian, Radix;
  }

  lemma {:induction false} BigSplit(v: int, n: nat, m: nat)
    ensures BigEndian(v, n + m) == BigEndian(v / Radix(m), n) + BigEndian(v, m)
    decreases m
  {
    if m > 0 {
      BigSplit(v / 256, n, m - 1);
      DivTwice(v, 256, Radix(m - 1));
      assert BigEndian(v, n + m) == BigEndian(v / 256, n + m - 1) + [v % 256];
    }
  }

  lemma DivTwice(v: int, a: int, b: int)
    requires a > 0 && b > 0
    ensures a * b > 0 && v / a / b == v / (a * b)
  {
    var q, r, s := v / a / b, v / a % b, v % a;
    Positive(a, b);
    assert v == a * (b * q + r) + s;
    Spread(a, b, q, r);
    assert 0 <= a * r + s < a * b by { Fits(a, b, r, s); }
    ModUnique(v, a * b, q, a * r + s);
  }

  lemma Positive(a: int, b: int)
    requires a > 0 && b > 0
    ensures a * b > 0
  {
  }

  lemma Spread(a: int, b: int, q: int, r: int)
    ensures a * (b * q + r) == a * b * q + a * r
  {
  }

  lemma Fits(a: int, b: int, r: int, s: int)
    requires a > 0 && 0 <= r < b && 0 <= s < a
    ensures 0 <= a * r + s < a * b
  {
    assert a * r + a == a * (r + 1) <= a * b;
  }

  // ----- heads -----

  /** A number of any width. */
  lemma {:induction false} WireNumber(input: seq<Byte>, pos: nat, w: Wire)
    requires Legal(w) && Holds(input, pos, Bytes(w))
    requires w.WBool? || w.WPositive? || w.WNegative? || w.WUInt? || w.WInt? || w.WFloat?
    ensures pos < |input| && SkipOf(Typecode(input[pos])) == Number
    ensures ReadNumber(input, pos) == Ok((Meaning(w), pos + |Bytes(w)|))
  {
    hide Holds, ReadBig, FromBig, BigEndian, MsgPackFormat.Signed, Radix, Big;
    match w
    case WBool(b) => OneHeld(input, pos, if b then 0xc3 else 0xc2);
    case WPositive(v) => OneHeld(input, pos, v);
    case WNegative(v) => OneHeld(input, pos, 256 + v);
    case WUInt(width, v) =>
      BigIs(v, width);
      BigHeld(input, pos, ByWidth(0xcc, 0xcd, 0xce, 0xcf, width), v, width);
      BigEndianBack(v, width);
    case WInt(width, v) =>
      BigIs(v, width);
      BigHeld(input, pos, ByWidth(0xd0, 0xd1, 0xd2, 0xd3, width), v, width);
      SignedBack(v, width);
    case WFloat(width, bits) =>
      BigIs(bits, width);
      BigHeld(input, pos, if width == 4 then 0xca else 0xcb, bits, width);
      BigEndianBack(bits, width);
  }

  predicate IsSized(w: Wire) {
    w.WStr? || w.WBin? || w.WExt?
  }

  /** What stands in front of the bytes of a string, a binary or an extension. */
  function SizeHead(w: Wire): (head: seq<Byte>)
    requires Legal(w) && IsSized(w)
  {
    match w
    case WStr(width, s) => if width == 0 then [0xa0 + |s|] else [ByWidth(0xd9, 0xda, 0xdb, 0, width)] + Big(|s|, width)
    case WBin(width, s) => [ByWidth(0xc4, 0xc5, 0xc6, 0, width)] + Big(|s|, width)
    case WExt(width, kind, data) => [ByWidth(0xc7, 0xc8, 0xc9, 0, width)] + Big(|data|, width)
  }

  function Content(w: Wire): (s: seq<Byte>)
    requires IsSized(w)
  {
    match w
    case WStr(_, s) => s
    case WBin(_, s) => s
    case WExt(_, kind, data) => [kind] + data
  }

  function SizeOf(w: Wire): (n: nat)
    requires IsSized(w)
    ensures |Content(w)| == n + if w.WExt? then 1 else 0
  {
    match w
    case WStr(_, s) => |s|
    case WBin(_, s) => |s|
    case WExt(_, _, data) => |data|
  }

  function BaseOf(w: Wire): nat
    requires IsSized(w)
  {
    if w.WStr? then 0xd9 else if w.WBin? then 0xc4 else 0xc7
  }

  lemma SizedBytes(w: Wire)
    requires Legal(w) && IsSized(w)
    ensures Bytes(w) == SizeHead(w) + Content(w)
  {
    hide Big;
  }

  /** A size of any width is read. */
  lemma {:induction false} WireSize(input: seq<Byte>, pos: nat, w: Wire)
    requires Legal(w) && IsSized(w) && Holds(input, pos, SizeHead(w))
    ensures pos < |input| && SkipOf(Typecode(input[pos])) == Text(BaseOf(w))
    ensures (if w.WStr? then StrCount(input, pos) else ReadCount(input, pos, BaseOf(w), ERROR, 0))
            == Ok((SizeOf(w), pos + |SizeHead(w)|))
  {
    hide Holds, ReadBig, FromBig, BigEndian, Radix, Big;
    if w.WStr? && w.width == 0 {
      OneHeld(input, pos, 0xa0 + |w.s|);
    } else {
      var base := BaseOf(w);
      BigIs(SizeOf(w), w.width);
      BigHeld(input, pos, ByWidth(base, base + 1, base + 2, 0, w.width), SizeOf(w), w.width);
      BigEndianBack(SizeOf(w), w.width);
    }
  }

  // ----- skipping -----

  /** Every format is skipped to its end in any scope with elements left, but the longest
      extension of all: its size and one more for its type is 0 in 32 bits. */
  lemma {:induction false} WireSkip(input: seq<Byte>, st: State, w: Wire)
    requires Legal(w) && Holds(input, st.pos, Bytes(w)) && Fillable(st.scopes)
    ensures st.pos < |input|
    ensures var n := if w.WExt? && |w.data| == 0xffff_ffff then 5 else |Bytes(w)|;
            SkipOnce(input, st) == Ok(State(st.pos + n, Taken(st.scopes), st.store))
  {
    hide Holds, Bytes, Legal, SkipOnce, Taken, Fillable, Typecode, SkipOf, ReadNumber, StrCount, ReadCount;
    match w
    case WNil => SkipNilWire(input, st);
    case WFixExt(kind, data) => SkipFixExt(input, st, w);
    case WStr(_, _) => SkipSizedWire(input, st, w);
    case WBin(_, _) => SkipSizedWire(input, st, w);
    case WExt(_, _, _) => SkipSizedWire(input, st, w);
    case _ => SkipWireNumber(input, st, w);
  }

  /** A format of as many bytes as its first one says. */
  lemma {:induction false} SkipFixed(input: seq<Byte>, st: State, bytes: seq<Byte>)
    requires bytes != [] && Holds(input, st.pos, bytes) && Fillable(st.scopes)
    requires SkipOf(Typecode(bytes[0])) == Fixed(|bytes|)
    ensures st.pos < |input| && SkipOnce(input, st) == Ok(State(st.pos + |bytes|, Taken(st.scopes), st.store))
  {
    TextFits(input, st.pos, bytes);
    assert input[st.pos] == bytes[0];
    hide Typecode, SkipOf, SkipOnce, Taken, StepOnSkip, Holds;
    SkipIsFlat(input, st);
    TakenOnSkip(st.scopes);
  }

  lemma {:induction false} SkipNilWire(input: seq<Byte>, st: State)
    requires Holds(input, st.pos, Bytes(WNil)) && Fillable(st.scopes)
    ensures st.pos < |input| && SkipOnce(input, st) == Ok(State(st.pos + |Bytes(WNil)|, Taken(st.scopes), st.store))
  {
    assert SkipOf(Typecode(0xc0)) == Fixed(1) && Bytes(WNil) == [0xc0];
    hide *;
    SkipFixed(input, st, [0xc0]);
  }

  lemma {:induction false} SkipFixExt(input: seq<Byte>, st: State, w: Wire)
    requires Legal(w) && w.WFixExt? && Holds(input, st.pos, Bytes(w)) && Fillable(st.scopes)
    ensures st.pos < |input| && SkipOnce(input, st) == Ok(State(st.pos + |Bytes(w)|, Taken(st.scopes), st.store))
  {
    assert SkipOf(Typecode(Bytes(w)[0])) == Fixed(|Bytes(w)|);
    hide *;
    NotEmpty(w);
    SkipFixed(input, st, Bytes(w));
  }

  lemma NotEmpty(w: Wire)
    requires Legal(w)
    ensures Bytes(w) != []
  {
  }

  lemma {:induction false} SkipWireNumber(input: seq<Byte>, st: State, w: Wire)
    requires Legal(w) && Holds(input, st.pos, Bytes(w)) && Fillable(st.scopes)
    requires w.WBool? || w.WPositive? || w.WNegative? || w.WUInt? || w.WInt? || w.WFloat?
    ensures st.pos < |input| && SkipOnce(input, st) == Ok(State(st.pos + |Bytes(w)|, Taken(st.scopes), st.store))
  {
    hide Holds, Bytes, Legal, ReadNumber, Typecode, SkipOf, SkipOnce, Taken, StepOnSkip, Meaning;
    WireNumber(input, st.pos, w);
    SkipIsFlat(input, st);
    TakenOnSkip(st.scopes);
  }

  lemma {:induction false} SkipSizedWire(input: seq<Byte>, st: State, w: Wire)
    requires Legal(w) && IsSized(w) && Holds(input, st.pos, Bytes(w)) && Fillable(st.scopes)
    ensures st.pos < |input|
    ensures var n := if w.WExt? && |w.data| == 0xffff_ffff then 5 else |Bytes(w)|;
            SkipOnce(input, st) == Ok(State(st.pos + n, Taken(st.scopes), st.store))
  {
    hide Typecode, SkipOf, SkipOnce, Taken, StepOnSkip, Holds, Bytes, SizeHead, Content, SizeOf, StrCount, ReadCount;
    hide Legal;
    SizedBytes(w);
    HoldsSplit(input, st.pos, SizeHead(w), Content(w));
    WireSize(input, st.pos, w);
    TextFits(input, st.pos + |SizeHead(w)|, Content(w));
    LongestExt(w);
    SkipIsFlat(input, st);
    TakenOnSkip(st.scopes);
    SkipsSize(input, st, w, SizeOf(w), st.pos + |SizeHead(w)|);
    assert |Bytes(w)| == |SizeHead(w)| + |Content(w)|;
  }

  lemma {:induction false} SkipsSize(input: seq<Byte>, st: State, w: Wire, n: nat, at: nat)
    requires IsSized(w) && st.pos < |input| && SkipOf(Typecode(input[st.pos])) == Text(BaseOf(w)) && n < UINT32
    requires (if w.WStr? then StrCount(input, st.pos) else ReadCount(input, st.pos, BaseOf(w), ERROR, 0)) == Ok((n, at))
    requires StepOnSkip(st.scopes).Ok? && at + n + (if w.WExt? then 1 else 0) <= |input|
    ensures var skipped := if w.WExt? then (n + 1) % UINT32 else n;
            SkipFlat(input, st) == Ok(State(at + skipped, StepOnSkip(st.scopes).value, st.store))
  {
    hide Typecode, SkipOf, StepOnSkip, StrCount, ReadCount;
  }

  lemma LongestExt(w: Wire)
    requires Legal(w) && IsSized(w)
    ensures SizeOf(w) < UINT32 && (w.WExt? ==> SizeOf(w) == |w.data|)
    ensures w.WExt? && |w.data| == 0xffff_ffff ==> |SizeHead(w)| == 5
  {
  }

  // ----- reading -----

  /** Every format but an extension is read as the value it stands for where that value is
      awaited; the type of an extension is refused. */
  lemma {:induction false} WireRead(input: seq<Byte>, st: State, w: Wire)
    requires Legal(w) && Holds(input, st.pos, Bytes(w))
    requires IsExt(w) || Awaited(st.scopes, Meaning(w))
    ensures st.pos <= |input|
    ensures if IsExt(w) then ReadAny(input, st).Thrown?
            else Gives(ReadAny(input, st), Meaning(w), st.pos + |Bytes(w)|, After(st.scopes, Meaning(w)))
  {
    hide Holds, Bytes, Legal, ReadAny, After, Awaited;
    match w
    case WNil => NilRead(input, st);
    case WFixExt(_, _) => ExtRefused(input, st, w);
    case WExt(_, _, _) => ExtRefused(input, st, w);
    case WStr(_, _) => StrWireRead(input, st, w);
    case WBin(_, _) => BinWireRead(input, st, w);
    case _ => NumberWireRead(input, st, w);
  }

  lemma {:induction false} NilRead(input: seq<Byte>, st: State)
    requires Holds(input, st.pos, Bytes(WNil)) && Awaited(st.scopes, Nil)
    ensures st.pos <= |input| && Gives(ReadAny(input, st), Nil, st.pos + |Bytes(WNil)|, After(st.scopes, Nil))
  {
    TextFits(input, st.pos, [0xc0]);
    hide Holds, ReadAny, After, Awaited;
    assert Encode(Nil) == [0xc0];
    ReadNil(input, st);
  }

  lemma {:induction false} ExtRefused(input: seq<Byte>, st: State, w: Wire)
    requires Legal(w) && IsExt(w) && Holds(input, st.pos, Bytes(w))
    ensures st.pos <= |input| && ReadAny(input, st).Thrown?
  {
    TextFits(input, st.pos, Bytes(w));
    assert input[st.pos] == Bytes(w)[0];
    assert w.WExt? ==> SkipOf(Typecode(Bytes(w)[0])) == Text(0xc7);
    assert w.WFixExt? ==> SkipOf(Typecode(Bytes(w)[0])) == Fixed(|Bytes(w)|);
    hide Typecode, SkipOf, Holds, Legal, Bytes;
  }

  lemma {:induction false} NumberWireRead(input: seq<Byte>, st: State, w: Wire)
    requires Legal(w) && Holds(input, st.pos, Bytes(w)) && !IsExt(w) && Awaited(st.scopes, Meaning(w))
    requires w.WBool? || w.WPositive? || w.WNegative? || w.WUInt? || w.WInt? || w.WFloat?
    ensures st.pos <= |input|
    ensures Gives(ReadAny(input, st), Meaning(w), st.pos + |Bytes(w)|, After(st.scopes, Meaning(w)))
  {
    WireNumber(input, st.pos, w);
    StepAwaited(st.scopes, Meaning(w));
    hide Holds, Bytes, Legal, ReadNumber, Typecode, SkipOf, Step, After, Awaited, Fillable;
  }

  lemma {:induction false} StrWireRead(input: seq<Byte>, st: State, w: Wire)
    requires Legal(w) && w.WStr? && Holds(input, st.pos, Bytes(w)) && Awaited(st.scopes, Str(w.s))
    ensures st.pos <= |input|
    ensures Gives(ReadAny(input, st), Str(w.s), st.pos + |Bytes(w)|, After(st.scopes, Str(w.s)))
  {
    hide *;
    var at := SizedHeld(input, st.pos, w);
    StepAwaited(st.scopes, Str(w.s));
    StrTaken(input, st, at, w.s, After(st.scopes, Str(w.s)));
  }

  lemma {:induction false} BinWireRead(input: seq<Byte>, st: State, w: Wire)
    requires Legal(w) && w.WBin? && Holds(input, st.pos, Bytes(w)) && Awaited(st.scopes, Bin(w.s))
    ensures st.pos <= |input|
    ensures Gives(ReadAny(input, st), Bin(w.s), st.pos + |Bytes(w)|, After(st.scopes, Bin(w.s)))
  {
    hide *;
    var at := SizedHeld(input, st.pos, w);
    StepAwaited(st.scopes, Bin(w.s));
    BinTaken(input, st, at, w.s, After(st.scopes, Bin(w.s)));
  }

  /** Where the content of a string or binary begins, and that it is all there. */
  lemma {:induction false} SizedHeld(input: seq<Byte>, pos: nat, w: Wire) returns (at: nat)
    requires Legal(w) && (w.WStr? || w.WBin?) && Holds(input, pos, Bytes(w))
    ensures pos < |input| && SkipOf(Typecode(input[pos])) == Text(if w.WStr? then 0xd9 else 0xc4)
    ensures (if w.WStr? then StrCount(input, pos) else ReadCount(input, pos, 0xc4, ERROR, 0)) == Ok((|w.s|, at))
    ensures at + |w.s| == pos + |Bytes(w)| <= |input| && input[at..at + |w.s|] == w.s
  {
    hide *;
    var head := SizedParts(w);
    HeldBehind(input, pos, head, w.s);
    WireSize(input, pos, w);
    at := pos + |head|;
  }

  lemma {:induction false} SizedParts(w: Wire) returns (head: seq<Byte>)
    requires Legal(w) && (w.WStr? || w.WBin?)
    ensures IsSized(w) && SizeOf(w) == |w.s| && BaseOf(w) == if w.WStr? then 0xd9 else 0xc4
    ensures head == SizeHead(w) && Bytes(w) == head + w.s
  {
    SizedBytes(w);
    head := SizeHead(w);
    hide Bytes, SizeHead, Legal;
  }

  lemma {:induction false} HeldBehind(input: seq<Byte>, pos: nat, head: seq<Byte>, s: seq<Byte>)
    requires Holds(input, pos, head + s)
    ensures Holds(input, pos, head) && pos + |head| + |s| <= |input|
    ensures input[pos + |head|..pos + |head| + |s|] == s
  {
    HoldsSplit(input, pos, head, s);
    hide Holds;
    TextFits(input, pos + |head|, s);
  }

  lemma {:induction false} StrTaken(input: seq<Byte>, st: State, at: nat, s: seq<Byte>, after: seq<Scope>)
    requires st.pos < |input| && SkipOf(Typecode(input[st.pos])) == Text(0xd9)
    requires StrCount(input, st.pos) == Ok((|s|, at)) && at + |s| <= |input| && input[at..at + |s|] == s
    requires Step(st.scopes) == Ok(after)
    ensures Gives(ReadAny(input, st), Str(s), at + |s|, after)
  {
    hide Typecode, SkipOf, StrCount, Step;
    assert s + [] == s;
  }

  lemma {:induction false} BinTaken(input: seq<Byte>, st: State, at: nat, s: seq<Byte>, after: seq<Scope>)
    requires st.pos < |input| && SkipOf(Typecode(input[st.pos])) == Text(0xc4)
    requires ReadCount(input, st.pos, 0xc4, ERROR, 0) == Ok((|s|, at))
    requires at + |s| <= |input| && input[at..at + |s|] == s
    requires Step(st.scopes) == Ok(after)
    ensures Gives(ReadAny(input, st), Bin(s), at + |s|, after)
  {
    var begun := Opened(State(at, after, st.store), Binary, |s|);
    assert BeginBinary(input, st) == Ok(begun) by {
      hide ReadCount, Step;
    }
    ReadWholeBinary(input, begun, s);
    hide BeginBinary, BinaryReadSome, EndBinary, Opened, Typecode, SkipOf, Step, ReadCount;
  }

  // ----- containers -----

  /** The head of an array or a map with so many elements or entries. */
  function HeadBytes(kind: Kind, width: nat, count: nat): (bytes: seq<Byte>)
    requires width in {0, 2, 4} && if width == 0 then count < 16 else count < Range(width)
  {
    if width == 0 then [(if kind == Array then 0x90 else 0x80) + count]
    else if kind == Array then [if width == 2 then 0xdc else 0xdd] + Big(count, width)
    else [if width == 2 then 0xde else 0xdf] + Big(count, width)
  }

  /** A head of any width is taken for what it is. */
  lemma {:induction false} WireOpens(input: seq<Byte>, st: State, kind: Kind, width: nat, count: nat)
    requires kind != Binary && width in {0, 2, 4} && if width == 0 then count < 16 else count < Range(width)
    requires Holds(input, st.pos, HeadBytes(kind, width, count))
    ensures st.pos < |input| && SkipOf(Typecode(input[st.pos])) == Open(kind)
    ensures Begin(input, st, kind)
            == if MayOpen(st.scopes) && Step(st.scopes).Ok?
               then Ok(Opened(State(st.pos + 1 + width, Step(st.scopes).value, st.store), kind, count)) else Thrown
  {
    WireCount(input, st.pos, kind, width, count);
    hide Holds, HeadBytes, MapCount, ArrayCount, Typecode, SkipOf, MayOpen, Step, Opened, Begin;
    BeginWith(input, st, kind, count, st.pos + 1 + width);
  }

  lemma {:induction false} WireCount(input: seq<Byte>, pos: nat, kind: Kind, width: nat, count: nat)
    requires kind != Binary && width in {0, 2, 4} && if width == 0 then count < 16 else count < Range(width)
    requires Holds(input, pos, HeadBytes(kind, width, count))
    ensures pos < |input| && SkipOf(Typecode(input[pos])) == Open(kind)
    ensures (if kind == Object then MapCount(input, pos) else ArrayCount(input, pos)) == Ok((count, pos + 1 + width))
  {
    hide Holds, ReadBig, FromBig, BigEndian, Radix, Big;
    if width == 0 {
      OneHeld(input, pos, (if kind == Array then 0x90 else 0x80) + count);
    } else {
      var code := if kind == Array then 0xdc else 0xde;
      BigIs(count, width);
      BigHeld(input, pos, if width == 2 then code else code + 1, count, width);
      BigEndianBack(count, width);
    }
  }

  // ----- the writer's choice -----

  /** The format the writer takes for a scalar. */
  function WireOf(v: Value): (w: Wire)
    requires Scalar(v)
  {
    match v
    case Nil => WNil
    case Bool(b) => WBool(b)
    case Int(n) =>
      if 0 <= n < 128 then WPositive(n) else if -32 <= n < 0 then WNegative(n)
      else if -0x8000 <= n < 0x8000 then WInt(2, n)
      else if -0x8000_0000 <= n < 0x8000_0000 then WInt(4, n) else WInt(8, n)
    case UInt(n) => if n < 0x8000 then WUInt(2, n) else if n < 0x8000_0000 then WUInt(4, n) else WUInt(8, n)
    case Float(size, bits) => WFloat(size, bits)
    case Str(s) => WStr(if |s| < 32 then 0 else if |s| < 0x100 then 1 else if |s| < 0x1_0000 then 2 else 4, s)
    case Bin(s) => WBin(if |s| < 0x100 then 1 else if |s| < 0x1_0000 then 2 else 4, s)
  }

  /** What the writer writes is a format of the specification that stands for the value. */
  lemma {:induction false} WritesWire(v: Value)
    requires Valid(v) && Scalar(v)
    ensures Legal(WireOf(v)) && !IsExt(WireOf(v)) && Meaning(WireOf(v)) == v && Encode(v) == Bytes(WireOf(v))
  {
    hide Big, BigEndian, Radix;
    if v.Str? || v.Bin? {
      WritesSized(v);
    } else if v.Int? || v.UInt? {
      WritesInteger(v);
    } else if v.Float? {
      BigIs(v.bits, v.size);
    }
  }

  /** Every number of 64 bits can be written; an unsigned one below 128 is a positive fixint
      like the signed one, and comes back signed. */
  lemma WritesNumbers(v: int)
    ensures Valid(Int(v)) <==> -0x8000_0000_0000_0000 <= v < 0x8000_0000_0000_0000
    ensures 0 <= v < 128 ==> UIntBytes(v) == Encode(Int(v)) == Bytes(WPositive(v))
    ensures 128 <= v < 0x1_0000_0000_0000_0000 ==> Valid(UInt(v)) && UIntBytes(v) == Encode(UInt(v))
  {
    hide BigEndian;
  }

  lemma {:induction false} WritesInteger(v: Value)
    requires Valid(v) && (v.Int? || v.UInt?)
    ensures Legal(WireOf(v)) && Encode(v) == Bytes(WireOf(v))
  {
    hide Big, BigEndian, Radix;
    var n := v.v;
    BigIs(n, if -0x8000 <= n < 0x8000 then 2 else if -0x8000_0000 <= n < 0x8000_0000 then 4 else 8);
  }

  lemma {:induction false} WritesSized(v: Value)
    requires Valid(v) && (v.Str? || v.Bin?)
    ensures Legal(WireOf(v)) && Encode(v) == Bytes(WireOf(v))
  {
    hide Big, BigEndian, Radix;
    var n := |v.s|;
    BigIs(n, if n < 0x100 then 1 else if n < 0x1_0000 then 2 else 4);
  }

  /** The same for the heads of arrays and maps. */
  lemma {:induction false} WritesHead(v: Value)
    requires Valid(v) && !Scalar(v)
    ensures var n := Count(v);
            var width := if n < 16 then 0 else if n < 0x8000 then 2 else 4;
            && (if width == 0 then n < 16 else n < Range(width))
            && Encode(v) == HeadBytes(KindOf(v), width, n) + EncodeAll(Held(v))
  {
    ContainerBytes(v);
    var n := Count(v);
    assert n < 0x1_0000_0000;
    hide Valid, EncodeAll, Big, BigEndian, Radix, Encode;
    BigIs(n, if n < 0x8000 then 2 else 4);
  }
}
