/** Values and their bytes as include/cpph/refl/archive/msgpack-writer.hxx writes them,
    after the section "Formats" of the MessagePack specification. */
module MsgPackFormat {

  import opened Bits

  /** The entries of a map are its keys and values by turns.  A number below 128 has
      the same bytes written as signed or as unsigned: it is an Int here. */
  datatype Value =
    | Nil
    | Bool(b: bool)
    | Int(v: int)
    | UInt(v: int)
    | Float(size: nat, bits: nat)
    | Str(s: seq<Byte>)
    | Bin(s: seq<Byte>)
    | Arr(elems: seq<Value>)
    | Map(entries: seq<Value>)

  predicate Scalar(v: Value) {
    !v.Arr? && !v.Map?
  }

  /** What the writer refuses to exceed. */
  const LIMIT := 0xffff_ffff

  /** What can be handed to the writer: keys are not containers. */
  predicate Valid(v: Value) {
    match v
    case Int(n) => -0x8000_0000_0000_0000 <= n < 0x8000_0000_0000_0000
    case UInt(n) => 0x80 <= n < 0x1_0000_0000_0000_0000
    case Float(size, bits) => (size == 4 && bits < 0x1_0000_0000) || (size == 8 && bits < 0x1_0000_0000_0000_0000)
    case Str(s) => |s| < LIMIT
    case Bin(s) => |s| < LIMIT
    case Arr(elems) => |elems| < LIMIT && forall i :: 0 <= i < |elems| ==> Valid(elems[i])
    case Map(entries) =>
      && |entries| % 2 == 0 && |entries| / 2 < LIMIT
      && (forall i :: 0 <= i < |entries| ==> Valid(entries[i]))
      && (forall i :: 0 <= i < |entries| && i % 2 == 0 ==> Scalar(entries[i]))
    case _ => true
  }

  // ----- numbers -----

  function Radix(n: nat): (r: nat)
    ensures r > 0
  {
    if n == 0 then 1 else 256 * Radix(n - 1)
  }

  /** The n low bytes of v, the most significant first. */
  function BigEndian(v: int, n: nat): (bytes: seq<Byte>)
    decreases n
    ensures |bytes| == n
  {
    if n == 0 then [] else BigEndian(v / 256, n - 1) + [v % 256]
  }

  function FromBig(bytes: seq<Byte>): (v: nat)
    ensures v < Radix(|bytes|)
  {
    if bytes == [] then 0 else FromBig(bytes[..|bytes| - 1]) * 256 + bytes[|bytes| - 1]
  }

  /** Two's complement: the number whose low bytes are v. */
  function Signed(v: nat, n: nat): int {
    if 2 * v < Radix(n) then v else v - Radix(n)
  }

  lemma {:induction false} BigEndianBack(v: nat, n: nat)
    requires v < Radix(n)
    ensures FromBig(BigEndian(v, n)) == v
  {
    if n > 0 {
      BigEndianBack(v / 256, n - 1);
      assert BigEndian(v, n)[..n - 1] == BigEndian(v / 256, n - 1);
    }
  }

  /** The bytes of a number do not depend on multiples of the range. */
  lemma {:induction false} BigEndianWraps(v: int, n: nat)
    ensures BigEndian(v + Radix(n), n) == BigEndian(v, n)
    decreases n
  {
    if n > 0 {
      var r: nat := Radix(n - 1);
      assert v + Radix(n) == v + 256 * r;
      assert (v + 256 * r) / 256 == v / 256 + r && (v + 256 * r) % 256 == v % 256;
      BigEndianWraps(v / 256, n - 1);
    }
  }

  /** A number in range is read back from its bytes. */
  lemma SignedBack(v: int, n: nat)
    requires -(Radix(n) as int) <= 2 * v < Radix(n)
    ensures Signed(FromBig(BigEndian(v, n)), n) == v
  {
    BigEndianWraps(v, n);
    hide BigEndian, Radix, FromBig;
    if v >= 0 {
      BigEndianBack(v, n);
    } else {
      BigEndianBack(v + Radix(n), n);
    }
  }

  lemma RadixValues()
    ensures Radix(1) == 0x100 && Radix(2) == 0x1_0000 && Radix(4) == 0x1_0000_0000
            && Radix(8) == 0x1_0000_0000_0000_0000
  {
    assert Radix(3) == 0x100_0000;
    assert Radix(6) == 0x1_0000_0000_0000;
  }

  // ----- the encoding -----

  /** write of a signed number. */
  function IntBytes(v: int): seq<Byte> {
    if v >= 0 then
      if v < 0x80 then [v]
      else if v < 0x8000 then [0xd1] + BigEndian(v, 2)
      else if v < 0x8000_0000 then [0xd2] + BigEndian(v, 4)
      else [0xd3] + BigEndian(v, 8)
    else
      if v >= -32 then [0xe0 + v % 32]
      else if v >= -0x8000 then [0xd1] + BigEndian(v, 2)
      else if v >= -0x8000_0000 then [0xd2] + BigEndian(v, 4)
      else [0xd3] + BigEndian(v, 8)
  }

  /** write of an unsigned number. */
  function UIntBytes(v: nat): seq<Byte> {
    if v < 0x80 then [v]
    else if v < 0x8000 then [0xcd] + BigEndian(v, 2)
    else if v < 0x8000_0000 then [0xce] + BigEndian(v, 4)
    else [0xcf] + BigEndian(v, 8)
  }

  /** The size of a string or binary, in as few bytes as hold it. */
  function SizeBytes(code: nat, size: nat): seq<Byte>
    requires code + 2 < 256
  {
    if size >= 0x1_0000 then [code + 2] + BigEndian(size, 4)
    else if size >= 0x100 then [code + 1] + BigEndian(size, 2)
    else [code] + BigEndian(size, 1)
  }

  function StrHeader(size: nat): seq<Byte> {
    if size < 32 then [0xa0 + size] else SizeBytes(0xd9, size)
  }

  /** The number of elements of an array or entries of a map. */
  function CountBytes(fix: nat, code: nat, count: nat): seq<Byte>
    requires fix + 16 <= 256 && code + 1 < 256
  {
    if count < 16 then [fix + count]
    else if count < 0x8000 then [code] + BigEndian(count, 2)
    else [code + 1] + BigEndian(count, 4)
  }

  function Head(v: Value): (bytes: seq<Byte>)
  {
    match v
    case Nil => [0xc0]
    case Bool(b) => [if b then 0xc3 else 0xc2]
    case Int(n) => IntBytes(n)
    case UInt(n) => if n < 0 then [] else UIntBytes(n)
    case Float(size, bits) => [if size == 4 then 0xca else 0xcb] + BigEndian(bits, size)
    case Str(s) => StrHeader(|s|)
    case Bin(s) => SizeBytes(0xc4, |s|)
    case Arr(elems) => CountBytes(0x90, 0xdc, |elems|)
    case Map(entries) => CountBytes(0x80, 0xde, |entries| / 2)
  }

  /** All the bytes of a value: its head, and what it holds. */
  function Encode(v: Value): seq<Byte> {
    match v
    case Str(s) => Head(v) + s
    case Bin(s) => Head(v) + s
    case Arr(elems) => Head(v) + EncodeAll(elems)
    case Map(entries) => Head(v) + EncodeAll(entries)
    case _ => Head(v)
  }

  function EncodeAll(vs: seq<Value>): seq<Byte> {
    if vs == [] then [] else Encode(vs[0]) + EncodeAll(vs[1..])
  }
}
