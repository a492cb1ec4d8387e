/** What the reader makes of a value the writer has written: exactly when it reads it
    back, and exactly when it skips it. */
module MsgPackTrees {

  import opened Bits
  import opened MsgPackFormat
  import opened MsgPackReader

  // ----- heads -----

  /** The bytes stand in the input at pos. */
  predicate Holds(input: seq<Byte>, pos: nat, bytes: seq<Byte>) {
    pos + |bytes| <= |input| && input[pos..pos + |bytes|] == bytes
  }

  lemma HoldsSplit(input: seq<Byte>, pos: nat, a: seq<Byte>, b: seq<Byte>)
    requires Holds(input, pos, a + b)
    ensures Holds(input, pos, a) && Holds(input, pos + |a|, b) && pos + |a| + |b| <= |input|
  {
    var c := input[pos..pos + |a + b|];
    assert a == (a + b)[..|a|] && b == (a + b)[|a|..];
    assert input[pos..pos + |a|] == c[..|a|] && input[pos + |a|..pos + |a| + |b|] == c[|a|..];
  }

  lemma BigHeld(input: seq<Byte>, pos: nat, code: Byte, v: int, n: nat)
    requires Holds(input, pos, [code] + BigEndian(v, n))
    ensures pos < |input| && input[pos] == code && pos + 1 + n <= |input|
    ensures ReadBig(input, pos, n) == (FromBig(BigEndian(v, n)), pos + 1 + n)
  {
    HoldsSplit(input, pos, [code], BigEndian(v, n));
    assert input[pos..pos + 1][0] == code;
    WindowHeld(input, pos + 1, BigEndian(v, n));
  }

  lemma WindowHeld(input: seq<Byte>, pos: nat, bytes: seq<Byte>)
    requires Holds(input, pos, bytes)
    ensures Window(input, pos, |bytes|) == bytes
  {
    forall i | 0 <= i < |bytes|
      ensures Window(input, pos, |bytes|)[i] == bytes[i]
    {
      assert input[pos..pos + |bytes|][i] == input[pos + i] == At(input, pos + i);
    }
  }

  lemma OneHeld(input: seq<Byte>, pos: nat, code: Byte)
    requires Holds(input, pos, [code])
    ensures pos < |input| && input[pos] == code
  {
    assert input[pos..pos + 1][0] == code;
  }

  predicate Numeric(v: Value) {
    v.Bool? || v.Int? || v.UInt? || v.Float?
  }

  lemma IntRead(input: seq<Byte>, pos: nat, v: int)
    requires -0x8000_0000_0000_0000 <= v < 0x8000_0000_0000_0000 && Holds(input, pos, IntBytes(v))
    ensures pos < |input| && ReadNumber(input, pos) == Ok((Int(v), pos + |IntBytes(v)|))
    ensures SkipOf(Typecode(input[pos])) == Number
  {
    hide Holds, ReadBig, FromBig, BigEndian, MsgPackFormat.Signed;
    RadixValues();
    hide Radix;
    if -32 <= v < 0x80 {
      OneHeld(input, pos, if v >= 0 then v else 0xe0 + v % 32);
    } else {
      var n := if -0x8000 <= v < 0x8000 then 2 else if -0x8000_0000 <= v < 0x8000_0000 then 4 else 8;
      var code: Byte := if n == 2 then 0xd1 else if n == 4 then 0xd2 else 0xd3;
      BigHeld(input, pos, code, v, n);
      SignedBack(v, n);
    }
  }

  lemma UIntRead(input: seq<Byte>, pos: nat, v: nat)
    requires 0x80 <= v < 0x1_0000_0000_0000_0000 && Holds(input, pos, UIntBytes(v))
    ensures pos < |input| && ReadNumber(input, pos) == Ok((UInt(v), pos + |UIntBytes(v)|))
    ensures SkipOf(Typecode(input[pos])) == Number
  {
    hide Holds, ReadBig, FromBig, BigEndian;
    RadixValues();
    hide Radix;
    var n := if v < 0x8000 then 2 else if v < 0x8000_0000 then 4 else 8;
    var code: Byte := if n == 2 then 0xcd else if n == 4 then 0xce else 0xcf;
    BigHeld(input, pos, code, v, n);
    BigEndianBack(v, n);
  }

  lemma {:induction false} NumberRead(input: seq<Byte>, pos: nat, v: Value)
    requires Numeric(v) && Valid(v) && Holds(input, pos, Head(v))
    ensures pos < |input| && ReadNumber(input, pos) == Ok((v, pos + |Head(v)|))
    ensures SkipOf(Typecode(input[pos])) == Number
  {
    hide Holds, IntBytes, UIntBytes, ReadBig, FromBig, BigEndian;
    match v
    case Bool(b) => OneHeld(input, pos, if b then 0xc3 else 0xc2);
    case Int(n) => IntRead(input, pos, n);
    case UInt(n) => UIntRead(input, pos, n);
    case Float(size, bits) =>
      RadixValues();
      hide Radix;
      BigHeld(input, pos, if size == 4 then 0xca else 0xcb, bits, size);
      BigEndianBack(bits, size);
  }

  /** A size in one, two or four bytes is read back. */
  lemma SizeRead(input: seq<Byte>, pos: nat, code: nat, size: nat, fix: Byte, mask: nat)
    requires code in {0xc4, 0xd9} && (code == 0xd9 ==> fix == 0xa0) && (code == 0xc4 ==> fix == ERROR)
    requires size < UINT32 && Holds(input, pos, SizeBytes(code, size))
    ensures pos < |input| && ReadCount(input, pos, code, fix, mask) == Ok((size, pos + |SizeBytes(code, size)|))
    ensures SkipOf(Typecode(input[pos])) == Text(code)
  {
    hide Holds, ReadBig, FromBig, BigEndian;
    RadixValues();
    hide Radix;
    var n := if size >= 0x1_0000 then 4 else if size >= 0x100 then 2 else 1;
    var offset: nat := if n == 4 then 2 else if n == 2 then 1 else 0;
    BigHeld(input, pos, code + offset, size, n);
    BigEndianBack(size, n);
  }

  lemma StrRead(input: seq<Byte>, pos: nat, size: nat)
    requires size < UINT32 && Holds(input, pos, StrHeader(size))
    ensures pos < |input| && StrCount(input, pos) == Ok((size, pos + |StrHeader(size)|))
    ensures SkipOf(Typecode(input[pos])) == Text(0xd9)
  {
    hide Holds, SizeBytes, ReadBig;
    if size < 32 {
      OneHeld(input, pos, 0xa0 + size);
    } else {
      SizeRead(input, pos, 0xd9, size, 0xa0, 31);
    }
  }

  /** The count of an array or a map is read back. */
  lemma CountRead(input: seq<Byte>, pos: nat, kind: Kind, count: nat)
    requires kind != Binary && count < UINT32
    requires Holds(input, pos, if kind == Array then CountBytes(0x90, 0xdc, count) else CountBytes(0x80, 0xde, count))
    ensures pos < |input| && SkipOf(Typecode(input[pos])) == Open(kind)
    ensures (if kind == Object then MapCount(input, pos) else ArrayCount(input, pos))
            == Ok((count, pos + |CountBytes(0x80, 0xde, count)|))
    ensures |CountBytes(0x80, 0xde, count)| == |CountBytes(0x90, 0xdc, count)|
  {
    hide Holds, ReadBig, FromBig, BigEndian;
    RadixValues();
    hide Radix;
    var fix: nat, code: nat := if kind == Array then 0x90 else 0x80, if kind == Array then 0xdc else 0xde;
    if count < 16 {
      OneHeld(input, pos, fix + count);
    } else {
      var n := if count < 0x8000 then 2 else 4;
      BigHeld(input, pos, if n == 2 then code else code + 1, count, n);
      BigEndianBack(count, n);
    }
  }

  /** Which bytes are taken for the head of a container, a binary or a string: those of
      the right type, and one more for each of the first three.  A long array's code is
      taken for a map's one-byte count, a long string's for an array's, and the unused
      code for an empty binary. */
  lemma CodesMistaken(input: seq<Byte>, pos: nat)
    requires pos < |input|
    ensures var skip := SkipOf(Typecode(input[pos]));
            && (MapCount(input, pos).Ok? <==> skip == Open(Object) || input[pos] == 0xdd)
            && (ArrayCount(input, pos).Ok? <==> skip == Open(Array) || input[pos] == 0xdb)
            && (BinCount(input, pos).Ok? <==> skip == Text(0xc4) || input[pos] == 0xc1)
            && (StrCount(input, pos).Ok? <==> skip == Text(0xd9))
    ensures ReadNumber(input, pos).Ok?
            <==> input[pos] < 0x80 || input[pos] >= 0xe0 || input[pos] in {0xc2, 0xc3} || 0xca <= input[pos] <= 0xd3
    ensures SkipOf(Typecode(input[pos])) == Refused <==> input[pos] == 0xc1
    ensures SkipOf(Typecode(0xdd)) == Open(Array) && SkipOf(Typecode(0xdb)) == Text(0xd9)
            && SkipOf(Typecode(0xc1)) == Refused
  {
    hide ReadBig;
  }

  lemma Regroup(a: seq<Byte>, b: seq<Byte>, c: seq<Byte>)
    ensures a + b + c == a + (b + c)
  {
  }

  lemma EncodeNone()
    ensures EncodeAll([]) == []
  {
  }

  lemma EncodeFirst(vs: seq<Value>)
    requires vs != []
    ensures EncodeAll(vs) == Encode(vs[0]) + EncodeAll(vs[1..])
  {
    hide Encode;
  }

  /** Where elements stand, the first stands, and the others behind it. */
  lemma FirstHeld(input: seq<Byte>, pos: nat, vs: seq<Value>)
    requires vs != [] && Holds(input, pos, EncodeAll(vs))
    ensures Holds(input, pos, Encode(vs[0])) && Holds(input, pos + |Encode(vs[0])|, EncodeAll(vs[1..]))
    ensures pos + |EncodeAll(vs)| == pos + |Encode(vs[0])| + |EncodeAll(vs[1..])| <= |input|
  {
    hide Encode, EncodeAll, Holds;
    EncodeFirst(vs);
    HoldsSplit(input, pos, Encode(vs[0]), EncodeAll(vs[1..]));
  }

  lemma NoneHeld(input: seq<Byte>, pos: nat)
    requires Holds(input, pos, EncodeAll([]))
    ensures |EncodeAll([])| == 0 && pos <= |input|
  {
    EncodeNone();
    hide EncodeAll;
  }

  lemma {:induction false} EncodeConcat(a: seq<Value>, b: seq<Value>)
    ensures EncodeAll(a + b) == EncodeAll(a) + EncodeAll(b)
    decreases |a|
  {
    hide Encode;
    if a == [] {
      assert a + b == b;
    } else {
      assert (a + b)[1..] == a[1..] + b;
      EncodeConcat(a[1..], b);
      Regroup(Encode(a[0]), EncodeAll(a[1..]), EncodeAll(b));
    }
  }

  lemma EncodeOneMore(vs: seq<Value>, i: nat)
    requires i < |vs|
    ensures EncodeAll(vs[..i + 1]) == EncodeAll(vs[..i]) + Encode(vs[i])
  {
    hide Encode;
    assert vs[..i + 1] == vs[..i] + [vs[i]];
    EncodeConcat(vs[..i], [vs[i]]);
    assert EncodeAll([vs[i]]) == Encode(vs[i]) + EncodeAll([]);
  }

  lemma HeldAny(v: Value)
    requires Valid(v) && !Scalar(v)
    ensures forall i :: 0 <= i < |Held(v)| ==> Valid(Held(v)[i])
    ensures v.Map? ==> |v.entries| % 2 == 0 && forall i :: 0 <= i < |v.entries| && i % 2 == 0 ==> Scalar(v.entries[i])
  {
  }

  // ----- scalars -----

  /** The scopes after one element is taken without a look at keys. */
  function Taken(scopes: seq<Scope>): seq<Scope>
    requires scopes == [] || Top(scopes).left > 0
  {
    if scopes == [] then [] else SetTop(scopes, Top(scopes).(left := Top(scopes).left - 1))
  }

  predicate Fillable(scopes: seq<Scope>) {
    scopes == [] || Top(scopes).left > 0
  }

  lemma SkipIsFlat(input: seq<Byte>, st: State)
    requires st.pos < |input| && !SkipOf(Typecode(input[st.pos])).Open?
    ensures SkipOnce(input, st) == SkipFlat(input, st)
  {
    hide SkipFlat, BreakScope, Begin, Typecode, SkipOf;
  }

  lemma TakenOnSkip(scopes: seq<Scope>)
    requires Fillable(scopes)
    ensures StepOnSkip(scopes) == Ok(Taken(scopes))
  {
  }

  lemma {:induction false} SkipNumber(input: seq<Byte>, st: State, v: Value)
    requires Numeric(v) && Valid(v) && Holds(input, st.pos, Head(v)) && Fillable(st.scopes)
    ensures st.pos < |input| && SkipOnce(input, st) == Ok(State(st.pos + |Head(v)|, Taken(st.scopes), st.store))
  {
    hide Holds, Head, ReadNumber, Typecode, SkipOf, SkipOnce, Taken, StepOnSkip;
    NumberRead(input, st.pos, v);
    hide Valid;
    SkipIsFlat(input, st);
    TakenOnSkip(st.scopes);
  }

  /** The bytes of a string or binary behind its size. */
  lemma {:induction false} SkipText(input: seq<Byte>, st: State, header: seq<Byte>, s: seq<Byte>, base: nat)
    requires st.pos < |input| && SkipOf(Typecode(input[st.pos])) == Text(base) && base in {0xc4, 0xd9}
    requires (if base == 0xd9 then StrCount(input, st.pos) else ReadCount(input, st.pos, base, ERROR, 0))
             == Ok((|s|, st.pos + |header|))
    requires Holds(input, st.pos + |header|, s) && Fillable(st.scopes)
    ensures SkipOnce(input, st) == Ok(State(st.pos + |header + s|, Taken(st.scopes), st.store))
  {
    hide ReadCount, StrCount, Typecode, SkipOf, SkipOnce, Taken, StepOnSkip, SkipFlat;
    TextFits(input, st.pos + |header|, s);
    hide Holds;
    assert |header + s| == |header| + |s|;
    TakenOnSkip(st.scopes);
    SkipSized(input, st, base, |s|, st.pos + |header|);
  }

  /** The same, by the size and where it ends. */
  lemma {:induction false} SkipSized(input: seq<Byte>, st: State, base: nat, n: nat, pos: nat)
    requires st.pos < |input| && SkipOf(Typecode(input[st.pos])) == Text(base) && base in {0xc4, 0xd9}
    requires (if base == 0xd9 then StrCount(input, st.pos) else ReadCount(input, st.pos, base, ERROR, 0))
             == Ok((n, pos))
    requires StepOnSkip(st.scopes).Ok? && pos + n <= |input|
    ensures SkipOnce(input, st) == Ok(State(pos + n, StepOnSkip(st.scopes).value, st.store))
  {
    hide ReadCount, StrCount, Typecode, SkipOf, StepOnSkip, SkipOnce;
    SkipIsFlat(input, st);
  }

  lemma SkipNil(input: seq<Byte>, st: State)
    requires st.pos < |input| && SkipOf(Typecode(input[st.pos])) == Fixed(1) && Fillable(st.scopes)
    ensures SkipOnce(input, st) == Ok(State(st.pos + 1, Taken(st.scopes), st.store))
  {
    hide Typecode, SkipOf, SkipOnce, Taken, StepOnSkip;
    SkipIsFlat(input, st);
    TakenOnSkip(st.scopes);
  }

  lemma StrHeld(input: seq<Byte>, pos: nat, s: seq<Byte>)
    requires Valid(Str(s)) && Holds(input, pos, Encode(Str(s)))
    ensures Encode(Str(s)) == StrHeader(|s|) + s && Holds(input, pos + |StrHeader(|s|)|, s)
    ensures pos < |input| && StrCount(input, pos) == Ok((|s|, pos + |StrHeader(|s|)|))
    ensures SkipOf(Typecode(input[pos])) == Text(0xd9)
  {
    hide Holds, StrHeader, StrCount, Typecode, SkipOf;
    HoldsSplit(input, pos, StrHeader(|s|), s);
    StrRead(input, pos, |s|);
  }

  lemma BinHeld(input: seq<Byte>, pos: nat, s: seq<Byte>)
    requires Valid(Bin(s)) && Holds(input, pos, Encode(Bin(s)))
    ensures Encode(Bin(s)) == SizeBytes(0xc4, |s|) + s && Holds(input, pos + |SizeBytes(0xc4, |s|)|, s)
    ensures pos < |input| && ReadCount(input, pos, 0xc4, ERROR, 0) == Ok((|s|, pos + |SizeBytes(0xc4, |s|)|))
    ensures SkipOf(Typecode(input[pos])) == Text(0xc4)
  {
    hide Holds, SizeBytes, ReadCount, Typecode, SkipOf;
    HoldsSplit(input, pos, SizeBytes(0xc4, |s|), s);
    SizeRead(input, pos, 0xc4, |s|, ERROR, 0);
  }

  lemma NilHeld(input: seq<Byte>, pos: nat)
    requires Holds(input, pos, Encode(Nil))
    ensures |Encode(Nil)| == 1 && pos < |input| && SkipOf(Typecode(input[pos])) == Fixed(1)
  {
    OneHeld(input, pos, 0xc0);
    NilCode();
  }

  lemma SkipStr(input: seq<Byte>, st: State, v: Value)
    requires Valid(v) && v.Str? && Holds(input, st.pos, Encode(v)) && Fillable(st.scopes)
    ensures st.pos < |input| && SkipOnce(input, st) == Ok(State(st.pos + |Encode(v)|, Taken(st.scopes), st.store))
  {
    hide Valid, Holds, Encode, StrHeader, StrCount, ReadCount, Typecode, SkipOf, SkipOnce, Taken, Fillable;
    StrHeld(input, st.pos, v.s);
    SkipText(input, st, StrHeader(|v.s|), v.s, 0xd9);
  }

  lemma SkipBin(input: seq<Byte>, st: State, v: Value)
    requires Valid(v) && v.Bin? && Holds(input, st.pos, Encode(v)) && Fillable(st.scopes)
    ensures st.pos < |input| && SkipOnce(input, st) == Ok(State(st.pos + |Encode(v)|, Taken(st.scopes), st.store))
  {
    hide Valid, Holds, Encode, SizeBytes, StrCount, ReadCount, Typecode, SkipOf, SkipOnce, Taken, Fillable;
    BinHeld(input, st.pos, v.s);
    SkipText(input, st, SizeBytes(0xc4, |v.s|), v.s, 0xc4);
  }

  /** A scalar is skipped in any scope that has elements left. */
  lemma {:induction false} SkipScalar(input: seq<Byte>, st: State, v: Value)
    requires Valid(v) && Scalar(v) && Holds(input, st.pos, Encode(v)) && Fillable(st.scopes)
    ensures st.pos < |input| && SkipOnce(input, st) == Ok(State(st.pos + |Encode(v)|, Taken(st.scopes), st.store))
  {
    hide Valid, Holds, Encode, Head, SkipOnce, Taken, Fillable, Typecode, SkipOf;
    if v == Nil {
      NilHeld(input, st.pos);
      SkipNil(input, st);
    } else if v.Str? {
      SkipStr(input, st, v);
    } else if v.Bin? {
      SkipBin(input, st, v);
    } else {
      NumericBytes(v);
      SkipNumber(input, st, v);
    }
  }

  lemma NumericBytes(v: Value)
    requires Numeric(v)
    ensures Encode(v) == Head(v)
  {
  }

  lemma NilCode()
    ensures SkipOf(Typecode(0xc0)) == Fixed(1)
  {
  }

  lemma TextFits(input: seq<Byte>, pos: nat, s: seq<Byte>)
    requires Holds(input, pos, s)
    ensures pos + |s| <= |input| && input[pos..pos + |s|] == s
  {
  }

  // ----- skipping trees -----

  /** No map has so many entries that twice their number overflows 32 bits. */
  predicate Countable(v: Value) {
    match v
    case Arr(elems) => forall i :: 0 <= i < |elems| ==> Countable(elems[i])
    case Map(entries) => |entries| < UINT32 && forall i :: 0 <= i < |entries| ==> Countable(entries[i])
    case _ => true
  }

  /** No map in it has a container for a value. */
  predicate Skippable(v: Value) {
    match v
    case Arr(elems) => forall i :: 0 <= i < |elems| ==> Skippable(elems[i])
    case Map(entries) => AllScalar(entries)
    case _ => true
  }

  /** The opened scope counts the elements right exactly if they fit 32 bits. */
  lemma OpenedCounts(st: State, n: nat)
    requires n < UINT32
    ensures Top(Opened(st, Object, n).scopes).left == 2 * n <==> 2 * n < UINT32
  {
  }

  lemma BeginWith(input: seq<Byte>, st: State, kind: Kind, count: nat, pos: nat)
    requires kind != Binary && st.pos < |input|
    requires (if kind == Object then MapCount(input, st.pos) else ArrayCount(input, st.pos)) == Ok((count, pos))
    ensures Begin(input, st, kind)
            == if MayOpen(st.scopes) && Step(st.scopes).Ok?
               then Ok(Opened(State(pos, Step(st.scopes).value, st.store), kind, count)) else Thrown
  {
    hide MapCount, ArrayCount, MayOpen, Step, Opened;
  }

  /** What begin_array and begin_object make of a head. */
  lemma BeginHead(input: seq<Byte>, st: State, kind: Kind, count: nat, head: seq<Byte>)
    requires kind != Binary && count < UINT32
    requires head == if kind == Array then CountBytes(0x90, 0xdc, count) else CountBytes(0x80, 0xde, count)
    requires Holds(input, st.pos, head)
    ensures st.pos < |input| && SkipOf(Typecode(input[st.pos])) == Open(kind)
    ensures Begin(input, st, kind)
            == if MayOpen(st.scopes) && Step(st.scopes).Ok?
               then Ok(Opened(State(st.pos + |head|, Step(st.scopes).value, st.store), kind, count)) else Thrown
  {
    hide Holds, CountBytes, MapCount, ArrayCount, Typecode, SkipOf, MayOpen, Step, Opened, Begin;
    CountRead(input, st.pos, kind, count);
    BeginWith(input, st, kind, count, st.pos + |head|);
  }

  /** Skipping a container is opening it and closing it. */
  lemma SkipOpens(input: seq<Byte>, st: State, kind: Kind)
    requires kind != Binary && st.pos < |input| && SkipOf(Typecode(input[st.pos])) == Open(kind)
    ensures SkipOnce(input, st)
            == if Begin(input, st, kind).Ok? then BreakScope(input, Begin(input, st, kind).value) else Thrown
  {
    hide Typecode, SkipOf, Begin, BreakScope;
  }

  predicate AllScalar(vs: seq<Value>) {
    forall i :: 0 <= i < |vs| ==> Scalar(vs[i])
  }

  /** The keys among what is left of a map. */
  predicate KeysFlat(vs: seq<Value>) {
    forall i :: 0 <= i < |vs| && (|vs| - i) % 2 == 0 ==> Scalar(vs[i])
  }

  lemma KeysRest(vs: seq<Value>)
    requires vs != [] && KeysFlat(vs)
    ensures KeysFlat(vs[1..]) && (|vs| % 2 == 0 ==> Scalar(vs[0]))
  {
    hide Scalar;
    forall i | 0 <= i < |vs| - 1 && (|vs| - 1 - i) % 2 == 0
      ensures Scalar(vs[1..][i])
    {
      assert vs[1..][i] == vs[i + 1];
    }
  }

  lemma ValidRest(vs: seq<Value>)
    requires vs != [] && AllValid(vs)
    ensures Valid(vs[0]) && AllValid(vs[1..])
  {
    hide Valid;
  }

  lemma FirstAndRestScalar(vs: seq<Value>)
    requires vs != []
    ensures AllScalar(vs) == (Scalar(vs[0]) && AllScalar(vs[1..]))
  {
    hide Scalar;
    assert forall i :: 0 < i < |vs| ==> vs[i] == vs[1..][i - 1];
    assert forall i :: 0 <= i < |vs| - 1 ==> vs[1..][i] == vs[i + 1];
  }

  /** What is left of a map where no container may stand. */
  lemma {:induction false} SkipScalars(input: seq<Byte>, st: State, vs: seq<Value>)
    requires st.scopes != [] && Top(st.scopes).kind == Object && Top(st.scopes).left == |vs|
    requires |vs| % 2 == 1 ==> Top(st.scopes).readingKey
    requires AllValid(vs)
    requires KeysFlat(vs)
    requires Holds(input, st.pos, EncodeAll(vs))
    ensures st.pos <= |input|
    ensures if AllScalar(vs)
            then Reaches(BreakScope(input, st), st.pos + |EncodeAll(vs)|, Popped(st.scopes), st.store.room)
            else BreakScope(input, st).Thrown?
    decreases |vs|
  {
    hide Encode, EncodeAll, SkipOnce, BreakScope, Holds, Valid;
    if vs == [] {
      NoneHeld(input, st.pos);
      BreakEnds(input, st);
    } else {
      var now := AtElement(st);
      FirstHeld(input, st.pos, vs);
      BreakSteps(input, st);
      FirstAndRestScalar(vs);
      KeysRest(vs);
      ValidRest(vs);
      hide AllScalar, AllValid, KeysFlat;
      if Scalar(vs[0]) {
        SkipScalar(input, now, vs[0]);
        SkipScalars(input, SkipOnce(input, now).value, vs[1..]);
      } else {
        OpenRefused(input, now, vs[0]);
      }
    }
  }

  /** No container opens while a key is awaited or announced, or in a binary. */
  lemma {:induction false} OpenRefused(input: seq<Byte>, st: State, v: Value)
    requires Valid(v) && !Scalar(v) && Holds(input, st.pos, Encode(v))
    requires !MayOpen(st.scopes) || Step(st.scopes).Thrown?
    ensures st.pos < |input| && SkipOnce(input, st) == Thrown && ReadAny(input, st) == Thrown
  {
    hide Holds, MayOpen, Step, Encode, EncodeAll, Head;
    ContainerBytes(v);
    HoldsSplit(input, st.pos, Head(v), EncodeAll(Held(v)));
    BeginHead(input, st, KindOf(v), Count(v), Head(v));
    hide Typecode, SkipOf, Begin;
  }

  /** The outcome of skipping: the byte after it, these scopes, and a vector this large. */
  predicate Reaches(r: Outcome<State>, pos: nat, scopes: seq<Scope>, room: nat) {
    r.Ok? && r.value.pos == pos && r.value.scopes == scopes && r.value.store.room == room
  }

  /** The end is reached if the reader may skip what stands there and its nesting fits
      the vector; nothing dangles where it fits, nothing is thrown where it may. */
  predicate Fate(r: Outcome<State>, may: bool, fits: bool, pos: nat, scopes: seq<Scope>, room: nat) {
    if may && fits then Reaches(r, pos, scopes, room)
    else if fits then r.Thrown?
    else if may then r.Dangling?
    else !r.Ok?
  }

  predicate AllSkippable(vs: seq<Value>) {
    forall i :: 0 <= i < |vs| ==> Skippable(vs[i])
  }

  function KindOf(v: Value): Kind {
    if v.Arr? then Array else Object
  }

  function Held(v: Value): seq<Value>
    requires !Scalar(v)
  {
    if v.Arr? then v.elems else v.entries
  }

  function Count(v: Value): nat
    requires !Scalar(v)
  {
    if v.Arr? then |v.elems| else |v.entries| / 2
  }

  lemma ContainerBytes(v: Value)
    requires !Scalar(v)
    ensures Encode(v) == Head(v) + EncodeAll(Held(v))
    ensures Head(v) == if KindOf(v) == Array then CountBytes(0x90, 0xdc, Count(v)) else CountBytes(0x80, 0xde, Count(v))
  {
    hide EncodeAll, CountBytes;
  }

  /** The elements the opened scope counts, in 32 bits. */
  function Counted(v: Value): nat
    requires !Scalar(v)
  {
    if v.Arr? then |v.elems| else |v.entries| % UINT32
  }

  lemma {:induction false} OpenedShape(st: State, v: Value)
    requires Valid(v) && !Scalar(v)
    ensures Count(v) < UINT32
    ensures var r := Opened(st, KindOf(v), Count(v));
            && r.pos == st.pos && r.scopes != [] && Popped(r.scopes) == st.scopes
            && |r.scopes| == |st.scopes| + 1 && r.store.room == Enlarged(st.store, |st.scopes|)
            && Top(r.scopes).kind == KindOf(v) && Top(r.scopes).left == Counted(v) && !Top(r.scopes).readingKey
  {
  }

  /** What a container's head opens, and where its elements stand. */
  lemma Opens(input: seq<Byte>, st: State, v: Value) returns (begun: State)
    requires Valid(v) && !Scalar(v) && Holds(input, st.pos, Encode(v))
    requires MayOpen(st.scopes) && Step(st.scopes).Ok?
    ensures st.pos < |input| && SkipOf(Typecode(input[st.pos])) == Open(KindOf(v))
    ensures Begin(input, st, KindOf(v)) == Ok(begun)
    ensures begun.pos + |EncodeAll(Held(v))| == st.pos + |Encode(v)| && Holds(input, begun.pos, EncodeAll(Held(v)))
    ensures begun.scopes != [] && Popped(begun.scopes) == Step(st.scopes).value
    ensures |begun.scopes| == |st.scopes| + 1 && begun.store.room == Enlarged(st.store, |st.scopes|)
    ensures Top(begun.scopes).kind == KindOf(v) && Top(begun.scopes).left == Counted(v) && !Top(begun.scopes).readingKey
  {
    hide Holds, CountBytes, MayOpen, Step, Typecode, SkipOf, Begin, Encode, EncodeAll, Head, Opened, Top, Popped;
    ContainerBytes(v);
    HoldsSplit(input, st.pos, Head(v), EncodeAll(Held(v)));
    begun := State(st.pos + |Head(v)|, Step(st.scopes).value, st.store);
    OpenedShape(begun, v);
    BeginHead(input, st, KindOf(v), Count(v), Head(v));
    begun := Opened(begun, KindOf(v), Count(v));
  }

  /** How many scopes the value opens one inside the other. */
  function Nesting(v: Value): nat {
    match v
    case Arr(elems) => 1 + NestingAll(elems)
    case Map(entries) => 1 + NestingAll(entries)
    case _ => 0
  }

  function NestingAll(vs: seq<Value>): nat {
    if vs == [] then 0
    else if Nesting(vs[0]) > NestingAll(vs[1..]) then Nesting(vs[0])
    else NestingAll(vs[1..])
  }

  /** The capacity once a first scope is open leaves room for the scopes inside it. */
  predicate Fits(st: State, v: Value) {
    |st.scopes| + Nesting(v) <= Enlarged(st.store, |st.scopes|)
  }

  /** The innermost scope may hold the value here: a container is no key, and none comes
      while a key is announced. */
  predicate Enterable(scopes: seq<Scope>, v: Value) {
    || Scalar(v) || scopes == [] || Top(scopes).kind == Array
    || (Top(scopes).kind == Object && Top(scopes).left % 2 == 1 && !Top(scopes).readingKey)
  }

  lemma EnterableMeans(scopes: seq<Scope>, v: Value)
    requires Fillable(scopes) && !Scalar(v)
    ensures Enterable(scopes, v) <==> MayOpen(scopes) && Step(scopes).Ok?
    ensures Enterable(scopes, v) ==> Step(scopes) == Ok(Taken(scopes))
  {
  }

  /** The value's outcome where every map in it is counted right. */
  lemma {:induction false} SkipCountable(input: seq<Byte>, st: State, v: Value)
    requires Valid(v) && Countable(v) && Holds(input, st.pos, Encode(v)) && Fillable(st.scopes)
    ensures st.pos < |input|
    ensures Fate(SkipOnce(input, st), Skippable(v) && Enterable(st.scopes, v), Fits(st, v),
              st.pos + |Encode(v)|, Taken(st.scopes), RoomAfter(st, v))
    decreases v
  {
    hide Holds, Encode, EncodeAll, SkipOnce, Begin, BreakScope, Typecode, SkipOf, Step, MayOpen, Taken;
    if Scalar(v) {
      SkipScalar(input, st, v);
    } else {
      hide Enterable;
      EnterableMeans(st.scopes, v);
      if Enterable(st.scopes, v) {
        SkipContainer(input, st, v);
      } else {
        OpenRefused(input, st, v);
      }
    }
  }

  /** The capacity after a value: a container has opened one scope. */
  function RoomAfter(st: State, v: Value): nat {
    if Scalar(v) then st.store.room else Enlarged(st.store, |st.scopes|)
  }

  lemma {:induction false} SkipContainer(input: seq<Byte>, st: State, v: Value)
    requires Valid(v) && Countable(v) && !Scalar(v) && Holds(input, st.pos, Encode(v))
    requires MayOpen(st.scopes) && Step(st.scopes).Ok?
    ensures st.pos < |input|
    ensures Fate(SkipOnce(input, st), Skippable(v), Fits(st, v),
              st.pos + |Encode(v)|, Step(st.scopes).value, Enlarged(st.store, |st.scopes|))
    decreases v, 1
  {
    hide Valid, Countable, Holds, Encode, EncodeAll, SkipOnce, Begin, BreakScope, Typecode, SkipOf, Step, MayOpen;
    hide Skippable, Nesting, Enlarged, Fate, Held;
    CountedRight(v);
    var begun := Opens(input, st, v);
    SkipOpens(input, st, KindOf(v));
    SkipHeld(input, begun, v);
    NestingHeld(v);
  }

  lemma NestingHeld(v: Value)
    requires !Scalar(v)
    ensures Nesting(v) == 1 + NestingAll(Held(v))
  {
  }

  /** What stands in an opened container, and its end. */
  lemma {:induction false} SkipHeld(input: seq<Byte>, begun: State, v: Value)
    requires Valid(v) && Countable(v) && !Scalar(v) && Holds(input, begun.pos, EncodeAll(Held(v)))
    requires begun.scopes != [] && |begun.scopes| <= begun.store.room
    requires Top(begun.scopes).kind == KindOf(v) && Top(begun.scopes).left == |Held(v)|
    requires !Top(begun.scopes).readingKey
    ensures begun.pos <= |input|
    ensures Fate(BreakScope(input, begun), Skippable(v), |begun.scopes| + NestingAll(Held(v)) <= begun.store.room,
              begun.pos + |EncodeAll(Held(v))|, Popped(begun.scopes), begun.store.room)
    decreases v, 0
  {
    hide Holds, EncodeAll, BreakScope;
    if v.Arr? {
      SkipElems(input, begun, v.elems);
    } else {
      MapHeld(v);
      hide Valid, Countable;
      SkipScalars(input, begun, v.entries);
      if AllScalar(v.entries) {
        ScalarsFlat(v.entries);
      }
    }
  }

  lemma {:induction false} ScalarsFlat(vs: seq<Value>)
    requires AllScalar(vs)
    ensures NestingAll(vs) == 0
  {
    if vs != [] {
      FirstAndRestScalar(vs);
      ScalarsFlat(vs[1..]);
    }
  }

  /** What is left of an array. */
  lemma {:induction false} SkipElems(input: seq<Byte>, st: State, vs: seq<Value>)
    requires st.scopes != [] && Top(st.scopes).kind == Array && Top(st.scopes).left == |vs|
    requires forall i :: 0 <= i < |vs| ==> Valid(vs[i]) && Countable(vs[i])
    requires Holds(input, st.pos, EncodeAll(vs)) && |st.scopes| <= st.store.room
    ensures st.pos <= |input|
    ensures Fate(BreakScope(input, st), AllSkippable(vs), |st.scopes| + NestingAll(vs) <= st.store.room,
              st.pos + |EncodeAll(vs)|, Popped(st.scopes), st.store.room)
    decreases vs
  {
    hide Encode, EncodeAll, SkipOnce, BreakScope, Holds, Valid, Countable, Skippable;
    if vs == [] {
      NoneHeld(input, st.pos);
      BreakEnds(input, st);
    } else {
      FirstHeld(input, st.pos, vs);
      BreakStepsArray(input, st);
      SkipCountable(input, st, vs[0]);
      FirstAndRestSkippable(vs);
      hide AllSkippable;
      var next := SkipOnce(input, st);
      if next.Ok? && next.value.store.room == st.store.room {
        SkipElems(input, next.value, vs[1..]);
      }
    }
  }

  /** What is left of a map may be skipped if it is all scalars; only a value whose key
      was read may be a container. */
  predicate MaySkip(vs: seq<Value>, announced: bool) {
    if |vs| % 2 == 1 && !announced then Skippable(vs[0]) && AllScalar(vs[1..]) else AllScalar(vs)
  }

  function RestNesting(vs: seq<Value>, announced: bool): nat {
    if |vs| % 2 == 1 && !announced then Nesting(vs[0]) else 0
  }

  /** What is left of a map, between two entries, after a key was announced, or after
      it was read. */
  lemma {:induction false} SkipEntries(input: seq<Byte>, st: State, vs: seq<Value>)
    requires st.scopes != [] && Top(st.scopes).kind == Object && Top(st.scopes).left == |vs|
    requires AllValid(vs) && AllCountable(vs)
    requires KeysFlat(vs)
    requires Holds(input, st.pos, EncodeAll(vs)) && |st.scopes| <= st.store.room
    ensures st.pos <= |input|
    ensures var announced := Top(st.scopes).readingKey;
            Fate(BreakScope(input, st), MaySkip(vs, announced),
              |st.scopes| + RestNesting(vs, announced) <= st.store.room,
              st.pos + |EncodeAll(vs)|, Popped(st.scopes), st.store.room)
  {
    hide EncodeAll, BreakScope, Holds, AllValid, AllCountable, KeysFlat, AllScalar, Skippable, Nesting;
    if |vs| % 2 == 1 && !Top(st.scopes).readingKey {
      SkipPending(input, st, vs);
    } else {
      SkipScalars(input, st, vs);
    }
  }

  /** The same after a key was read. */
  lemma {:induction false} SkipPending(input: seq<Byte>, st: State, vs: seq<Value>)
    requires st.scopes != [] && Top(st.scopes).kind == Object && Top(st.scopes).left == |vs|
    requires |vs| % 2 == 1 && !Top(st.scopes).readingKey
    requires AllValid(vs) && AllCountable(vs)
    requires KeysFlat(vs)
    requires Holds(input, st.pos, EncodeAll(vs)) && |st.scopes| <= st.store.room
    ensures st.pos <= |input|
    ensures Fate(BreakScope(input, st), Skippable(vs[0]) && AllScalar(vs[1..]),
              |st.scopes| + Nesting(vs[0]) <= st.store.room,
              st.pos + |EncodeAll(vs)|, Popped(st.scopes), st.store.room)
  {
    hide Encode, EncodeAll, SkipOnce, BreakScope, Holds, Skippable, AllScalar, Valid, Countable;
    KeysRest(vs);
    ValidRest(vs);
    assert Countable(vs[0]);
    hide AllValid, AllCountable, KeysFlat;
    FirstHeld(input, st.pos, vs);
    BreakSteps(input, st);
    assert AtElement(st).scopes == st.scopes;
    hide AtElement;
    SkipCountable(input, st, vs[0]);
    var next := SkipOnce(input, st);
    if next.Ok? && next.value.store.room == st.store.room {
      SkipScalars(input, next.value, vs[1..]);
    }
  }

  // ----- miscounted maps -----

  predicate AllValid(vs: seq<Value>) {
    forall i :: 0 <= i < |vs| ==> Valid(vs[i])
  }

  predicate AllCountable(vs: seq<Value>) {
    forall i :: 0 <= i < |vs| ==> Countable(vs[i])
  }

  /** The values stand at the position, and end where the input is said to. */
  ghost predicate Stand(input: seq<Byte>, pos: nat, vs: seq<Value>, end: nat) {
    AllValid(vs) && Holds(input, pos, EncodeAll(vs)) && pos + |EncodeAll(vs)| == end
  }

  lemma FirstStands(input: seq<Byte>, pos: nat, vs: seq<Value>, end: nat)
    requires vs != [] && Stand(input, pos, vs, end)
    ensures Valid(vs[0]) && Holds(input, pos, Encode(vs[0]))
    ensures Stand(input, pos + |Encode(vs[0])|, vs[1..], end)
  {
    hide Valid, Encode, EncodeAll, Holds;
    FirstHeld(input, pos, vs);
  }

  /** Where a container is opened, what it holds stands in front of what follows it. */
  lemma HeldStand(input: seq<Byte>, pos: nat, vs: seq<Value>, end: nat, at: nat)
    requires vs != [] && Stand(input, pos, vs, end) && !Scalar(vs[0])
    requires Holds(input, at, EncodeAll(Held(vs[0]))) && at + |EncodeAll(Held(vs[0]))| == pos + |Encode(vs[0])|
    ensures Stand(input, at, Held(vs[0]) + vs[1..], end)
  {
    hide Encode, EncodeAll, Scalar;
    FirstStands(input, pos, vs, end);
    EncodeConcat(Held(vs[0]), vs[1..]);
    HeldAny(vs[0]);
    hide Valid, Held;
  }

  /** Skipping one of the values that stand in a row leaves all the others, and more
      than those if the first was miscounted. */
  lemma {:induction false} SkipForest(input: seq<Byte>, st: State, vs: seq<Value>, end: nat) returns (rest: seq<Value>)
    requires st.pos <= |input| && vs != [] && Stand(input, st.pos, vs, end) && SkipOnce(input, st).Ok?
    ensures Stand(input, SkipOnce(input, st).value.pos, rest, end)
    ensures if Countable(vs[0]) then rest == vs[1..] else |rest| >= |vs|
    decreases |input| - st.pos, 1
  {
    hide Valid, Holds, Encode, EncodeAll, SkipOnce, BreakScope, Countable, Stand, MayOpen, Step;
    FirstStands(input, st.pos, vs, end);
    if Countable(vs[0]) {
      SkipKeeps(input, st);
      SkipCountable(input, st, vs[0]);
      rest := vs[1..];
    } else {
      rest := SkipMiscounted(input, st, vs, end);
    }
  }

  lemma {:induction false} SkipMiscounted(input: seq<Byte>, st: State, vs: seq<Value>, end: nat)
      returns (rest: seq<Value>)
    requires st.pos <= |input| && vs != [] && Stand(input, st.pos, vs, end) && SkipOnce(input, st).Ok?
    requires !Countable(vs[0]) && Valid(vs[0]) && Holds(input, st.pos, Encode(vs[0]))
    ensures Stand(input, SkipOnce(input, st).value.pos, rest, end) && |rest| >= |vs|
    decreases |input| - st.pos, 0
  {
    hide Holds, Encode, EncodeAll, SkipOnce, BreakScope, Stand, MayOpen, Step, Begin;
    var v := vs[0];
    if !MayOpen(st.scopes) || Step(st.scopes).Thrown? {
      OpenRefused(input, st, v);
    } else {
      var begun := Opens(input, st, v);
      SkipOpens(input, st, KindOf(v));
      HeldStand(input, st.pos, vs, end, begun.pos);
      CountedRight(v);
      hide Valid, Countable;
      rest := BreakForest(input, begun, Held(v) + vs[1..], end);
    }
  }

  lemma MapHeld(v: Value)
    requires Valid(v) && v.Map?
    ensures |v.entries| % 2 == 0 && |v.entries| < 2 * UINT32
    ensures forall i :: 0 <= i < |v.entries| && i % 2 == 0 ==> Scalar(v.entries[i])
  {
  }

  lemma HeldValid(v: Value)
    requires Valid(v) && !Scalar(v)
    ensures AllValid(Held(v))
  {
  }

  /** The maps in it are counted right if it is itself, and all it holds. */
  lemma CountedRight(v: Value)
    requires Valid(v) && !Scalar(v)
    ensures Countable(v) <==> Counted(v) == |Held(v)| && AllCountable(Held(v))
    ensures Counted(v) == |Held(v)| || Counted(v) + UINT32 == |Held(v)|
  {
    if v.Map? {
      MapHeld(v);
    }
    hide Valid;
  }

  /** Closing a scope leaves all the values but those it counts, and more than that if one
      of these was miscounted. */
  lemma {:induction false} BreakForest(input: seq<Byte>, st: State, vs: seq<Value>, end: nat) returns (rest: seq<Value>)
    requires st.pos <= |input| && st.scopes != [] && BreakScope(input, st).Ok?
    requires Stand(input, st.pos, vs, end) && Top(st.scopes).left <= |vs|
    ensures Stand(input, BreakScope(input, st).value.pos, rest, end)
    ensures |rest| >= |vs| - Top(st.scopes).left
    ensures !AllCountable(vs[..Top(st.scopes).left]) ==> |rest| > |vs| - Top(st.scopes).left
    decreases |input| - st.pos, 2
  {
    hide SkipOnce, BreakScope, Countable, Stand;
    var top := Top(st.scopes);
    if top.left == 0 {
      BreakEnds(input, st);
      rest := vs;
    } else {
      var now := AtElement(st);
      BreakSteps(input, st);
      SkipKeeps(input, now);
      var others := SkipForest(input, now, vs, end);
      rest := BreakForest(input, SkipOnce(input, now).value, others, end);
      FirstOrRest(vs, top.left);
    }
  }

  lemma FirstOrRest(vs: seq<Value>, n: nat)
    requires 0 < n <= |vs|
    ensures AllCountable(vs[..n]) <==> Countable(vs[0]) && AllCountable(vs[1..][..n - 1])
  {
    hide Countable;
    var first := vs[..n];
    assert vs[1..][..n - 1] == first[1..] && vs[0] == first[0];
    assert forall i :: 0 < i < n ==> first[i] == first[1..][i - 1];
    assert forall i :: 0 <= i < n - 1 ==> first[1..][i] == first[i + 1];
  }

  /** A value is skipped to the byte after it exactly if its maps are counted right, none
      has a container for a value, it may stand here, and its nesting fits the vector of
      scopes; of these, the last makes the reader look at a scope that has moved, a
      miscounted map makes it stop short, and the others make it throw. */
  lemma SkipTree(input: seq<Byte>, st: State, v: Value)
    requires Valid(v) && Holds(input, st.pos, Encode(v)) && Fillable(st.scopes)
    ensures st.pos < |input|
    ensures var r := SkipOnce(input, st);
            if Countable(v)
            then Fate(r, Skippable(v) && Enterable(st.scopes, v), Fits(st, v),
                   st.pos + |Encode(v)|, Taken(st.scopes), RoomAfter(st, v))
            else r.Ok? ==> r.value.pos < st.pos + |Encode(v)|
  {
    hide Valid, Holds, Encode, EncodeAll, SkipOnce, Skippable, Fits, Taken, Enterable, Fillable, RoomAfter, Countable;
    if Countable(v) {
      SkipCountable(input, st, v);
    } else {
      HeadStarts(input, st.pos, v);
      if SkipOnce(input, st).Ok? {
        EncodeOne(v);
        var rest := SkipForest(input, st, [v], st.pos + |Encode(v)|);
        SomeLeft(input, SkipOnce(input, st).value.pos, rest, st.pos + |Encode(v)|);
      }
    }
  }

  function Growing(st: State, grow: nat -> nat): State {
    st.(store := st.store.(grow := grow))
  }

  /** What a caller can reserve for: where there is room for all the scopes of a value,
      or it opens no scope inside another, it is skipped however the vector grows; and in
      no other case. */
  lemma {:induction false} ReserveSuffices(input: seq<Byte>, st: State, v: Value)
    requires Valid(v) && Holds(input, st.pos, Encode(v)) && Fillable(st.scopes) && |st.scopes| <= st.store.room
    requires Countable(v) && Skippable(v) && Enterable(st.scopes, v)
    ensures (forall grow: nat -> nat :: SkipOnce(input, Growing(st, grow)).Ok?)
            <==> Nesting(v) <= 1 || |st.scopes| + Nesting(v) <= st.store.room
    ensures forall grow: nat -> nat :: !SkipOnce(input, Growing(st, grow)).Thrown?
  {
    hide Valid, Holds, Encode, SkipOnce, Fillable, Enterable, Skippable, Countable, Nesting, Taken, RoomAfter;
    HeadStarts(input, st.pos, v);
    forall grow: nat -> nat
      ensures Fits(Growing(st, grow), v) <==> SkipOnce(input, Growing(st, grow)).Ok?
      ensures !SkipOnce(input, Growing(st, grow)).Thrown?
      ensures Nesting(v) <= 1 || |st.scopes| + Nesting(v) <= st.store.room ==> Fits(Growing(st, grow), v)
    {
      SkipTree(input, Growing(st, grow), v);
    }
    var byOne: nat -> nat := room => room + 1;
    assert Fits(Growing(st, byOne), v) <==> Nesting(v) <= 1 || |st.scopes| + Nesting(v) <= st.store.room;
  }

  /** An array in an array, skipped by a reader that reserves nothing: the outcome hangs
      on how far the vector grows at first. */
  lemma NestedSkip(grow: nat -> nat)
    ensures var r := SkipOnce([0x91, 0x91, 1], State(0, [], Store(0, 0, grow)));
            if grow(0) < 2 then r.Dangling? else Reaches(r, 3, [], grow(0))
  {
    hide SkipOnce;
    var one, inner := Int(1), Arr([Int(1)]);
    var v := Arr([inner]);
    assert IntBytes(1) == [1] && Encode(one) == [1];
    EncodeOne(one);
    EncodeOne(inner);
    assert Encode(inner) == [0x91, 1] && Encode(v) == [0x91, 0x91, 1];
    NestingOne(one);
    NestingOne(inner);
    assert Valid(inner) && Countable(inner) && Skippable(inner);
    hide Encode, EncodeAll, NestingAll;
    assert Nesting(inner) == 1 && Nesting(v) == 2;
    SkipTree(Encode(v), State(0, [], Store(0, 0, grow)), v);
  }

  lemma NestingOne(v: Value)
    ensures NestingAll([v]) == Nesting(v)
  {
    hide Nesting;
  }

  lemma EncodeOne(v: Value)
    ensures EncodeAll([v]) == Encode(v)
  {
    EncodeFirst([v]);
    EncodeNone();
    assert [v][1..] == [];
    hide Encode, EncodeAll;
  }

  lemma HeadStarts(input: seq<Byte>, pos: nat, v: Value)
    requires Valid(v) && Holds(input, pos, Encode(v))
    ensures pos < |input| && Encode(v) != []
  {
    hide EncodeAll;
  }

  lemma SomeLeft(input: seq<Byte>, pos: nat, vs: seq<Value>, end: nat)
    requires vs != [] && Stand(input, pos, vs, end)
    ensures pos < end
  {
    hide Valid, Encode, EncodeAll, Holds;
    FirstStands(input, pos, vs, end);
    HeadStarts(input, pos, vs[0]);
  }

  lemma BreakStepsArray(input: seq<Byte>, st: State)
    requires st.pos <= |input| && st.scopes != [] && Top(st.scopes).left > 0 && Top(st.scopes).kind == Array
    ensures BreakScope(input, st) == Resumed(input, st.store.room, SkipOnce(input, st))
  {
    hide SkipOnce, BreakScope;
    assert AtElement(st).scopes == st.scopes;
    BreakSteps(input, st);
  }

  lemma FirstAndRestSkippable(vs: seq<Value>)
    requires vs != []
    ensures AllSkippable(vs) == (Skippable(vs[0]) && AllSkippable(vs[1..]))
  {
    hide Skippable;
    assert forall i :: 0 < i < |vs| ==> vs[i] == vs[1..][i - 1];
    assert forall i :: 0 <= i < |vs| - 1 ==> vs[1..][i] == vs[i + 1];
  }

  // ----- reading trees -----

  /** Keys that are nil leave the scope waiting for a key: they are read back only as
      the last key, and before a scalar.  The elements are those left of a map, the
      flag says whether the scope is in that state. */
  predicate ReadableEntries(vs: seq<Value>, stuck: bool)
    decreases vs
  {
    if vs == [] then true
    else if |vs| % 2 == 0 then !stuck && ReadableEntries(vs[1..], vs[0] == Nil)
    else (stuck ==> Scalar(vs[0])) && Readable(vs[0]) && ReadableEntries(vs[1..], stuck)
  }

  predicate Readable(v: Value)
    decreases v
  {
    match v
    case Arr(elems) => forall i :: 0 <= i < |elems| ==> Readable(elems[i])
    case Map(entries) => ReadableEntries(entries, false)
    case _ => true
  }

  /** The same without recursion over the entries. */
  lemma {:induction false} ReadableMeans(vs: seq<Value>, stuck: bool)
    requires |vs| % 2 == 0
    ensures ReadableEntries(vs, stuck) <==>
            && (stuck ==> vs == [])
            && (forall i :: 0 <= i < |vs| && i % 2 == 1 ==> Readable(vs[i]))
            && (forall i :: 0 <= i < |vs| && i % 2 == 0 && vs[i] == Nil ==> i + 2 == |vs| && Scalar(vs[i + 1]))
    decreases vs
  {
    hide Readable;
    if vs != [] && !stuck {
      var rest := vs[2..];
      assert vs[1..][1..] == rest && vs[1..][0] == vs[1];
      ReadableMeans(rest, vs[0] == Nil);
      ReadableStep(vs);
      hide ReadableEntries;
      Shifted(vs, rest);
    }
  }

  lemma ReadableStep(vs: seq<Value>)
    requires vs != [] && |vs| % 2 == 0
    ensures ReadableEntries(vs, false)
            <==> (vs[0] == Nil ==> Scalar(vs[1])) && Readable(vs[1]) && ReadableEntries(vs[2..], vs[0] == Nil)
  {
    ReadableKey(vs);
    ReadableValue(vs[1..], vs[0] == Nil);
    assert vs[1..][1..] == vs[2..] && vs[1..][0] == vs[1];
    hide Readable, ReadableEntries;
  }

  lemma ReadableKey(vs: seq<Value>)
    requires vs != [] && |vs| % 2 == 0
    ensures ReadableEntries(vs, false) == ReadableEntries(vs[1..], vs[0] == Nil)
  {
    hide Readable;
  }

  lemma ReadableValue(vs: seq<Value>, stuck: bool)
    requires |vs| % 2 == 1
    ensures ReadableEntries(vs, stuck)
            == ((stuck ==> Scalar(vs[0])) && Readable(vs[0]) && ReadableEntries(vs[1..], stuck))
  {
    hide Readable;
  }

  lemma Shifted(vs: seq<Value>, rest: seq<Value>)
    requires |vs| >= 2 && |vs| % 2 == 0 && rest == vs[2..]
    ensures (forall i :: 0 <= i < |vs| && i % 2 == 1 ==> Readable(vs[i]))
            <==> Readable(vs[1]) && (forall i :: 0 <= i < |rest| && i % 2 == 1 ==> Readable(rest[i]))
    ensures (forall i :: 0 <= i < |vs| && i % 2 == 0 && vs[i] == Nil ==> i + 2 == |vs| && Scalar(vs[i + 1]))
            <==> && (vs[0] == Nil ==> rest == [] && Scalar(vs[1]))
                 && (forall i :: 0 <= i < |rest| && i % 2 == 0 && rest[i] == Nil ==>
                                   i + 2 == |rest| && Scalar(rest[i + 1]))
  {
    hide Readable, Scalar;
    assert forall i :: 2 <= i < |vs| ==> vs[i] == rest[i - 2];
    assert forall i :: 0 <= i < |rest| ==> rest[i] == vs[i + 2];
  }

  /** The scopes after the value is read. */
  function After(scopes: seq<Scope>, v: Value): seq<Scope>
    requires Fillable(scopes)
  {
    if scopes == [] then [] else
    var top := Top(scopes);
    var key := if top.kind == Object && top.left % 2 == 0 && v != Nil then false else top.readingKey;
    SetTop(scopes, top.(readingKey := key, left := top.left - 1))
  }

  /** The innermost scope has room for the value; a key is announced and no container,
      and no container comes where a nil key has left the scope waiting. */
  predicate Awaited(scopes: seq<Scope>, v: Value) {
    && Fillable(scopes)
    && (scopes != [] ==> Top(scopes).kind != Binary)
    && (scopes != [] && Top(scopes).kind == Object ==>
          if Top(scopes).left % 2 == 0 then Top(scopes).readingKey && Scalar(v)
          else Scalar(v) || !Top(scopes).readingKey)
  }

  lemma StepAwaited(scopes: seq<Scope>, v: Value)
    requires Awaited(scopes, v)
    ensures v != Nil ==> Step(scopes) == Ok(After(scopes, v))
    ensures v == Nil ==> Taken(scopes) == After(scopes, v)
    ensures !Scalar(v) ==> MayOpen(scopes)
    ensures Fillable(scopes)
  {
  }

  /** What reading gives: this value, at this byte, with these scopes. */
  predicate Gives(r: Outcome<(Value, State)>, v: Value, pos: nat, scopes: seq<Scope>) {
    r.Ok? && r.value.0 == v && r.value.1.pos == pos && r.value.1.scopes == scopes
  }

  /** The value is given if it is readable and counted right.  If it is only counted
      right, the reader throws; if it is not, anything but this value is given. */
  predicate Returns(r: Outcome<(Value, State)>, v: Value, pos: nat, scopes: seq<Scope>) {
    if Countable(v) then if Readable(v) then Gives(r, v, pos, scopes) else r.Thrown?
    else !(r.Ok? && r.value.0 == v)
  }

  lemma ReadNumeric(input: seq<Byte>, st: State, v: Value)
    requires Numeric(v) && Valid(v) && Holds(input, st.pos, Head(v)) && Awaited(st.scopes, v)
    ensures Gives(ReadAny(input, st), v, st.pos + |Head(v)|, After(st.scopes, v))
  {
    hide Holds, Head, ReadNumber, Typecode, SkipOf, Step, After, Awaited, Fillable;
    NumberRead(input, st.pos, v);
    hide Valid;
    StepAwaited(st.scopes, v);
  }

  lemma {:induction false} ReadText(input: seq<Byte>, st: State, s: seq<Byte>)
    requires Valid(Str(s)) && Holds(input, st.pos, Encode(Str(s))) && Awaited(st.scopes, Str(s))
    ensures Gives(ReadAny(input, st), Str(s), st.pos + |Encode(Str(s))|, After(st.scopes, Str(s)))
  {
    hide Encode, Valid, StrHeader, StrCount, Typecode, SkipOf, Step, After, Awaited, Fillable;
    StrHeld(input, st.pos, s);
    StepAwaited(st.scopes, Str(s));
    TextFits(input, st.pos + |StrHeader(|s|)|, s);
    hide Holds;
    assert s + [] == s;
  }

  lemma {:induction false} ReadBytes(input: seq<Byte>, st: State, s: seq<Byte>)
    requires Valid(Bin(s)) && Holds(input, st.pos, Encode(Bin(s))) && Awaited(st.scopes, Bin(s))
    ensures Gives(ReadAny(input, st), Bin(s), st.pos + |Encode(Bin(s))|, After(st.scopes, Bin(s)))
  {
    hide Encode, Valid, SizeBytes, ReadCount, Typecode, SkipOf, Step, After, Awaited, Fillable;
    BinHeld(input, st.pos, s);
    StepAwaited(st.scopes, Bin(s));
    TextFits(input, st.pos + |SizeBytes(0xc4, |s|)|, s);
    hide Holds;
    var at := st.pos + |SizeBytes(0xc4, |s|)|;
    var begun := Opened(State(at, After(st.scopes, Bin(s)), st.store), Binary, |s|);
    assert BeginBinary(input, st) == Ok(begun);
    ReadWholeBinary(input, begun, s);
    hide BeginBinary, BinaryReadSome, EndBinary, Opened;
  }

  lemma ReadWholeBinary(input: seq<Byte>, st: State, s: seq<Byte>)
    requires st.scopes != [] && Top(st.scopes).kind == Binary && Top(st.scopes).left == |s|
    requires st.pos + |s| <= |input| && input[st.pos..st.pos + |s|] == s
    ensures BinaryReadSome(input, st, |s|).Ok? && BinaryReadSome(input, st, |s|).value.0 == s
    ensures EndBinary(input, BinaryReadSome(input, st, |s|).value.1)
            == Ok(State(st.pos + |s|, Popped(st.scopes), st.store))
  {
  }

  lemma {:induction false} ReadNil(input: seq<Byte>, st: State)
    requires Holds(input, st.pos, Encode(Nil)) && Awaited(st.scopes, Nil)
    ensures Gives(ReadAny(input, st), Nil, st.pos + |Encode(Nil)|, After(st.scopes, Nil))
  {
    hide Holds, Encode, Typecode, SkipOf, Taken, After, Awaited, Fillable, SkipOnce;
    NilHeld(input, st.pos);
    StepAwaited(st.scopes, Nil);
    SkipNil(input, st);
  }

  lemma {:induction false} ReadScalar(input: seq<Byte>, st: State, v: Value)
    requires Valid(v) && Scalar(v) && Holds(input, st.pos, Encode(v)) && Awaited(st.scopes, v)
    ensures Gives(ReadAny(input, st), v, st.pos + |Encode(v)|, After(st.scopes, v))
  {
    hide Holds, Encode, Valid, ReadAny, After, Awaited;
    match v
    case Nil => ReadNil(input, st);
    case Str(s) => ReadText(input, st, s);
    case Bin(s) => ReadBytes(input, st, s);
    case _ =>
      NumericBytes(v);
      ReadNumeric(input, st, v);
  }

  /** What reading the elements of a scope gives: these values, and the scope used up. */
  ghost predicate GivesAll(r: Outcome<(seq<Value>, State)>, vs: seq<Value>, pos: nat, scopes: seq<Scope>)
    requires scopes != []
  {
    && r.Ok? && r.value.0 == vs && r.value.1.pos == pos && r.value.1.scopes != []
    && Popped(r.value.1.scopes) == Popped(scopes)
    && Top(r.value.1.scopes).key == Top(scopes).key && Top(r.value.1.scopes).kind == Top(scopes).kind
    && Top(r.value.1.scopes).left == 0
  }

  /** The same for elements: given, thrown at, or not given. */
  ghost predicate ReturnsAll(r: Outcome<(seq<Value>, State)>, vs: seq<Value>, may: bool, pos: nat, scopes: seq<Scope>)
    requires scopes != []
  {
    if AllCountable(vs) then if may then GivesAll(r, vs, pos, scopes) else r.Thrown?
    else !(r.Ok? && r.value.0 == vs)
  }

  predicate AllReadable(vs: seq<Value>) {
    forall i :: 0 <= i < |vs| ==> Readable(vs[i])
  }

  /** A container, given its elements and what follows them. */
  function Ended(input: seq<Byte>, elems: Outcome<(seq<Value>, State)>, kind: Kind, key: (nat, nat))
    : Outcome<(Value, State)>
    requires elems.Ok? ==> elems.value.1.pos <= |input|
  {
    var read :- elems;
    var ended :- End(input, read.1, kind, key);
    Ok((if kind == Array then Arr(read.0) else Map(read.0), ended))
  }

  lemma {:induction false} ReadOpens(input: seq<Byte>, st: State, begun: State, kind: Kind)
    requires kind != Binary && st.pos < |input| && SkipOf(Typecode(input[st.pos])) == Open(kind)
    requires Begin(input, st, kind) == Ok(begun)
    ensures var elems := ReadElems(input, begun, Top(begun.scopes).key);
            ReadAny(input, st) == Ended(input, elems, kind, Top(begun.scopes).key)
  {
    hide Typecode, SkipOf, Begin, ReadElems, End;
  }

  lemma EndsOnTop(input: seq<Byte>, st: State, kind: Kind)
    requires st.pos <= |input| && st.scopes != [] && Top(st.scopes).kind == kind && Top(st.scopes).left == 0
    ensures End(input, st, kind, Top(st.scopes).key) == Ok(State(st.pos, Popped(st.scopes), st.store))
  {
    hide SkipOnce;
    assert Breaks(st.scopes, kind, Top(st.scopes).key) == Ok(1);
    assert BreakScope(input, st) == Ok(st.(scopes := Popped(st.scopes)));
  }

  /** The state in which the next element of the innermost scope is read. */
  function Announced(st: State): (r: Outcome<State>)
    requires st.scopes != []
    ensures !r.Dangling?
  {
    if Top(st.scopes).kind == Object && Top(st.scopes).left % 2 == 0 then ReadKeyNext(st) else Ok(st)
  }

  /** The elements, given the first one and what follows it. */
  function ElemsFrom(input: seq<Byte>, first: Outcome<(Value, State)>, key: (nat, nat)): Outcome<(seq<Value>, State)>
    requires first.Ok? ==> first.value.1.pos <= |input|
  {
    var elem :- first;
    var rest :- ReadElems(input, elem.1, key);
    Ok(([elem.0] + rest.0, rest.1))
  }

  /** Reading the elements is reading one, announced if it is a key, and the others. */
  lemma ElemsStep(input: seq<Byte>, st: State)
    requires st.pos <= |input| && st.scopes != [] && Top(st.scopes).left > 0
    ensures var next := Announced(st);
            ReadElems(input, st, Top(st.scopes).key)
            == if next.Thrown? then Thrown else ElemsFrom(input, ReadAny(input, next.value), Top(st.scopes).key)
  {
    hide ReadAny, ReadKeyNext;
  }

  lemma ElemsDone(input: seq<Byte>, st: State)
    requires st.pos <= |input| && st.scopes != [] && Top(st.scopes).left == 0
    ensures ReadElems(input, st, Top(st.scopes).key) == Ok(([], st))
  {
    hide ReadAny, ReadKeyNext;
  }

  /** Where a value is awaited, it is read back, to the byte after it and with nothing
      left open, exactly if it is readable and its maps are counted right. */
  lemma {:induction false} ReadTree(input: seq<Byte>, st: State, v: Value)
    requires Valid(v) && Holds(input, st.pos, Encode(v)) && Awaited(st.scopes, v)
    ensures Fillable(st.scopes) && st.pos <= |input|
    ensures Returns(ReadAny(input, st), v, st.pos + |Encode(v)|, After(st.scopes, v))
    decreases v, 1
  {
    hide Holds, Encode, EncodeAll, ReadAny, Begin, Typecode, SkipOf, After, Awaited, Valid;
    StepAwaited(st.scopes, v);
    if Scalar(v) {
      ReadScalar(input, st, v);
    } else {
      var begun := Opens(input, st, v);
      ReadOpens(input, st, begun, KindOf(v));
      TextFits(input, begun.pos, EncodeAll(Held(v)));
      ReadHeld(input, st, begun, v);
    }
  }

  /** What stands in an opened container, and its end. */
  lemma {:induction false} ReadHeld(input: seq<Byte>, st: State, begun: State, v: Value)
    requires Valid(v) && !Scalar(v) && Fillable(st.scopes)
    requires Holds(input, begun.pos, EncodeAll(Held(v))) && begun.pos + |EncodeAll(Held(v))| == st.pos + |Encode(v)|
    requires begun.pos <= |input| && begun.scopes != [] && Popped(begun.scopes) == After(st.scopes, v)
    requires Top(begun.scopes).kind == KindOf(v) && Top(begun.scopes).left == Counted(v)
    requires !Top(begun.scopes).readingKey
    ensures Returns(Ended(input, ReadElems(input, begun, Top(begun.scopes).key), KindOf(v), Top(begun.scopes).key),
              v, st.pos + |Encode(v)|, After(st.scopes, v))
    decreases v, 0
  {
    hide Holds, Encode, EncodeAll, ReadElems, End, After, ReadableEntries, Valid, Countable, Readable;
    var key := Top(begun.scopes).key;
    var elems := ReadElems(input, begun, key);
    if elems.Ok? {
      ElemsKeep(input, begun);
      EndsOnTop(input, elems.value.1, KindOf(v));
    }
    CountedRight(v);
    HeldValid(v);
    ReadableHeld(v);
    if Counted(v) == |Held(v)| {
      if v.Arr? {
        ReadArr(input, begun, v.elems);
      } else {
        KeysScalar(v);
        ReadMap(input, begun, v.entries);
      }
    }
  }

  lemma ReadableHeld(v: Value)
    requires !Scalar(v)
    ensures Readable(v) <==> if v.Arr? then AllReadable(v.elems) else ReadableEntries(v.entries, false)
  {
    hide ReadableEntries;
  }

  lemma KeysScalar(v: Value)
    requires Valid(v) && v.Map?
    ensures |v.entries| % 2 == 0
    ensures KeysFlat(v.entries)
  {
    MapHeld(v);
    hide Valid, Scalar;
  }

  /** A tree alone in a stream: it is read back whole, with no scope left open, exactly
      if it is readable and its maps are counted right. */
  lemma {:induction false} RoundTrip(v: Value, store: Store)
    requires Valid(v)
    ensures Gives(ReadAny(Encode(v), State(0, [], store)), v, |Encode(v)|, []) <==> Readable(v) && Countable(v)
    ensures Countable(v) && !Readable(v) ==> ReadAny(Encode(v), State(0, [], store)).Thrown?
  {
    hide Valid, Countable, Readable, Encode, ReadAny;
    assert Encode(v)[0..|Encode(v)|] == Encode(v);
    ReadTree(Encode(v), State(0, [], store), v);
  }

  /** The elements left of an array. */
  lemma {:induction false} ReadArr(input: seq<Byte>, st: State, vs: seq<Value>)
    requires st.scopes != [] && Top(st.scopes).kind == Array && Top(st.scopes).left == |vs|
    requires AllValid(vs)
    requires Holds(input, st.pos, EncodeAll(vs))
    ensures st.pos <= |input|
    ensures ReturnsAll(ReadElems(input, st, Top(st.scopes).key), vs, AllReadable(vs),
              st.pos + |EncodeAll(vs)|, st.scopes)
    decreases vs, 1
  {
    hide Encode, EncodeAll, ReadAny, Holds, Valid, Countable, Readable, ReadElems;
    if vs == [] {
      NoneHeld(input, st.pos);
      ElemsDone(input, st);
    } else {
      FirstHeld(input, st.pos, vs);
      ElemsStep(input, st);
      ReadTree(input, st, vs[0]);
      FirstAndRest(vs);
      hide AllReadable, AllCountable;
      if Countable(vs[0]) && Readable(vs[0]) {
        var next := ReadAny(input, st).value.1;
        ReadArr(input, next, vs[1..]);
      }
    }
  }

  lemma FirstAndRest(vs: seq<Value>)
    requires vs != []
    ensures vs == [vs[0]] + vs[1..]
    ensures AllReadable(vs) == (Readable(vs[0]) && AllReadable(vs[1..]))
    ensures AllCountable(vs) == (Countable(vs[0]) && AllCountable(vs[1..]))
  {
    hide Readable, Countable;
    assert forall i :: 0 < i < |vs| ==> vs[i] == vs[1..][i - 1];
    assert forall i :: 0 <= i < |vs| - 1 ==> vs[1..][i] == vs[i + 1];
  }

  /** The elements left of a map. */
  lemma {:induction false} ReadMap(input: seq<Byte>, st: State, vs: seq<Value>)
    requires st.scopes != [] && Top(st.scopes).kind == Object && Top(st.scopes).left == |vs|
    requires AllValid(vs)
    requires KeysFlat(vs)
    requires Holds(input, st.pos, EncodeAll(vs))
    ensures st.pos <= |input|
    ensures ReturnsAll(ReadElems(input, st, Top(st.scopes).key), vs, ReadableEntries(vs, Top(st.scopes).readingKey),
              st.pos + |EncodeAll(vs)|, st.scopes)
    decreases vs, 1
  {
    hide Encode, ReadAny, Holds, Valid, Countable, Readable, ReadElems, GivesAll;
    if vs == [] {
      hide EncodeAll;
      ReadMapEnd(input, st);
    } else {
      hide ReadableEntries, EncodeAll;
      FirstHeld(input, st.pos, vs);
      if |vs| % 2 == 0 {
        ReadMapKey(input, st, vs);
      } else {
        ReadMapValue(input, st, vs);
      }
    }
  }

  lemma ReadMapEnd(input: seq<Byte>, st: State)
    requires st.scopes != [] && Top(st.scopes).left == 0 && Holds(input, st.pos, EncodeAll([]))
    ensures st.pos <= |input|
            && GivesAll(ReadElems(input, st, Top(st.scopes).key), [], st.pos + |EncodeAll([])|, st.scopes)
  {
    hide ReadElems, EncodeAll, Holds;
    NoneHeld(input, st.pos);
    ElemsDone(input, st);
  }

  lemma ScalarSimple(v: Value)
    requires Scalar(v)
    ensures Countable(v) && Readable(v) && Skippable(v)
  {
  }

  /** A key: announced, then read, unless the scope still waits for one. */
  lemma {:induction false} ReadMapKey(input: seq<Byte>, st: State, vs: seq<Value>)
    requires vs != [] && |vs| % 2 == 0
    requires st.scopes != [] && Top(st.scopes).kind == Object && Top(st.scopes).left == |vs|
    requires AllValid(vs)
    requires KeysFlat(vs)
    requires Holds(input, st.pos, Encode(vs[0])) && Holds(input, st.pos + |Encode(vs[0])|, EncodeAll(vs[1..]))
    ensures st.pos <= |input|
    ensures ReturnsAll(ReadElems(input, st, Top(st.scopes).key), vs, ReadableEntries(vs, Top(st.scopes).readingKey),
              st.pos + |Encode(vs[0])| + |EncodeAll(vs[1..])|, st.scopes)
    decreases vs, 0
  {
    hide Encode, EncodeAll, ReadAny, Holds, Valid, Countable, Readable, ReadElems;
    TextFits(input, st.pos, Encode(vs[0]));
    ElemsStep(input, st);
    FirstAndRest(vs);
    hide AllCountable, AllReadable;
    assert Countable(vs[0]) by { ScalarSimple(vs[0]); }
    if !Top(st.scopes).readingKey {
      var now := ReadKeyNext(st).value;
      ReadScalar(input, now, vs[0]);
      var next := ReadAny(input, now).value.1;
      ReadMap(input, next, vs[1..]);
      assert vs == [vs[0]] + vs[1..];
      hide ReadKeyNext, After, Awaited;
    }
  }

  /** A value: no container where a nil key has left the scope waiting. */
  lemma {:induction false} ReadMapValue(input: seq<Byte>, st: State, vs: seq<Value>)
    requires |vs| % 2 == 1
    requires st.scopes != [] && Top(st.scopes).kind == Object && Top(st.scopes).left == |vs|
    requires AllValid(vs)
    requires KeysFlat(vs)
    requires Holds(input, st.pos, Encode(vs[0])) && Holds(input, st.pos + |Encode(vs[0])|, EncodeAll(vs[1..]))
    ensures st.pos <= |input|
    ensures ReturnsAll(ReadElems(input, st, Top(st.scopes).key), vs, ReadableEntries(vs, Top(st.scopes).readingKey),
              st.pos + |Encode(vs[0])| + |EncodeAll(vs[1..])|, st.scopes)
    decreases vs, 0
  {
    hide Encode, EncodeAll, ReadAny, Holds, Valid, Countable, Readable, ReadElems;
    TextFits(input, st.pos, Encode(vs[0]));
    ElemsStep(input, st);
    if Top(st.scopes).readingKey && !Scalar(vs[0]) {
      OpenRefused(input, st, vs[0]);
    } else {
      ReadTree(input, st, vs[0]);
      FirstAndRest(vs);
      hide AllCountable, AllReadable;
      if Countable(vs[0]) && Readable(vs[0]) {
        var next := ReadAny(input, st).value.1;
        ReadMap(input, next, vs[1..]);
        assert vs == [vs[0]] + vs[1..];
      }
    }
  }

  // ----- scopes, whatever the input -----

  /** One element of the innermost scope is taken, and nothing else opened or closed. */
  predicate OneTaken(scopes: seq<Scope>, after: seq<Scope>) {
    && |after| == |scopes|
    && (scopes != [] ==>
         && Popped(after) == Popped(scopes) && Top(after).left + 1 == Top(scopes).left
         && Top(after).kind == Top(scopes).kind && Top(after).key == Top(scopes).key)
  }

  lemma StepTakes(scopes: seq<Scope>)
    ensures Step(scopes).Ok? ==> OneTaken(scopes, Step(scopes).value)
    ensures StepOnSkip(scopes).Ok? ==> OneTaken(scopes, StepOnSkip(scopes).value)
  {
  }

  /** What reads no container. */
  lemma FlatKeeps(input: seq<Byte>, st: State)
    requires st.pos < |input| && SkipOf(Typecode(input[st.pos])) in {Number, Text(0xd9), Text(0xc4)}
    requires ReadAny(input, st).Ok?
    ensures OneTaken(st.scopes, ReadAny(input, st).value.1.scopes)
  {
    hide Typecode, SkipOf, OneTaken, ReadNum, ReadString, BeginBinary, BinaryReadSome, EndBinary;
    if SkipOf(Typecode(input[st.pos])) == Number {
      NumKeeps(input, st);
    } else if SkipOf(Typecode(input[st.pos])) == Text(0xd9) {
      StringKeeps(input, st);
    } else {
      var begun := BeginBinary(input, st).value;
      BinaryKeeps(input, st, begun);
    }
  }

  lemma NumKeeps(input: seq<Byte>, st: State)
    requires ReadNum(input, st).Ok?
    ensures OneTaken(st.scopes, ReadNum(input, st).value.1.scopes)
  {
    hide ReadNumber, Step, OneTaken;
    StepTakes(st.scopes);
  }

  lemma StringKeeps(input: seq<Byte>, st: State)
    requires ReadString(input, st, []).Ok?
    ensures OneTaken(st.scopes, ReadString(input, st, []).value.1.scopes)
  {
    hide StrCount, Step, OneTaken, Resized;
    StepTakes(st.scopes);
  }

  lemma BinaryKeeps(input: seq<Byte>, st: State, begun: State)
    requires BeginBinary(input, st) == Ok(begun)
    requires BinaryReadSome(input, begun, Top(begun.scopes).left).Ok?
    requires EndBinary(input, BinaryReadSome(input, begun, Top(begun.scopes).left).value.1).Ok?
    ensures OneTaken(st.scopes,
              EndBinary(input, BinaryReadSome(input, begun, Top(begun.scopes).left).value.1).value.scopes)
  {
    hide BinCount, Step, OneTaken;
    StepTakes(st.scopes);
  }

  /** Skipping takes one element of the innermost scope and leaves the others alone. */
  lemma {:induction false} SkipKeeps(input: seq<Byte>, st: State)
    requires st.pos <= |input| && SkipOnce(input, st).Ok?
    ensures OneTaken(st.scopes, SkipOnce(input, st).value.scopes)
    decreases |input| - st.pos, 0
  {
    hide Typecode, SkipOf, BreakScope, ReadNumber, ReadCount, StrCount, MapCount, ArrayCount;
    match SkipOf(Typecode(input[st.pos]))
    case Open(kind) =>
      hide SkipFlat;
      var begun := Begin(input, st, kind).value;
      hide Begin;
      BreakCloses(input, begun);
      assert Popped(begun.scopes) == Step(st.scopes).value by { BeginSteps(input, st, kind); }
    case _ =>
  }

  /** Reading takes one element of the innermost scope and leaves the others alone. */
  lemma {:induction false} ReadKeeps(input: seq<Byte>, st: State)
    requires st.pos <= |input| && ReadAny(input, st).Ok?
    ensures OneTaken(st.scopes, ReadAny(input, st).value.1.scopes)
    decreases |input| - st.pos, 0
  {
    hide Typecode, SkipOf, SkipOnce, ReadElems, End, ReadNum, ReadString, BeginBinary, BinaryReadSome, EndBinary, Begin;
    hide OneTaken;
    match SkipOf(Typecode(input[st.pos]))
    case Number => FlatKeeps(input, st);
    case Text(base) => FlatKeeps(input, st);
    case Open(kind) =>
      var begun := Begin(input, st, kind).value;
      BeginSteps(input, st, kind);
      ReadOpens(input, st, begun, kind);
      ElemsKeep(input, begun);
      EndsOnTop(input, ReadElems(input, begun, Top(begun.scopes).key).value.1, kind);
      StepTakes(st.scopes);
    case Fixed(n) =>
      SkipKeeps(input, st);
  }

  /** Reading the elements of a scope gives as many as it counts, and uses it up. */
  lemma {:induction false} ElemsKeep(input: seq<Byte>, st: State)
    requires st.pos <= |input| && st.scopes != [] && ReadElems(input, st, Top(st.scopes).key).Ok?
    ensures var r := ReadElems(input, st, Top(st.scopes).key).value;
            && |r.0| == Top(st.scopes).left && r.1.scopes != [] && Popped(r.1.scopes) == Popped(st.scopes)
            && Top(r.1.scopes).key == Top(st.scopes).key && Top(r.1.scopes).kind == Top(st.scopes).kind
            && Top(r.1.scopes).left == 0
    decreases |input| - st.pos, 1
  {
    hide ReadElems, ReadAny;
    if Top(st.scopes).left == 0 {
      ElemsDone(input, st);
    } else {
      ElemsStep(input, st);
      var now := Announced(st).value;
      ReadKeeps(input, now);
      ElemsKeep(input, ReadAny(input, now).value.1);
    }
  }

  lemma BeginSteps(input: seq<Byte>, st: State, kind: Kind)
    requires kind != Binary && Begin(input, st, kind).Ok?
    ensures var r := Begin(input, st, kind).value;
            && Step(st.scopes).Ok? && Popped(r.scopes) == Step(st.scopes).value && Top(r.scopes).kind == kind
  {
    hide MapCount, ArrayCount, Step, Opened;
  }

  /** Closing a scope leaves exactly the scopes around it, and the vector where it was. */
  lemma {:induction false} BreakCloses(input: seq<Byte>, st: State)
    requires st.pos <= |input| && st.scopes != [] && BreakScope(input, st).Ok?
    ensures var r := BreakScope(input, st).value;
            r.scopes == Popped(st.scopes) && r.store.room == st.store.room
    decreases |input| - st.pos, 1
  {
    hide SkipOnce;
    var top := Top(st.scopes);
    if top.left > 0 {
      var now := AtElement(st);
      SkipKeeps(input, now);
      BreakCloses(input, SkipOnce(input, now).value);
    }
  }

  /** Each open scope's key holds its depth: so no two open scopes have the same key. */
  ghost predicate KeysOk(scopes: seq<Scope>) {
    forall i :: 0 <= i < |scopes| ==> scopes[i].key.1 == i
  }

  lemma KeysDiffer(scopes: seq<Scope>, i: nat, j: nat)
    requires KeysOk(scopes) && i < j < |scopes|
    ensures scopes[i].key != scopes[j].key
  {
  }

  /** A new scope's key has the depth, and the number after the one given out last. */
  lemma OpenedKeys(st: State, kind: Kind, n: nat)
    ensures var r := Opened(st, kind, n);
            && Top(r.scopes).key == ((st.store.gen + 1) % 0x1_0000_0000, |st.scopes|)
            && r.store.gen == (st.store.gen + 1) % 0x1_0000_0000
    ensures KeysOk(st.scopes) ==> KeysOk(Opened(st, kind, n).scopes)
  {
  }

  lemma TakenKeys(scopes: seq<Scope>, after: seq<Scope>)
    requires OneTaken(scopes, after) && KeysOk(scopes)
    ensures KeysOk(after)
  {
    if scopes != [] {
      assert after == Popped(after) + [Top(after)];
      assert forall i :: 0 <= i < |scopes| - 1 ==> after[i] == Popped(after)[i] == Popped(scopes)[i] == scopes[i];
    }
  }

  /** Every call keeps the keys apart, whatever the input. */
  lemma {:induction false} CallsKeepKeys(input: seq<Byte>, st: State, kind: Kind, key: (nat, nat), was: seq<Byte>,
      size: nat)
    requires st.pos <= |input| && KeysOk(st.scopes)
    ensures kind != Binary && Begin(input, st, kind).Ok? ==> KeysOk(Begin(input, st, kind).value.scopes)
    ensures BeginBinary(input, st).Ok? ==> KeysOk(BeginBinary(input, st).value.scopes)
    ensures BinaryReadSome(input, st, size).Ok? ==> KeysOk(BinaryReadSome(input, st, size).value.1.scopes)
    ensures EndBinary(input, st).Ok? ==> KeysOk(EndBinary(input, st).value.scopes)
    ensures ReadKeyNext(st).Ok? ==> KeysOk(ReadKeyNext(st).value.scopes)
    ensures ReadNum(input, st).Ok? ==> KeysOk(ReadNum(input, st).value.1.scopes)
    ensures ReadString(input, st, was).Ok? ==> KeysOk(ReadString(input, st, was).value.1.scopes)
    ensures SkipOnce(input, st).Ok? ==> KeysOk(SkipOnce(input, st).value.scopes)
    ensures End(input, st, kind, key).Ok? ==> KeysOk(End(input, st, kind, key).value.scopes)
  {
    ReadsKeepKeys(input, st, was, size);
    OpensKeepKeys(input, st, kind);
    hide KeysOk, Begin, BeginBinary, BinaryReadSome, EndBinary, ReadKeyNext, ReadNum, ReadString, SkipOnce, End;
    if SkipOnce(input, st).Ok? {
      SkipKeeps(input, st);
      TakenKeys(st.scopes, SkipOnce(input, st).value.scopes);
    }
    if End(input, st, kind, key).Ok? {
      EndRestores(input, st, kind, key);
      PrefixKeys(st.scopes, |st.scopes| - Breaks(st.scopes, kind, key).value);
    }
  }

  lemma PrefixKeys(scopes: seq<Scope>, n: nat)
    requires KeysOk(scopes) && n <= |scopes|
    ensures KeysOk(scopes[..n])
  {
  }

  lemma {:induction false} OpensKeepKeys(input: seq<Byte>, st: State, kind: Kind)
    requires KeysOk(st.scopes)
    ensures kind != Binary && Begin(input, st, kind).Ok? ==> KeysOk(Begin(input, st, kind).value.scopes)
    ensures BeginBinary(input, st).Ok? ==> KeysOk(BeginBinary(input, st).value.scopes)
  {
    hide MapCount, ArrayCount, BinCount, Step, Opened, KeysOk, OneTaken;
    StepTakes(st.scopes);
    if Step(st.scopes).Ok? {
      TakenKeys(st.scopes, Step(st.scopes).value);
    }
    forall pos: nat, k: Kind, n: nat | Step(st.scopes).Ok?
      ensures KeysOk(Opened(State(pos, Step(st.scopes).value, st.store), k, n).scopes)
    {
      OpenedKeys(State(pos, Step(st.scopes).value, st.store), k, n);
    }
  }

  lemma {:induction false} ReadsKeepKeys(input: seq<Byte>, st: State, was: seq<Byte>, size: nat)
    requires st.pos <= |input| && KeysOk(st.scopes)
    ensures BinaryReadSome(input, st, size).Ok? ==> KeysOk(BinaryReadSome(input, st, size).value.1.scopes)
    ensures EndBinary(input, st).Ok? ==> KeysOk(EndBinary(input, st).value.scopes)
    ensures ReadKeyNext(st).Ok? ==> KeysOk(ReadKeyNext(st).value.scopes)
    ensures ReadNum(input, st).Ok? ==> KeysOk(ReadNum(input, st).value.1.scopes)
    ensures ReadString(input, st, was).Ok? ==> KeysOk(ReadString(input, st, was).value.1.scopes)
  {
    hide StrCount, ReadNumber, Step, Resized;
    StepTakes(st.scopes);
    if Step(st.scopes).Ok? {
      TakenKeys(st.scopes, Step(st.scopes).value);
    }
    hide OneTaken;
  }

  /** end_array and end_object with the key of an open scope close it and all that was
      opened inside and left open, however far they were read, and nothing else. */
  lemma {:induction false} EndRestores(input: seq<Byte>, st: State, kind: Kind, key: (nat, nat))
    requires st.pos <= |input| && End(input, st, kind, key).Ok?
    ensures Breaks(st.scopes, kind, key).Ok?
    ensures var depth := |st.scopes| - Breaks(st.scopes, kind, key).value;
            && End(input, st, kind, key).value.scopes == st.scopes[..depth]
            && st.scopes[depth].key == key && st.scopes[depth].kind == kind
            && forall i :: depth < i < |st.scopes| ==> st.scopes[i].key != key
  {
    hide BreakMany;
    BreaksFinds(st.scopes, kind, key);
    BreakManyCloses(input, st, Breaks(st.scopes, kind, key).value);
  }

  lemma {:induction false} BreaksFinds(scopes: seq<Scope>, kind: Kind, key: (nat, nat))
    requires Breaks(scopes, kind, key).Ok?
    ensures var depth := |scopes| - Breaks(scopes, kind, key).value;
            && scopes[depth].key == key && scopes[depth].kind == kind
            && forall i :: depth < i < |scopes| ==> scopes[i].key != key
  {
    if Top(scopes).key != key {
      BreaksFinds(Popped(scopes), kind, key);
    }
  }

  lemma {:induction false} BreakManyCloses(input: seq<Byte>, st: State, n: nat)
    requires st.pos <= |input| && n <= |st.scopes| && BreakMany(input, st, n).Ok?
    ensures BreakMany(input, st, n).value.scopes == st.scopes[..|st.scopes| - n]
    decreases n
  {
    hide BreakScope;
    if n > 0 {
      BreakCloses(input, st);
      BreakManyCloses(input, BreakScope(input, st).value, n - 1);
    }
  }

  /** Ending an array after some of its elements were read skips the others. */
  lemma {:induction false} EndSkipsRest(input: seq<Byte>, st: State, vs: seq<Value>)
    requires st.scopes != [] && Top(st.scopes).kind == Array && Top(st.scopes).left == |vs|
    requires AllValid(vs) && Holds(input, st.pos, EncodeAll(vs)) && |st.scopes| <= st.store.room
    ensures st.pos <= |input|
    ensures var r := End(input, st, Array, Top(st.scopes).key);
            if AllCountable(vs)
            then Fate(r, AllSkippable(vs), |st.scopes| + NestingAll(vs) <= st.store.room,
                   st.pos + |EncodeAll(vs)|, Popped(st.scopes), st.store.room)
            else r.Ok? ==> r.value.pos < st.pos + |EncodeAll(vs)|
  {
    hide BreakScope, EncodeAll, Holds, Valid, Countable, Skippable;
    TextFits(input, st.pos, EncodeAll(vs));
    EndOfTop(input, st, Array);
    if AllCountable(vs) {
      SkipElems(input, st, vs);
    } else {
      BreakStopsShort(input, st, vs);
    }
  }

  /** Ending a map after some of its entries were read, or a key alone, skips the rest. */
  lemma {:induction false} EndSkipsEntries(input: seq<Byte>, st: State, vs: seq<Value>)
    requires st.scopes != [] && Top(st.scopes).kind == Object && Top(st.scopes).left == |vs|
    requires KeysFlat(vs)
    requires AllValid(vs) && Holds(input, st.pos, EncodeAll(vs)) && |st.scopes| <= st.store.room
    ensures st.pos <= |input|
    ensures var r, announced := End(input, st, Object, Top(st.scopes).key), Top(st.scopes).readingKey;
            if AllCountable(vs)
            then Fate(r, MaySkip(vs, announced), |st.scopes| + RestNesting(vs, announced) <= st.store.room,
                   st.pos + |EncodeAll(vs)|, Popped(st.scopes), st.store.room)
            else r.Ok? ==> r.value.pos < st.pos + |EncodeAll(vs)|
  {
    hide BreakScope, EncodeAll, Holds, Valid, Countable, Skippable, MaySkip, RestNesting, Scalar;
    TextFits(input, st.pos, EncodeAll(vs));
    EndOfTop(input, st, Object);
    if AllCountable(vs) {
      SkipEntries(input, st, vs);
    } else {
      BreakStopsShort(input, st, vs);
    }
  }

  /** Closing a scope in which a map was miscounted stops short of the end. */
  lemma {:induction false} BreakStopsShort(input: seq<Byte>, st: State, vs: seq<Value>)
    requires st.scopes != [] && Top(st.scopes).left == |vs| && st.pos <= |input|
    requires AllValid(vs) && !AllCountable(vs) && Holds(input, st.pos, EncodeAll(vs))
    ensures var r := BreakScope(input, st); r.Ok? ==> r.value.pos < st.pos + |EncodeAll(vs)|
  {
    hide BreakScope, EncodeAll, Holds, AllCountable, AllValid;
    if BreakScope(input, st).Ok? {
      assert vs[..|vs|] == vs;
      assert Stand(input, st.pos, vs, st.pos + |EncodeAll(vs)|);
      hide Stand;
      var rest := BreakForest(input, st, vs, st.pos + |EncodeAll(vs)|);
      SomeLeft(input, BreakScope(input, st).value.pos, rest, st.pos + |EncodeAll(vs)|);
    }
  }

  /** Ending the innermost scope by its own key closes it alone. */
  lemma EndOfTop(input: seq<Byte>, st: State, kind: Kind)
    requires st.pos <= |input| && st.scopes != [] && Top(st.scopes).kind == kind
    ensures End(input, st, kind, Top(st.scopes).key) == BreakScope(input, st)
  {
    hide BreakScope;
    var ended := BreakScope(input, st);
    assert Breaks(st.scopes, kind, Top(st.scopes).key) == Ok(1);
    if ended.Ok? {
      assert BreakMany(input, ended.value, 0) == ended;
    }
    assert BreakMany(input, st, 1) == ended;
  }
}
