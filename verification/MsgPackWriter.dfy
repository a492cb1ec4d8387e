/** The writer of include/cpph/refl/archive/msgpack-writer.hxx and the scopes it keeps
    (include/cpph/refl/archive/detail/context_helper.hxx). */
module MsgPackWriter {

  import opened Bits
  import opened MsgPackFormat
  import MsgPackTrees

  datatype Kind = Object | Array | Binary

  /** An open scope; a map counts its keys and values. */
  datatype Scope = Scope(kind: Kind, keyReady: bool, size: nat, capacity: nat)

  function Top(scopes: seq<Scope>): Scope
    requires scopes != []
  {
    scopes[|scopes| - 1]
  }

  function SetTop(scopes: seq<Scope>, top: Scope): (r: seq<Scope>)
    requires scopes != []
    ensures |r| == |scopes| && Top(r) == top && r[..|r| - 1] == scopes[..|scopes| - 1]
  {
    scopes[..|scopes| - 1] + [top]
  }

  /** A value may come next, and if it is to be a key, it is announced and no container. */
  predicate Expects(scopes: seq<Scope>, v: Value) {
    scopes == []
    || match Top(scopes).kind
       case Array => Top(scopes).size < Top(scopes).capacity
       case Object =>
         && Top(scopes).size % 2 == 1
         && (if Top(scopes).keyReady then Scalar(v) else Top(scopes).size < Top(scopes).capacity)
       case Binary => false
  }

  /** write_next does not throw: there is room, and in a map a key has been counted. */
  predicate Accepts(scopes: seq<Scope>) {
    scopes == []
    || if Top(scopes).kind == Object && (Top(scopes).size % 2 == 0 || Top(scopes).keyReady)
       then Top(scopes).size % 2 == 1
       else Top(scopes).size < Top(scopes).capacity
  }

  /** A key is announced and not yet written. */
  predicate KeyAnnounced(scopes: seq<Scope>) {
    scopes != [] && Top(scopes).kind == Object && Top(scopes).keyReady
  }

  /** The scopes once it is written: a key has been counted when it was announced. */
  function Written(scopes: seq<Scope>): seq<Scope> {
    if scopes == [] then []
    else if Top(scopes).kind == Object && Top(scopes).keyReady then SetTop(scopes, Top(scopes).(keyReady := false))
    else SetTop(scopes, Top(scopes).(size := Top(scopes).size + 1))
  }

  /** The elements written into a scope: an announced key counts once it is there. */
  function Filled(scope: Scope): int {
    if scope.kind == Object && scope.keyReady then scope.size - 1 else scope.size
  }

  /** Writing fills one more place of the innermost scope, leaves nothing announced there,
      and touches nothing else. */
  lemma WrittenFills(scopes: seq<Scope>)
    requires scopes != []
    ensures |Written(scopes)| == |scopes| && Written(scopes)[..|scopes| - 1] == scopes[..|scopes| - 1]
    ensures var top := Top(Written(scopes));
            && Filled(top) == Filled(Top(scopes)) + 1
            && top.kind == Top(scopes).kind && top.capacity == Top(scopes).capacity
            && (top.kind == Object ==> !top.keyReady)
  {
  }

  /** A write is accepted outside every scope, in an array or binary that is not full, and
      in a map for an announced key or for the value behind a key. */
  lemma AcceptsWhen(scopes: seq<Scope>)
    ensures Accepts(scopes)
            <==> (scopes != [] ==>
                    var top := Top(scopes);
                    && (top.kind == Object ==> top.size % 2 == 1)
                    && (Filled(top) < top.capacity || KeyAnnounced(scopes)))
  {
  }

  class Writer {
    var out: seq<Byte>
    var scopes: seq<Scope>

    constructor ()
      ensures out == [] && scopes == []
    {
      out, scopes := [], [];
    }

    // ----- bytes -----

    method Put(b: Byte)
      modifies this`out
      ensures out == old(out) + [b]
    {
      out := out + [b];
    }

    /** _putbin: the bytes of a number in memory, reversed. */
    method PutBin(v: int, size: nat)
      modifies this`out
      ensures out == old(out) + BigEndian(v, size)
    {
      var inv := new Byte[size];
      var rest := v;
      for i := 0 to size
        invariant BigEndian(v, size) == BigEndian(rest, size - i) + inv[size - i..]
        invariant out == old(out)
      {
        ghost var before, at := inv[size - i..], BigEndian(rest, size - i);
        inv[size - 1 - i] := rest % 256;
        assert inv[size - i - 1..] == [rest % 256] + before;
        assert at == BigEndian(rest / 256, size - i - 1) + [rest % 256];
        MsgPackTrees.Regroup(BigEndian(rest / 256, size - i - 1), [rest % 256], before);
        rest := rest / 256;
      }
      assert inv[..] == inv[0..];
      out := out + inv[..];
    }

    /** A code and a number behind it. */
    method PutCode(code: Byte, v: int, size: nat)
      modifies this`out
      ensures out == old(out) + ([code] + BigEndian(v, size))
    {
      Put(code);
      PutBin(v, size);
    }

    method PutInt(v: int)
      modifies this`out
      ensures out == old(out) + IntBytes(v)
    {
      hide BigEndian;
      if v >= 0 {
        if v < 0x80 {
          Put(v);
        } else if v < 0x8000 {
          PutCode(0xd1, v, 2);
        } else if v < 0x8000_0000 {
          PutCode(0xd2, v, 4);
        } else {
          PutCode(0xd3, v, 8);
        }
      } else {
        if v >= -32 {
          Put(0xe0 + v % 32);
        } else if v >= -0x8000 {
          PutCode(0xd1, v, 2);
        } else if v >= -0x8000_0000 {
          PutCode(0xd2, v, 4);
        } else {
          PutCode(0xd3, v, 8);
        }
      }
    }

    method PutUInt(v: nat)
      modifies this`out
      ensures out == old(out) + UIntBytes(v)
    {
      hide BigEndian;
      if v < 0x80 {
        Put(v);
      } else if v < 0x8000 {
        PutCode(0xcd, v, 2);
      } else if v < 0x8000_0000 {
        PutCode(0xce, v, 4);
      } else {
        PutCode(0xcf, v, 8);
      }
    }

    /** _apsize_1. */
    method PutSize(code: nat, size: nat)
      requires code + 2 < 256 && size < 0x1_0000_0000
      modifies this`out
      ensures out == old(out) + SizeBytes(code, size)
    {
      hide BigEndian;
      if size / 0x1_0000 != 0 {
        PutCode(code + 2, size, 4);
      } else if size / 0x100 % 0x100 != 0 {
        PutCode(code + 1, size, 2);
      } else {
        PutCode(code, size, 1);
      }
    }

    method PutCount(fix: nat, code: nat, count: nat)
      requires fix + 16 <= 256 && code + 1 < 256
      modifies this`out
      ensures out == old(out) + CountBytes(fix, code, count)
    {
      hide BigEndian;
      if count < 16 {
        Put(fix + count);
      } else if count < 0x8000 {
        PutCode(code, count, 2);
      } else {
        PutCode(code + 1, count, 4);
      }
    }

    // ----- scopes -----

    /** write_next: false where the source throws. */
    method WriteNext() returns (ok: bool)
      modifies this`scopes
      ensures ok <==> Accepts(old(scopes))
      ensures ok ==> scopes == Written(old(scopes))
    {
      if scopes == [] {
        return true;
      }
      var top := scopes[|scopes| - 1];
      if top.kind == Object && top.size % 2 == 0 {
        return false;
      }
      if top.kind == Object && top.keyReady {
        scopes := SetTop(scopes, top.(keyReady := false));
        return true;
      }
      scopes := SetTop(scopes, top.(size := top.size + 1));
      ok := top.size + 1 <= top.capacity;
    }

    /** write_key_next. */
    method WriteKeyNext() returns (ok: bool)
      modifies this`scopes
      ensures ok <==> && old(scopes) != []
                      && var top := Top(old(scopes)); top.kind == Object && top.size % 2 == 0 && top.size < top.capacity
      ensures ok ==>
                scopes == SetTop(old(scopes), Top(old(scopes)).(size := Top(old(scopes)).size + 1, keyReady := true))
    {
      if scopes == [] {
        return false;
      }
      var top := scopes[|scopes| - 1];
      if top.kind != Object || top.size % 2 == 1 {
        return false;
      }
      scopes := SetTop(scopes, top.(size := top.size + 1, keyReady := true));
      ok := top.size + 1 <= top.capacity;
    }

    /** push_array and push_object. */
    method PushScope(kind: Kind, capacity: nat) returns (ok: bool)
      modifies this`scopes
      ensures ok <==> || kind == Binary || old(scopes) == [] || Top(old(scopes)).kind != Object
                      || Top(old(scopes)).size % 2 == 0
      ensures ok ==> scopes == old(scopes) + [Scope(kind, false, 0, capacity)]
    {
      if kind != Binary && scopes != [] && scopes[|scopes| - 1].kind == Object && scopes[|scopes| - 1].size % 2 == 1 {
        return false;
      }
      scopes := scopes + [Scope(kind, false, 0, capacity)];
      ok := true;
    }

    /** pop_array, pop_object and pop_binary: none looks at the kind of the scope. */
    method PopScope() returns (ok: bool)
      modifies this`scopes
      ensures ok <==> old(scopes) != [] && Top(old(scopes)).size == Top(old(scopes)).capacity
      ensures ok ==> scopes == old(scopes)[..|old(scopes)| - 1]
    {
      if scopes == [] || scopes[|scopes| - 1].size != scopes[|scopes| - 1].capacity {
        return false;
      }
      scopes := scopes[..|scopes| - 1];
      ok := true;
    }

    // ----- values -----

    /** write of a string. */
    method WriteStr(s: seq<Byte>) returns (ok: bool)
      modifies this
      ensures ok <==> |s| < LIMIT && Accepts(old(scopes))
      ensures ok ==> out == old(out) + (StrHeader(|s|) + s) && scopes == Written(old(scopes))
      ensures !ok ==> out == old(out)
    {
      hide SizeBytes, Written;
      if |s| >= LIMIT {
        return false;
      }
      ok := WriteNext();
      if !ok {
        return;
      }
      if |s| < 32 {
        Put(0xa0 + |s|);
      } else {
        PutSize(0xd9, |s|);
      }
      out := out + s;
    }

    /** binary_push. */
    method BinaryPush(total: nat) returns (ok: bool)
      modifies this
      ensures ok <==> total < LIMIT && Accepts(old(scopes))
      ensures ok ==>
                && out == old(out) + SizeBytes(0xc4, total)
                && scopes == Written(old(scopes)) + [Scope(Binary, false, 0, total)]
      ensures !ok ==> out == old(out)
    {
      hide SizeBytes, Written;
      if total >= LIMIT {
        return false;
      }
      ok := WriteNext();
      if ok {
        ok := PushScope(Binary, total);
        PutSize(0xc4, total);
      }
    }

    /** binary_write_some. */
    method BinaryWriteSome(s: seq<Byte>) returns (ok: bool)
      modifies this
      ensures ok <==> old(scopes) != [] && Top(old(scopes)).size + |s| <= Top(old(scopes)).capacity
      ensures ok ==>
                && out == old(out) + s
                && scopes == SetTop(old(scopes), Top(old(scopes)).(size := Top(old(scopes)).size + |s|))
      ensures !ok ==> out == old(out)
    {
      if scopes == [] {
        return false;
      }
      var top := scopes[|scopes| - 1];
      scopes := SetTop(scopes, top.(size := top.size + |s|));
      ok := top.size + |s| <= top.capacity;
      if ok {
        out := out + s;
      }
    }

    /** object_push and array_push. */
    method ContainerPush(kind: Kind, count: nat) returns (ok: bool)
      requires kind != Binary
      modifies this
      ensures ok <==> count < LIMIT && Accepts(old(scopes)) && !KeyAnnounced(old(scopes))
      ensures ok ==>
                out == old(out) + if kind == Array then CountBytes(0x90, 0xdc, count) else CountBytes(0x80, 0xde, count)
      ensures ok ==>
                scopes == Written(old(scopes)) + [Scope(kind, false, 0, if kind == Array then count else 2 * count)]
      ensures !ok ==> out == old(out)
    {
      hide CountBytes;
      if count >= LIMIT {
        return false;
      }
      ok := WriteNext();
      if ok {
        ok := PushScope(kind, if kind == Array then count else 2 * count);
      }
      if ok {
        if kind == Array {
          PutCount(0x90, 0xdc, count);
        } else {
          PutCount(0x80, 0xde, count);
        }
      }
    }

    /** The calls that write a scalar. */
    method WriteScalar(v: Value) returns (ok: bool)
      requires Valid(v) && Scalar(v) && Expects(scopes, v)
      modifies this
      ensures ok && out == old(out) + Encode(v) && scopes == Written(old(scopes))
    {
      hide IntBytes, UIntBytes, SizeBytes, StrHeader, BigEndian, Written;
      if v.Str? {
        ok := WriteStr(v.s);
      } else if v.Bin? {
        ok := BinaryPush(|v.s|);
        ok := BinaryWriteSome(v.s);
        ok := PopScope();
        MsgPackTrees.Regroup(old(out), SizeBytes(0xc4, |v.s|), v.s);
      } else {
        ok := WriteNext();
        match v
        case Nil => Put(0xc0);
        case Bool(b) => Put(if b then 0xc3 else 0xc2);
        case Int(n) => PutInt(n);
        case UInt(n) => PutUInt(n);
        case Float(size, bits) => PutCode(if size == 4 then 0xca else 0xcb, bits, size);
        case _ =>
      }
    }

    /** The calls that write a tree: push, the elements, pop. */
    method WriteTree(v: Value) returns (ok: bool)
      requires Valid(v) && Expects(scopes, v)
      modifies this
      ensures ok && out == old(out) + Encode(v) && scopes == Written(old(scopes))
      decreases v, 1
    {
      hide Valid, Encode, Written, Expects;
      if Scalar(v) {
        ok := WriteScalar(v);
        return;
      }
      ok := WriteContainer(v);
    }

    method WriteContainer(v: Value) returns (ok: bool)
      requires Valid(v) && !Scalar(v) && Expects(scopes, v)
      modifies this
      ensures ok && out == old(out) + Encode(v) && scopes == Written(old(scopes))
      decreases v, 0
    {
      var held := if v.Arr? then v.elems else v.entries;
      hide EncodeAll, Encode, Head, Valid, Written, Expects, Scalar, Accepts, KeyAnnounced, CountBytes;
      MsgPackTrees.ContainerBytes(v);
      MsgPackTrees.HeldAny(v);
      ContainerExpected(scopes, v);
      ok := ContainerPush(if v.Arr? then Array else Object, MsgPackTrees.Count(v));
      ok := WriteElements(held);
      MsgPackTrees.Regroup(old(out), Head(v), EncodeAll(held));
      ok := PopScope();
    }

    /** All the elements of the innermost scope. */
    method WriteElements(held: seq<Value>) returns (ok: bool)
      requires scopes != [] && Top(scopes) == Scope(Top(scopes).kind, false, 0, |held|) && Top(scopes).kind != Binary
      requires forall i :: 0 <= i < |held| ==> Valid(held[i])
      requires Top(scopes).kind == Object ==> forall i :: 0 <= i < |held| && i % 2 == 0 ==> Scalar(held[i])
      modifies this
      ensures ok && out == old(out) + EncodeAll(held)
      ensures scopes == SetTop(old(scopes), Top(old(scopes)).(size := |held|))
      decreases held, 3
    {
      hide Encode, EncodeAll, Valid, Scalar;
      ok := true;
      MsgPackTrees.EncodeNone();
      assert held[..0] == [];
      for i := 0 to |held|
        invariant ok && out == old(out) + EncodeAll(held[..i])
        invariant scopes == SetTop(old(scopes), Top(old(scopes)).(size := i))
      {
        MsgPackTrees.EncodeOneMore(held, i);
        MsgPackTrees.Regroup(old(out), EncodeAll(held[..i]), Encode(held[i]));
        ok := WriteElement(held[i]);
      }
      assert held[..|held|] == held;
    }

    /** One element: a key of a map is announced first. */
    method WriteElement(v: Value) returns (ok: bool)
      requires Valid(v) && scopes != [] && Top(scopes).kind != Binary && !Top(scopes).keyReady
      requires Top(scopes).size < Top(scopes).capacity
      requires Top(scopes).kind == Object && Top(scopes).size % 2 == 0 ==> Scalar(v)
      modifies this
      ensures ok && out == old(out) + Encode(v)
      ensures scopes == SetTop(old(scopes), Top(old(scopes)).(size := Top(old(scopes)).size + 1))
      decreases v, 2
    {
      hide Valid, Encode, Scalar;
      if scopes[|scopes| - 1].kind == Object && scopes[|scopes| - 1].size % 2 == 0 {
        ok := WriteKeyNext();
      }
      ok := WriteTree(v);
    }
  }

  lemma ContainerExpected(scopes: seq<Scope>, v: Value)
    requires Valid(v) && !Scalar(v) && Expects(scopes, v)
    ensures Accepts(scopes) && !KeyAnnounced(scopes) && MsgPackTrees.Count(v) < LIMIT
    ensures |MsgPackTrees.Held(v)| == if v.Arr? then MsgPackTrees.Count(v) else 2 * MsgPackTrees.Count(v)
  {
  }
}
