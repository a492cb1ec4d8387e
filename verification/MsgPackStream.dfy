/** The reader's calls on a stream, step by step: each does what its function says, and
    returns false or None where the source throws.  The calls that skip have an outcome. */
module MsgPackStream {

  import opened Bits
  import opened Wrappers
  import opened MsgPackFormat
  import opened MsgPackReader

  /** The outcome without the state, which the reader holds. */
  function Ending(r: Outcome<State>): (e: Outcome<()>)
    ensures (e.Ok? <==> r.Ok?) && (e.Thrown? <==> r.Thrown?)
  {
    if r.Ok? then Ok(()) else if r.Thrown? then Thrown else Dangling
  }

  class Reader {
    const input: seq<Byte>
    var pos: nat
    var scopes: seq<Scope>
    var gen: nat
    /** The capacity of the vector of scopes. */
    var room: nat
    const grow: nat -> nat

    ghost predicate Valid()
      reads this
    {
      pos <= |input| && |scopes| <= room
    }

    ghost function Now(): State
      reads this
    {
      State(pos, scopes, Store(gen, room, grow))
    }

    constructor (input: seq<Byte>, depth: nat, extra: nat, grow: nat -> nat)
      ensures Valid() && this.input == input
      ensures Now() == State(0, [], Reserved(Store(0, 0, grow), depth, extra))
    {
      this.input, this.grow := input, grow;
      pos, scopes, gen, room := 0, [], 0, 0;
      new;
      ReserveDepth(depth, extra);
    }

    /** reserve_depth: room for so many scopes, and for extra ones where the allocator
        gives more. */
    method ReserveDepth(depth: nat, extra: nat)
      requires Valid()
      modifies this`room
      ensures Valid() && Now() == old(Now()).(store := Reserved(old(Now()).store, depth, extra))
    {
      if depth > room {
        room := depth + extra;
      }
    }

    method Bump() returns (b: Byte)
      requires Valid()
      modifies this`pos
      ensures Valid() && b == At(input, old(pos)) && pos == Advance(input, old(pos), 1)
    {
      if pos < |input| {
        b := input[pos];
        pos := pos + 1;
      } else {
        b := 255;
      }
    }

    /** _get_n_bigE. */
    method GetBig(n: nat) returns (v: nat)
      requires Valid()
      modifies this`pos
      ensures Valid() && v == FromBig(Window(input, old(pos), n)) && pos == Advance(input, old(pos), n)
    {
      v := 0;
      for i := 0 to n
        invariant Valid() && pos == Advance(input, old(pos), i)
        invariant v == FromBig(Window(input, old(pos), i))
      {
        ghost var bytes := Window(input, old(pos), i + 1);
        assert bytes[..i] == Window(input, old(pos), i);
        assert bytes[i] == At(input, old(pos) + i) == At(input, pos);
        var b := Bump();
        v := v * 256 + b;
      }
    }

    /** _bump_n_bigE. */
    method BumpBig(n: nat) returns (v: nat)
      requires Valid() && pos < |input|
      modifies this`pos
      ensures Valid() && (v, pos) == ReadBig(input, old(pos), n)
    {
      var header := Bump();
      v := GetBig(n);
    }

    /** _read_elem_count. */
    method ReadElemCount(base: nat, fix: Byte, mask: nat) returns (count: Option<nat>)
      requires Valid() && pos < |input|
      modifies this`pos
      ensures Valid()
      ensures var r := ReadCount(input, old(pos), base, fix, mask);
              if r.Ok? then count == Some(r.value.0) && pos == r.value.1 else count == None && pos == old(pos)
    {
      hide ReadBig, Typecode;
      var code := Typecode(input[pos]);
      if code == fix {
        count := Some(input[pos] % (mask + 1));
        pos := pos + 1;
      } else if code == base {
        var v := BumpBig(1);
        count := Some(v);
      } else if code == base + 1 {
        var v := BumpBig(2);
        count := Some(v);
      } else if code == base + 2 {
        var v := BumpBig(4);
        count := Some(v);
      } else {
        count := None;
      }
    }

    /** _discard_n_bytes, 256 bytes at a time. */
    method Discard(bytes: nat) returns (ok: bool)
      requires Valid()
      modifies this`pos
      ensures Valid() && ok == (old(pos) + bytes <= |input|)
      ensures ok ==> pos == old(pos) + bytes
    {
      var left: nat := bytes;
      while left > 0
        invariant Valid() && left <= bytes && pos + left == old(pos) + bytes
      {
        var toRead := if left < 256 then left else 256;
        if pos + toRead > |input| {
          pos := |input|;
          return false;
        }
        pos := pos + toRead;
        left := left - toRead;
      }
      ok := true;
    }

    /** _step_context. */
    method StepContext() returns (ok: bool)
      modifies this`scopes
      ensures |scopes| == |old(scopes)| && (ok <==> Step(old(scopes)).Ok?)
      ensures ok ==> scopes == Step(old(scopes)).value
    {
      if scopes == [] {
        return true;
      }
      var top := scopes[|scopes| - 1];
      if top.kind == Binary {
        return false;
      }
      if top.kind == Object && top.left % 2 == 0 {
        if !top.readingKey {
          return false;
        }
        top := top.(readingKey := false);
      }
      if top.left == 0 {
        return false;
      }
      scopes := SetTop(scopes, top.(left := top.left - 1));
      ok := true;
    }

    /** _step_context_on_skip. */
    method StepContextOnSkip() returns (ok: bool)
      modifies this`scopes
      ensures |scopes| == |old(scopes)| && (ok <==> StepOnSkip(old(scopes)).Ok?)
      ensures ok ==> scopes == StepOnSkip(old(scopes)).value
    {
      if scopes == [] {
        return true;
      }
      var top := scopes[|scopes| - 1];
      if top.left == 0 {
        return false;
      }
      scopes := SetTop(scopes, top.(left := top.left - 1));
      ok := true;
    }

    /** A full vector moves to a larger place. */
    method MakeRoom()
      requires Valid()
      modifies this`room
      ensures |scopes| < room == Enlarged(old(Now()).store, |scopes|)
    {
      if |scopes| == room {
        var larger := grow(room);
        room := if larger > room then larger else room + 1;
      }
    }

    /** _new_scope. */
    method NewScope(kind: Kind, n: nat)
      requires Valid()
      modifies this`scopes, this`gen, this`room
      ensures Valid() && Now() == MsgPackReader.Opened(old(Now()), kind, n)
    {
      MakeRoom();
      gen := (gen + 1) % UINT32;
      var left := if kind == Object then (n * 2) % UINT32 else n;
      scopes := scopes + [Scope(kind, left, false, (gen, |scopes|))];
    }

    /** begin_array and begin_object. */
    method BeginContainer(kind: Kind) returns (ok: bool)
      requires Valid() && kind != Binary
      modifies this`pos, this`scopes, this`gen, this`room
      ensures Valid() && (ok <==> Begin(input, old(Now()), kind).Ok?)
      ensures ok ==> Now() == Begin(input, old(Now()), kind).value
    {
      hide ReadCount, Step, Opened;
      if !MayOpen(scopes) || pos >= |input| {
        return false;
      }
      var count: Option<nat>;
      if kind == Object {
        count := ReadElemCount(0xde - 1, 0x80, 15);
      } else {
        count := ReadElemCount(0xdc - 1, 0x90, 15);
      }
      if count == None {
        return false;
      }
      ok := StepContext();
      if ok {
        NewScope(kind, count.value);
      }
    }

    /** _read_number, before the conversion to the caller's type. */
    method TakeNumber() returns (v: Option<Value>)
      requires Valid() && pos < |input|
      modifies this`pos
      ensures Valid()
      ensures var r := ReadNumber(input, old(pos));
              if r.Ok? then v == Some(r.value.0) && pos == r.value.1 else v == None && pos == old(pos)
    {
      hide FromBig, Window, MsgPackFormat.Signed;
      var code := Typecode(input[pos]);
      var n: nat;
      if code == 0 || code == 0xe0 {
        var header := Bump();
        return Some(Int(if header < 0x80 then header as int else header as int - 256));
      } else if code == 0xc2 || code == 0xc3 {
        var header := Bump();
        return Some(Bool(code == 0xc3));
      } else if code == 0xca || code == 0xcb {
        n := BumpBig(if code == 0xca then 4 else 8);
        return Some(Float(if code == 0xca then 4 else 8, n));
      } else if 0xcc <= code <= 0xcf {
        n := BumpBig(Width(code - 0xcc));
        return Some(UInt(n));
      } else if 0xd0 <= code <= 0xd3 {
        n := BumpBig(Width(code - 0xd0));
        return Some(Int(MsgPackFormat.Signed(n, Width(code - 0xd0))));
      }
      v := None;
    }

    /** The bytes of the number types, in the order of their codes. */
    static function Width(k: nat): nat {
      if k == 0 then 1 else if k == 1 then 2 else if k == 2 then 4 else 8
    }

    /** read of a number. */
    method ReadNumeric() returns (v: Option<Value>)
      requires Valid()
      modifies this`pos, this`scopes
      ensures Valid()
      ensures var r := ReadNum(input, old(Now()));
              if r.Ok? then v == Some(r.value.0) && Now() == r.value.1 else v == None
    {
      hide ReadNumber, Step;
      if pos >= |input| {
        return None;
      }
      v := TakeNumber();
      if v.Some? {
        var ok := StepContext();
        if !ok {
          v := None;
        }
      }
    }

    /** The cases of _skip_once that open no container. */
    method SkipFlatOnce() returns (ok: bool)
      requires Valid() && pos < |input|
      modifies this`pos, this`scopes
      ensures Valid() && (ok <==> SkipFlat(input, old(Now())).Ok?)
      ensures ok ==> Now() == SkipFlat(input, old(Now())).value
    {
      hide ReadCount, ReadNumber, StepOnSkip, Typecode, SkipOf;
      var skip := SkipOf(Typecode(input[pos]));
      var bytes: nat := 0;
      ok := false;
      match skip {
      case Number =>
        var v := TakeNumber();
        ok := v.Some?;
      case Text(base) =>
        var count: Option<nat>;
        if base == 0xd9 {
          count := ReadElemCount(0xd9, 0xa0, 31);
        } else {
          count := ReadElemCount(base, ERROR, 0);
        }
        if count.Some? {
          ok := true;
          bytes := if base == 0xc7 then (count.value + 1) % UINT32 else count.value;
        }
      case Fixed(n) =>
        ok := n > 0;
        bytes := n;
      case _ =>
      }
      if ok {
        ok := StepContextOnSkip();
      }
      if ok {
        ok := Discard(bytes);
      }
    }

    /** _skip_once. */
    method SkipOne() returns (r: Outcome<()>)
      requires Valid()
      modifies this`pos, this`scopes, this`gen, this`room
      ensures Valid() && r == Ending(SkipOnce(input, old(Now())))
      ensures r.Ok? ==> Now() == SkipOnce(input, old(Now())).value
      decreases |input| - pos, 0
    {
      hide SkipFlat, Begin, BreakScope, Typecode, SkipOf;
      if pos >= |input| {
        return Thrown;
      }
      var skip := SkipOf(Typecode(input[pos]));
      var ok := true;
      if skip.Open? {
        if skip.kind == Binary {
          return Thrown;
        }
        ok := BeginContainer(skip.kind);
        if ok {
          r := BreakTop();
          return;
        }
      } else {
        ok := SkipFlatOnce();
      }
      r := if ok then Ok(()) else Thrown;
    }

    /** A key that is skipped counts as announced. */
    method MarkKey(scope: nat)
      requires scope + 1 == |scopes|
      modifies this`scopes
      ensures Now() == AtElement(old(Now()))
    {
      if scopes[scope].kind == Object && scopes[scope].left % 2 == 0 {
        scopes := scopes[scope := scopes[scope].(readingKey := true)];
      }
    }

    /** _break_scope: the reference to the top scope is taken once, and holds as long as
        the vector stays where it is. */
    method BreakTop() returns (r: Outcome<()>)
      requires Valid() && scopes != []
      modifies this`pos, this`scopes, this`gen, this`room
      ensures Valid() && r == Ending(BreakScope(input, old(Now())))
      ensures r.Ok? ==> Now() == BreakScope(input, old(Now())).value
      decreases |input| - pos, 1
    {
      hide SkipOnce, BreakScope, AtElement;
      var scope: nat := |scopes| - 1;
      var place := room;
      while scopes[scope].left > 0
        invariant Valid() && |scopes| == scope + 1 && old(pos) <= pos && room == place
        invariant BreakScope(input, Now()) == BreakScope(input, old(Now()))
        decreases |input| - pos
      {
        BreakSteps(input, Now());
        MarkKey(scope);
        var _ :- SkipOne();
        if room != place {
          return Dangling;
        }
      }
      BreakEnds(input, Now());
      scopes := scopes[..|scopes| - 1];
      r := Ok(());
    }

    /** _calc_num_break_scope. */
    method CalcNumBreak(kind: Kind, key: (nat, nat)) returns (n: Outcome<nat>)
      ensures n == Breaks(scopes, kind, key)
    {
      var i: nat := |scopes|;
      assert scopes[..i] == scopes;
      while i > 0
        invariant i <= |scopes|
        invariant Breaks(scopes, kind, key)
                  == var inner := Breaks(scopes[..i], kind, key);
                     if inner.Thrown? then Thrown else Ok(inner.value + |scopes| - i)
      {
        assert Popped(scopes[..i]) == scopes[..i - 1];
        i := i - 1;
        if scopes[i].key == key {
          return if scopes[i].kind == kind then Ok(|scopes| - i) else Thrown;
        }
      }
      n := Thrown;
    }

    /** end_array and end_object. */
    method EndContainer(kind: Kind, key: (nat, nat)) returns (r: Outcome<()>)
      requires Valid()
      modifies this`pos, this`scopes, this`gen, this`room
      ensures Valid() && r == Ending(End(input, old(Now()), kind, key))
      ensures r.Ok? ==> Now() == End(input, old(Now()), kind, key).value
    {
      hide Breaks, BreakScope;
      var breaks :- CalcNumBreak(kind, key);
      var n: nat := breaks;
      while n > 0
        invariant Valid() && n <= |scopes|
        invariant BreakMany(input, Now(), n) == BreakMany(input, old(Now()), breaks)
      {
        var _ :- BreakTop();
        n := n - 1;
      }
      r := Ok(());
    }

    /** read of a string into one that holds was. */
    method ReadStr(was: seq<Byte>) returns (s: Option<seq<Byte>>)
      requires Valid()
      modifies this`pos, this`scopes
      ensures Valid()
      ensures var r := ReadString(input, old(Now()), was);
              if r.Ok? then s == Some(r.value.0) && Now() == r.value.1 else s == None
    {
      hide ReadCount, Step;
      if pos >= |input| {
        return None;
      }
      var count := ReadElemCount(0xd9, 0xa0, 31);
      if count == None {
        return None;
      }
      var ok := StepContext();
      if !ok {
        return None;
      }
      var end := if pos + count.value <= |input| then pos + count.value else |input|;
      s := Some(input[pos..end] + Resized(was, count.value)[end - pos..]);
      pos := end;
    }

    /** begin_binary. */
    method OpenBinary() returns (ok: bool)
      requires Valid()
      modifies this`pos, this`scopes, this`gen, this`room
      ensures Valid() && (ok <==> BeginBinary(input, old(Now())).Ok?)
      ensures ok ==> Now() == BeginBinary(input, old(Now())).value
    {
      hide ReadCount, Step, Opened;
      if pos >= |input| {
        return false;
      }
      var count := ReadElemCount(0xc4, ERROR, 0);
      if count == None {
        return false;
      }
      ok := StepContext();
      if ok {
        NewScope(Binary, count.value);
      }
    }

    /** binary_read_some. */
    method ReadSome(size: nat) returns (s: Option<seq<Byte>>)
      requires Valid()
      modifies this`pos, this`scopes
      ensures Valid()
      ensures var r := BinaryReadSome(input, old(Now()), size);
              if r.Ok? then s == Some(r.value.0) && Now() == r.value.1 else s == None
    {
      if scopes == [] || scopes[|scopes| - 1].kind != Binary {
        return None;
      }
      var top := scopes[|scopes| - 1];
      var n := if size < top.left then size else top.left;
      if pos + n > |input| {
        return None;
      }
      s := Some(input[pos..pos + n]);
      pos := pos + n;
      scopes := SetTop(scopes, top.(left := top.left - n));
    }

    /** end_binary. */
    method CloseBinary() returns (ok: bool)
      requires Valid()
      modifies this`pos, this`scopes
      ensures Valid() && (ok <==> EndBinary(input, old(Now())).Ok?)
      ensures ok ==> Now() == EndBinary(input, old(Now())).value
    {
      if scopes == [] || scopes[|scopes| - 1].kind != Binary {
        return false;
      }
      ok := Discard(scopes[|scopes| - 1].left);
      if ok {
        scopes := scopes[..|scopes| - 1];
      }
    }

    /** read_key_next. */
    method AnnounceKey() returns (ok: bool)
      modifies this`scopes
      ensures ok <==> ReadKeyNext(old(Now())).Ok?
      ensures ok ==> Now() == ReadKeyNext(old(Now())).value
    {
      if scopes == [] || scopes[|scopes| - 1].kind != Object {
        return false;
      }
      var top := scopes[|scopes| - 1];
      if top.left % 2 == 1 || top.readingKey {
        return false;
      }
      scopes := SetTop(scopes, top.(readingKey := true));
      ok := true;
    }
  }
}
