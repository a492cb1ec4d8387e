/** The reader of include/cpph/refl/archive/msgpack-reader.hxx, as functions of the
    stream position and the vector of scopes. */
module MsgPackReader {

  import opened Bits
  import opened MsgPackFormat

  datatype Kind = Object | Array | Binary

  /** An open scope; key is the pair of its identifier and depth. */
  datatype Scope = Scope(kind: Kind, left: nat, readingKey: bool, key: (nat, nat))

  /** What a new scope takes: the counter its key comes from, the capacity of the vector
      of scopes, and how that vector grows when it is full. */
  datatype Store = Store(gen: nat, room: nat, grow: nat -> nat)

  datatype State = State(pos: nat, scopes: seq<Scope>, store: Store)

  /** How a call ends: well, with an exception, or by a look at a scope that has moved to
      another place in memory. */
  datatype Outcome<+T> = Ok(value: T) | Thrown | Dangling {
    predicate IsFailure() {
      !Ok?
    }

    function PropagateFailure<U>(): Outcome<U>
      requires IsFailure()
    {
      if Thrown? then Thrown else Dangling
    }

    function Extract(): T
      requires Ok?
    {
      value
    }
  }

  const UINT32 := 0x1_0000_0000

  // ----- bytes -----

  /** The next byte; past the end, the low byte of end-of-file. */
  function At(input: seq<Byte>, pos: nat): Byte {
    if pos < |input| then input[pos] else 255
  }

  function Window(input: seq<Byte>, pos: nat, n: nat): (bytes: seq<Byte>)
    ensures |bytes| == n
  {
    seq<Byte>(n, i requires 0 <= i < n => At(input, pos + i))
  }

  function Advance(input: seq<Byte>, pos: nat, n: nat): (r: nat)
    requires pos <= |input|
    ensures pos <= r <= |input|
    ensures n > 0 && pos < |input| ==> pos < r
  {
    if pos + n <= |input| then pos + n else |input|
  }

  /** The kind of entity a header byte announces: its own code, or that of its group. */
  function Typecode(h: Byte): Byte {
    if h < 0x80 then 0 else if h < 0x90 then 0x80 else if h < 0xa0 then 0x90 else if h < 0xc0 then 0xa0
    else if h < 0xe0 then h else 0xe0
  }

  function ReadBig(input: seq<Byte>, pos: nat, n: nat): (r: (nat, nat))
    requires pos < |input|
    ensures pos < r.1 <= |input|
  {
    (FromBig(Window(input, pos + 1, n)), Advance(input, pos, n + 1))
  }

  /** A size or count: in the header itself, or behind it in one, two or four bytes. */
  function ReadCount(input: seq<Byte>, pos: nat, base: nat, fix: Byte, mask: nat): (r: Outcome<(nat, nat)>)
    requires pos < |input|
    ensures !r.Dangling?
    ensures r.Ok? ==> pos < r.value.1 <= |input|
  {
    var code := Typecode(input[pos]);
    if code == fix then Ok((input[pos] % (mask + 1), pos + 1))
    else if code == base then Ok(ReadBig(input, pos, 1))
    else if code == base + 1 then Ok(ReadBig(input, pos, 2))
    else if code == base + 2 then Ok(ReadBig(input, pos, 4))
    else Thrown
  }

  const ERROR: Byte := 0xc1

  function StrCount(input: seq<Byte>, pos: nat): (r: Outcome<(nat, nat)>)
    requires pos < |input|
    ensures !r.Dangling?
    ensures r.Ok? ==> pos < r.value.1 <= |input|
  {
    ReadCount(input, pos, 0xd9, 0xa0, 31)
  }

  function BinCount(input: seq<Byte>, pos: nat): (r: Outcome<(nat, nat)>)
    requires pos < |input|
    ensures !r.Dangling?
    ensures r.Ok? ==> pos < r.value.1 <= |input|
  {
    ReadCount(input, pos, 0xc4, ERROR, 0)
  }

  /** Maps and arrays have no one-byte counts; the codes before theirs are taken for
      such all the same. */
  function MapCount(input: seq<Byte>, pos: nat): (r: Outcome<(nat, nat)>)
    requires pos < |input|
    ensures !r.Dangling?
    ensures r.Ok? ==> pos < r.value.1 <= |input|
  {
    ReadCount(input, pos, 0xde - 1, 0x80, 15)
  }

  function ArrayCount(input: seq<Byte>, pos: nat): (r: Outcome<(nat, nat)>)
    requires pos < |input|
    ensures !r.Dangling?
    ensures r.Ok? ==> pos < r.value.1 <= |input|
  {
    ReadCount(input, pos, 0xdc - 1, 0x90, 15)
  }

  /** A number, before it is converted to the caller's type. */
  function ReadNumber(input: seq<Byte>, pos: nat): (r: Outcome<(Value, nat)>)
    requires pos < |input|
    ensures !r.Dangling?
    ensures r.Ok? ==> pos < r.value.1 <= |input|
  {
    var h := input[pos];
    var code := Typecode(h);
    if code == 0 then Ok((Int(h), pos + 1))
    else if code == 0xe0 then Ok((Int(h as int - 256), pos + 1))
    else if code == 0xc2 then Ok((Bool(false), pos + 1))
    else if code == 0xc3 then Ok((Bool(true), pos + 1))
    else if code == 0xca then Ok((Float(4, ReadBig(input, pos, 4).0), ReadBig(input, pos, 4).1))
    else if code == 0xcb then Ok((Float(8, ReadBig(input, pos, 8).0), ReadBig(input, pos, 8).1))
    else if code == 0xcc then Ok((UInt(ReadBig(input, pos, 1).0), ReadBig(input, pos, 1).1))
    else if code == 0xcd then Ok((UInt(ReadBig(input, pos, 2).0), ReadBig(input, pos, 2).1))
    else if code == 0xce then Ok((UInt(ReadBig(input, pos, 4).0), ReadBig(input, pos, 4).1))
    else if code == 0xcf then Ok((UInt(ReadBig(input, pos, 8).0), ReadBig(input, pos, 8).1))
    else if code == 0xd0 then Ok((Int(MsgPackFormat.Signed(ReadBig(input, pos, 1).0, 1)), ReadBig(input, pos, 1).1))
    else if code == 0xd1 then Ok((Int(MsgPackFormat.Signed(ReadBig(input, pos, 2).0, 2)), ReadBig(input, pos, 2).1))
    else if code == 0xd2 then Ok((Int(MsgPackFormat.Signed(ReadBig(input, pos, 4).0, 4)), ReadBig(input, pos, 4).1))
    else if code == 0xd3 then Ok((Int(MsgPackFormat.Signed(ReadBig(input, pos, 8).0, 8)), ReadBig(input, pos, 8).1))
    else Thrown
  }

  /** _discard_n_bytes. */
  function Discard(input: seq<Byte>, st: State, n: nat): (r: Outcome<State>)
    ensures !r.Dangling?
  {
    if st.pos + n <= |input| then Ok(st.(pos := st.pos + n)) else Thrown
  }

  // ----- scopes -----

  function Top(scopes: seq<Scope>): Scope
    requires scopes != []
  {
    scopes[|scopes| - 1]
  }

  function SetTop(scopes: seq<Scope>, top: Scope): (r: seq<Scope>)
    requires scopes != []
    ensures |r| == |scopes| && Top(r) == top && r[..|r| - 1] == scopes[..|scopes| - 1]
  {
    scopes[..|scopes| - 1] + [top]
  }

  function Popped(scopes: seq<Scope>): seq<Scope>
    requires scopes != []
  {
    scopes[..|scopes| - 1]
  }

  /** _step_context: one element of the innermost scope is taken. */
  function Step(scopes: seq<Scope>): (r: Outcome<seq<Scope>>)
    ensures !r.Dangling?
    ensures r.Ok? ==> |r.value| == |scopes|
  {
    if scopes == [] then Ok([]) else
    var top := Top(scopes);
    if top.kind == Binary then Thrown
    else if top.kind == Object && top.left % 2 == 0 && !top.readingKey then Thrown
    else if top.left == 0 then Thrown
    else
      var key := if top.kind == Object && top.left % 2 == 0 then false else top.readingKey;
      Ok(SetTop(scopes, top.(readingKey := key, left := top.left - 1)))
  }

  /** _step_context_on_skip: the same without a look at keys. */
  function StepOnSkip(scopes: seq<Scope>): (r: Outcome<seq<Scope>>)
    ensures !r.Dangling?
    ensures r.Ok? ==> |r.value| == |scopes|
  {
    if scopes == [] then Ok([]) else
    var top := Top(scopes);
    if top.left == 0 then Thrown else Ok(SetTop(scopes, top.(left := top.left - 1)))
  }

  /** _verify_not_key_type. */
  predicate MayOpen(scopes: seq<Scope>) {
    scopes == [] || Top(scopes).kind != Object || (Top(scopes).left % 2 == 1 && !Top(scopes).readingKey)
  }

  /** The capacity once the vector holds one more than so many scopes: a full vector
      moves to a larger place. */
  function Enlarged(store: Store, size: nat): (room: nat)
    ensures room > size && room >= store.room
    ensures room == store.room <==> size < store.room
  {
    if size < store.room then store.room
    else if store.grow(store.room) > size then store.grow(store.room)
    else size + 1
  }

  /** A new innermost scope; a map has two elements an entry, counted in 32 bits. */
  function Opened(st: State, kind: Kind, n: nat): (r: State)
    ensures r.pos == st.pos && r.scopes != [] && Popped(r.scopes) == st.scopes && Top(r.scopes).kind == kind
    ensures r.store.room == Enlarged(st.store, |st.scopes|)
  {
    var gen := (st.store.gen + 1) % UINT32;
    var left := if kind == Object then (n * 2) % UINT32 else n;
    State(st.pos, st.scopes + [Scope(kind, left, false, (gen, |st.scopes|))],
      st.store.(gen := gen, room := Enlarged(st.store, |st.scopes|)))
  }

  /** reserve_depth; the place may be larger than asked for. */
  function Reserved(store: Store, depth: nat, extra: nat): (r: Store)
    ensures r.room >= depth && (depth <= store.room ==> r == store)
  {
    if depth <= store.room then store else store.(room := depth + extra)
  }

  /** begin_array and begin_object. */
  function Begin(input: seq<Byte>, st: State, kind: Kind): (r: Outcome<State>)
    requires kind != Binary
    ensures !r.Dangling?
    ensures r.Ok? ==> st.pos < r.value.pos <= |input| && r.value.scopes != []
  {
    if !MayOpen(st.scopes) || st.pos >= |input| then Thrown else
    var count :- if kind == Object then MapCount(input, st.pos) else ArrayCount(input, st.pos);
    var scopes :- Step(st.scopes);
    Ok(Opened(State(count.1, scopes, st.store), kind, count.0))
  }

  // ----- skipping -----

  /** What a header byte makes _skip_once do. */
  datatype Skip = Number | Text(n: nat) | Open(kind: Kind) | Fixed(n: nat) | Refused

  function SkipOf(code: Byte): Skip {
    if code == 0 || code == 0xe0 || code == 0xc2 || code == 0xc3 || 0xca <= code <= 0xd3 then Number
    else if code == 0xa0 || 0xd9 <= code <= 0xdb then Text(0xd9)
    else if 0xc4 <= code <= 0xc6 then Text(0xc4)
    else if code == 0x90 || code == 0xdc || code == 0xdd then Open(Array)
    else if code == 0x80 || code == 0xde || code == 0xdf then Open(Object)
    else if code == 0xc0 then Fixed(1)
    else if code == 0xd4 then Fixed(3)
    else if code == 0xd5 then Fixed(4)
    else if code == 0xd6 then Fixed(6)
    else if code == 0xd7 then Fixed(10)
    else if code == 0xd8 then Fixed(18)
    else if 0xc7 <= code <= 0xc9 then Text(0xc7)
    else Refused
  }

  /** Takes an entity that is no container; the type of an extension is one more byte,
      added in 32 bits. */
  function SkipFlat(input: seq<Byte>, st: State): (r: Outcome<State>)
    requires st.pos < |input|
    ensures !r.Dangling?
    ensures r.Ok? ==> st.pos < r.value.pos <= |input| && |r.value.scopes| == |st.scopes|
  {
    match SkipOf(Typecode(input[st.pos]))
    case Number =>
      var number :- ReadNumber(input, st.pos);
      var scopes :- StepOnSkip(st.scopes);
      Ok(State(number.1, scopes, st.store))
    case Text(base) =>
      var count :- if base == 0xd9 then StrCount(input, st.pos) else ReadCount(input, st.pos, base, ERROR, 0);
      var scopes :- StepOnSkip(st.scopes);
      Discard(input, State(count.1, scopes, st.store), if base == 0xc7 then (count.0 + 1) % UINT32 else count.0)
    case Fixed(n) =>
      var scopes :- StepOnSkip(st.scopes);
      if n == 0 then Thrown else Discard(input, State(st.pos, scopes, st.store), n)
    case _ => Thrown
  }

  /** _skip_once. */
  function SkipOnce(input: seq<Byte>, st: State): (r: Outcome<State>)
    requires st.pos <= |input|
    ensures r.Ok? ==> st.pos < r.value.pos <= |input| && |r.value.scopes| == |st.scopes|
    decreases |input| - st.pos, 0
  {
    if st.pos >= |input| then Thrown else
    match SkipOf(Typecode(input[st.pos]))
    case Open(kind) =>
      if kind == Binary then Thrown else
      var begun :- Begin(input, st, kind);
      BreakScope(input, begun)
    case _ => SkipFlat(input, st)
  }

  /** The state in which _break_scope skips an element: a key counts as announced. */
  function AtElement(st: State): (r: State)
    requires st.scopes != []
    ensures r.pos == st.pos && |r.scopes| == |st.scopes| && r.store == st.store
  {
    var top := Top(st.scopes);
    var key := top.readingKey || (top.kind == Object && top.left % 2 == 0);
    st.(scopes := SetTop(st.scopes, top.(readingKey := key)))
  }

  /** _break_scope: skips what is left of the innermost scope and closes it.  The scope
      is looked up once: after the vector has moved, its count is read where it was. */
  function BreakScope(input: seq<Byte>, st: State): (r: Outcome<State>)
    requires st.pos <= |input| && st.scopes != []
    ensures r.Ok? ==> st.pos <= r.value.pos <= |input| && |r.value.scopes| == |st.scopes| - 1
    decreases |input| - st.pos, 1
  {
    if Top(st.scopes).left == 0 then Ok(st.(scopes := Popped(st.scopes))) else
    var next :- SkipOnce(input, AtElement(st));
    if next.store.room != st.store.room then Dangling else BreakScope(input, next)
  }

  /** What closing a scope makes of the skipping of one element in it. */
  function Resumed(input: seq<Byte>, room: nat, next: Outcome<State>): Outcome<State>
    requires next.Ok? ==> next.value.pos <= |input| && next.value.scopes != []
  {
    if !next.Ok? then next else if next.value.store.room != room then Dangling else BreakScope(input, next.value)
  }

  /** Closing a scope with elements left is skipping one, then closing it. */
  lemma BreakSteps(input: seq<Byte>, st: State)
    requires st.pos <= |input| && st.scopes != [] && Top(st.scopes).left > 0
    ensures BreakScope(input, st) == Resumed(input, st.store.room, SkipOnce(input, AtElement(st)))
  {
    hide SkipOnce;
  }

  lemma BreakEnds(input: seq<Byte>, st: State)
    requires st.pos <= |input| && st.scopes != [] && Top(st.scopes).left == 0
    ensures BreakScope(input, st) == Ok(State(st.pos, Popped(st.scopes), st.store))
  {
    hide SkipOnce;
  }

  /** How many scopes to close so that the one with the given key is closed. */
  function Breaks(scopes: seq<Scope>, kind: Kind, key: (nat, nat)): (r: Outcome<nat>)
    ensures !r.Dangling?
    ensures r.Ok? ==> 0 < r.value <= |scopes|
  {
    if scopes == [] then Thrown
    else if Top(scopes).key == key then if Top(scopes).kind == kind then Ok(1) else Thrown
    else
      var more :- Breaks(Popped(scopes), kind, key);
      Ok(more + 1)
  }

  function BreakMany(input: seq<Byte>, st: State, n: nat): (r: Outcome<State>)
    requires st.pos <= |input| && n <= |st.scopes|
    ensures r.Ok? ==> st.pos <= r.value.pos <= |input| && |r.value.scopes| == |st.scopes| - n
    decreases n
  {
    if n == 0 then Ok(st) else
    var next :- BreakScope(input, st);
    BreakMany(input, next, n - 1)
  }

  /** end_array and end_object. */
  function End(input: seq<Byte>, st: State, kind: Kind, key: (nat, nat)): (r: Outcome<State>)
    requires st.pos <= |input|
    ensures r.Ok? ==> st.pos <= r.value.pos <= |input|
  {
    var n :- Breaks(st.scopes, kind, key);
    BreakMany(input, st, n)
  }

  // ----- reading -----

  /** The caller's string, resized. */
  function Resized(was: seq<Byte>, n: nat): (r: seq<Byte>)
    ensures |r| == n
  {
    if n <= |was| then was[..n] else was + seq(n - |was|, _ => 0)
  }

  /** read of a string; what the stream is short of stays as the caller had it. */
  function ReadString(input: seq<Byte>, st: State, was: seq<Byte>): (r: Outcome<(seq<Byte>, State)>)
    ensures !r.Dangling?
    ensures r.Ok? ==> st.pos < r.value.1.pos <= |input|
  {
    if st.pos >= |input| then Thrown else
    var count :- StrCount(input, st.pos);
    var scopes :- Step(st.scopes);
    var end := Advance(input, count.1, count.0);
    Ok((input[count.1..end] + Resized(was, count.0)[end - count.1..], State(end, scopes, st.store)))
  }

  function BeginBinary(input: seq<Byte>, st: State): (r: Outcome<State>)
    ensures !r.Dangling?
    ensures r.Ok? ==> st.pos < r.value.pos <= |input| && r.value.scopes != [] && Top(r.value.scopes).kind == Binary
  {
    if st.pos >= |input| then Thrown else
    var count :- BinCount(input, st.pos);
    var scopes :- Step(st.scopes);
    Ok(Opened(State(count.1, scopes, st.store), Binary, count.0))
  }

  function BinaryReadSome(input: seq<Byte>, st: State, size: nat): (r: Outcome<(seq<Byte>, State)>)
    ensures !r.Dangling?
    ensures r.Ok? ==> st.pos <= r.value.1.pos && |r.value.1.scopes| == |st.scopes|
    ensures r.Ok? && st.pos <= |input| ==> r.value.1.pos <= |input|
  {
    if st.scopes == [] || Top(st.scopes).kind != Binary then Thrown else
    var top := Top(st.scopes);
    var n := if size < top.left then size else top.left;
    if st.pos + n > |input| then Thrown else
    Ok((input[st.pos..st.pos + n], State(st.pos + n, SetTop(st.scopes, top.(left := top.left - n)), st.store)))
  }

  function EndBinary(input: seq<Byte>, st: State): (r: Outcome<State>)
    ensures !r.Dangling?
    ensures r.Ok? ==> st.pos <= r.value.pos <= |input|
  {
    if st.scopes == [] || Top(st.scopes).kind != Binary then Thrown else
    var next :- Discard(input, st, Top(st.scopes).left);
    Ok(next.(scopes := Popped(st.scopes)))
  }

  function ReadKeyNext(st: State): (r: Outcome<State>)
    ensures !r.Dangling?
    ensures r.Ok? ==> r.value.pos == st.pos && |r.value.scopes| == |st.scopes|
  {
    if st.scopes == [] || Top(st.scopes).kind != Object then Thrown else
    var top := Top(st.scopes);
    if top.left % 2 == 1 || top.readingKey then Thrown else
    Ok(st.(scopes := SetTop(st.scopes, top.(readingKey := true))))
  }

  /** read of a number. */
  function ReadNum(input: seq<Byte>, st: State): (r: Outcome<(Value, State)>)
    ensures !r.Dangling?
    ensures r.Ok? ==> st.pos < r.value.1.pos <= |input|
  {
    if st.pos >= |input| then Thrown else
    var number :- ReadNumber(input, st.pos);
    var scopes :- Step(st.scopes);
    Ok((number.0, State(number.1, scopes, st.store)))
  }

  predicate ShouldBreak(st: State, key: (nat, nat))
    requires st.scopes != []
  {
    Top(st.scopes).key == key && Top(st.scopes).left == 0
  }

  // ----- a caller that reads whatever comes -----

  /** Asks for the type of the next entity and reads it by the calls for that type. */
  function ReadAny(input: seq<Byte>, st: State): (r: Outcome<(Value, State)>)
    requires st.pos <= |input|
    ensures r.Ok? ==> st.pos < r.value.1.pos <= |input|
    decreases |input| - st.pos, 0
  {
    if st.pos >= |input| then Thrown else
    match SkipOf(Typecode(input[st.pos]))
    case Number => ReadNum(input, st)
    case Text(base) =>
      if base == 0xd9 then
        var text :- ReadString(input, st, []);
        Ok((Str(text.0), text.1))
      else if base == 0xc4 then
        var begun :- BeginBinary(input, st);
        var bytes :- BinaryReadSome(input, begun, Top(begun.scopes).left);
        var ended :- EndBinary(input, bytes.1);
        Ok((Bin(bytes.0), ended))
      else Thrown
    case Open(kind) =>
      if kind == Binary then Thrown else
      var begun :- Begin(input, st, kind);
      var key := Top(begun.scopes).key;
      var elems :- ReadElems(input, begun, key);
      var ended :- End(input, elems.1, kind, key);
      Ok((if kind == Array then Arr(elems.0) else Map(elems.0), ended))
    case Fixed(n) =>
      if n != 1 then Thrown else
      var skipped :- SkipOnce(input, st);
      Ok((Nil, skipped))
    case _ => Thrown
  }

  /** Reads elements until the scope is used up, announcing each key of a map. */
  function ReadElems(input: seq<Byte>, st: State, key: (nat, nat)): (r: Outcome<(seq<Value>, State)>)
    requires st.pos <= |input|
    ensures r.Ok? ==> st.pos <= r.value.1.pos <= |input|
    decreases |input| - st.pos, 1
  {
    if st.scopes == [] then Thrown
    else if ShouldBreak(st, key) then Ok(([], st))
    else
      var next :- if Top(st.scopes).kind == Object && Top(st.scopes).left % 2 == 0 then ReadKeyNext(st) else Ok(st);
      var elem :- ReadAny(input, next);
      var rest :- ReadElems(input, elem.1, key);
      Ok(([elem.0] + rest.0, rest.1))
  }
}
