/** When the calls of the MessagePack reader throw, and what each takes from the scopes
    otherwise. */
module MsgPackCalls {

  import opened Bits
  import opened MsgPackFormat
  import opened MsgPackReader
  import opened MsgPackTrees

  /** The innermost scope, if there is one, is no binary, has an element left, and if a key
      is due it was announced. */
  predicate Takes(scopes: seq<Scope>) {
    scopes == [] ||
    var top := Top(scopes);
    top.left > 0 && (top.kind == Array || (top.kind == Object && (top.left % 2 == 1 || top.readingKey)))
  }

  /** One element is taken; the announcement of a key is used up with the key. */
  ghost predicate Took(scopes: seq<Scope>, after: seq<Scope>) {
    && OneTaken(scopes, after)
    && (scopes != [] ==>
          var top := Top(scopes);
          Top(after).readingKey == (top.readingKey && !(top.kind == Object && top.left % 2 == 0)))
  }

  lemma StepWhen(scopes: seq<Scope>)
    ensures Step(scopes).Ok? <==> Takes(scopes)
    ensures Step(scopes).Ok? ==> Took(scopes, Step(scopes).value)
  {
  }

  /** read of a number and of a string, and begin_binary. */
  lemma ScalarsWhen(input: seq<Byte>, st: State, was: seq<Byte>)
    ensures ReadNum(input, st).Ok? <==> st.pos < |input| && ReadNumber(input, st.pos).Ok? && Takes(st.scopes)
    ensures ReadNum(input, st).Ok? ==> Took(st.scopes, ReadNum(input, st).value.1.scopes)
    ensures ReadString(input, st, was).Ok? <==> st.pos < |input| && StrCount(input, st.pos).Ok? && Takes(st.scopes)
    ensures ReadString(input, st, was).Ok? ==> Took(st.scopes, ReadString(input, st, was).value.1.scopes)
    ensures BeginBinary(input, st).Ok? <==> st.pos < |input| && BinCount(input, st.pos).Ok? && Takes(st.scopes)
    ensures BeginBinary(input, st).Ok? ==>
              && Took(st.scopes, Popped(BeginBinary(input, st).value.scopes))
              && Top(BeginBinary(input, st).value.scopes).left == BinCount(input, st.pos).value.0
              && BeginBinary(input, st).value.pos == BinCount(input, st.pos).value.1
  {
    hide ReadNumber, StrCount, BinCount, Step, Takes, Took, Resized;
    StepWhen(st.scopes);
  }

  /** begin_object and begin_array: besides, a container is no key. */
  lemma OpensWhen(input: seq<Byte>, st: State, kind: Kind)
    requires kind != Binary && st.pos < |input|
    ensures var count := if kind == Object then MapCount(input, st.pos) else ArrayCount(input, st.pos);
            Begin(input, st, kind).Ok?
            <==> && count.Ok? && Takes(st.scopes)
                 && (st.scopes != [] && Top(st.scopes).kind == Object ==>
                       Top(st.scopes).left % 2 == 1 && !Top(st.scopes).readingKey)
  {
    hide MapCount, ArrayCount, Step, Takes;
    StepWhen(st.scopes);
  }

  /** read_key_next: in a map, between two entries, once. */
  lemma KeyWhen(st: State)
    ensures ReadKeyNext(st).Ok?
            <==> && st.scopes != [] && Top(st.scopes).kind == Object && Top(st.scopes).left % 2 == 0
                 && !Top(st.scopes).readingKey
    ensures ReadKeyNext(st).Ok? ==>
              var r := ReadKeyNext(st).value;
              && r.pos == st.pos && r.store == st.store && Popped(r.scopes) == Popped(st.scopes)
              && Top(r.scopes) == Top(st.scopes).(readingKey := true)
  {
  }

  /** read of a string: as many bytes as the stream has, and of the rest what the caller
      had. */
  lemma StringIs(input: seq<Byte>, st: State, was: seq<Byte>)
    requires ReadString(input, st, was).Ok?
    ensures var n, at := StrCount(input, st.pos).value.0, StrCount(input, st.pos).value.1;
            var r := ReadString(input, st, was).value;
            && |r.0| == n && r.1.pos == (if at + n <= |input| then at + n else |input|)
            && forall k :: 0 <= k < n ==>
                             r.0[k] == if at + k < |input| then input[at + k] else if k < |was| then was[k] else 0
  {
    hide StrCount, Step;
  }

  /** The bytes of a number that the stream is short of are all ones. */
  lemma WindowIs(input: seq<Byte>, pos: nat, n: nat, k: nat)
    requires k < n
    ensures Window(input, pos, n)[k] == if pos + k < |input| then input[pos + k] else 255
  {
    assert Window(input, pos, n)[k] == At(input, pos + k);
  }

  // ----- binaries in pieces -----

  /** binary_read_some gives as many bytes as are asked for and left, and throws only
      outside a binary or where the stream is too short. */
  lemma SomeWhen(input: seq<Byte>, st: State, size: nat)
    ensures var r := BinaryReadSome(input, st, size);
            && (r.Ok? <==> && st.scopes != [] && Top(st.scopes).kind == Binary
                           && (st.pos + size <= |input| || st.pos + Top(st.scopes).left <= |input|))
            && (r.Ok? ==>
                  var n := |r.value.0|;
                  && n <= size && n <= Top(st.scopes).left && (n == size || n == Top(st.scopes).left)
                  && st.pos + n <= |input| && r.value.0 == input[st.pos..st.pos + n] && r.value.1.pos == st.pos + n
                  && Popped(r.value.1.scopes) == Popped(st.scopes)
                  && Top(r.value.1.scopes) == Top(st.scopes).(left := Top(st.scopes).left - n))
  {
  }

  /** end_binary: behind all of the binary, however much of it was read. */
  lemma EndBinaryWhen(input: seq<Byte>, st: State)
    ensures var r := EndBinary(input, st);
            && (r.Ok? <==> && st.scopes != [] && Top(st.scopes).kind == Binary
                           && st.pos + Top(st.scopes).left <= |input|)
            && (r.Ok? ==>
                  r.value.pos == st.pos + Top(st.scopes).left && r.value.scopes == Popped(st.scopes)
                  && r.value.store == st.store)
  {
  }

  // ----- ending -----

  /** A scope is found by its key: the innermost with that key, if its kind is right. */
  lemma {:induction false} BreaksWhen(scopes: seq<Scope>, kind: Kind, key: (nat, nat))
    ensures Breaks(scopes, kind, key).Ok?
            <==> exists i :: && 0 <= i < |scopes| && scopes[i].key == key && scopes[i].kind == kind
                             && forall j :: i < j < |scopes| ==> scopes[j].key != key
    decreases |scopes|
  {
    if scopes != [] && Top(scopes).key != key {
      BreaksWhen(Popped(scopes), kind, key);
      forall i | 0 <= i < |scopes| - 1
        ensures Popped(scopes)[i] == scopes[i]
      {
      }
      InnerSame(scopes, kind, key);
    } else if scopes != [] && Top(scopes).kind == kind {
      assert scopes[|scopes| - 1].key == key;
    }
  }

  /** The keyed scope is the same without a scope on top that has another key. */
  lemma InnerSame(scopes: seq<Scope>, kind: Kind, key: (nat, nat))
    requires scopes != [] && Top(scopes).key != key
    ensures (exists i :: && 0 <= i < |scopes| && scopes[i].key == key && scopes[i].kind == kind
                         && forall j :: i < j < |scopes| ==> scopes[j].key != key)
            <==> exists i :: && 0 <= i < |scopes| - 1 && Popped(scopes)[i].key == key && Popped(scopes)[i].kind == kind
                             && forall j :: i < j < |scopes| - 1 ==> Popped(scopes)[j].key != key
  {
    var inner := Popped(scopes);
    if i :| 0 <= i < |scopes| && scopes[i].key == key && scopes[i].kind == kind
            && forall j :: i < j < |scopes| ==> scopes[j].key != key {
      assert inner[i] == scopes[i];
      assert forall j :: i < j < |scopes| - 1 ==> inner[j] == scopes[j];
    }
    if i :| 0 <= i < |inner| && inner[i].key == key && inner[i].kind == kind
            && forall j :: i < j < |inner| ==> inner[j].key != key {
      assert scopes[i] == inner[i];
      forall j | i < j < |scopes|
        ensures scopes[j].key != key
      {
        assert j < |inner| ==> scopes[j] == inner[j];
      }
    }
  }
}
