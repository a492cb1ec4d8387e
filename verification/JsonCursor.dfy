/** Moving over the tokens of a value: the cursor and scope stack of the JSON
    reader (include/cpph/refl/archive/json-reader.hxx), as functions, and what
    leaving a scope amounts to however much of it was read. */
module JsonCursor {
  import opened Wrappers
  import opened Jsmn
  import opened JsmnText

  const NPOS := -1

  datatype ScopeType = ArrayScope | ObjectScope

  datatype Scope = Scope(kind: ScopeType, key: int, tokenPos: nat, isKeyNext: bool, elemLeft: int)

  /** Token index of the next entity (or NPOS), open scopes, last key issued. */
  datatype Cursor = Cursor(pos: int, scopes: seq<Scope>, keygen: int)

  datatype Failure = ParseFailed | InvalidContext | OutOfRange

  datatype Moved = Moved(cur: Cursor) | Thrown(error: Failure)

  predicate Inside(toks: seq<Token>, cur: Cursor) {
    forall i :: 0 <= i < |cur.scopes| ==> cur.scopes[i].tokenPos < |toks| && cur.scopes[i].key <= cur.keygen
  }

  predicate HasNext(toks: seq<Token>, cur: Cursor) {
    0 <= cur.pos < |toks|
  }

  function StepIn(toks: seq<Token>, cur: Cursor, kind: ScopeType): (r: Moved)
    requires Inside(toks, cur)
    ensures r.Moved? ==> Inside(toks, r.cur)
  {
    if !HasNext(toks, cur) then Thrown(OutOfRange)
    else if toks[cur.pos].kind != (if kind == ObjectScope then Object else Array) then Thrown(ParseFailed) else
    var elems := toks[cur.pos].size * if kind == ObjectScope then 2 else 1;
    Moved(Cursor(cur.pos + 1, cur.scopes + [Scope(kind, cur.keygen + 1, cur.pos, false, elems)], cur.keygen + 1))
  }

  /** The scope on top, with one element fewer and no key announced. */
  function Consumed(scopes: seq<Scope>): seq<Scope>
    requires scopes != []
  {
    var top := scopes[|scopes| - 1];
    scopes[|scopes| - 1 := top.(isKeyNext := false, elemLeft := top.elemLeft - 1)]
  }

  function Step(toks: seq<Token>, cur: Cursor): (r: Moved)
    requires Inside(toks, cur)
    ensures r.Moved? ==> Inside(toks, r.cur)
  {
    if cur.scopes == [] then Moved(cur)
    else if !HasNext(toks, cur) then Thrown(OutOfRange) else
    var t := toks[cur.pos];
    var top := cur.scopes[|cur.scopes| - 1];
    if top.isKeyNext && t.kind != String then Thrown(InvalidContext) else
    var next := if IsContainer(t.kind) then Boundary(toks, cur.pos, t.end) else cur.pos + 1;
    if top.elemLeft <= 0 then Thrown(InvalidContext)
    else Moved(Cursor(if next == |toks| then NPOS else next, Consumed(cur.scopes), cur.keygen))
  }

  /** The innermost scope with the given key, searched from the top. */
  function FindKey(scopes: seq<Scope>, key: int): (r: Option<nat>)
    ensures r.Some? ==> r.value < |scopes| && scopes[r.value].key == key
    ensures r.None? ==> forall i :: 0 <= i < |scopes| ==> scopes[i].key != key
  {
    if scopes == [] then None
    else if scopes[|scopes| - 1].key == key then Some(|scopes| - 1)
    else FindKey(scopes[..|scopes| - 1], key)
  }

  function StepOut(toks: seq<Token>, cur: Cursor, key: int): (r: Moved)
    requires Inside(toks, cur)
    ensures r.Moved? ==> Inside(toks, r.cur)
  {
    var found := FindKey(cur.scopes, key);
    if found.None? || cur.scopes[found.value].isKeyNext then Thrown(InvalidContext) else
    var outer := cur.scopes[..found.value];
    var at := cur.scopes[found.value].tokenPos;
    if outer == [] then Moved(Cursor(NPOS, [], cur.keygen))
    else Moved(Cursor(Boundary(toks, at, toks[at].end), Consumed(outer), cur.keygen))
  }

  function KeyNext(toks: seq<Token>, cur: Cursor): (r: Moved)
    requires Inside(toks, cur)
    ensures r.Moved? ==> Inside(toks, r.cur)
  {
    if cur.scopes == [] then Thrown(InvalidContext) else
    var top := cur.scopes[|cur.scopes| - 1];
    if top.isKeyNext then Thrown(InvalidContext)
    else if top.kind != ObjectScope then Thrown(ParseFailed)
    else Moved(cur.(scopes := cur.scopes[|cur.scopes| - 1 := top.(isKeyNext := true)]))
  }

  // ----- when the moves throw, and what they change -----

  /** A container of the right kind is entered: its scope counts the elements, two for
      each member of an object. */
  lemma StepInWhen(toks: seq<Token>, cur: Cursor, kind: ScopeType)
    requires Inside(toks, cur)
    ensures StepIn(toks, cur, kind).Moved?
            <==> && 0 <= cur.pos < |toks|
                 && toks[cur.pos].kind == match kind case ObjectScope => Object case ArrayScope => Array
    ensures StepIn(toks, cur, kind).Moved? ==>
              var r, n := StepIn(toks, cur, kind).cur, toks[cur.pos].size;
              && r.pos == cur.pos + 1 && r.keygen == cur.keygen + 1
              && r.scopes == cur.scopes + [Scope(kind, cur.keygen + 1, cur.pos, false,
                                             match kind case ObjectScope => n + n case ArrayScope => n)]
  {
  }

  /** One element of the innermost scope is taken, a string where a key was announced; with
      no scope open nothing happens. */
  lemma StepWhen(toks: seq<Token>, cur: Cursor)
    requires Inside(toks, cur)
    ensures cur.scopes == [] ==> Step(toks, cur) == Moved(cur)
    ensures cur.scopes != [] ==>
              var top := cur.scopes[|cur.scopes| - 1];
              Step(toks, cur).Moved?
              <==> && 0 <= cur.pos < |toks| && top.elemLeft > 0
                   && (top.isKeyNext ==> toks[cur.pos].kind == String)
    ensures cur.scopes != [] && Step(toks, cur).Moved? ==>
              var top, r, n := cur.scopes[|cur.scopes| - 1], Step(toks, cur).cur, |cur.scopes| - 1;
              && r.keygen == cur.keygen && |r.scopes| == n + 1 && r.scopes[..n] == cur.scopes[..n]
              && r.scopes[n] == top.(elemLeft := top.elemLeft - 1, isKeyNext := false)
    ensures cur.scopes != [] && Step(toks, cur).Moved? ==>
              var next := if Step(toks, cur).cur.pos == -1 then |toks| else Step(toks, cur).cur.pos;
              && cur.pos <= next <= |toks|
              && (!IsContainer(toks[cur.pos].kind) ==> next == cur.pos + 1)
              && (IsContainer(toks[cur.pos].kind) ==>
                    && (forall k :: cur.pos <= k < next ==> toks[k].start < toks[cur.pos].end)
                    && (next < |toks| ==> toks[next].start >= toks[cur.pos].end))
  {
  }

  /** A key is announced in an object, once. */
  lemma KeyNextWhen(toks: seq<Token>, cur: Cursor)
    requires Inside(toks, cur)
    ensures KeyNext(toks, cur).Moved?
            <==> && cur.scopes != [] && cur.scopes[|cur.scopes| - 1].kind == ObjectScope
                 && !cur.scopes[|cur.scopes| - 1].isKeyNext
    ensures KeyNext(toks, cur).Moved? ==>
              var n, r := |cur.scopes| - 1, KeyNext(toks, cur).cur;
              && r.pos == cur.pos && r.keygen == cur.keygen && |r.scopes| == n + 1 && r.scopes[..n] == cur.scopes[..n]
              && r.scopes[n] == cur.scopes[n].(isKeyNext := true)
  {
  }

  datatype Op = In(kind: ScopeType) | Read | Out(key: int) | Key

  function Perform(toks: seq<Token>, cur: Cursor, op: Op): (r: Moved)
    requires Inside(toks, cur)
    ensures r.Moved? ==> Inside(toks, r.cur)
  {
    match op
    case In(kind) => StepIn(toks, cur, kind)
    case Read => Step(toks, cur)
    case Out(key) => StepOut(toks, cur, key)
    case Key => KeyNext(toks, cur)
  }

  /** A run of operations, as long as none throws. */
  function PerformAll(toks: seq<Token>, cur: Cursor, ops: seq<Op>): (r: Moved)
    requires Inside(toks, cur)
    ensures r.Moved? ==> Inside(toks, r.cur)
    decreases |ops|
  {
    if ops == [] then Moved(cur) else
    var first := Perform(toks, cur, ops[0]);
    if first.Thrown? then first else PerformAll(toks, first.cur, ops[1..])
  }

  /** The scope entered with key k is still open above the stack `outer`, or is
      gone for good. */
  predicate OpenOrGone(cur: Cursor, outer: seq<Scope>, k: int, tokenPos: nat) {
    && k <= cur.keygen
    && (|| (|cur.scopes| > |outer| && cur.scopes[..|outer|] == outer && cur.scopes[|outer|].key == k
            && cur.scopes[|outer|].tokenPos == tokenPos
            && forall i :: 0 <= i < |cur.scopes| && i != |outer| ==> cur.scopes[i].key != k)
        || forall i :: 0 <= i < |cur.scopes| ==> cur.scopes[i].key != k)
  }

  lemma PerformKeeps(toks: seq<Token>, cur: Cursor, op: Op, outer: seq<Scope>, k: int, tokenPos: nat)
    requires Inside(toks, cur) && Perform(toks, cur, op).Moved?
    requires OpenOrGone(cur, outer, k, tokenPos)
    ensures OpenOrGone(Perform(toks, cur, op).cur, outer, k, tokenPos)
  {
    hide Boundary;
    var after := Perform(toks, cur, op).cur;
    match op
    case In(kind) =>
      assert after.scopes[..|cur.scopes|] == cur.scopes;
      assert |cur.scopes| > |outer| ==> after.scopes[..|outer|] == cur.scopes[..|outer|];
    case Read =>
      assert |cur.scopes| > |outer| ==> after.scopes[..|outer|] == cur.scopes[..|outer|];
    case Key =>
      assert |cur.scopes| > |outer| ==> after.scopes[..|outer|] == cur.scopes[..|outer|];
    case Out(key) =>
      assert forall i :: 0 <= i < |after.scopes| ==> after.scopes[i].key == cur.scopes[i].key;
      assert |after.scopes| > |outer| ==> after.scopes[..|outer|] == cur.scopes[..|outer|];
  }

  lemma {:induction false} RunKeepsScope(toks: seq<Token>, cur: Cursor, ops: seq<Op>, outer: seq<Scope>, k: int,
      tokenPos: nat)
    requires Inside(toks, cur) && PerformAll(toks, cur, ops).Moved?
    requires OpenOrGone(cur, outer, k, tokenPos)
    ensures OpenOrGone(PerformAll(toks, cur, ops).cur, outer, k, tokenPos)
    decreases |ops|
  {
    if ops != [] {
      PerformKeeps(toks, cur, ops[0], outer, k, tokenPos);
      RunKeepsScope(toks, Perform(toks, cur, ops[0]).cur, ops[1..], outer, k, tokenPos);
    }
  }

  /** Leaving a scope by its key leads to one and the same place, whatever was
      read, entered or left since: behind the whole subtree of the token the
      scope was entered at, with the enclosing scopes as they were and one
      element consumed.  The cursor forgets its place when no scope is left. */
  lemma {:induction false} StepOutAnywhere(toks: seq<Token>, cur: Cursor, kind: ScopeType, ops: seq<Op>)
    requires Inside(toks, cur) && StepIn(toks, cur, kind).Moved?
    requires PerformAll(toks, StepIn(toks, cur, kind).cur, ops).Moved?
    ensures var k := cur.keygen + 1;
            var here := PerformAll(toks, StepIn(toks, cur, kind).cur, ops).cur;
            StepOut(toks, here, k).Moved? ==>
              && StepOut(toks, here, k).cur.scopes == (if cur.scopes == [] then [] else Consumed(cur.scopes))
              && StepOut(toks, here, k).cur.pos
                 == (if cur.scopes == [] then NPOS else Boundary(toks, cur.pos, toks[cur.pos].end))
  {
    hide Boundary, PerformAll, StepOut, Consumed;
    var inner := StepIn(toks, cur, kind).cur;
    assert inner.scopes[..|cur.scopes|] == cur.scopes;
    RunKeepsScope(toks, inner, ops, cur.scopes, cur.keygen + 1, cur.pos);
    LeaveKeyed(toks, PerformAll(toks, inner, ops).cur, cur.scopes, cur.keygen + 1, cur.pos);
  }

  lemma {:induction false} LeaveKeyed(toks: seq<Token>, here: Cursor, outer: seq<Scope>, k: int, tokenPos: nat)
    requires Inside(toks, here) && tokenPos < |toks| && OpenOrGone(here, outer, k, tokenPos)
    ensures StepOut(toks, here, k).Moved? ==>
              && StepOut(toks, here, k).cur.scopes == (if outer == [] then [] else Consumed(outer))
              && StepOut(toks, here, k).cur.pos
                 == (if outer == [] then NPOS else Boundary(toks, tokenPos, toks[tokenPos].end))
  {
    hide Boundary;
  }

  /** It can always be left while it is open, unless a key was announced in it
      last: exactly then leaving throws. */
  lemma StepOutThrows(toks: seq<Token>, cur: Cursor, key: int)
    requires Inside(toks, cur)
    ensures StepOut(toks, cur, key).Thrown? <==>
              forall i :: 0 <= i < |cur.scopes| && cur.scopes[i].key == key
                          && (forall j :: i < j < |cur.scopes| ==> cur.scopes[j].key != key)
                          ==> cur.scopes[i].isKeyNext
  {
    FindKeyLast(cur.scopes, key);
  }

  lemma {:induction false} FindKeyLast(scopes: seq<Scope>, key: int)
    ensures var r := FindKey(scopes, key);
            r.Some? ==> forall j :: r.value < j < |scopes| ==> scopes[j].key != key
  {
    if scopes != [] && scopes[|scopes| - 1].key != key {
      FindKeyLast(scopes[..|scopes| - 1], key);
    }
  }
}
