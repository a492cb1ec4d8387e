/** A caller that reads whatever comes by the calls of the JSON reader: what it gets
    from the text of a value is that value. */
module JsonTrees {
  import opened Wrappers
  import opened Jsmn
  import opened JsmnText
  import opened JsmnValues
  import opened JsonReading
  import JsonCursor

  type Cursor = JsonCursor.Cursor

  // ----- the caller -----

  /** What a caller holds in the end; the elements of an object are its keys and values
      by turns. */
  datatype Tree = Leaf(kind: Kind, s: string) | Node(kind: Kind, elems: seq<Tree>)

  /** The characters of a token. */
  function Characters(buffer: string, t: Token): string {
    if 0 <= t.start <= t.end <= |buffer| then buffer[t.start..t.end] else ""
  }

  function Then(m: JsonCursor.Moved): (r: Option<Cursor>)
    ensures r.Some? <==> m.Moved?
  {
    if m.Moved? then Some(m.cur) else None
  }

  predicate ShouldBreak(cur: Cursor, key: int)
    requires cur.scopes != []
  {
    var top := cur.scopes[|cur.scopes| - 1];
    top.key == key && top.elemLeft == 0
  }

  /** The caller asks for the type of the next entity and reads it by the calls for that
      type: where it stands then, if what it got is this tree. */
  function Reads(buffer: string, toks: seq<Token>, cur: Cursor, tree: Tree): (r: Option<Cursor>)
    requires JsonCursor.Inside(toks, cur)
    ensures r.Some? ==> JsonCursor.Inside(toks, r.value)
    decreases tree, 0
  {
    if !JsonCursor.HasNext(toks, cur) || toks[cur.pos].kind != tree.kind then None else
    match tree
    case Leaf(kind, s) =>
      if IsContainer(kind) || Characters(buffer, toks[cur.pos]) != s then None
      else Then(JsonCursor.Step(toks, cur))
    case Node(kind, elems) =>
      if !IsContainer(kind) then None else
      var inner :- Then(JsonCursor.StepIn(toks, cur, ScopeOf(kind)));
      var last :- ReadsAll(buffer, toks, inner, inner.keygen, elems);
      Then(JsonCursor.StepOut(toks, last, inner.keygen))
  }

  function ScopeOf(kind: Kind): JsonCursor.ScopeType {
    if kind == Object then JsonCursor.ObjectScope else JsonCursor.ArrayScope
  }

  /** The state in which the next element is read: in an object each key is announced. */
  function Announced(toks: seq<Token>, cur: Cursor): (r: Option<Cursor>)
    requires JsonCursor.Inside(toks, cur) && cur.scopes != []
    ensures r.Some? ==> JsonCursor.Inside(toks, r.value)
  {
    var top := cur.scopes[|cur.scopes| - 1];
    if top.kind == JsonCursor.ObjectScope && top.elemLeft % 2 == 0 then Then(JsonCursor.KeyNext(toks, cur))
    else Some(cur)
  }

  /** The caller reads elements until it is told to break. */
  function ReadsAll(buffer: string, toks: seq<Token>, cur: Cursor, key: int, elems: seq<Tree>): (r: Option<Cursor>)
    requires JsonCursor.Inside(toks, cur)
    ensures r.Some? ==> JsonCursor.Inside(toks, r.value)
    decreases elems, 1
  {
    if cur.scopes == [] then None
    else if ShouldBreak(cur, key) || elems == [] then (if ShouldBreak(cur, key) && elems == [] then Some(cur) else None)
    else
      var now :- Announced(toks, cur);
      var next :- Reads(buffer, toks, now, elems[0]);
      ReadsAll(buffer, toks, next, key, elems[1..])
  }

  /** The caller gets one tree at most. */
  lemma {:induction false} OneTree(buffer: string, toks: seq<Token>, cur: Cursor, a: Tree, b: Tree)
    requires JsonCursor.Inside(toks, cur)
    requires Reads(buffer, toks, cur, a).Some? && Reads(buffer, toks, cur, b).Some?
    ensures a == b
    decreases a, 0
  {
    hide JsonCursor.Step, JsonCursor.StepIn, JsonCursor.StepOut, ReadsAll;
    if a.Node? {
      var inner := Then(JsonCursor.StepIn(toks, cur, ScopeOf(a.kind))).value;
      SameElements(buffer, toks, inner, inner.keygen, a.elems, b.elems);
    }
  }

  lemma {:induction false} SameElements(buffer: string, toks: seq<Token>, cur: Cursor, key: int, a: seq<Tree>,
      b: seq<Tree>)
    requires JsonCursor.Inside(toks, cur)
    requires ReadsAll(buffer, toks, cur, key, a).Some? && ReadsAll(buffer, toks, cur, key, b).Some?
    ensures a == b
    decreases a, 1
  {
    hide Reads, Announced;
    if a != [] && b != [] {
      var now := Announced(toks, cur).value;
      OneTree(buffer, toks, now, a[0], b[0]);
      SameElements(buffer, toks, Reads(buffer, toks, now, a[0]).value, key, a[1..], b[1..]);
      assert a == [a[0]] + a[1..] && b == [b[0]] + b[1..];
    }
  }

  // ----- the value -----

  /** A value without the white space around its parts. */
  function Plain(v: Json): Tree
    decreases v, 1
  {
    match v
    case Str(s) => Leaf(String, s)
    case Prim(s) => Leaf(Primitive, s)
    case Arr(elems, _) => Node(Array, PlainAll(elems))
    case Obj(members, _) => Node(Object, PlainAll(members))
  }

  function PlainAll(vs: seq<Elem>): (trees: seq<Tree>)
    ensures |trees| == |vs|
    decreases vs, 0
  {
    if vs == [] then [] else [Plain(vs[0].value)] + PlainAll(vs[1..])
  }

  /** The innermost scope, if there is one, has an element left, and a string where a key
      was announced. */
  predicate Expects(scopes: seq<JsonCursor.Scope>, v: Json) {
    scopes == []
    || (scopes[|scopes| - 1].elemLeft > 0 && (scopes[|scopes| - 1].isKeyNext ==> v.Str?))
  }

  predicate IsLeaf(v: Json) {
    v.Str? || v.Prim?
  }

  /** Where the caller stands after it has read a value from the token at on: a value that
      is no container and stands in no scope is not left behind. */
  function Behind(at: nat, v: Json, scopes: seq<JsonCursor.Scope>, count: nat): int {
    if scopes == [] then (if IsLeaf(v) then at else JsonCursor.NPOS)
    else if IsLeaf(v) && at + 1 == count then JsonCursor.NPOS
    else at + Size(v)
  }

  function Left(scopes: seq<JsonCursor.Scope>): seq<JsonCursor.Scope> {
    if scopes == [] then [] else JsonCursor.Consumed(scopes)
  }

  /** The outcome: the caller has got this tree, and stands there. */
  predicate Got(r: Option<Cursor>, pos: int, scopes: seq<JsonCursor.Scope>) {
    r.Some? && r.value.pos == pos && r.value.scopes == scopes
  }

  /** The tokens stand among others, from at on. */
  ghost predicate TokensAt(toks: seq<Token>, at: nat, own: seq<Token>) {
    at + |own| <= |toks| && toks[at..at + |own|] == own
  }

  lemma TokensSplit(toks: seq<Token>, at: nat, a: seq<Token>, b: seq<Token>)
    requires TokensAt(toks, at, a + b)
    ensures TokensAt(toks, at, a) && TokensAt(toks, at + |a|, b) && at + |a| + |b| <= |toks|
  {
    var all := toks[at..at + |a + b|];
    assert a == (a + b)[..|a|] && b == (a + b)[|a|..];
    assert toks[at..at + |a|] == all[..|a|] && toks[at + |a|..at + |a| + |b|] == all[|a|..];
  }

  lemma TokenAt(toks: seq<Token>, at: nat, own: seq<Token>)
    requires TokensAt(toks, at, own) && own != []
    ensures at < |toks| && toks[at] == own[0]
  {
    assert toks[at..at + |own|][0] == toks[at];
  }

  /** The token at this index, if there is one, begins at the position or later. */
  predicate From(toks: seq<Token>, at: nat, pos: int) {
    at < |toks| ==> toks[at].start >= pos
  }

  /** A value's tokens stand among others, and its text in the buffer. */
  ghost predicate Stands(buffer: string, toks: seq<Token>, at: nat, v: Json, parent: int, pos: nat) {
    && ValidJson(v) && Holds(buffer, pos, Text(v)) && TokensAt(toks, at, Tokens(v, at, parent, pos))
    && From(toks, at + Size(v), pos + |Text(v)|)
  }

  lemma {:induction false} ReadsLeaf(buffer: string, toks: seq<Token>, cur: Cursor, v: Json, pos: nat)
    requires JsonCursor.Inside(toks, cur) && JsonCursor.HasNext(toks, cur) && IsLeaf(v) && Expects(cur.scopes, v)
    requires Holds(buffer, pos, Text(v))
    requires toks[cur.pos].kind == (if v.Str? then String else Primitive)
    requires toks[cur.pos].start == pos + (if v.Str? then 1 else 0)
    requires toks[cur.pos].end == pos + |Text(v)| - (if v.Str? then 1 else 0)
    ensures Got(Reads(buffer, toks, cur, Plain(v)), Behind(cur.pos, v, cur.scopes, |toks|), Left(cur.scopes))
  {
    hide JsonCursor.Inside;
    LeafText(buffer, v, pos);
    hide Text, Holds;
  }

  lemma {:induction false} LeafText(buffer: string, v: Json, pos: nat)
    requires IsLeaf(v) && Holds(buffer, pos, Text(v))
    ensures var d := if v.Str? then 1 else 0;
            && pos + |Text(v)| <= |buffer| && 2 * d <= |Text(v)|
            && buffer[pos + d..pos + |Text(v)| - d] == if v.Str? then v.body else v.word
  {
    if v.Str? {
      HoldsSplit(buffer, pos, "\"" + v.body, "\"");
      HoldsSplit(buffer, pos, "\"", v.body);
    }
  }

  // ----- elements -----

  /** The same for elements of the container c, with more text behind them. */
  ghost predicate ItemsStand(buffer: string, toks: seq<Token>, at: nat, vs: seq<Elem>, obj: bool, c: int, pos: nat,
      tail: string)
  {
    && ValidItems(vs, obj) && tail != "" && Holds(buffer, pos, Items(vs, obj) + tail)
    && TokensAt(toks, at, ItemTokens(vs, obj, at, c, pos)) && From(toks, at + SizeAll(vs), pos + |Items(vs, obj)|)
  }

  function ParentOf(vs: seq<Elem>, obj: bool, at: nat, c: int): int {
    if obj && |vs| % 2 == 1 then at - 1 else c
  }

  /** A key's token counts its value. */
  function Sized(own: seq<Token>, key: bool): (r: seq<Token>)
    requires own != []
    ensures |r| == |own|
    ensures r[0].kind == own[0].kind && r[0].start == own[0].start && r[0].end == own[0].end
  {
    if key then own[0 := own[0].(size := own[0].size + 1)] else own
  }

  lemma {:induction false} SizesStep(vs: seq<Elem>)
    requires vs != []
    ensures SizeAll(vs) == Size(vs[0].value) + SizeAll(vs[1..])
  {
    hide Size;
  }

  lemma {:induction false} ItemTokensAre(vs: seq<Elem>, obj: bool, at: nat, c: int, pos: nat)
    requires vs != []
    ensures var n, v, key := Size(vs[0].value), vs[0].value, obj && |vs| % 2 == 0;
            var own := Sized(Tokens(v, at, ParentOf(vs, obj, at, c), pos + |vs[0].before|), key);
            && |own| == n
            && ItemTokens(vs, obj, at, c, pos)
               == own + ItemTokens(vs[1..], obj, at + n, c, pos + |ElemText(vs[0])| + 1)
  {
    ItemTokensStep(vs, obj, at, c, pos);
    hide Tokens, ItemTokens, Size, ElemText;
  }

  /** The tokens of the first element, and those of the others behind them. */
  lemma {:induction false} FirstTokens(toks: seq<Token>, at: nat, vs: seq<Elem>, obj: bool, c: int, pos: nat)
    requires vs != [] && TokensAt(toks, at, ItemTokens(vs, obj, at, c, pos))
    ensures var n := Size(vs[0].value);
            && TokensAt(toks, at,
                 Sized(Tokens(vs[0].value, at, ParentOf(vs, obj, at, c), pos + |vs[0].before|), obj && |vs| % 2 == 0))
            && TokensAt(toks, at + n, ItemTokens(vs[1..], obj, at + n, c, pos + |ElemText(vs[0])| + 1))
  {
    hide *;
    var n, v, key := Size(vs[0].value), vs[0].value, obj && |vs| % 2 == 0;
    ItemTokensAre(vs, obj, at, c, pos);
    TokensSplit(toks, at, Sized(Tokens(v, at, ParentOf(vs, obj, at, c), pos + |vs[0].before|), key),
      ItemTokens(vs[1..], obj, at + n, c, pos + |ElemText(vs[0])| + 1));
  }

  /** The token behind an element begins behind its text. */
  lemma {:induction false} StartsBehind(toks: seq<Token>, at: nat, vs: seq<Elem>, obj: bool, c: int, pos: nat)
    requires vs != [] && ValidItems(vs, obj) && TokensAt(toks, at, ItemTokens(vs, obj, at, c, pos))
    requires From(toks, at + SizeAll(vs), pos + |Items(vs, obj)|)
    ensures From(toks, at + Size(vs[0].value), pos + |ElemText(vs[0])|)
  {
    SizesStep(vs);
    hide Tokens, ItemTokens, Items, ElemText, ValidItems, TokensAt, Size;
    if |vs| > 1 {
      NextStarts(toks, at, vs, obj, c, pos);
    } else {
      ItemsStep(vs, obj);
      assert vs[1..] == [];
    }
  }

  lemma {:induction false} NextStarts(toks: seq<Token>, at: nat, vs: seq<Elem>, obj: bool, c: int, pos: nat)
    requires |vs| > 1 && ValidItems(vs, obj) && TokensAt(toks, at, ItemTokens(vs, obj, at, c, pos))
    ensures From(toks, at + Size(vs[0].value), pos + |ElemText(vs[0])|)
  {
    hide *;
    var rest, next, start := vs[1..], at + Size(vs[0].value), pos + |ElemText(vs[0])| + 1;
    FirstTokens(toks, at, vs, obj, c, pos);
    ValidRest(vs, obj);
    ItemsBegin(rest, obj, next, c, start);
    FromToken(toks, next, ItemTokens(rest, obj, next, c, start), start);
    FromEarlier(toks, next, start, start - 1);
  }

  /** Elements begin where they are said to, or behind it. */
  lemma {:induction false} ItemsBegin(vs: seq<Elem>, obj: bool, at: nat, c: int, pos: nat)
    requires vs != [] && ValidItems(vs, obj)
    ensures ItemTokens(vs, obj, at, c, pos) != [] && ItemTokens(vs, obj, at, c, pos)[0].start >= pos
  {
    SizesStep(vs);
    hide ItemTokens, Items, ValidItems, Size, SizeAll;
    ItemTokensWithin(vs, obj, at, c, pos);
  }

  lemma FromToken(toks: seq<Token>, at: nat, own: seq<Token>, pos: int)
    requires TokensAt(toks, at, own) && own != [] && own[0].start >= pos
    ensures From(toks, at, pos)
  {
    hide TokensAt;
    TokenAt(toks, at, own);
  }

  lemma {:induction false} ItemsRest(buffer: string, toks: seq<Token>, at: nat, vs: seq<Elem>, obj: bool, c: int,
      pos: nat, tail: string)
    requires |vs| > 1 && ItemsStand(buffer, toks, at, vs, obj, c, pos, tail)
    ensures ItemsStand(buffer, toks, at + Size(vs[0].value), vs[1..], obj, c, pos + |ElemText(vs[0])| + 1, tail)
  {
    hide TokensAt, Tokens, ItemTokens, Items, ElemText, ValidItems, Holds, Size, SizeAll;
    FirstTokens(toks, at, vs, obj, c, pos);
    FirstHeld(buffer, pos, vs, obj, tail);
    ValidRest(vs, obj);
    SizesStep(vs);
  }

  /** The first element, as its value stands. */
  ghost predicate FirstStands(buffer: string, toks: seq<Token>, at: nat, v: Json, parent: int, pos: nat, key: bool) {
    && ValidJson(v) && Holds(buffer, pos, Text(v)) && TokensAt(toks, at, Sized(Tokens(v, at, parent, pos), key))
    && From(toks, at + Size(v), pos + |Text(v)|) && (key ==> v.Str?)
  }

  lemma {:induction false} ItemsFirst(buffer: string, toks: seq<Token>, at: nat, vs: seq<Elem>, obj: bool, c: int,
      pos: nat, tail: string)
    requires vs != [] && ItemsStand(buffer, toks, at, vs, obj, c, pos, tail)
    ensures FirstStands(buffer, toks, at, vs[0].value, ParentOf(vs, obj, at, c), pos + |vs[0].before|,
              obj && |vs| % 2 == 0)
  {
    hide TokensAt, Tokens, ItemTokens, Items, Holds, Text, ValidItems, ValidElem, ElemText, FirstStands, From, SizeAll;
    var v, start := vs[0].value, pos + |vs[0].before|;
    assert ValidItems(vs, obj) && tail != "" && Holds(buffer, pos, Items(vs, obj) + tail);
    assert TokensAt(toks, at, ItemTokens(vs, obj, at, c, pos)) && From(toks, at + SizeAll(vs), pos + |Items(vs, obj)|);
    hide *;
    FirstValid(vs, obj);
    FirstTokens(toks, at, vs, obj, c, pos);
    StartsBehind(toks, at, vs, obj, c, pos);
    FirstHeld(buffer, pos, vs, obj, tail);
    ElemSplit(buffer, pos, vs[0]);
    FromEarlier(toks, at + Size(v), pos + |ElemText(vs[0])|, start + |Text(v)|);
    FirstTogether(buffer, toks, at, v, ParentOf(vs, obj, at, c), start, obj && |vs| % 2 == 0);
  }

  lemma FromEarlier(toks: seq<Token>, at: nat, pos: int, earlier: int)
    requires From(toks, at, pos) && earlier <= pos
    ensures From(toks, at, earlier)
  {
  }

  lemma {:induction false} FirstTogether(buffer: string, toks: seq<Token>, at: nat, v: Json, parent: int, pos: nat,
      key: bool)
    requires ValidJson(v) && Holds(buffer, pos, Text(v)) && TokensAt(toks, at, Sized(Tokens(v, at, parent, pos), key))
    requires From(toks, at + Size(v), pos + |Text(v)|) && (key ==> v.Str?)
    ensures FirstStands(buffer, toks, at, v, parent, pos, key)
  {
  }

  lemma {:induction false} FirstValid(vs: seq<Elem>, obj: bool)
    requires vs != [] && ValidItems(vs, obj)
    ensures ValidJson(vs[0].value) && (obj && |vs| % 2 == 0 ==> vs[0].value.Str?)
  {
    assert ValidElem(vs[0]);
  }

  lemma {:induction false} ElemSplit(buffer: string, pos: nat, e: Elem)
    requires Holds(buffer, pos, ElemText(e))
    ensures Holds(buffer, pos + |e.before|, Text(e.value)) && |ElemText(e)| >= |e.before| + |Text(e.value)|
  {
    hide Text;
    assert ElemText(e) == e.before + (Text(e.value) + e.after);
    HoldsSplit(buffer, pos, e.before, Text(e.value) + e.after);
    HoldsSplit(buffer, pos + |e.before|, Text(e.value), e.after);
  }

  // ----- the readings -----

  function Top(scopes: seq<JsonCursor.Scope>): JsonCursor.Scope
    requires scopes != []
  {
    scopes[|scopes| - 1]
  }

  /** The scope on top with nothing left. */
  function Finished(scopes: seq<JsonCursor.Scope>): seq<JsonCursor.Scope>
    requires scopes != []
  {
    scopes[|scopes| - 1 := Top(scopes).(elemLeft := 0)]
  }

  /** Wherever a value may be read, the caller gets it, from its first token to the one
      behind its last. */
  lemma {:induction false} ReadsValue(buffer: string, toks: seq<Token>, cur: Cursor, v: Json, parent: int, pos: nat)
    requires JsonCursor.Inside(toks, cur) && cur.pos >= 0 && Stands(buffer, toks, cur.pos, v, parent, pos)
    requires Expects(cur.scopes, v)
    ensures Got(Reads(buffer, toks, cur, Plain(v)), Behind(cur.pos, v, cur.scopes, |toks|), Left(cur.scopes))
    decreases Size(v), 2
  {
    hide JsonCursor.Inside, Text, Holds, ValidJson, Reads, Behind, Left, Plain, Got, Expects, Tokens, TokensAt, From;
    if IsLeaf(v) {
      assert FirstStands(buffer, toks, cur.pos, v, parent, pos, false);
      LeafToken(buffer, toks, cur.pos, v, parent, pos, false);
      ReadsLeaf(buffer, toks, cur, v, pos);
    } else {
      ReadsContainer(buffer, toks, cur, v, parent, pos);
    }
  }

  lemma {:induction false} LeafToken(buffer: string, toks: seq<Token>, at: nat, v: Json, parent: int, pos: nat,
      key: bool)
    requires FirstStands(buffer, toks, at, v, parent, pos, key) && IsLeaf(v)
    ensures at < |toks| && toks[at].kind == (if v.Str? then String else Primitive)
    ensures toks[at].start == pos + (if v.Str? then 1 else 0)
    ensures toks[at].end == pos + |Text(v)| - (if v.Str? then 1 else 0)
  {
    hide TokensAt, Holds, ValidJson, Sized;
    TokenAt(toks, at, Sized(Tokens(v, at, parent, pos), key));
    hide Text;
  }

  lemma {:induction false} ReadsContainer(buffer: string, toks: seq<Token>, cur: Cursor, v: Json, parent: int, pos: nat)
    requires JsonCursor.Inside(toks, cur) && cur.pos >= 0 && Stands(buffer, toks, cur.pos, v, parent, pos)
    requires !IsLeaf(v)
    ensures Got(Reads(buffer, toks, cur, Plain(v)), Behind(cur.pos, v, cur.scopes, |toks|), Left(cur.scopes))
    decreases Size(v), 1
  {
    hide *;
    ContainerHeld(buffer, toks, cur.pos, v, parent, pos);
    var inner := StepsInto(toks, cur, v);
    HeldSmaller(v);
    ReadsItems(buffer, toks, inner, Held(v), v.Obj?, cur.pos, pos + 1, Tail(v));
    var last := ReadsAll(buffer, toks, inner, inner.keygen, PlainAll(Held(v))).value;
    ScopeFinished(inner, last, cur.scopes);
    LeavesScope(toks, cur, last, inner.keygen, v);
    ReadsNode(buffer, toks, cur, v, inner, last);
  }

  lemma HeldSmaller(v: Json)
    requires !IsLeaf(v)
    ensures v.Arr? || v.Obj?
    ensures SizeAll(Held(v)) + 1 == Size(v)
  {
    hide SizeAll;
  }

  /** The scope that is opened counts the elements. */
  lemma StepsInto(toks: seq<Token>, cur: Cursor, v: Json) returns (inner: Cursor)
    requires JsonCursor.Inside(toks, cur) && 0 <= cur.pos < |toks| && !IsLeaf(v)
    requires toks[cur.pos].kind == KindOf(v.Obj?) && toks[cur.pos].size * (if v.Obj? then 2 else 1) == |Held(v)|
    ensures JsonCursor.StepIn(toks, cur, ScopeOf(KindOf(v.Obj?))) == JsonCursor.Moved(inner)
    ensures JsonCursor.Inside(toks, inner) && inner.pos == cur.pos + 1
    ensures inner.scopes != [] && inner.scopes[..|inner.scopes| - 1] == cur.scopes
    ensures var top := Top(inner.scopes);
            && top.kind == ScopeOf(KindOf(v.Obj?)) && top.key == inner.keygen && top.tokenPos == cur.pos
            && !top.isKeyNext && top.elemLeft == |Held(v)|
  {
    inner := JsonCursor.StepIn(toks, cur, ScopeOf(KindOf(v.Obj?))).cur;
  }

  lemma ScopeFinished(inner: Cursor, last: Cursor, scopes: seq<JsonCursor.Scope>)
    requires inner.scopes != [] && inner.scopes[..|inner.scopes| - 1] == scopes
    requires last.scopes == Finished(inner.scopes)
    ensures |last.scopes| == |scopes| + 1 && last.scopes[..|scopes|] == scopes
    ensures Top(last.scopes) == Top(inner.scopes).(elemLeft := 0)
  {
  }

  lemma {:induction false} ReadsNode(buffer: string, toks: seq<Token>, cur: Cursor, v: Json, inner: Cursor,
      last: Cursor)
    requires JsonCursor.Inside(toks, cur) && 0 <= cur.pos < |toks| && !IsLeaf(v) && toks[cur.pos].kind == KindOf(v.Obj?)
    requires JsonCursor.StepIn(toks, cur, ScopeOf(KindOf(v.Obj?))) == JsonCursor.Moved(inner)
    requires ReadsAll(buffer, toks, inner, inner.keygen, PlainAll(Held(v))) == Some(last)
    ensures JsonCursor.Inside(toks, last)
    ensures Reads(buffer, toks, cur, Plain(v)) == Then(JsonCursor.StepOut(toks, last, inner.keygen))
  {
    PlainHeld(v);
    hide Plain, PlainAll, ReadsAll, JsonCursor.StepIn, JsonCursor.StepOut, JsonCursor.Inside;
  }

  lemma {:induction false} PlainHeld(v: Json)
    requires !IsLeaf(v)
    ensures Plain(v) == Node(KindOf(v.Obj?), PlainAll(Held(v)))
  {
    hide PlainAll;
  }

  lemma {:induction false} StandsParts(buffer: string, toks: seq<Token>, at: nat, v: Json, parent: int, pos: nat)
    requires Stands(buffer, toks, at, v, parent, pos)
    ensures ValidJson(v) && Holds(buffer, pos, Text(v)) && TokensAt(toks, at, Tokens(v, at, parent, pos))
    ensures From(toks, at + Size(v), pos + |Text(v)|)
  {
  }

  lemma {:induction false} ItemsTogether(buffer: string, toks: seq<Token>, at: nat, vs: seq<Elem>, obj: bool, c: int,
      pos: nat, tail: string)
    requires ValidItems(vs, obj) && tail != "" && Holds(buffer, pos, Items(vs, obj) + tail)
    requires TokensAt(toks, at, ItemTokens(vs, obj, at, c, pos)) && From(toks, at + SizeAll(vs), pos + |Items(vs, obj)|)
    ensures ItemsStand(buffer, toks, at, vs, obj, c, pos, tail)
  {
  }

  /** A container's own token. */
  function HeadToken(v: Json, parent: int, pos: nat): (t: Token)
    requires !IsLeaf(v)
    ensures t.kind == KindOf(v.Obj?) && (ValidJson(v) ==> t.size * (if v.Obj? then 2 else 1) == |Held(v)|)
  {
    Token(KindOf(v.Obj?), pos, pos + |Text(v)|, if v.Obj? then |Held(v)| / 2 else |Held(v)|, parent)
  }

  /** A container's token, and what stands behind it. */
  lemma {:induction false} ContainerHeld(buffer: string, toks: seq<Token>, at: nat, v: Json, parent: int, pos: nat)
    requires Stands(buffer, toks, at, v, parent, pos) && !IsLeaf(v)
    ensures at < |toks| && toks[at].kind == KindOf(v.Obj?)
    ensures toks[at].size * (if v.Obj? then 2 else 1) == |Held(v)|
    ensures Boundary(toks, at, toks[at].end) == at + Size(v)
    ensures ItemsStand(buffer, toks, at + 1, Held(v), v.Obj?, at, pos + 1, Tail(v))
  {
    hide *;
    HeldSmaller(v);
    var head, items := HeadToken(v, parent, pos), ItemTokens(Held(v), v.Obj?, at + 1, at, pos + 1);
    StandsParts(buffer, toks, at, v, parent, pos);
    HeldValid(v);
    BracketsHeld(buffer, pos, v);
    ContainerBoundary(toks, at, v, parent, pos);
    HeadAndItems(v, at, parent, pos);
    TokensSplit(toks, at, [head], items);
    TokenAt(toks, at, [head]);
    TailFrom(toks, at, v, pos);
    ItemsTogether(buffer, toks, at + 1, Held(v), v.Obj?, at, pos + 1, Tail(v));
  }

  lemma {:induction false} HeadAndItems(v: Json, at: nat, parent: int, pos: nat)
    requires !IsLeaf(v)
    ensures Tokens(v, at, parent, pos)
            == [HeadToken(v, parent, pos)] + ItemTokens(Held(v), v.Obj?, at + 1, at, pos + 1)
  {
    ContainerTokensAre(v, at, parent, pos);
    hide Tokens, ItemTokens, Text;
  }

  lemma {:induction false} TailFrom(toks: seq<Token>, at: nat, v: Json, pos: nat)
    requires !IsLeaf(v) && |Text(v)| == 2 + |Items(Held(v), v.Obj?)| + |v.blank| && SizeAll(Held(v)) + 1 == Size(v)
    requires From(toks, at + Size(v), pos + |Text(v)|)
    ensures From(toks, at + 1 + SizeAll(Held(v)), pos + 1 + |Items(Held(v), v.Obj?)|) && Tail(v) != ""
  {
    hide Text, Items, Size, SizeAll;
  }

  lemma {:induction false} ContainerBoundary(toks: seq<Token>, at: nat, v: Json, parent: int, pos: nat)
    requires ValidJson(v) && !IsLeaf(v) && TokensAt(toks, at, Tokens(v, at, parent, pos))
    requires From(toks, at + Size(v), pos + |Text(v)|)
    ensures at < |toks| && Boundary(toks, at, toks[at].end) == at + Size(v)
  {
    var own, behind := Tokens(v, at, parent, pos), toks[at + Size(v)..];
    hide Tokens, Text, ValidJson, Size, Boundary;
    assert toks == toks[..at] + own + behind;
    assert behind == [] || behind[0].start >= pos + |Text(v)|;
    StepOverValue(toks[..at], v, parent, pos, behind);
  }

  lemma {:induction false} LeavesScope(toks: seq<Token>, cur: Cursor, last: Cursor, key: int, v: Json)
    requires JsonCursor.Inside(toks, cur) && JsonCursor.Inside(toks, last) && 0 <= cur.pos < |toks| && !IsLeaf(v)
    requires |last.scopes| == |cur.scopes| + 1 && last.scopes[..|cur.scopes|] == cur.scopes
    requires Top(last.scopes).key == key && Top(last.scopes).tokenPos == cur.pos && !Top(last.scopes).isKeyNext
    requires Boundary(toks, cur.pos, toks[cur.pos].end) == cur.pos + Size(v)
    ensures Got(Then(JsonCursor.StepOut(toks, last, key)), Behind(cur.pos, v, cur.scopes, |toks|), Left(cur.scopes))
  {
    hide Boundary, Size, JsonCursor.Inside;
    assert JsonCursor.FindKey(last.scopes, key) == Some(|cur.scopes|);
  }

  /** The elements left of the innermost scope, up to the break. */
  lemma {:induction false} ReadsItems(buffer: string, toks: seq<Token>, cur: Cursor, vs: seq<Elem>, obj: bool, c: int,
      pos: nat, tail: string)
    requires JsonCursor.Inside(toks, cur) && cur.scopes != [] && Top(cur.scopes).elemLeft == |vs|
    requires Top(cur.scopes).kind == ScopeOf(KindOf(obj)) && !Top(cur.scopes).isKeyNext
    requires vs != [] ==> cur.pos >= 0 && ItemsStand(buffer, toks, cur.pos, vs, obj, c, pos, tail)
    ensures var r := ReadsAll(buffer, toks, cur, Top(cur.scopes).key, PlainAll(vs));
            r.Some? && r.value.scopes == Finished(cur.scopes)
    decreases SizeAll(vs), 5
  {
    hide JsonCursor.Inside, ItemsStand, Reads, Plain;
    if vs != [] {
      SizesStep(vs);
      var now := Announced(toks, cur).value;
      ReadsFirst(buffer, toks, cur, vs, obj, c, pos, tail);
      var next := Reads(buffer, toks, now, Plain(vs[0].value)).value;
      if |vs| > 1 {
        ItemsRest(buffer, toks, cur.pos, vs, obj, c, pos, tail);
      }
      ReadsItems(buffer, toks, next, vs[1..], obj, c, pos + |ElemText(vs[0])| + 1, tail);
    }
  }

  lemma {:induction false} ItemsAt(buffer: string, toks: seq<Token>, at: nat, vs: seq<Elem>, obj: bool, c: int,
      pos: nat, tail: string)
    requires ItemsStand(buffer, toks, at, vs, obj, c, pos, tail)
    ensures TokensAt(toks, at, ItemTokens(vs, obj, at, c, pos))
  {
    hide TokensAt, ItemTokens, Items, Holds, ValidItems, From, SizeAll;
  }

  lemma {:induction false} NotLast(toks: seq<Token>, at: nat, vs: seq<Elem>, obj: bool, c: int, pos: nat)
    requires vs != [] && TokensAt(toks, at, ItemTokens(vs, obj, at, c, pos))
    ensures |vs| > 1 ==> at + Size(vs[0].value) < |toks|
  {
    SizesStep(vs);
    if |vs| > 1 {
      SizesStep(vs[1..]);
    }
    hide Size, SizeAll, ItemTokens;
  }

  /** One element: announced if it is a key, and then read. */
  lemma {:induction false} ReadsFirst(buffer: string, toks: seq<Token>, cur: Cursor, vs: seq<Elem>, obj: bool, c: int,
      pos: nat, tail: string)
    requires JsonCursor.Inside(toks, cur) && cur.scopes != [] && vs != [] && Top(cur.scopes).elemLeft == |vs|
    requires Top(cur.scopes).kind == ScopeOf(KindOf(obj)) && !Top(cur.scopes).isKeyNext
    requires cur.pos >= 0 && ItemsStand(buffer, toks, cur.pos, vs, obj, c, pos, tail)
    ensures var now := Announced(toks, cur);
            && now.Some?
            && var r := Reads(buffer, toks, now.value, Plain(vs[0].value));
            && r.Some? && r.value.scopes == JsonCursor.Consumed(cur.scopes)
            && (|vs| > 1 ==> r.value.pos == cur.pos + Size(vs[0].value))
    decreases SizeAll(vs), 4
  {
    hide *;
    var v, parent, start := vs[0].value, ParentOf(vs, obj, cur.pos, c), pos + |vs[0].before|;
    ItemsFirst(buffer, toks, cur.pos, vs, obj, c, pos, tail);
    ItemsAt(buffer, toks, cur.pos, vs, obj, c, pos, tail);
    NotLast(toks, cur.pos, vs, obj, c, pos);
    KeysAre(buffer, toks, cur.pos, v, parent, start, obj && |vs| % 2 == 0);
    var now := AnnouncedIs(toks, cur, v, |vs|, obj);
    SizesStep(vs);
    ReadsOne(buffer, toks, now, v, parent, start, obj && |vs| % 2 == 0);
    OneGot(buffer, toks, cur, now, v, |vs|);
  }

  lemma KeysAre(buffer: string, toks: seq<Token>, at: nat, v: Json, parent: int, pos: nat, key: bool)
    requires FirstStands(buffer, toks, at, v, parent, pos, key)
    ensures key ==> v.Str?
  {
  }

  /** The state in which the element is read. */
  lemma AnnouncedIs(toks: seq<Token>, cur: Cursor, v: Json, n: nat, obj: bool) returns (now: Cursor)
    requires JsonCursor.Inside(toks, cur) && cur.scopes != [] && n > 0 && Top(cur.scopes).elemLeft == n
    requires Top(cur.scopes).kind == ScopeOf(KindOf(obj)) && !Top(cur.scopes).isKeyNext
    requires obj && n % 2 == 0 ==> v.Str?
    ensures Announced(toks, cur) == Some(now) && JsonCursor.Inside(toks, now) && now.pos == cur.pos
    ensures Expects(now.scopes, v) && now.scopes != [] && Left(now.scopes) == JsonCursor.Consumed(cur.scopes)
  {
    hide JsonCursor.Inside;
    now := Announced(toks, cur).value;
  }

  /** A key or a value. */
  lemma {:induction false} ReadsOne(buffer: string, toks: seq<Token>, cur: Cursor, v: Json, parent: int, pos: nat,
      key: bool)
    requires JsonCursor.Inside(toks, cur) && cur.pos >= 0 && FirstStands(buffer, toks, cur.pos, v, parent, pos, key)
    requires Expects(cur.scopes, v)
    ensures Got(Reads(buffer, toks, cur, Plain(v)), Behind(cur.pos, v, cur.scopes, |toks|), Left(cur.scopes))
    decreases Size(v), 3
  {
    if key {
      LeafToken(buffer, toks, cur.pos, v, parent, pos, true);
      hide Reads, Plain, Tokens, Text, TokensAt, From, Expects, Left, Behind, Got, Holds, JsonCursor.Inside, ValidJson;
      ReadsLeaf(buffer, toks, cur, v, pos);
    } else {
      hide Reads, Plain, Tokens, Text, TokensAt, From, Expects, Left, Behind, Got, Holds, JsonCursor.Inside, ValidJson;
      ReadsValue(buffer, toks, cur, v, parent, pos);
    }
  }

  lemma {:induction false} OneGot(buffer: string, toks: seq<Token>, cur: Cursor, now: Cursor, v: Json, n: nat)
    requires JsonCursor.Inside(toks, cur) && cur.scopes != [] && cur.pos >= 0 && JsonCursor.Inside(toks, now)
    requires now.pos == cur.pos && now.scopes != [] && Left(now.scopes) == JsonCursor.Consumed(cur.scopes)
    requires n > 1 ==> cur.pos + Size(v) < |toks|
    requires Got(Reads(buffer, toks, now, Plain(v)), Behind(now.pos, v, now.scopes, |toks|), Left(now.scopes))
    ensures var r := Reads(buffer, toks, now, Plain(v));
            && r.Some? && r.value.scopes == JsonCursor.Consumed(cur.scopes)
            && (n > 1 ==> r.value.pos == cur.pos + Size(v))
  {
    hide Reads, Plain, Left, JsonCursor.Inside, JsonCursor.Consumed;
  }

  // ----- roots -----

  /** Tokens that are all of a value's, with its text in the buffer. */
  lemma {:induction false} StandsAlone(buffer: string, v: Json, pos: nat)
    requires ValidJson(v) && Holds(buffer, pos, Text(v))
    ensures Stands(buffer, Tokens(v, 0, -1, pos), 0, v, -1, pos)
  {
    hide Tokens, Text, ValidJson, Holds;
    var toks := Tokens(v, 0, -1, pos);
    assert toks[0..0 + |toks|] == toks;
  }

  lemma {:induction false} ReadsAlone(buffer: string, v: Json, pos: nat, keygen: int)
    requires ValidJson(v) && Holds(buffer, pos, Text(v))
    ensures var toks, cur := Tokens(v, 0, -1, pos), JsonCursor.Cursor(0, [], keygen);
            && Got(Reads(buffer, toks, cur, Plain(v)), if IsLeaf(v) then 0 else JsonCursor.NPOS, [])
            && forall tree :: Reads(buffer, toks, cur, tree).Some? ==> tree == Plain(v)
  {
    var toks, cur := Tokens(v, 0, -1, pos), JsonCursor.Cursor(0, [], keygen);
    hide Tokens, Text, ValidJson, Holds, Reads, Plain;
    StandsAlone(buffer, v, pos);
    ReadsValue(buffer, toks, cur, v, -1, pos);
    forall tree | Reads(buffer, toks, cur, tree).Some?
      ensures tree == Plain(v)
    {
      OneTree(buffer, toks, cur, tree, Plain(v));
    }
  }

  /** From the text of an array, an object or a string the caller gets that value and no
      other, with no scope left open.  A container is left behind; a string is not. */
  lemma {:induction false} ReadsRoot(before: string, v: Json, keygen: int)
    requires Blank(before) && ValidJson(v) && !v.Prim?
    ensures var text, cur := before + Text(v), JsonCursor.Cursor(0, [], keygen);
            var toks := Whole(text).1.toks;
            && Got(Reads(text, toks, cur, Plain(v)), if IsLeaf(v) then 0 else JsonCursor.NPOS, [])
            && forall tree :: Reads(text, toks, cur, tree).Some? ==> tree == Plain(v)
  {
    hide Tokens, Text, ValidJson, Reads, Plain, Whole, Blank, IsLeaf;
    var text := before + Text(v);
    assert Holds(text, |before|, Text(v)) by {
      assert text[|before|..|before| + |Text(v)|] == Text(v);
    }
    WholeValue(before, v);
    hide Holds;
    ReadsAlone(text, v, |before|, keygen);
  }

  /** The same for a primitive and the delimiter that the reader has taken with it. */
  lemma {:induction false} ReadsRootWord(before: string, s: string, d: char, keygen: int)
    requires Blank(before) && Word(s) && IsDelimiter(d) && d !in "]}"
    ensures var text, cur := before + (s + [d]), JsonCursor.Cursor(0, [], keygen);
            var toks := Whole(text).1.toks;
            && Got(Reads(text, toks, cur, Leaf(Primitive, s)), 0, [])
            && forall tree :: Reads(text, toks, cur, tree).Some? ==> tree == Leaf(Primitive, s)
  {
    hide Tokens, Reads, Whole, Blank, Word, IsDelimiter;
    var text := before + (s + [d]);
    assert Holds(text, |before|, Text(Prim(s))) by {
      assert text[|before|..|before| + |s|] == s;
    }
    WholeWord(before, s, d);
    hide Holds;
    ReadsAlone(text, Prim(s), |before|, keygen);
  }
}
