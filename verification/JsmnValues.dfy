/** What the tokenizer makes of a JSON value: exactly one token for each string,
    primitive, array and object in it, in the order of their beginnings, with the
    extent, the number of children and the parent each of them has. */
module JsmnValues {
  import opened Wrappers
  import opened Jsmn
  import opened JsmnTree
  import opened JsmnText

  // ----- values and their text -----

  /** The members of an object are its keys and values by turns; blank is the white
      space before the closing bracket. */
  datatype Json =
    | Str(body: string) | Prim(word: string)
    | Arr(elems: seq<Elem>, blank: string) | Obj(members: seq<Elem>, blank: string)

  /** A value with the white space around it. */
  datatype Elem = Elem(before: string, value: Json, after: string)

  predicate Blank(s: string) {
    forall k :: 0 <= k < |s| ==> s[k] in "\t\r\n "
  }

  /** Digits of a \u or \x escape. */
  predicate Hexes(s: string, n: nat) {
    n <= |s| && forall k :: 0 <= k < n ==> IsHex(s[k])
  }

  /** What may stand between two quotes: any characters, with escapes complete. */
  predicate Body(s: string)
    decreases |s|
  {
    s == "" ||
    (if s[0] == '\"' || s[0] == '\0' then false
     else if s[0] != '\\' then Body(s[1..])
     else
       && |s| >= 2
       && if IsEscape(s[1]) then Body(s[2..])
          else if s[1] == 'u' then Hexes(s[2..], 4) && Body(s[6..])
          else s[1] == 'x' && Hexes(s[2..], 2) && Body(s[4..]))
  }

  /** A number, true, false or null; the tokenizer looks at the first character and
      for the end. */
  predicate Word(s: string) {
    && s != "" && StartsPrimitive(s[0])
    && forall k :: 0 <= k < |s| ==> ' ' <= s[k] < 127 as char && !IsDelimiter(s[k])
  }

  predicate ValidJson(v: Json)
    decreases v, 1
  {
    match v
    case Str(s) => Body(s)
    case Prim(s) => Word(s)
    case Arr(elems, blank) => Blank(blank) && forall i :: 0 <= i < |elems| ==> ValidElem(elems[i])
    case Obj(members, blank) =>
      && |members| % 2 == 0 && Blank(blank)
      && (forall i :: 0 <= i < |members| ==> ValidElem(members[i]))
      && (forall i :: 0 <= i < |members| && i % 2 == 0 ==> members[i].value.Str?)
  }

  predicate ValidElem(e: Elem)
    decreases e, 0
  {
    Blank(e.before) && ValidJson(e.value) && Blank(e.after)
  }

  function Text(v: Json): (s: string)
    ensures s != "" || v.Prim?
    decreases v, 1
  {
    match v
    case Str(s) => "\"" + s + "\""
    case Prim(s) => s
    case Arr(elems, blank) => "[" + Items(elems, false) + blank + "]"
    case Obj(members, blank) => "{" + Items(members, true) + blank + "}"
  }

  function ElemText(e: Elem): string
    decreases e, 0
  {
    e.before + Text(e.value) + e.after
  }

  /** Elements between commas; in an object a colon follows each key. */
  function Items(vs: seq<Elem>, obj: bool): string
    decreases vs, 0
  {
    if vs == [] then ""
    else if |vs| == 1 then ElemText(vs[0])
    else ElemText(vs[0]) + [Separator(|vs|, obj)] + Items(vs[1..], obj)
  }

  function Separator(n: nat, obj: bool): char {
    if obj && n % 2 == 0 then ':' else ','
  }

  // ----- the tokens of a value -----

  function Size(v: Json): (n: nat)
    ensures n > 0
    decreases v, 1
  {
    match v
    case Arr(elems, _) => 1 + SizeAll(elems)
    case Obj(members, _) => 1 + SizeAll(members)
    case _ => 1
  }

  function SizeAll(vs: seq<Elem>): nat
    decreases vs, 0
  {
    if vs == [] then 0 else Size(vs[0].value) + SizeAll(vs[1..])
  }

  /** The tokens of v when its text begins at pos and its first token has index at. */
  function Tokens(v: Json, at: nat, parent: int, pos: nat): (toks: seq<Token>)
    ensures |toks| == Size(v)
    decreases v, 1
  {
    var end := pos + |Text(v)|;
    match v
    case Str(s) => [Token(String, pos + 1, end - 1, 0, parent)]
    case Prim(s) => [Token(Primitive, pos, end, 0, parent)]
    case Arr(elems, _) => [Token(Array, pos, end, |elems|, parent)] + ItemTokens(elems, false, at + 1, at, pos + 1)
    case Obj(members, _) =>
      [Token(Object, pos, end, |members| / 2, parent)] + ItemTokens(members, true, at + 1, at, pos + 1)
  }

  /** The tokens of what is left of a container c: a value of an object is a child of
      its key, a key has its value for a child. */
  function ItemTokens(vs: seq<Elem>, obj: bool, at: nat, c: int, pos: nat): (toks: seq<Token>)
    ensures |toks| == SizeAll(vs)
    decreases vs, 0
  {
    if vs == [] then [] else
    var own := Tokens(vs[0].value, at, if obj && |vs| % 2 == 1 then at - 1 else c, pos + |vs[0].before|);
    (if obj && |vs| % 2 == 0 then own[0 := own[0].(size := own[0].size + 1)] else own)
    + ItemTokens(vs[1..], obj, at + |own|, c, pos + |ElemText(vs[0])| + 1)
  }

  // ----- lexical scans on the text of a value -----

  predicate Holds(js: string, pos: nat, s: string) {
    pos + |s| <= |js| && js[pos..pos + |s|] == s
  }

  lemma HoldsSplit(js: string, pos: nat, a: string, b: string)
    requires Holds(js, pos, a + b)
    ensures Holds(js, pos, a) && Holds(js, pos + |a|, b) && pos + |a| + |b| <= |js|
  {
    var c := js[pos..pos + |a + b|];
    assert a == (a + b)[..|a|] && b == (a + b)[|a|..];
    assert js[pos..pos + |a|] == c[..|a|] && js[pos + |a|..pos + |a| + |b|] == c[|a|..];
  }

  lemma HoldsAt(js: string, pos: nat, s: string, k: nat)
    requires Holds(js, pos, s) && k < |s|
    ensures pos + k < |js| && js[pos + k] == s[k]
  {
    assert js[pos..pos + |s|][k] == s[k];
  }

  lemma HoldsTail(js: string, pos: nat, s: string, k: nat)
    requires Holds(js, pos, s) && k <= |s|
    ensures Holds(js, pos + k, s[k..])
  {
    assert s == s[..k] + s[k..];
    HoldsSplit(js, pos, s[..k], s[k..]);
  }

  lemma {:induction false} HexesEnd(js: string, p: nat, s: string, n: nat)
    requires Hexes(s, n) && Holds(js, p, s)
    ensures HexEnd(js, p, n) == Some(p + n)
    decreases n
  {
    if n > 0 {
      HoldsAt(js, p, s, 0);
      HoldsTail(js, p, s, 1);
      HexesEnd(js, p + 1, s[1..], n - 1);
    }
  }

  /** How many characters an escape has. */
  function EscapeWidth(c: char): nat {
    if IsEscape(c) then 2 else if c == 'u' then 6 else 4
  }

  lemma EscapeScan(js: string, p: nat, s: string)
    requires Body(s) && Holds(js, p, s) && s != "" && s[0] == '\\'
    ensures |s| >= 2 && EscapeWidth(s[1]) <= |s| && Body(s[EscapeWidth(s[1])..])
    ensures StringEnd(js, p) == StringEnd(js, p + EscapeWidth(s[1]))
  {
    HoldsAt(js, p, s, 0);
    HoldsAt(js, p, s, 1);
    if !IsEscape(s[1]) {
      HoldsTail(js, p, s, 2);
      hide Holds;
      HexesEnd(js, p + 2, s[2..], EscapeWidth(s[1]) - 2);
    }
  }

  /** The scan of a string comes through any complete part of its body. */
  lemma {:induction false} BodyScan(js: string, p: nat, s: string)
    requires Body(s) && Holds(js, p, s)
    ensures StringEnd(js, p) == StringEnd(js, p + |s|)
    decreases |s|
  {
    if s != "" {
      var k := if s[0] == '\\' && |s| >= 2 then EscapeWidth(s[1]) else 1;
      if s[0] == '\\' {
        EscapeScan(js, p, s);
      } else {
        HoldsAt(js, p, s, 0);
        assert StringEnd(js, p) == StringEnd(js, p + 1);
        assert Body(s[1..]);
      }
      HoldsTail(js, p, s, k);
      hide Body, StringEnd, Holds, EscapeWidth;
      BodyScan(js, p + k, s[k..]);
    }
  }

  lemma BodyEnd(js: string, p: nat, s: string)
    requires Body(s) && Holds(js, p, s) && p + |s| < |js| && js[p + |s|] == '\"'
    ensures StringEnd(js, p) == Found(p + |s|)
  {
    BodyScan(js, p, s);
    hide Body, Holds;
  }

  lemma {:induction false} WordEnd(js: string, p: nat, s: string)
    requires forall k :: 0 <= k < |s| ==> ' ' <= s[k] < 127 as char && !IsDelimiter(s[k])
    requires Holds(js, p, s) && p + |s| < |js| && IsDelimiter(js[p + |s|])
    ensures PrimitiveEnd(js, p) == Found(p + |s|)
    decreases |s|
  {
    if s != "" {
      HoldsAt(js, p, s, 0);
      HoldsTail(js, p, s, 1);
      WordEnd(js, p + 1, s[1..]);
    }
  }

  // ----- runs -----

  /** The run from st comes through after, and after is well shaped. */
  ghost predicate Leads(js: string, cap: nat, st: State, after: State) {
    Wf(st) && Inv(after) && Run(js, cap, st) == Run(js, cap, after)
  }

  lemma LeadsOn(js: string, cap: nat, a: State, b: State, c: State)
    requires Leads(js, cap, a, b) && Leads(js, cap, b, c)
    ensures Leads(js, cap, a, c)
  {
  }

  lemma LeadsStep(js: string, cap: nat, st: State, after: State)
    requires Inv(st) && !AtEnd(js, st.pos) && Step(js, cap, st) == Next(after)
    ensures Leads(js, cap, st, after)
  {
    StepKeeps(js, cap, st);
    RunOnce(js, cap, st, after);
  }

  /** The state once v is read. */
  function Done(st: State, v: Json): State
    requires Wf(st)
  {
    State(st.pos + |Text(v)|, st.super, Count(st.toks, st.super) + Tokens(v, |st.toks|, st.super, st.pos))
  }

  /** What the strict mode lets follow a superior token. */
  predicate MayFollow(st: State, v: Json)
    requires Wf(st)
  {
    st.super == -1 || v.Str?
    || (st.toks[st.super].kind != Object
        && (v.Prim? ==> st.toks[st.super].kind != String || st.toks[st.super].size == 0))
  }

  /** A delimiter ends a primitive. */
  predicate Ended(js: string, pos: nat, v: Json) {
    Holds(js, pos, Text(v)) && (v.Prim? ==> pos + |Text(v)| < |js| && IsDelimiter(js[pos + |Text(v)|]))
  }

  lemma Quoted(js: string, pos: nat, q: string, s: string)
    requires |q| == 1 && Holds(js, pos, q + s + q)
    ensures Holds(js, pos + 1, s) && pos + 2 + |s| <= |js| && js[pos] == js[pos + 1 + |s|] == q[0]
  {
    HoldsSplit(js, pos, q + s, q);
    HoldsSplit(js, pos, q, s);
    HoldsAt(js, pos, q, 0);
    HoldsAt(js, pos + 1 + |s|, q, 0);
  }

  lemma StringHeld(js: string, pos: nat, s: string)
    requires Body(s) && Holds(js, pos, "\"" + s + "\"")
    ensures pos + 2 + |s| <= |js| && js[pos] == '\"' && StringEnd(js, pos + 1) == Found(pos + 1 + |s|)
  {
    hide Holds, Body, StringEnd;
    Quoted(js, pos, "\"", s);
    BodyEnd(js, pos + 1, s);
  }

  lemma RunString(js: string, cap: nat, st: State, s: string)
    requires Inv(st) && Body(s) && Holds(js, st.pos, Text(Str(s))) && |st.toks| < cap
    ensures Leads(js, cap, st, Done(st, Str(s)))
  {
    StringHeld(js, st.pos, s);
    hide Inv, Holds, StringEnd, Run, Body;
    InvWf(st);
    StringSteps(js, cap, st, s);
    hide Step, Done;
    LeadsStep(js, cap, st, Done(st, Str(s)));
  }

  lemma {:induction false} StringSteps(js: string, cap: nat, st: State, s: string)
    requires Wf(st) && st.pos < |js| && js[st.pos] == '\"' && StringEnd(js, st.pos + 1) == Found(st.pos + 1 + |s|)
    requires |st.toks| < cap
    ensures Step(js, cap, st) == Next(Done(st, Str(s)))
  {
    hide StringEnd, Step, Tokens, Text, Links, Count;
    QuoteStep(js, cap, st);
    LeafTokens(s, |st.toks|, st.super, st.pos);
  }

  lemma QuoteStep(js: string, cap: nat, st: State)
    requires Wf(st) && st.pos < |js| && js[st.pos] == '\"'
    ensures Step(js, cap, st) == StringStep(js, cap, st)
  {
    hide StringStep, PrimitiveStep, OpenStep, CloseStep, CommaStep;
  }

  lemma LeafTokens(s: string, at: nat, parent: int, pos: nat)
    ensures |Text(Str(s))| == |s| + 2
    ensures Tokens(Str(s), at, parent, pos) == [Token(String, pos + 1, pos + 1 + |s|, 0, parent)]
  {
  }

  lemma InvWf(st: State)
    requires Inv(st)
    ensures Wf(st)
  {
  }

  lemma RunWord(js: string, cap: nat, st: State, s: string)
    requires Inv(st) && Word(s) && Ended(js, st.pos, Prim(s)) && |st.toks| < cap && Wf(st) && MayFollow(st, Prim(s))
    ensures Leads(js, cap, st, Done(st, Prim(s)))
  {
    hide Inv;
    HoldsAt(js, st.pos, s, 0);
    WordEnd(js, st.pos, s);
    hide PrimitiveEnd, Run, StringEnd;
    assert js[st.pos] != '\0' && StartsPrimitive(js[st.pos]);
    assert Step(js, cap, st) == PrimitiveStep(js, cap, st);
    assert Step(js, cap, st) == Next(Done(st, Prim(s)));
    hide Step;
    LeadsStep(js, cap, st, Done(st, Prim(s)));
  }

  // ----- white space and elements -----

  /** The state n characters further on. */
  function Past(st: State, n: nat): State {
    st.(pos := st.pos + n)
  }

  lemma {:induction false} RunBlank(js: string, cap: nat, st: State, s: string)
    requires Inv(st) && Blank(s) && Holds(js, st.pos, s)
    ensures Leads(js, cap, st, Past(st, |s|))
    decreases |s|
  {
    hide Inv, Run;
    InvWf(st);
    if s != "" {
      HoldsAt(js, st.pos, s, 0);
      HoldsTail(js, st.pos, s, 1);
      BlankStep(js, cap, st);
      hide Step;
      LeadsStep(js, cap, st, Past(st, 1));
      RunBlank(js, cap, Past(st, 1), s[1..]);
    }
  }

  lemma BlankStep(js: string, cap: nat, st: State)
    requires Wf(st) && st.pos < |js| && js[st.pos] in "\t\r\n "
    ensures Step(js, cap, st) == Next(Past(st, 1))
  {
    hide StringStep, PrimitiveStep, OpenStep, CloseStep, CommaStep;
  }

  /** The state once an element and the white space around it are read. */
  function Written(st: State, e: Elem): (r: State)
    requires Wf(st)
    ensures r.pos == st.pos + |ElemText(e)| && r.super == st.super
    ensures r.toks == Count(st.toks, st.super) + Tokens(e.value, |st.toks|, st.super, st.pos + |e.before|)
  {
    Past(Done(Past(st, |e.before|), e.value), |e.after|)
  }

  lemma {:induction false} RunElem(js: string, cap: nat, st: State, e: Elem, next: nat)
    requires Inv(st) && Wf(st) && ValidElem(e) && |st.toks| + Size(e.value) <= cap && MayFollow(st, e.value)
    requires Holds(js, st.pos, ElemText(e)) && next == st.pos + |ElemText(e)| < |js|
    requires e.value.Prim? ==> IsDelimiter(js[next])
    ensures Leads(js, cap, st, Written(st, e))
    decreases e, 2
  {
    hide *;
    ElemHeld(js, st.pos, e);
    ElemParts(e);
    var st1, st2 := ElemStations(st, e);
    RunBlank(js, cap, st, e.before);
    InvOf(js, cap, st, st1);
    RunValue(js, cap, st1, e.value);
    ThenBlank(js, cap, st, st1, st2, e.after);
  }

  /** White space after what was read in two goes. */
  lemma ThenBlank(js: string, cap: nat, st: State, st1: State, st2: State, after: string)
    requires Leads(js, cap, st, st1) && Leads(js, cap, st1, st2) && Blank(after) && Holds(js, st2.pos, after)
    ensures Leads(js, cap, st, Past(st2, |after|))
  {
    hide *;
    InvOf(js, cap, st1, st2);
    RunBlank(js, cap, st2, after);
    LeadsOn(js, cap, st, st1, st2);
    LeadsOn(js, cap, st, st2, Past(st2, |after|));
  }

  lemma ElemParts(e: Elem)
    requires ValidElem(e)
    ensures Blank(e.before) && ValidJson(e.value) && Blank(e.after)
  {
  }

  /** The states before and after the value of an element. */
  lemma ElemStations(st: State, e: Elem) returns (st1: State, st2: State)
    requires Wf(st)
    ensures st1 == Past(st, |e.before|) && st1.pos == st.pos + |e.before| && |st1.toks| == |st.toks| && Wf(st1)
    ensures MayFollow(st, e.value) ==> MayFollow(st1, e.value)
    ensures st2 == Done(st1, e.value) && st2.pos == st1.pos + |Text(e.value)| && Written(st, e) == Past(st2, |e.after|)
  {
    hide Text, Tokens, Count, Links;
    st1 := Past(st, |e.before|);
    st2 := Done(st1, e.value);
  }

  lemma {:induction false} ElemHeld(js: string, pos: nat, e: Elem)
    requires ValidElem(e) && Holds(js, pos, ElemText(e)) && pos + |ElemText(e)| < |js|
    requires e.value.Prim? ==> IsDelimiter(js[pos + |ElemText(e)|])
    ensures Holds(js, pos, e.before) && Ended(js, pos + |e.before|, e.value)
    ensures Holds(js, pos + |e.before| + |Text(e.value)|, e.after)
  {
    hide Text, ValidJson;
    HoldsSplit(js, pos, e.before + Text(e.value), e.after);
    HoldsSplit(js, pos, e.before, Text(e.value));
    if e.after != "" {
      HoldsAt(js, pos + |e.before| + |Text(e.value)|, e.after, 0);
    }
  }

  lemma InvOf(js: string, cap: nat, st: State, after: State)
    requires Leads(js, cap, st, after)
    ensures Inv(after)
  {
    hide Inv, Run;
  }

  // ----- containers -----

  /** The closing bracket of a container. */
  function Close(obj: bool): char {
    if obj then '}' else ']'
  }

  function KindOf(obj: bool): Kind {
    if obj then Object else Array
  }

  /** In the container c, the innermost open one, with the elements vs still to come:
      after a key the key is the superior token, else the container. */
  predicate InItems(st: State, vs: seq<Elem>, obj: bool, c: nat) {
    && Wf(st) && c < |st.toks| && LastOpen(st.toks) == c && st.toks[c].kind == KindOf(obj)
    && if obj && |vs| % 2 == 1 then
         var key := |st.toks| - 1;
         st.super == key > c && st.toks[key].kind == String && st.toks[key].size == 0 && st.toks[key].parent == c
       else st.super == c
  }

  predicate ValidItems(vs: seq<Elem>, obj: bool) {
    && (forall i :: 0 <= i < |vs| ==> ValidElem(vs[i]))
    && (obj ==> forall i :: 0 <= i < |vs| && (|vs| - i) % 2 == 0 ==> vs[i].value.Str?)
  }

  function AddSize(toks: seq<Token>, i: nat, n: nat): (r: seq<Token>)
    requires i < |toks|
    ensures |r| == |toks|
  {
    toks[i := toks[i].(size := toks[i].size + n)]
  }

  /** The tokens there were, with the children still to come counted. */
  function Counted(toks: seq<Token>, vs: seq<Elem>, obj: bool, c: nat): (r: seq<Token>)
    requires c < |toks|
    ensures |r| == |toks|
  {
    if !obj then AddSize(toks, c, |vs|)
    else if |vs| % 2 == 0 then AddSize(toks, c, |vs| / 2)
    else AddSize(AddSize(toks, |toks| - 1, 1), c, |vs| / 2)
  }

  /** Everything of the container but what closes it has been read. */
  ghost predicate ItemsRead(js: string, cap: nat, st: State, vs: seq<Elem>, obj: bool, c: nat, after: State)
    requires c < |st.toks|
  {
    && Leads(js, cap, st, after)
    && after.pos == st.pos + |Items(vs, obj)|
    && after.toks == Counted(st.toks, vs, obj, c) + ItemTokens(vs, obj, |st.toks|, c, st.pos)
  }

  lemma {:induction false} TokensClosed(v: Json, at: nat, parent: int, pos: nat)
    ensures forall k :: 0 <= k < Size(v) ==> !IsOpen(Tokens(v, at, parent, pos)[k])
    decreases v, 1
  {
    match v
    case Arr(elems, _) => ItemTokensClosed(elems, false, at + 1, at, pos + 1);
    case Obj(members, _) => ItemTokensClosed(members, true, at + 1, at, pos + 1);
    case _ =>
  }

  lemma {:induction false} ItemTokensClosed(vs: seq<Elem>, obj: bool, at: nat, c: int, pos: nat)
    ensures forall k :: 0 <= k < SizeAll(vs) ==> !IsOpen(ItemTokens(vs, obj, at, c, pos)[k])
    decreases vs, 0
  {
    hide Tokens, Text;
    if vs != [] {
      var parent := if obj && |vs| % 2 == 1 then at - 1 else c;
      TokensClosed(vs[0].value, at, parent, pos + |vs[0].before|);
      ItemTokensClosed(vs[1..], obj, at + Size(vs[0].value), c, pos + |ElemText(vs[0])| + 1);
    }
  }

  /** Closed tokens behind do not change which container is innermost. */
  lemma LastOpenKept(before: seq<Token>, after: seq<Token>)
    requires |before| <= |after| && LastOpen(before) >= 0
    requires forall k :: 0 <= k < |before| ==> IsOpen(after[k]) == IsOpen(before[k])
    requires forall k :: |before| <= k < |after| ==> !IsOpen(after[k])
    ensures LastOpen(after) == LastOpen(before)
  {
    var c := LastOpen(before);
    assert IsOpen(after[c]);
  }

  lemma ItemsStep(vs: seq<Elem>, obj: bool)
    requires vs != []
    ensures |vs| == 1 ==> Items(vs, obj) == ElemText(vs[0])
    ensures |vs| > 1 ==> Items(vs, obj) == ElemText(vs[0]) + [Separator(|vs|, obj)] + Items(vs[1..], obj)
  {
    hide ElemText;
  }

  lemma SeparatedHeld(js: string, pos: nat, first: string, sep: char, others: string, tail: string)
    requires Holds(js, pos, first + [sep] + others + tail)
    ensures Holds(js, pos, first) && pos + |first| < |js| && js[pos + |first|] == sep
    ensures Holds(js, pos + |first| + 1, others + tail)
  {
    assert first + [sep] + others + tail == first + ([sep] + (others + tail));
    HoldsSplit(js, pos, first, [sep] + (others + tail));
    HoldsSplit(js, pos + |first|, [sep], others + tail);
    HoldsAt(js, pos + |first|, [sep], 0);
  }

  lemma OnlyHeld(js: string, pos: nat, first: string, tail: string)
    requires Holds(js, pos, first + tail) && tail != ""
    ensures Holds(js, pos, first) && pos + |first| < |js| && js[pos + |first|] == tail[0]
  {
    HoldsSplit(js, pos, first, tail);
    HoldsAt(js, pos + |first|, tail, 0);
  }

  /** The text of the first element, and what follows it: the tail behind the last
      element, or a separator and the other elements. */
  lemma FirstHeld(js: string, pos: nat, vs: seq<Elem>, obj: bool, tail: string)
    requires vs != [] && Holds(js, pos, Items(vs, obj) + tail) && tail != ""
    ensures var next := pos + |ElemText(vs[0])|;
            && Holds(js, pos, ElemText(vs[0])) && next < |js|
            && (|vs| == 1 ==> |Items(vs, obj)| == |ElemText(vs[0])| && js[next] == tail[0])
            && (|vs| > 1 ==>
                  && |Items(vs, obj)| == |ElemText(vs[0])| + 1 + |Items(vs[1..], obj)|
                  && js[next] == Separator(|vs|, obj)
                  && Holds(js, next + 1, Items(vs[1..], obj) + tail))
  {
    hide ElemText, Items, Holds, Separator;
    ItemsStep(vs, obj);
    if |vs| == 1 {
      OnlyHeld(js, pos, ElemText(vs[0]), tail);
    } else {
      SeparatedHeld(js, pos, ElemText(vs[0]), Separator(|vs|, obj), Items(vs[1..], obj), tail);
    }
  }

  /** The state behind a separator. */
  function Separated(st: State, vs: seq<Elem>, obj: bool, c: nat): State
    requires vs != [] && Wf(st)
  {
    var done := Written(st, vs[0]);
    State(done.pos + 1, if obj && |vs| % 2 == 0 then |done.toks| - 1 else c, done.toks)
  }

  lemma Separate(js: string, cap: nat, st: State, vs: seq<Elem>, obj: bool, c: nat)
    requires |vs| > 1 && InItems(st, vs, obj, c) && ValidItems(vs, obj) && Inv(Written(st, vs[0]))
    requires var done := Written(st, vs[0]);
             done.pos < |js| && js[done.pos] == Separator(|vs|, obj)
    ensures Leads(js, cap, Written(st, vs[0]), Separated(st, vs, obj, c))
  {
    var done := Written(st, vs[0]);
    InvWf(done);
    hide Inv, Tokens, Text, ValidElem, Written;
    SeparatorStep(js, cap, done);
    hide Step;
    LeadsStep(js, cap, done, Separated(st, vs, obj, c));
  }

  lemma SeparatorStep(js: string, cap: nat, st: State)
    requires Wf(st) && st.pos < |js|
    ensures js[st.pos] == ':' ==> Step(js, cap, st) == Next(st.(pos := st.pos + 1, super := |st.toks| - 1))
    ensures js[st.pos] == ',' ==> Step(js, cap, st) == CommaStep(st)
  {
    hide StringStep, PrimitiveStep, OpenStep, CloseStep, CommaStep;
  }

  /** The first element counted and its tokens written, then the others. */
  lemma CountedFirst(toks: seq<Token>, own: seq<Token>, vs: seq<Elem>, obj: bool, c: nat, super: nat)
    requires vs != [] && c < |toks| && own != [] && (obj && |vs| % 2 == 0 ==> |own| == 1)
    requires if obj && |vs| % 2 == 1 then super == |toks| - 1 > c else super == c
    ensures Counted(Count(toks, super) + own, vs[1..], obj, c)
            == Counted(toks, vs, obj, c)
               + if obj && |vs| % 2 == 0 then own[0 := own[0].(size := own[0].size + 1)] else own
  {
    var n := |vs|;
    if !obj {
      assert AddSize(Count(toks, c) + own, c, n - 1) == AddSize(toks, c, n) + own;
    } else if n % 2 == 0 {
      assert (n - 1) % 2 == 1 && (n - 1) / 2 + 1 == n / 2;
      assert AddSize(AddSize(Count(toks, c) + own, |toks|, 1), c, (n - 1) / 2)
          == AddSize(toks, c, n / 2) + own[0 := own[0].(size := own[0].size + 1)];
    } else {
      assert (n - 1) % 2 == 0 && (n - 1) / 2 == n / 2;
      assert AddSize(Count(toks, super) + own, c, n / 2) == AddSize(AddSize(toks, |toks| - 1, 1), c, n / 2) + own;
    }
  }

  /** The tokens of the first element and then of the others are those of all. */
  lemma {:induction false} ItemsCombine(toks: seq<Token>, vs: seq<Elem>, obj: bool, c: nat, pos: nat, super: nat)
    requires vs != [] && c < |toks| && (vs[0].value.Str? || !obj || |vs| % 2 == 1)
    requires if obj && |vs| % 2 == 1 then super == |toks| - 1 > c else super == c
    ensures Counted(Count(toks, super) + Tokens(vs[0].value, |toks|, super, pos + |vs[0].before|), vs[1..], obj, c)
            + ItemTokens(vs[1..], obj, |toks| + Size(vs[0].value), c, pos + |ElemText(vs[0])| + 1)
            == Counted(toks, vs, obj, c) + ItemTokens(vs, obj, |toks|, c, pos)
  {
    hide Tokens, ItemTokens, ElemText, Counted, Count, Size;
    var own := Tokens(vs[0].value, |toks|, super, pos + |vs[0].before|);
    ItemTokensStep(vs, obj, |toks|, c, pos);
    KeyIsOne(vs[0].value);
    CountedFirst(toks, own, vs, obj, c, super);
    var mine := if obj && |vs| % 2 == 0 then own[0 := own[0].(size := own[0].size + 1)] else own;
    AssocTokens(Counted(toks, vs, obj, c), mine,
                ItemTokens(vs[1..], obj, |toks| + Size(vs[0].value), c, pos + |ElemText(vs[0])| + 1));
  }

  lemma KeyIsOne(v: Json)
    ensures v.Str? ==> Size(v) == 1
  {
  }

  lemma AssocTokens(a: seq<Token>, b: seq<Token>, c: seq<Token>)
    ensures a + b + c == a + (b + c)
  {
  }

  lemma ItemTokensStep(vs: seq<Elem>, obj: bool, at: nat, c: int, pos: nat)
    requires vs != []
    ensures var own := Tokens(vs[0].value, at, if obj && |vs| % 2 == 1 then at - 1 else c, pos + |vs[0].before|);
            && |own| == Size(vs[0].value)
            && ItemTokens(vs, obj, at, c, pos)
               == (if obj && |vs| % 2 == 0 then own[0 := own[0].(size := own[0].size + 1)] else own)
                  + ItemTokens(vs[1..], obj, at + Size(vs[0].value), c, pos + |ElemText(vs[0])| + 1)
  {
    hide Tokens, ElemText, Size;
  }

  lemma InItemsNext(st: State, vs: seq<Elem>, obj: bool, c: nat)
    requires |vs| > 1 && InItems(st, vs, obj, c) && ValidItems(vs, obj) && Wf(Separated(st, vs, obj, c))
    ensures InItems(Separated(st, vs, obj, c), vs[1..], obj, c)
  {
    var next := Separated(st, vs, obj, c);
    TokensClosed(vs[0].value, |st.toks|, st.super, st.pos + |vs[0].before|);
    hide Text, ElemText, ValidElem, Links, Written;
    LastOpenKept(st.toks, next.toks);
    hide LastOpen;
    if obj && |vs| % 2 == 0 {
      assert vs[0].value.Str?;
    }
  }

  /** The last element ends the run. */
  lemma ItemsReadOne(js: string, cap: nat, st: State, vs: seq<Elem>, obj: bool, c: nat)
    requires |vs| == 1 && Wf(st) && c < |st.toks| && Leads(js, cap, st, Written(st, vs[0]))
    requires if obj then st.super == |st.toks| - 1 > c else st.super == c
    ensures ItemsRead(js, cap, st, vs, obj, c, Written(st, vs[0]))
  {
    hide Leads, Tokens, Text, ElemText, Links, Written;
    var done := Written(st, vs[0]);
    ItemsStep(vs, obj);
    ItemsCombine(st.toks, vs, obj, c, st.pos, st.super);
    assert ItemTokens(vs[1..], obj, |st.toks| + Size(vs[0].value), c, st.pos + |ElemText(vs[0])| + 1) == [];
    assert Counted(done.toks, vs[1..], obj, c) == done.toks;
    hide ItemTokens, Counted, Count;
    assert done.toks + [] == done.toks;
  }

  /** One element and a separator in front of a run through the others. */
  lemma ItemsReadMore(js: string, cap: nat, st: State, vs: seq<Elem>, obj: bool, c: nat, after: State)
    requires |vs| > 1 && Wf(st) && c < |st.toks| && (vs[0].value.Str? || !obj || |vs| % 2 == 1)
    requires if obj && |vs| % 2 == 1 then st.super == |st.toks| - 1 > c else st.super == c
    requires Leads(js, cap, st, Separated(st, vs, obj, c))
    requires ItemsRead(js, cap, Separated(st, vs, obj, c), vs[1..], obj, c, after)
    ensures ItemsRead(js, cap, st, vs, obj, c, after)
  {
    hide Leads, Tokens, Text, ElemText, Links, ItemTokens, Counted, Count, Items, Written;
    ItemsStep(vs, obj);
    ItemsCombine(st.toks, vs, obj, c, st.pos, st.super);
    LeadsOn(js, cap, st, Separated(st, vs, obj, c), after);
  }

  /** All of a container but what closes it. */
  lemma {:induction false} RunItems(js: string, cap: nat, st: State, vs: seq<Elem>, obj: bool, c: nat, tail: string)
    returns (after: State)
    requires Inv(st) && InItems(st, vs, obj, c) && ValidItems(vs, obj) && tail != "" && IsDelimiter(tail[0])
    requires Holds(js, st.pos, Items(vs, obj) + tail) && |st.toks| + SizeAll(vs) <= cap
    ensures ItemsRead(js, cap, st, vs, obj, c, after)
    decreases vs, 0
  {
    hide Inv, Run, Step, Text, ElemText, Tokens, LastOpen, Holds, ValidElem, Links, Written;
    if vs == [] {
      after := st;
      assert Counted(st.toks, vs, obj, c) == st.toks;
    } else {
      hide ItemsRead, Counted, ItemTokens, Count, Leads;
      FirstHeld(js, st.pos, vs, obj, tail);
      RunElem(js, cap, st, vs[0], st.pos + |ElemText(vs[0])|);
      if |vs| == 1 {
        after := Written(st, vs[0]);
        ItemsReadOne(js, cap, st, vs, obj, c);
      } else {
        InvOf(js, cap, st, Written(st, vs[0]));
        Separate(js, cap, st, vs, obj, c);
        var next := Separated(st, vs, obj, c);
        InvOf(js, cap, Written(st, vs[0]), next);
        InvWf(next);
        InItemsNext(st, vs, obj, c);
        ValidRest(vs, obj);
        after := RunItems(js, cap, next, vs[1..], obj, c, tail);
        LeadsOn(js, cap, st, Written(st, vs[0]), next);
        ItemsReadMore(js, cap, st, vs, obj, c, after);
      }
    }
  }

  lemma ValidRest(vs: seq<Elem>, obj: bool)
    requires vs != [] && ValidItems(vs, obj)
    ensures ValidItems(vs[1..], obj)
  {
    hide ValidElem;
    assert forall i :: 0 <= i < |vs[1..]| ==> vs[1..][i] == vs[i + 1];
  }

  /** Every value, wherever a value may stand: the tokenizer comes out behind it, with
      its tokens added, one more child counted and the same superior token. */
  lemma {:induction false} RunValue(js: string, cap: nat, st: State, v: Json)
    requires Inv(st) && Wf(st) && ValidJson(v) && Ended(js, st.pos, v) && |st.toks| + Size(v) <= cap && MayFollow(st, v)
    ensures Leads(js, cap, st, Done(st, v))
    decreases v, 1
  {
    match v
    case Str(s) => RunString(js, cap, st, s);
    case Prim(s) => RunWord(js, cap, st, s);
    case _ => RunContainer(js, cap, st, v);
  }

  function Held(v: Json): seq<Elem>
    requires v.Arr? || v.Obj?
  {
    if v.Arr? then v.elems else v.members
  }

  /** The state behind an opening bracket. */
  function Begun(st: State, obj: bool): State
    requires Wf(st)
  {
    State(st.pos + 1, |st.toks|, Count(st.toks, st.super) + [Token(KindOf(obj), st.pos, -1, 0, st.super)])
  }

  /** What closes a container: white space and the bracket. */
  function Tail(v: Json): string
    requires v.Arr? || v.Obj?
  {
    v.blank + [Close(v.Obj?)]
  }

  lemma {:induction false} BracketsHeld(js: string, pos: nat, v: Json)
    requires (v.Arr? || v.Obj?) && Holds(js, pos, Text(v))
    ensures pos < |js| && js[pos] == (if v.Obj? then '{' else '[')
    ensures Holds(js, pos + 1, Items(Held(v), v.Obj?) + Tail(v))
    ensures |Text(v)| == 2 + |Items(Held(v), v.Obj?)| + |v.blank|
  {
    var open, items := if v.Obj? then "{" else "[", Items(Held(v), v.Obj?);
    assert Text(v) == open + (items + Tail(v));
    assert |Text(v)| == 2 + |items| + |v.blank|;
    hide Text, Items;
    HoldsSplit(js, pos, open, items + Tail(v));
    HoldsAt(js, pos, open, 0);
  }

  lemma Opening(js: string, cap: nat, st: State, obj: bool)
    requires Inv(st) && Wf(st) && st.pos < |js| && js[st.pos] == (if obj then '{' else '[') && |st.toks| < cap
    requires st.super == -1 || st.toks[st.super].kind != Object
    ensures Leads(js, cap, st, Begun(st, obj)) && LastOpen(Begun(st, obj).toks) == |st.toks|
  {
    hide Inv, LastOpen;
    BracketStep(js, cap, st);
    assert Step(js, cap, st) == Next(Begun(st, obj));
    hide Step;
    LeadsStep(js, cap, st, Begun(st, obj));
    LastIsOpen(Begun(st, obj).toks);
  }

  lemma LastIsOpen(toks: seq<Token>)
    requires toks != [] && IsOpen(toks[|toks| - 1])
    ensures LastOpen(toks) == |toks| - 1
  {
  }

  lemma BracketStep(js: string, cap: nat, st: State)
    requires Wf(st) && st.pos < |js|
    ensures js[st.pos] == '{' || js[st.pos] == '[' ==>
              Step(js, cap, st) == OpenStep(st, if js[st.pos] == '{' then Object else Array, cap)
    ensures js[st.pos] == '}' || js[st.pos] == ']' ==>
              Step(js, cap, st) == CloseStep(st, if js[st.pos] == '}' then Object else Array)
  {
    hide StringStep, PrimitiveStep, OpenStep, CloseStep, CommaStep;
  }

  /** The state behind the closing bracket of the innermost container c. */
  function Closed(st: State, c: nat): State
    requires c < |st.toks|
  {
    State(st.pos + 1, st.toks[c].parent, st.toks[c := st.toks[c].(end := st.pos + 1)])
  }

  lemma Closing(js: string, cap: nat, st: State, obj: bool, c: nat)
    requires Inv(st) && st.pos < |js| && js[st.pos] == Close(obj)
    requires c < |st.toks| && LastOpen(st.toks) == c && st.toks[c].kind == KindOf(obj)
    ensures Leads(js, cap, st, Closed(st, c))
  {
    InvWf(st);
    ClimbIsScan(st);
    hide Inv, LastOpen, Climb;
    BracketStep(js, cap, st);
    assert Step(js, cap, st) == Next(Closed(st, c));
    hide Step;
    LeadsStep(js, cap, st, Closed(st, c));
  }

  lemma CountedHead(before: seq<Token>, t: Token, vs: seq<Elem>, obj: bool)
    requires obj ==> |vs| % 2 == 0
    ensures Counted(before + [t], vs, obj, |before|)
            == before + [t.(size := t.size + if obj then |vs| / 2 else |vs|)]
  {
  }

  lemma ReplaceHead(before: seq<Token>, t: Token, u: Token, rest: seq<Token>)
    ensures (before + [t] + rest)[|before| := u] == before + ([u] + rest)
    ensures (before + [t] + rest)[|before|] == t
  {
  }

  lemma ContainerTokensAre(v: Json, at: nat, parent: int, pos: nat)
    requires v.Arr? || v.Obj?
    ensures Tokens(v, at, parent, pos)
            == [Token(KindOf(v.Obj?), pos, pos + |Text(v)|, if v.Obj? then |Held(v)| / 2 else |Held(v)|, parent)]
               + ItemTokens(Held(v), v.Obj?, at + 1, at, pos + 1)
  {
    hide Text, ItemTokens;
  }

  /** Where the run stands before the closing bracket, and what closing gives. */
  lemma {:induction false} ContainerTokens(st: State, v: Json, after: State)
    requires Wf(st) && ValidJson(v) && (v.Arr? || v.Obj?)
    requires var begun, held := Begun(st, v.Obj?), Held(v);
             && after.pos == begun.pos + |Items(held, v.Obj?)| + |v.blank|
             && after.toks == Counted(begun.toks, held, v.Obj?, |st.toks|)
                              + ItemTokens(held, v.Obj?, |begun.toks|, |st.toks|, begun.pos)
    requires |Text(v)| == 2 + |Items(Held(v), v.Obj?)| + |v.blank|
    ensures Closed(after, |st.toks|) == Done(st, v)
  {
    hide Items, ItemTokens, Text, Tokens, Counted, Count, Held, ValidJson, ValidItems, Size, SizeAll, Links, KindOf,
         Closed, Done;
    HeldValid(v);
    var n, cnt := |st.toks|, if v.Obj? then |Held(v)| / 2 else |Held(v)|;
    var t := Token(KindOf(v.Obj?), st.pos, -1, 0, st.super);
    var rest := ItemTokens(Held(v), v.Obj?, n + 1, n, st.pos + 1);
    CountedHead(Count(st.toks, st.super), t, Held(v), v.Obj?);
    ReplaceHead(Count(st.toks, st.super), t.(size := cnt), t.(size := cnt, end := after.pos + 1), rest);
    ContainerTokensAre(v, n, st.super, st.pos);
    ClosedIs(after, n);
    DoneIs(st, v);
  }

  lemma ClosedIs(st: State, c: nat)
    requires c < |st.toks|
    ensures Closed(st, c) == State(st.pos + 1, st.toks[c].parent, st.toks[c := st.toks[c].(end := st.pos + 1)])
  {
  }

  lemma DoneIs(st: State, v: Json)
    requires Wf(st)
    ensures Done(st, v)
            == State(st.pos + |Text(v)|, st.super, Count(st.toks, st.super) + Tokens(v, |st.toks|, st.super, st.pos))
  {
  }

  /** Behind the opening bracket the elements can be read. */
  lemma {:induction false} OpenContainer(js: string, cap: nat, st: State, v: Json)
    requires (v.Arr? || v.Obj?) && Inv(st) && Wf(st) && ValidJson(v) && Holds(js, st.pos, Text(v))
    requires |st.toks| + Size(v) <= cap && MayFollow(st, v)
    ensures var begun, held, obj := Begun(st, v.Obj?), Held(v), v.Obj?;
            && Leads(js, cap, st, begun) && InItems(begun, held, obj, |st.toks|) && ValidItems(held, obj)
            && Holds(js, begun.pos, Items(held, obj) + Tail(v)) && |begun.toks| + SizeAll(held) <= cap
            && |Text(v)| == 2 + |Items(held, obj)| + |v.blank|
  {
    HeldValid(v);
    BracketsHeld(js, st.pos, v);
    hide Inv, Run, Text, Items, LastOpen, Holds, ValidJson, ValidItems, Close, Held, SizeAll, Tail;
    Opening(js, cap, st, v.Obj?);
    InvWf(Begun(st, v.Obj?));
    hide Leads;
  }

  /** From behind the elements through the closing bracket. */
  lemma {:induction false} CloseItems(js: string, cap: nat, st: State, v: Json, c: nat, after: State)
    requires (v.Arr? || v.Obj?) && ValidJson(v)
    requires InItems(st, Held(v), v.Obj?, c) && ItemsRead(js, cap, st, Held(v), v.Obj?, c, after)
    requires Holds(js, st.pos, Items(Held(v), v.Obj?) + Tail(v))
    ensures c < |after.toks| && Leads(js, cap, after, Closed(Past(after, |v.blank|), c))
  {
    hide Inv, Run, Items, LastOpen, Holds, Close, Closed, ItemTokens, Counted, Held;
    InnermostStill(st, Held(v), v.Obj?, c, after.toks);
    TailHeld(js, st.pos, v);
    HeldValid(v);
    InvOf(js, cap, st, after);
    hide Leads, ValidJson, Blank;
    var last := Past(after, |v.blank|);
    RunBlank(js, cap, after, v.blank);
    InvOf(js, cap, after, last);
    Closing(js, cap, last, v.Obj?, c);
    LeadsOn(js, cap, after, last, Closed(last, c));
  }

  lemma CloseContainer(js: string, cap: nat, st: State, v: Json, after: State)
    requires (v.Arr? || v.Obj?) && Wf(st) && ValidJson(v)
    requires InItems(Begun(st, v.Obj?), Held(v), v.Obj?, |st.toks|)
    requires ItemsRead(js, cap, Begun(st, v.Obj?), Held(v), v.Obj?, |st.toks|, after)
    requires Holds(js, st.pos + 1, Items(Held(v), v.Obj?) + Tail(v))
    requires |Text(v)| == 2 + |Items(Held(v), v.Obj?)| + |v.blank|
    ensures Leads(js, cap, after, Done(st, v))
  {
    hide Leads, Inv, Run, Text, Items, LastOpen, Holds, ValidJson, Close, Held, Closed, Done, InItems, Counted,
         ItemTokens, Tail;
    CloseItems(js, cap, Begun(st, v.Obj?), v, |st.toks|, after);
    ContainerTokens(st, v, Past(after, |v.blank|));
  }

  lemma {:induction false} RunContainer(js: string, cap: nat, st: State, v: Json)
    requires v.Arr? || v.Obj?
    requires Inv(st) && Wf(st) && ValidJson(v) && Ended(js, st.pos, v) && |st.toks| + Size(v) <= cap && MayFollow(st, v)
    ensures Leads(js, cap, st, Done(st, v))
    decreases v, 0
  {
    OpenContainer(js, cap, st, v);
    TailDelimits(v);
    var begun := Begun(st, v.Obj?);
    InvOf(js, cap, st, begun);
    hide Inv, Run, Text, Items, Holds, ValidJson, ValidItems, Close, Size, SizeAll, Done, Begun, Leads, InItems,
         MayFollow, Wf, Tail;
    HeldBelow(v);
    var after := RunItems(js, cap, begun, Held(v), v.Obj?, |st.toks|, Tail(v));
    CloseContainer(js, cap, st, v, after);
    ReadLeads(js, cap, begun, Held(v), v.Obj?, |st.toks|, after);
    hide ItemsRead;
    LeadsOn(js, cap, st, begun, after);
    LeadsOn(js, cap, st, after, Done(st, v));
  }

  lemma HeldBelow(v: Json)
    requires v.Arr? || v.Obj?
    ensures Held(v) == if v.Arr? then v.elems else v.members
  {
  }

  lemma TailDelimits(v: Json)
    requires (v.Arr? || v.Obj?) && ValidJson(v)
    ensures Tail(v) != "" && IsDelimiter(Tail(v)[0])
  {
    if v.blank != "" {
      assert v.blank[0] in "\t\r\n ";
    }
  }

  lemma ReadLeads(js: string, cap: nat, st: State, vs: seq<Elem>, obj: bool, c: nat, after: State)
    requires c < |st.toks| && ItemsRead(js, cap, st, vs, obj, c, after)
    ensures Leads(js, cap, st, after)
  {
    hide Leads;
  }

  /** The container is still the innermost open one when all in it is read. */
  lemma {:induction false} InnermostStill(st: State, vs: seq<Elem>, obj: bool, c: nat, toks: seq<Token>)
    requires InItems(st, vs, obj, c) && toks == Counted(st.toks, vs, obj, c) + ItemTokens(vs, obj, |st.toks|, c, st.pos)
    ensures c < |toks| && LastOpen(toks) == c && toks[c].kind == KindOf(obj)
  {
    ItemTokensClosed(vs, obj, |st.toks|, c, st.pos);
    hide ItemTokens, LastOpen, Links;
    LastOpenKept(st.toks, toks);
  }

  lemma TailHeld(js: string, pos: nat, v: Json)
    requires (v.Arr? || v.Obj?) && Holds(js, pos, Items(Held(v), v.Obj?) + Tail(v))
    ensures var next := pos + |Items(Held(v), v.Obj?)|;
            && Holds(js, next, v.blank) && next + |v.blank| < |js| && js[next + |v.blank|] == Close(v.Obj?)
  {
    hide Items, Held;
    HoldsSplit(js, pos, Items(Held(v), v.Obj?), Tail(v));
    HoldsSplit(js, pos + |Items(Held(v), v.Obj?)|, v.blank, [Close(v.Obj?)]);
    HoldsAt(js, pos + |Items(Held(v), v.Obj?)| + |v.blank|, [Close(v.Obj?)], 0);
  }

  lemma {:induction false} HeldValid(v: Json)
    requires ValidJson(v) && (v.Arr? || v.Obj?)
    ensures ValidItems(Held(v), v.Obj?) && SizeAll(Held(v)) + 1 == Size(v) && (v.Obj? ==> |Held(v)| % 2 == 0)
            && Blank(v.blank)
  {
    hide SizeAll;
    if v.Obj? {
      forall i | 0 <= i < |v.members| && (|v.members| - i) % 2 == 0
        ensures v.members[i].value.Str?
      {
        SameParity(|v.members|, i);
      }
    }
  }

  lemma SameParity(n: nat, i: nat)
    requires i <= n && n % 2 == 0 && (n - i) % 2 == 0
    ensures i % 2 == 0
  {
  }

  // ----- the whole text -----

  /** White space in front of a value leads to where the value begins. */
  lemma {:induction false} LeadsPast(text: string, before: string)
    requires Blank(before) && Holds(text, 0, before)
    ensures Leads(text, |text|, INITIAL, Past(INITIAL, |before|)) && Wf(Past(INITIAL, |before|))
  {
    hide Inv, Run, Blank, Holds;
    InitialInv();
    RunBlank(text, |text|, INITIAL, before);
    hide Leads;
  }

  /** A text that is one array, object or string, white space in front of it or not, is
      tokenized to exactly its tokens. */
  lemma {:induction false} WholeValue(before: string, v: Json)
    requires Blank(before) && ValidJson(v) && !v.Prim?
    ensures Whole(before + Text(v)) == (Size(v), State(|before| + |Text(v)|, -1, Tokens(v, 0, -1, |before|)))
  {
    var js := before + Text(v);
    assert js[0..|js|] == js;
    HoldsSplit(js, 0, before, Text(v));
    SizeBound(v);
    LeadsPast(js, before);
    var st := Past(INITIAL, |before|);
    hide Blank, Inv, Step, Leads, Holds, Tokens, Text, Run, ValidJson;
    InvOf(js, |js|, INITIAL, st);
    RunValue(js, |js|, st, v);
    LeadsOn(js, |js|, INITIAL, st, Done(st, v));
    DoneWhole(js, before, v);
  }

  /** At the end of a text nothing more happens. */
  lemma {:induction false} DoneWhole(js: string, before: string, v: Json)
    requires Leads(js, |js|, INITIAL, Done(Past(INITIAL, |before|), v)) && |js| == |before| + |Text(v)|
    ensures Whole(js) == (Size(v), State(|js|, -1, Tokens(v, 0, -1, |before|)))
  {
    TokensClosed(v, 0, -1, |before|);
    assert Count([], -1) + Tokens(v, 0, -1, |before|) == Tokens(v, 0, -1, |before|);
    hide Tokens, Text, Inv, Step;
  }

  /** A primitive alone is never finished: the strict mode waits for a delimiter. */
  lemma {:induction false} WholePrimitive(before: string, s: string)
    requires Blank(before) && Word(s)
    ensures Whole(before + s) == (PART, Past(INITIAL, |before|))
  {
    var js := before + s;
    WordUnfinished(js, |before|);
    assert PrimitiveEnd(js, |before|) == More;
    StaysPut(js, before, s);
  }

  /** The same for a string without its closing quote. */
  lemma {:induction false} WholeUnclosed(before: string, s: string)
    requires Blank(before) && Body(s)
    ensures Whole(before + ("\"" + s)) == (PART, Past(INITIAL, |before|))
  {
    var js := before + ("\"" + s);
    assert js[|before| + 1..|js|] == s;
    BodyScan(js, |before| + 1, s);
    assert StringEnd(js, |before| + 1) == More;
    StaysPut(js, before, "\"" + s);
  }

  /** A leaf whose end is not in sight stops the run where it begins. */
  lemma {:induction false} StaysPut(js: string, before: string, tail: string)
    requires Blank(before) && js == before + tail && tail != "" && (tail[0] == '\"' || StartsPrimitive(tail[0]))
    requires if tail[0] == '\"' then StringEnd(js, |before| + 1) == More else PrimitiveEnd(js, |before|) == More
    requires tail[0] != '\0'
    ensures Whole(js) == (PART, Past(INITIAL, |before|))
  {
    assert js[0..|before|] == before;
    LeadsPast(js, before);
    var st := Past(INITIAL, |before|);
    assert js[|before|] == tail[0];
    hide StringEnd, PrimitiveEnd, Inv, Blank;
    assert Step(js, |js|, st) == Stop(PART, st);
    hide Step;
  }

  /** A primitive with the delimiter that ends it: white space or a comma finishes it, a
      closing bracket is refused. */
  lemma {:induction false} WholeWord(before: string, s: string, d: char)
    requires Blank(before) && Word(s) && IsDelimiter(d)
    ensures var r := Whole(before + (s + [d]));
            if d in "]}" then r.0 == INVAL
            else r == (1, State(|before| + |s| + 1, -1, Tokens(Prim(s), 0, -1, |before|)))
  {
    var js := before + (s + [d]);
    var st := Past(INITIAL, |before|);
    WordHeld(js, before, s, d);
    StartsAt(|before|, Prim(s));
    hide *;
    LeadsPast(js, before);
    InvOf(js, |js|, INITIAL, st);
    RunWord(js, |js|, st, s);
    LeadsOn(js, |js|, INITIAL, st, Done(st, Prim(s)));
    WordDelimited(js, before, s, d);
  }

  lemma WordHeld(js: string, before: string, s: string, d: char)
    requires js == before + (s + [d]) && Word(s) && IsDelimiter(d)
    ensures |js| == |before| + |s| + 1 && js[|js| - 1] == d
    ensures Holds(js, 0, before) && Ended(js, |before|, Prim(s))
  {
    assert js[0..|before|] == before;
    assert js[|before|..|before| + |s|] == s;
  }

  lemma StartsAt(pos: nat, v: Json)
    ensures var st := Past(INITIAL, pos); st.pos == pos && st.toks == [] && Wf(st) && MayFollow(st, v)
  {
  }

  lemma {:induction false} WordDelimited(js: string, before: string, s: string, d: char)
    requires Leads(js, |js|, INITIAL, Done(Past(INITIAL, |before|), Prim(s))) && IsDelimiter(d)
    requires |js| == |before| + |s| + 1 && js[|js| - 1] == d
    ensures if d in "]}" then Whole(js).0 == INVAL
            else Whole(js) == (1, State(|js|, -1, Tokens(Prim(s), 0, -1, |before|)))
  {
    hide Inv, StringEnd, PrimitiveEnd;
    var toks := Tokens(Prim(s), 0, -1, |before|);
    assert Count([], -1) + toks == toks;
    var done := State(|js| - 1, -1, toks);
    assert Done(Past(INITIAL, |before|), Prim(s)) == done;
    if d in "]}" {
      assert Step(js, |js|, done) == Stop(INVAL, done);
    } else {
      assert Step(js, |js|, done) == Next(done.(pos := |js|));
      hide Step;
      assert Run(js, |js|, done) == Run(js, |js|, done.(pos := |js|));
    }
  }

  lemma {:induction false} WordUnfinished(s: string, p: nat)
    requires p <= |s| && forall k :: p <= k < |s| ==> ' ' <= s[k] < 127 as char && !IsDelimiter(s[k])
    ensures PrimitiveEnd(s, p) == More
    decreases |s| - p
  {
    if p < |s| {
      WordUnfinished(s, p + 1);
    }
  }

  /** There are no more tokens than characters. */
  lemma {:induction false} SizeBound(v: Json)
    requires ValidJson(v)
    ensures Size(v) <= |Text(v)|
    decreases v, 1
  {
    if v.Arr? || v.Obj? {
      HeldValid(v);
      SizeAllBound(Held(v), v.Obj?);
    }
  }

  lemma {:induction false} SizeAllBound(vs: seq<Elem>, obj: bool)
    requires ValidItems(vs, obj)
    ensures SizeAll(vs) <= |Items(vs, obj)|
    decreases vs, 0
  {
    if vs != [] {
      SizeBound(vs[0].value);
      ValidRest(vs, obj);
      SizeAllBound(vs[1..], obj);
    }
  }
}
