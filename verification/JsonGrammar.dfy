/** The grammar of JSON, RFC 8259, character by character: the tokenizer takes every
    value of it, and what it refuses. */
module JsonGrammar {
  import opened Wrappers
  import opened Jsmn
  import opened JsmnTree
  import opened JsmnText
  import opened JsmnValues
  import JsonCursor
  import JsonTrees

  // ----- numbers and literals, sections 3 and 6 -----

  predicate Digits(s: string) {
    s != "" && forall k :: 0 <= k < |s| ==> '0' <= s[k] <= '9'
  }

  predicate WholePart(s: string) {
    s == "0" || (Digits(s) && s[0] != '0')
  }

  predicate FracPart(s: string) {
    s == "" || (s[0] == '.' && Digits(s[1..]))
  }

  predicate ExpPart(s: string) {
    s == "" || (s[0] in "eE" && (Digits(s[1..]) || (|s| >= 2 && s[1] in "+-" && Digits(s[2..]))))
  }

  ghost predicate Number(s: string) {
    exists minus, whole, frac, exp ::
      && s == minus + (whole + (frac + exp)) && (minus == "" || minus == "-")
      && WholePart(whole) && FracPart(frac) && ExpPart(exp)
  }

  predicate Name(s: string) {
    s == "true" || s == "false" || s == "null"
  }

  // ----- strings, section 7 -----

  predicate Hex(c: char) {
    '0' <= c <= '9' || 'a' <= c <= 'f' || 'A' <= c <= 'F'
  }

  /** Characters of a string: unescaped ones, two-character escapes, four digits after \u. */
  predicate Chars(s: string)
    decreases |s|
  {
    s == "" ||
    (if s[0] == '\\' then
       && |s| >= 2
       && if s[1] == '\"' || s[1] == '\\' || s[1] == '/' || s[1] == 'b' || s[1] == 'f' || s[1] == 'n' || s[1] == 'r'
             || s[1] == 't'
          then Chars(s[2..])
          else s[1] == 'u' && |s| >= 6 && Hex(s[2]) && Hex(s[3]) && Hex(s[4]) && Hex(s[5]) && Chars(s[6..])
     else s[0] >= ' ' && s[0] != '\"' && Chars(s[1..]))
  }

  // ----- values, sections 2, 4 and 5 -----

  predicate White(s: string) {
    forall k :: 0 <= k < |s| ==> s[k] == ' ' || s[k] == '\t' || s[k] == '\n' || s[k] == '\r'
  }

  ghost predicate Grammatical(v: Json)
    decreases v, 1
  {
    match v
    case Str(s) => Chars(s)
    case Prim(s) => Number(s) || Name(s)
    case Arr(elems, blank) => White(blank) && forall i :: 0 <= i < |elems| ==> GrammaticalElem(elems[i])
    case Obj(members, blank) =>
      && |members| % 2 == 0 && White(blank)
      && (forall i :: 0 <= i < |members| ==> GrammaticalElem(members[i]))
      && (forall i :: 0 <= i < |members| && i % 2 == 0 ==> members[i].value.Str?)
  }

  ghost predicate GrammaticalElem(e: Elem)
    decreases e, 0
  {
    White(e.before) && Grammatical(e.value) && White(e.after)
  }

  // ----- the tokenizer takes them -----

  lemma {:induction false} CharsBody(s: string)
    requires Chars(s)
    ensures Body(s)
    decreases |s|
  {
    if s != "" {
      if s[0] != '\\' {
        CharsBody(s[1..]);
      } else if s[1] == 'u' {
        CharsBody(s[6..]);
        assert forall k :: 0 <= k < 4 ==> s[2..][k] == s[2 + k];
      } else {
        CharsBody(s[2..]);
      }
    }
  }

  /** No character of a number or a name ends it. */
  predicate Plain(s: string) {
    forall k :: 0 <= k < |s| ==> '+' <= s[k] <= 'z' && s[k] != ',' && s[k] != ']'
  }

  lemma PlainConcat(a: string, b: string)
    requires Plain(a) && Plain(b)
    ensures Plain(a + b)
  {
  }

  lemma PlainParts(minus: string, whole: string, frac: string, exp: string)
    requires (minus == "" || minus == "-") && WholePart(whole) && FracPart(frac) && ExpPart(exp)
    ensures Plain(minus) && Plain(whole) && Plain(frac) && Plain(exp)
  {
    assert forall k :: 1 <= k < |frac| ==> frac[k] == frac[1..][k - 1];
    PlainExp(exp);
  }

  lemma PlainExp(exp: string)
    requires ExpPart(exp)
    ensures Plain(exp)
  {
    assert forall k :: 1 <= k < |exp| ==> exp[k] == exp[1..][k - 1];
    if |exp| >= 2 {
      assert forall k :: 2 <= k < |exp| ==> exp[k] == exp[2..][k - 2];
    }
  }

  lemma PlainWord(s: string)
    requires s != "" && Plain(s) && s[0] in "-0123456789tfn"
    ensures Word(s)
  {
    forall k | 0 <= k < |s|
      ensures ' ' <= s[k] < 127 as char && !IsDelimiter(s[k])
    {
      PlainChar(s[k]);
    }
  }

  lemma PlainChar(c: char)
    requires '+' <= c <= 'z' && c != ',' && c != ']'
    ensures ' ' <= c < 127 as char && !IsDelimiter(c)
  {
  }

  lemma {:induction false} NumberWord(s: string)
    requires Number(s) || Name(s)
    ensures Word(s)
  {
    hide WholePart, FracPart, ExpPart, Word;
    if Number(s) {
      var minus, whole, frac, exp :| s == minus + (whole + (frac + exp)) && (minus == "" || minus == "-")
        && WholePart(whole) && FracPart(frac) && ExpPart(exp);
      NumberPlain(minus, whole, frac, exp);
    }
    PlainWord(s);
  }

  lemma {:induction false} NumberPlain(minus: string, whole: string, frac: string, exp: string)
    requires (minus == "" || minus == "-") && WholePart(whole) && FracPart(frac) && ExpPart(exp)
    ensures var s := minus + (whole + (frac + exp)); s != "" && Plain(s) && s[0] in "-0123456789"
  {
    hide FracPart, ExpPart, Plain;
    PlainParts(minus, whole, frac, exp);
    PlainConcat(frac, exp);
    PlainConcat(whole, frac + exp);
    PlainConcat(minus, whole + (frac + exp));
  }

  lemma {:induction false} GrammaticalValid(v: Json)
    requires Grammatical(v)
    ensures ValidJson(v)
    decreases v, 1
  {
    match v
    case Str(s) => CharsBody(s);
    case Prim(s) => NumberWord(s);
    case Arr(elems, _) =>
      forall i | 0 <= i < |elems|
        ensures ValidElem(elems[i])
      {
        GrammaticalElemValid(elems[i]);
      }
    case Obj(members, _) =>
      forall i | 0 <= i < |members|
        ensures ValidElem(members[i])
      {
        GrammaticalElemValid(members[i]);
      }
  }

  lemma {:induction false} GrammaticalElemValid(e: Elem)
    requires GrammaticalElem(e)
    ensures ValidElem(e)
    decreases e, 0
  {
    GrammaticalValid(e.value);
  }

  lemma {:induction false} EndsPrim(js: string, pos: nat, v: Json)
    requires Holds(js, pos, Text(v))
    requires var next := pos + |Text(v)|; v.Prim? ==> next < |js| && js[next] in "\t\r\n ,]}"
    ensures Ended(js, pos, v)
  {
    hide Text, Holds;
  }

  /** Every value of the grammar, wherever a value may stand, gives exactly its tokens. */
  lemma {:induction false} RunsGrammar(js: string, cap: nat, st: State, v: Json)
    requires Grammatical(v) && Inv(st) && Wf(st) && MayFollow(st, v) && |st.toks| + Size(v) <= cap
    requires Holds(js, st.pos, Text(v))
    requires var next := st.pos + |Text(v)|; v.Prim? ==> next < |js| && js[next] in "\t\r\n ,]}"
    ensures Leads(js, cap, st, Done(st, v))
  {
    hide *;
    GrammaticalValid(v);
    EndsPrim(js, st.pos, v);
    RunValue(js, cap, st, v);
  }

  /** From the text of an array, object or string of the grammar a caller of the reader gets
      exactly that value. */
  lemma {:induction false} ReadsGrammar(before: string, v: Json, keygen: int)
    requires White(before) && Grammatical(v) && !v.Prim?
    ensures var text, cur := before + Text(v), JsonCursor.Cursor(0, [], keygen);
            var toks := Whole(text).1.toks;
            && JsonTrees.Got(JsonTrees.Reads(text, toks, cur, JsonTrees.Plain(v)),
                 if JsonTrees.IsLeaf(v) then 0 else JsonCursor.NPOS, [])
            && forall tree :: JsonTrees.Reads(text, toks, cur, tree).Some? ==> tree == JsonTrees.Plain(v)
  {
    GrammaticalValid(v);
    assert Blank(before);
    hide Text, Grammatical, ValidJson, Whole, White, Blank;
    JsonTrees.ReadsRoot(before, v, keygen);
  }

  // ----- what it refuses -----

  /** Where anything may stand, any other character than the beginning of a value, white
      space, a closing bracket, a colon or a comma is refused. */
  lemma OthersRefused(js: string, cap: nat, st: State)
    requires Wf(st) && st.pos < |js| && js[st.pos] != '\0'
    requires js[st.pos] !in "{[\"-0123456789tfn" && js[st.pos] !in "\t\r\n }]:,"
    ensures Step(js, cap, st) == Stop(INVAL, st) && Run(js, cap, st) == (INVAL, st)
  {
  }

  /** Where the object expects a key, a primitive or a container is refused; behind a key
      and its value, a second primitive is. */
  lemma {:induction false} KeyExpected(js: string, cap: nat, st: State)
    requires Wf(st) && st.pos < |js| && st.super != -1
    ensures st.toks[st.super].kind == Object && js[st.pos] in "-0123456789tfn" ==> Run(js, cap, st).0 == INVAL
    ensures st.toks[st.super].kind == Object && js[st.pos] in "{[" && |st.toks| < cap ==> Run(js, cap, st).0 == INVAL
    ensures st.toks[st.super].kind == String && st.toks[st.super].size != 0 ==>
              js[st.pos] in "-0123456789tfn" ==> Run(js, cap, st).0 == INVAL
  {
    hide PrimitiveEnd, StringStep, CloseStep, CommaStep, AnyOpen;
  }

  /** With every token used, the next container, and the next string or primitive that
      ends, is left for another call with more room. */
  lemma {:induction false} RoomExpected(js: string, cap: nat, st: State)
    requires Wf(st) && st.pos < |js| && cap <= |st.toks|
    ensures js[st.pos] in "{[" ==> Run(js, cap, st) == (NOMEM, st)
    ensures js[st.pos] == '\"' && StringEnd(js, st.pos + 1).Found? ==> Run(js, cap, st) == (NOMEM, st)
    ensures st.super == -1 || st.toks[st.super].kind == Array || st.toks[st.super].kind == Primitive
            || (st.toks[st.super].kind == String && st.toks[st.super].size == 0) ==>
              js[st.pos] in "-0123456789tfn" && PrimitiveEnd(js, st.pos).Found? ==> Run(js, cap, st) == (NOMEM, st)
  {
    hide PrimitiveEnd, StringEnd, CloseStep, CommaStep, AnyOpen;
  }

  /** In a string, a backslash with any other letter behind it is refused. */
  lemma EscapeRefused(js: string, p: nat)
    requires p + 1 < |js| && js[p] == '\\' && js[p + 1] !in "\"\\/bfnrtux"
    ensures StringEnd(js, p) == Bad
  {
  }

  /** So is one of the digits behind \u or \x that is none. */
  lemma {:induction false} DigitRefused(js: string, p: nat, k: nat)
    requires p + 1 < |js| && js[p] == '\\' && (js[p + 1] == 'u' || js[p + 1] == 'x')
    requires k < (if js[p + 1] == 'u' then 4 else 2) && p + 2 + k < |js| && !Hex(js[p + 2 + k])
    requires forall j :: p + 2 <= j <= p + 2 + k ==> js[j] != '\0'
    ensures StringEnd(js, p) == Bad
  {
    HexBad(js, p + 2, if js[p + 1] == 'u' then 4 else 2, k);
    hide HexEnd;
  }

  lemma {:induction false} HexBad(js: string, p: nat, n: nat, k: nat)
    requires k < n && p + k < |js| && !Hex(js[p + k]) && forall j :: p <= j <= p + k ==> js[j] != '\0'
    ensures HexEnd(js, p, n) == None
    decreases k
  {
    if k > 0 {
      HexBad(js, p + 1, n - 1, k - 1);
    }
  }

  /** A primitive goes on up to white space, a comma or a closing bracket; any character
      that is not printable is refused. */
  lemma PrimitiveGoes(js: string, p: nat)
    requires p < |js| && js[p] != '\0'
    ensures PrimitiveEnd(js, p)
            == if js[p] in "\t\r\n ,]}" then Found(p)
               else if js[p] < ' ' || js[p] > '~' then Bad
               else PrimitiveEnd(js, p + 1)
  {
  }

  /** A string goes on up to its closing quote, whatever else is in it. */
  lemma StringGoes(js: string, p: nat)
    requires p < |js| && js[p] != '\0' && js[p] != '\\'
    ensures StringEnd(js, p) == if js[p] == '\"' then Found(p) else StringEnd(js, p + 1)
  {
  }
}
