/** A JSON value on the stream: what the reader takes of it, and where stepping over
    a part of it leads. */
module JsonReading {
  import opened Jsmn
  import opened JsmnTree
  import opened JsmnText
  import opened JsmnValues
  import JsonReader

  lemma {:induction false} RunInText(js: string, cap: nat, st: State)
    requires Wf(st) && st.pos <= |js|
    ensures Run(js, cap, st).1.pos <= |js| || Run(js, cap, st).0 == INVAL
    decreases |js| - st.pos
  {
    if !AtEnd(js, st.pos) {
      StepAdvances(js, cap, st);
      StepExtends(js, cap, js, cap, st);
      match Step(js, cap, st)
      case Stop(_, _) =>
      case Next(after) => RunInText(js, cap, after);
    }
  }

  /** A root that a text completes ends inside the text, and ends there in every
      longer text. */
  lemma RootEnd(part: string, text: string)
    requires part <= text && Complete(part) && Whole(text).0 != INVAL
    ensures Whole(text).1.toks != [] && Whole(text).1.toks[0].end <= |part|
  {
    var st := Whole(part).1;
    InitialInv();
    RunKeeps(part, |part|, INITIAL);
    RunInText(part, |part|, INITIAL);
    Resume(part, |part|, text, |text|, INITIAL);
    RunLater(text, |text|, st);
    assert TokenOk(st.toks[0], st.pos);
    hide Run;
    assert KeptToken(st.toks[0], Whole(text).1.toks[0]);
  }

  /** The root's own token: a string's ends before its closing quote. */
  lemma {:induction false} RootToken(v: Json, pos: nat)
    ensures var toks := Tokens(v, 0, -1, pos);
            && toks != [] && !IsOpen(toks[0])
            && toks[0].end == pos + |Text(v)| - if v.Str? then 1 else 0
  {
    if v.Arr? || v.Obj? {
      ContainerTokensAre(v, 0, -1, pos);
      hide Tokens, Text, ItemTokens;
    }
  }

  /** Whatever follows an array, an object or a string on the stream, and whatever white
      space stands in front, the reader reads exactly up to its end, and the tokens it
      holds then are those of the value. */
  lemma {:induction false} ReadsExactly(before: string, v: Json, rest: string, k: nat)
    requires Blank(before) && ValidJson(v) && !v.Prim?
    ensures JsonReader.FirstRoot(before + Text(v) + rest, k) <==> k == |before| + |Text(v)|
    ensures !JsonReader.NoRoot(before + Text(v) + rest)
    ensures Whole(before + Text(v)).1.toks == Tokens(v, 0, -1, |before|)
  {
    var text := before + Text(v);
    WholeValue(before, v);
    RootToken(v, |before|);
    if v.Str? {
      WholeUnclosed(before, v.body);
      assert text[..|text| - 1] == before + ("\"" + v.body);
    }
    hide Text, Tokens, ValidJson, Whole, Blank, Body;
    assert Complete(text);
    forall j | 0 <= j < |text|
      ensures !Complete(text[..j])
    {
      if Complete(text[..j]) {
        RootEnd(text[..j], text);
      }
    }
    FirstIs(text, rest, k);
  }

  /** A text of which no shorter part completes a root. */
  lemma FirstIs(text: string, rest: string, k: nat)
    requires Complete(text) && forall j :: 0 <= j < |text| ==> !Complete(text[..j])
    ensures JsonReader.FirstRoot(text + rest, k) <==> k == |text|
    ensures !JsonReader.NoRoot(text + rest)
  {
    hide Complete;
    assert (text + rest)[..|text|] == text;
    assert forall j :: 0 <= j < |text| ==> (text + rest)[..j] == text[..j];
  }

  /** A primitive is read with the delimiter behind it, white space or a comma; one with a
      closing bracket behind it, or nothing, is never read. */
  lemma {:induction false} ReadsWord(before: string, s: string, d: char, rest: string, k: nat)
    requires Blank(before) && Word(s) && IsDelimiter(d)
    ensures d !in "]}" ==>
              && (JsonReader.FirstRoot(before + (s + [d]) + rest, k) <==> k == |before| + |s| + 1)
              && Whole(before + (s + [d])).1.toks == Tokens(Prim(s), 0, -1, |before|)
    ensures d in "]}" ==> JsonReader.NoRoot(before + (s + [d]) + rest)
    ensures JsonReader.NoRoot(before + s)
  {
    var text := before + (s + [d]);
    WholeWord(before, s, d);
    WholePrimitive(before, s);
    RootToken(Prim(s), |before|);
    hide Tokens, Blank, Word, Run, IsDelimiter;
    forall j | 0 <= j < |text|
      ensures !Complete(text[..j]) && (j <= |before + s| ==> text[..j] == (before + s)[..j])
    {
      assert text[..j] == (before + s)[..j];
      if Complete(text[..j]) {
        hide Whole;
        RootEnd(text[..j], before + s);
      }
    }
    assert before + s == text[..|text| - 1];
    if d !in "]}" {
      hide Whole;
      FirstIs(text, rest, k);
    } else {
      NeverRead(text, rest);
    }
  }

  lemma NeverRead(text: string, rest: string)
    requires Whole(text).0 == INVAL && forall j :: 0 <= j < |text| ==> !Complete(text[..j])
    ensures JsonReader.NoRoot(text + rest)
  {
    hide Whole;
    forall j | 0 <= j <= |text + rest|
      ensures !Complete((text + rest)[..j])
    {
      if j < |text| {
        assert (text + rest)[..j] == text[..j];
      } else {
        RefusedForever(text, (text + rest)[..j]);
      }
    }
  }

  // ----- stepping over -----

  lemma {:induction false} TokensWithin(v: Json, at: nat, parent: int, pos: nat)
    requires ValidJson(v)
    ensures forall k :: 0 <= k < Size(v) ==> pos <= Tokens(v, at, parent, pos)[k].start < pos + |Text(v)|
    decreases v, 1
  {
    if v.Arr? || v.Obj? {
      HeldValid(v);
      ItemTokensWithin(Held(v), v.Obj?, at + 1, at, pos + 1);
      ContainerTokensAre(v, at, parent, pos);
      assert |Text(v)| == 2 + |Items(Held(v), v.Obj?)| + |v.blank|;
      hide Tokens, ItemTokens, Text, Items;
    }
  }

  lemma {:induction false} ItemTokensWithin(vs: seq<Elem>, obj: bool, at: nat, c: int, pos: nat)
    requires ValidItems(vs, obj)
    ensures forall k :: 0 <= k < SizeAll(vs) ==>
                          pos <= ItemTokens(vs, obj, at, c, pos)[k].start < pos + |Items(vs, obj)|
    decreases vs, 0
  {
    hide Tokens, Text, ValidJson, ItemTokens, Items;
    if vs != [] {
      assert ValidElem(vs[0]);
      var parent := if obj && |vs| % 2 == 1 then at - 1 else c;
      TokensWithin(vs[0].value, at, parent, pos + |vs[0].before|);
      ValidRest(vs, obj);
      ItemTokensStep(vs, obj, at, c, pos);
      ItemsStep(vs, obj);
      ItemTokensWithin(vs[1..], obj, at + Size(vs[0].value), c, pos + |ElemText(vs[0])| + 1);
    }
  }

  /** Stepping over a container anywhere among the tokens lands behind all of its
      tokens and nothing else: on the next part of the value, or at the end. */
  lemma {:induction false} StepOverValue(before: seq<Token>, v: Json, parent: int, pos: nat, behind: seq<Token>)
    requires ValidJson(v) && (v.Arr? || v.Obj?)
    requires behind == [] || behind[0].start >= pos + |Text(v)|
    ensures var toks := before + Tokens(v, |before|, parent, pos) + behind;
            && toks[|before|].end == pos + |Text(v)|
            && Boundary(toks, |before|, toks[|before|].end) == |before| + Size(v)
  {
    var own := Tokens(v, |before|, parent, pos);
    var toks := before + own + behind;
    TokensWithin(v, |before|, parent, pos);
    ContainerTokensAre(v, |before|, parent, pos);
    hide Tokens, ItemTokens, Text, ValidJson, Boundary;
    assert forall k :: |before| <= k < |before| + Size(v) ==> toks[k] == own[k - |before|];
    BoundaryUnique(toks, |before|, pos + |Text(v)|, |before| + Size(v));
  }
}
