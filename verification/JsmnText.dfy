/** How tokenizing one more character changes the state, and what later calls
    leave unchanged: the facts behind reading one root value from a stream. */
module JsmnText {
  import opened Jsmn
  import opened JsmnTree

  // ----- room -----

  /** No token without a character. */
  lemma {:induction false} TokensFewer(js: string, cap: nat, st: State)
    requires Wf(st) && |st.toks| <= st.pos && Run(js, cap, st).0 != INVAL
    ensures |Run(js, cap, st).1.toks| <= Run(js, cap, st).1.pos
    decreases |js| - st.pos
  {
    if !AtEnd(js, st.pos) {
      StepAdvances(js, cap, st);
      StepExtends(js, cap, js, cap, st);
      match Step(js, cap, st)
      case Stop(_, _) =>
      case Next(after) =>
        TokensFewer(js, cap, after);
    }
  }

  /** With a token for every character the array never runs out. */
  lemma {:induction false} RoomEnough(js: string, cap: nat, st: State)
    requires Wf(st) && |st.toks| <= st.pos && |js| <= cap
    ensures Run(js, cap, st).0 != NOMEM
    ensures Run(js, |js|, st) == Run(js, cap, st)
    decreases |js| - st.pos
  {
    if !AtEnd(js, st.pos) {
      StepAdvances(js, cap, st);
      StepExtends(js, |js|, js, cap, st);
      match Step(js, cap, st)
      case Stop(_, _) =>
      case Next(after) =>
        RoomEnough(js, cap, after);
    }
  }

  /** A call that does not run out of room does the same with more room. */
  lemma {:induction false} RoomIrrelevant(js: string, cap: nat, room: nat, st: State)
    requires Wf(st) && cap <= room && Run(js, cap, st).0 != NOMEM
    ensures Run(js, room, st) == Run(js, cap, st)
    decreases |js| - st.pos
  {
    if !AtEnd(js, st.pos) {
      StepAdvances(js, cap, st);
      StepExtends(js, cap, js, room, st);
      match Step(js, cap, st)
      case Stop(_, _) =>
      case Next(after) =>
        RoomIrrelevant(js, cap, room, after);
    }
  }

  /** Running out of room means the array is full. */
  lemma {:induction false} OutOfRoom(js: string, cap: nat, st: State)
    requires Wf(st) && |st.toks| <= st.pos && Run(js, cap, st).0 == NOMEM
    ensures cap <= |Run(js, cap, st).1.toks| <= Run(js, cap, st).1.pos < |js|
    decreases |js| - st.pos
  {
    StepAdvances(js, cap, st);
    StepExtends(js, cap, js, cap, st);
    match Step(js, cap, st)
    case Stop(_, _) =>
    case Next(after) =>
      OutOfRoom(js, cap, after);
  }

  /** No call uses more tokens than there are, and it reports a lack of room only with all
      of them used. */
  lemma {:induction false} NeverOverflows(js: string, cap: nat, st: State)
    requires Wf(st) && |st.toks| <= cap
    ensures |Run(js, cap, st).1.toks| <= cap
    ensures Run(js, cap, st).0 == NOMEM ==> |Run(js, cap, st).1.toks| == cap
    decreases |js| - st.pos
  {
    if !AtEnd(js, st.pos) {
      StepAdvances(js, cap, st);
      match Step(js, cap, st)
      case Stop(_, _) =>
      case Next(after) =>
        NeverOverflows(js, cap, after);
    }
  }

  // ----- the whole text so far -----

  /** One call on all of the text with room for everything. */
  function Whole(text: string): (int, State) {
    Run(text, |text|, INITIAL)
  }

  /** The first root value is complete. */
  predicate Complete(text: string) {
    var r := Whole(text);
    r.0 != INVAL && r.1.toks != [] && !IsOpen(r.1.toks[0])
  }

  // ----- one more character -----

  lemma {:induction false} StringEndAtLast(js: string, c: char, p: nat)
    requires StringEnd(js, p).More?
    ensures StringEnd(js + [c], p).Found? ==> StringEnd(js + [c], p).at == |js|
    decreases |js| - p
  {
    var more := js + [c];
    if !AtEnd(js, p) {
      if js[p] == '\\' {
        if p + 1 < |js| {
          var e := js[p + 1];
          if IsEscape(e) {
            StringEndAtLast(js, c, p + 2);
          } else {
            var n := if e == 'x' then 2 else 4;
            HexEndGrows(js, c, p + 2, n);
            var q := HexEnd(js, p + 2, n).value;
            if q < |js| {
              StringEndAtLast(js, c, q);
            } else if HexEnd(more, p + 2, n).Some? {
              assert HexEnd(more, p + 2, n).value >= |js|;
            }
          }
        }
      } else {
        StringEndAtLast(js, c, p + 1);
      }
    }
  }

  lemma {:induction false} HexEndGrows(js: string, c: char, p: nat, n: nat)
    requires HexEnd(js, p, n).Some? && p <= |js|
    ensures HexEnd(js, p, n).value < |js| ==> HexEnd(js + [c], p, n) == HexEnd(js, p, n)
    ensures HexEnd(js, p, n).value == |js| && HexEnd(js + [c], p, n).Some? ==> HexEnd(js + [c], p, n).value >= |js|
    decreases n
  {
    if n != 0 && !AtEnd(js, p) {
      HexEndGrows(js, c, p + 1, n - 1);
    }
  }

  lemma {:induction false} PrimitiveEndAtLast(js: string, c: char, p: nat)
    requires PrimitiveEnd(js, p).More?
    ensures PrimitiveEnd(js + [c], p).Found? ==> PrimitiveEnd(js + [c], p).at == |js|
    decreases |js| - p
  {
    if !AtEnd(js, p) {
      PrimitiveEndAtLast(js, c, p + 1);
    }
  }

  /** A state from which no call on this text gets any further. */
  predicate Settled(js: string, st: State) {
    Wf(st) && st.pos <= |js| && (AtEnd(js, st.pos) || Step(js, |js| + 1, st) == Stop(PART, st))
  }

  /** A call that neither refuses nor lacks room settles. */
  lemma {:induction false} RunSettles(js: string, cap: nat, st: State)
    requires Wf(st) && st.pos <= |js| && |js| < cap
    requires Run(js, cap, st).0 != INVAL && Run(js, cap, st).0 != NOMEM
    ensures Settled(js, Run(js, cap, st).1)
    decreases |js| - st.pos
  {
    if !AtEnd(js, st.pos) {
      StepAdvances(js, cap, st);
      StepExtends(js, cap, js, cap, st);
      match Step(js, cap, st)
      case Stop(_, _) =>
      case Next(after) =>
        RunSettles(js, cap, after);
    }
  }

  predicate ClosesRoot(c: char, kind: Kind) {
    (c == '}' && kind == Object) || (c == ']' && kind == Array)
  }

  /** What the last character c can do to the tokens of s: nothing, open a
      container, or close the last open one. */
  predicate LastEffect(c: char, s: State, r: (int, State))
    requires Wf(s)
  {
    var o := LastOpen(s.toks);
    || r.1.toks == s.toks
    || (|r.1.toks| == |s.toks| + 1 && r.1.toks[..|s.toks|] == Count(s.toks, s.super) && IsOpen(r.1.toks[|s.toks|])
        && IsContainer(r.1.toks[|s.toks|].kind))
    || (o >= 0 && ClosesRoot(c, s.toks[o].kind) && r.1.toks == s.toks[o := s.toks[o].(end := s.pos + 1)]
        && r.0 == if AnyOpen(r.1.toks) then PART else |r.1.toks|)
  }

  lemma KeepsAll(c: char, s: State, r: (int, State))
    requires Wf(s) && r.1.toks == s.toks
    ensures LastEffect(c, s, r)
  {
  }

  lemma {:induction false} LastOpens(text: string, cap: nat, s: State)
    requires Wf(s) && s.pos + 1 == |text| && !AtEnd(text, s.pos) && |s.toks| < cap
    requires text[s.pos] in "{[" && Run(text, cap, s).0 != INVAL
    ensures LastEffect(text[s.pos], s, Run(text, cap, s))
  {
    var c := text[s.pos];
    StepAdvances(text, cap, s);
    assert Step(text, cap, s) == OpenStep(s, if c == '{' then Object else Array, cap);
    hide Step, LastOpen;
  }

  lemma {:induction false} LastClose(text: string, cap: nat, s: State)
    requires Inv(s) && Wf(s) && s.pos + 1 == |text| && !AtEnd(text, s.pos)
    requires text[s.pos] in "}]" && Run(text, cap, s).0 != INVAL
    ensures LastEffect(text[s.pos], s, Run(text, cap, s))
  {
    var c := text[s.pos];
    if AnyOpen(s.toks) {
      ClimbIsScan(s);
    }
    StepAdvances(text, cap, s);
    assert Step(text, cap, s) == CloseStep(s, if c == '}' then Object else Array);
    hide Inv, Step, Climb, LastOpen;
  }

  lemma {:induction false} LastStep(text: string, cap: nat, s: State)
    requires Inv(s) && s.pos + 1 == |text| < cap && |s.toks| <= s.pos && Run(text, cap, s).0 != INVAL
    ensures LastEffect(text[s.pos], s, Run(text, cap, s))
  {
    if !AtEnd(text, s.pos) {
      var c := text[s.pos];
      assert Wf(s);
      hide Inv, Climb, LastOpen, Run, Step, LastEffect;
      if c == '}' || c == ']' {
        LastClose(text, cap, s);
      } else if c == '{' || c == '[' {
        LastOpens(text, cap, s);
      } else {
        LastPlain(text, cap, s);
        KeepsAll(c, s, Run(text, cap, s));
      }
    }
  }

  lemma {:induction false} LastPlain(text: string, cap: nat, s: State)
    requires Wf(s) && s.pos + 1 == |text| && !AtEnd(text, s.pos)
    requires text[s.pos] !in "{}[]" && Run(text, cap, s).0 != INVAL
    ensures Run(text, cap, s).1.toks == s.toks
  {
    StepAdvances(text, cap, s);
    if StartsPrimitive(text[s.pos]) {
      assert PrimitiveEnd(text, s.pos + 1) == More;
    }
  }

  /** Finishing a pending string or primitive with the last character. */
  predicate PendingEffect(s0: State, s1: State)
    requires Wf(s0)
  {
    || s1 == s0
    || (|s1.toks| == |s0.toks| + 1 && s1.toks[..|s0.toks|] == Count(s0.toks, s0.super)
        && !IsContainer(s1.toks[|s0.toks|].kind) && s1.toks[|s0.toks|].end != -1)
  }

  lemma PendingStep(js: string, c: char, s0: State) returns (s1: State)
    requires Settled(js, s0) && Inv(s0) && |s0.toks| <= s0.pos < |js| && !AtEnd(js, s0.pos)
    requires Run(js + [c], |js| + 2, s0).0 != INVAL
    ensures Inv(s1) && |s1.toks| <= s1.pos && PendingEffect(s0, s1)
    ensures Run(js + [c], |js| + 2, s0) == Run(js + [c], |js| + 2, s1)
    ensures (s1 == s0 && Run(js + [c], |js| + 2, s0).1 == s0) || s1.pos >= |js|
    ensures s1.pos <= |js| + 1
  {
    var text, cap := js + [c], |js| + 2;
    StepAdvances(text, cap, s0);
    StepExtends(text, cap, text, cap, s0);
    match Step(text, cap, s0)
    case Stop(code, st) =>
      s1 := s0;
    case Next(after) =>
      s1 := after;
      StepKeeps(text, cap, s0);
      PendingNext(js, c, s0);
  }

  lemma PendingNext(js: string, c: char, s0: State)
    requires Settled(js, s0) && Wf(s0) && !AtEnd(js, s0.pos)
    requires Step(js + [c], |js| + 2, s0).Next?
    ensures PendingEffect(s0, Step(js + [c], |js| + 2, s0).st)
    ensures Step(js + [c], |js| + 2, s0).st.pos >= |js|
    ensures |s0.toks| <= s0.pos ==> |Step(js + [c], |js| + 2, s0).st.toks| <= Step(js + [c], |js| + 2, s0).st.pos
  {
    var d := js[s0.pos];
    assert (js + [c])[s0.pos] == d;
    if d == '\"' {
      StringEndAtLast(js, c, s0.pos + 1);
    } else {
      assert StartsPrimitive(d);
      PrimitiveEndAtLast(js, c, s0.pos);
    }
    hide StringEnd, PrimitiveEnd, Climb;
  }

  /** Tokenizing one more character resumes where the text so far has led. */
  lemma {:induction false} Continue(prev: string, c: char)
    requires Whole(prev).0 != INVAL
    ensures var s0 := Whole(prev).1;
            && Inv(s0) && |s0.toks| <= s0.pos && Settled(prev, s0)
            && Whole(prev + [c]) == Run(prev + [c], |prev| + 2, s0)
  {
    hide Run, Inv, Settled;
    var text, cap := prev + [c], |prev| + 2;
    InitialInv();
    assert |INITIAL.toks| <= INITIAL.pos;
    RoomEnough(prev, cap, INITIAL);
    RunKeeps(prev, cap, INITIAL);
    TokensFewer(prev, cap, INITIAL);
    RunSettles(prev, cap, INITIAL);
    Resume(prev, cap, text, cap, INITIAL);
    RoomEnough(text, cap, INITIAL);
  }

  /** The effect of one more character on a settled state: possibly a pending
      leaf is finished, then the character itself. */
  lemma OneMore(prev: string, c: char) returns (s1: State)
    requires Whole(prev).0 != INVAL && Whole(prev + [c]).0 != INVAL
    ensures Inv(Whole(prev).1) && Inv(s1) && PendingEffect(Whole(prev).1, s1)
    ensures Whole(prev + [c]).1.toks == s1.toks || LastEffect(c, s1, Whole(prev + [c]))
  {
    hide Run, Inv, Step, PendingEffect, LastEffect;
    Continue(prev, c);
    var text, cap, s0 := prev + [c], |prev| + 2, Whole(prev).1;
    assert PendingEffect(s0, s0) by { SamePending(s0); }
    s1 := s0;
    if s0.pos < |prev| {
      assert text[s0.pos] == prev[s0.pos];
      if AtEnd(prev, s0.pos) {
        StopsAtEnd(text, cap, s0);
      } else {
        s1 := PendingStep(prev, c, s0);
      }
    }
    if s1.pos == |prev| {
      LastStep(text, cap, s1);
    } else if s1.pos > |prev| {
      StopsAtEnd(text, cap, s1);
    }
  }

  lemma SamePending(s: State)
    requires Inv(s)
    ensures Wf(s) && PendingEffect(s, s)
  {
  }

  lemma {:induction false} StopsAtEnd(text: string, cap: nat, s: State)
    requires Inv(s) && AtEnd(text, s.pos)
    ensures Wf(s) && Run(text, cap, s).1 == s
  {
  }

  /** An open root container is completed only by its own closing bracket, and
      then nothing is left open: the call returns the number of tokens. */
  lemma RootClosedByLast(prev: string, c: char)
    requires Whole(prev).0 != INVAL && Whole(prev).1.toks != [] && IsOpen(Whole(prev).1.toks[0])
    requires Complete(prev + [c])
    ensures ClosesRoot(c, Whole(prev).1.toks[0].kind)
    ensures Whole(prev + [c]).0 == |Whole(prev + [c]).1.toks| > 0
  {
    hide Whole, Inv, Links;
    var s1 := OneMore(prev, c);
    assert IsOpen(s1.toks[0]) && s1.toks[0].kind == Whole(prev).1.toks[0].kind;
  }

  /** The first token is a finished leaf or a container just opened. */
  lemma FirstToken(prev: string, c: char)
    requires Whole(prev).0 != INVAL && Whole(prev).1.toks == []
    requires Whole(prev + [c]).0 != INVAL && Whole(prev + [c]).1.toks != []
    ensures var t := Whole(prev + [c]).1.toks[0];
            (IsContainer(t.kind) <==> IsOpen(t)) && t.kind != Undefined
  {
    hide Whole, Links;
    var s1 := OneMore(prev, c);
    if s1.toks != [] {
      assert TokenOk(s1.toks[0], s1.pos);
    }
  }

  /** The kind of the first token never changes. */
  lemma RootKindStays(prev: string, c: char)
    requires Whole(prev).0 != INVAL && Whole(prev).1.toks != []
    requires Whole(prev + [c]).0 != INVAL
    ensures Whole(prev + [c]).1.toks != []
    ensures Whole(prev + [c]).1.toks[0].kind == Whole(prev).1.toks[0].kind
  {
    hide Whole, Inv, Links;
    var s1 := OneMore(prev, c);
  }

  /** A refused text stays refused. */
  lemma RefusedForever(text: string, longer: string)
    requires text <= longer && Whole(text).0 == INVAL
    ensures Whole(longer).0 == INVAL
  {
    RefusalExtends(text, |text|, longer, |longer|, INITIAL);
  }

  /** One character adds at most a finished leaf and an opened container. */
  lemma AtMostTwo(prev: string, c: char)
    requires Whole(prev).0 != INVAL && Whole(prev + [c]).0 != INVAL
    ensures |Whole(prev + [c]).1.toks| <= |Whole(prev).1.toks| + 2
  {
    hide Whole, Inv, Links;
    var s1 := OneMore(prev, c);
  }

  // ----- what later calls leave alone -----

  /** Tokens keep their kind, start and parent; closed ones keep their end; new
      ones start at or after the text position reached before. */
  predicate Later(before: State, after: State) {
    && |before.toks| <= |after.toks| && before.pos <= after.pos
    && (forall i :: 0 <= i < |before.toks| ==> KeptToken(before.toks[i], after.toks[i]))
    && (forall j :: |before.toks| <= j < |after.toks| ==> before.pos <= after.toks[j].start)
  }

  predicate KeptToken(t: Token, u: Token) {
    t.kind == u.kind && t.start == u.start && t.parent == u.parent && (!IsOpen(t) ==> t.end == u.end)
  }

  lemma StepLater(js: string, cap: nat, st: State)
    requires Wf(st) && !AtEnd(js, st.pos) && Step(js, cap, st).Next?
    ensures Later(st, Step(js, cap, st).st)
  {
    StepAdvances(js, cap, st);
  }

  lemma LaterChains(a: State, b: State, c: State)
    requires Later(a, b) && Later(b, c)
    ensures Later(a, c)
  {
    forall i | 0 <= i < |a.toks|
      ensures KeptToken(a.toks[i], c.toks[i])
    {
      assert KeptToken(a.toks[i], b.toks[i]) && KeptToken(b.toks[i], c.toks[i]);
    }
    forall j | |a.toks| <= j < |c.toks|
      ensures a.pos <= c.toks[j].start
    {
      if j < |b.toks| {
        assert KeptToken(b.toks[j], c.toks[j]);
      }
    }
  }

  lemma {:induction false} RunLater(js: string, cap: nat, st: State)
    requires Wf(st) && Run(js, cap, st).0 != INVAL
    ensures Later(st, Run(js, cap, st).1)
    decreases |js| - st.pos
  {
    if !AtEnd(js, st.pos) {
      StepAdvances(js, cap, st);
      StepExtends(js, cap, js, cap, st);
      match Step(js, cap, st)
      case Stop(_, _) =>
      case Next(after) =>
        StepLater(js, cap, st);
        RunLater(js, cap, after);
        LaterChains(st, after, Run(js, cap, st).1);
    }
  }

  // ----- stepping over a subtree -----

  /** The first token from index from on that starts at or after position e. */
  function Boundary(toks: seq<Token>, from: nat, e: int): (r: nat)
    requires from <= |toks|
    ensures from <= r <= |toks|
    ensures forall k :: from <= k < r ==> toks[k].start < e
    ensures r < |toks| ==> toks[r].start >= e
    decreases |toks| - from
  {
    if from == |toks| || toks[from].start >= e then from else Boundary(toks, from + 1, e)
  }

  lemma BoundaryUnique(toks: seq<Token>, from: nat, e: int, r: nat)
    requires from <= r <= |toks|
    requires forall k :: from <= k < r ==> toks[k].start < e
    requires r < |toks| ==> toks[r].start >= e
    ensures r == Boundary(toks, from, e)
  {
  }

  /** Between a closed container and its boundary lie tokens inside it, all of
      them below it in the tree; from the boundary on, tokens start after it. */
  lemma {:induction false} BoundaryEncloses(st: State, i: nat)
    requires Inv(st) && i < |st.toks| && IsContainer(st.toks[i].kind) && !IsOpen(st.toks[i])
    ensures var r := Boundary(st.toks, i, st.toks[i].end);
            && i < r
            && (forall j :: i < j < r ==> Inside(st.toks, i, j))
            && (forall j :: r <= j < |st.toks| ==> st.toks[j].start >= st.toks[i].end)
  {
    assert TokenOk(st.toks[i], st.pos);
  }

  /** However much is tokenized later, the boundary of a container is the number
      of tokens there were when it was closed. */
  lemma {:induction false} BoundaryAtClose(js: string, cap: nat, st: State, i: nat, later: State)
    requires Inv(st) && !AtEnd(js, st.pos) && Step(js, cap, st).Next?
    requires i < |st.toks| && IsOpen(st.toks[i]) && !IsOpen(Step(js, cap, st).st.toks[i])
    requires Later(Step(js, cap, st).st, later)
    ensures i < |later.toks| && Boundary(later.toks, i, later.toks[i].end) == |Step(js, cap, st).st.toks|
  {
    var s1 := Step(js, cap, st).st;
    StepKeeps(js, cap, st);
    StartsBelow(s1);
    ClosedNow(js, cap, st, i);
    StepLater(js, cap, st);
    BoundaryKept(s1, later, i);
  }

  lemma StartsBelow(st: State)
    requires Inv(st)
    ensures forall k :: 0 <= k < |st.toks| ==> st.toks[k].start < st.pos
  {
    assert forall k :: 0 <= k < |st.toks| ==> TokenOk(st.toks[k], st.pos);
  }

  lemma BoundaryKept(s1: State, later: State, i: nat)
    requires forall k :: 0 <= k < |s1.toks| ==> s1.toks[k].start < s1.pos
    requires i < |s1.toks| && !IsOpen(s1.toks[i]) && s1.toks[i].end == s1.pos && Later(s1, later)
    ensures i < |later.toks| && Boundary(later.toks, i, later.toks[i].end) == |s1.toks|
  {
    assert KeptToken(s1.toks[i], later.toks[i]);
    forall k | i <= k < |s1.toks|
      ensures later.toks[k].start < later.toks[i].end
    {
      assert KeptToken(s1.toks[k], later.toks[k]);
    }
    BoundaryUnique(later.toks, i, later.toks[i].end, |s1.toks|);
  }

  /** A container is closed at the position the parser has just reached. */
  lemma ClosedNow(js: string, cap: nat, st: State, i: nat)
    requires Inv(st) && !AtEnd(js, st.pos) && Step(js, cap, st).Next?
    requires i < |st.toks| && IsOpen(st.toks[i]) && !IsOpen(Step(js, cap, st).st.toks[i])
    ensures Step(js, cap, st).st.toks[i].end == Step(js, cap, st).st.pos && !IsOpen(Step(js, cap, st).st.toks[i])
  {
    StepLater(js, cap, st);
    var c := js[st.pos];
    assert c == '}' || c == ']';
  }
}
