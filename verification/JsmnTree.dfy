/** The shape of the token array that the tokenizer keeps on every input, valid
    JSON or not: nesting, order of starts, child counts. */
module JsmnTree {
  import opened Jsmn

  /** Token a is b or an ancestor of b; nothing is above -1. */
  predicate Above(toks: seq<Token>, a: int, b: int)
    requires Links(toks) && 0 <= a && b < |toks|
    decreases b
  {
    b == a || (b > a && Above(toks, a, toks[b].parent))
  }

  predicate TokenOk(t: Token, pos: nat) {
    && 0 <= t.start < pos
    && (IsContainer(t.kind) ==> t.end == -1 || t.start < t.end <= pos)
    && (!IsContainer(t.kind) ==> t.start <= t.end <= pos && (t.kind == String || t.kind == Primitive))
  }

  predicate Ordered(toks: seq<Token>) {
    forall i, j :: 0 <= i < j < |toks| ==> toks[i].start < toks[j].start
  }

  /** An open container is an ancestor of everything allocated after it. */
  predicate OpenCovers(toks: seq<Token>)
    requires Links(toks)
  {
    forall i, j :: 0 <= i < j < |toks| && IsOpen(toks[i]) ==> Above(toks, i, j)
  }

  /** An open container is an ancestor of the superior token, or is that token. */
  predicate OpenAboveSuper(st: State)
    requires Wf(st)
  {
    forall i :: 0 <= i < |st.toks| && IsOpen(st.toks[i]) ==> Above(st.toks, i, st.super)
  }

  /** Token j belongs to the text of the closed token i. */
  predicate Inside(toks: seq<Token>, i: int, j: int)
    requires Links(toks) && 0 <= i < j < |toks|
  {
    Above(toks, i, j) && !IsOpen(toks[j]) && toks[j].end <= toks[i].end
  }

  /** A closed container is an ancestor of every later token that starts before
      its end; those tokens are closed and end within it. */
  predicate ClosedCovers(toks: seq<Token>)
    requires Links(toks)
  {
    forall i, j ::
      (0 <= i < j < |toks| && IsContainer(toks[i].kind) && !IsOpen(toks[i]) && toks[j].start < toks[i].end)
      ==> Inside(toks, i, j)
  }

  function Children(toks: seq<Token>, i: int): nat {
    if toks == [] then 0
    else Children(toks[..|toks| - 1], i) + if toks[|toks| - 1].parent == i then 1 else 0
  }

  predicate SizesOk(toks: seq<Token>) {
    forall i :: 0 <= i < |toks| ==> toks[i].size == Children(toks, i)
  }

  /** What every reachable parser state satisfies. */
  predicate Inv(st: State) {
    && Wf(st)
    && (forall i :: 0 <= i < |st.toks| ==> TokenOk(st.toks[i], st.pos))
    && Ordered(st.toks)
    && OpenCovers(st.toks)
    && OpenAboveSuper(st)
    && ClosedCovers(st.toks)
    && SizesOk(st.toks)
  }

  // ----- links decide ancestry and child counts -----

  predicate SameLinks(before: seq<Token>, after: seq<Token>) {
    |before| <= |after| && forall i :: 0 <= i < |before| ==> before[i].parent == after[i].parent
  }

  lemma {:induction false} AboveSame(before: seq<Token>, after: seq<Token>, a: int, b: int)
    requires Links(before) && Links(after) && SameLinks(before, after) && 0 <= a && b < |before|
    ensures Above(before, a, b) == Above(after, a, b)
    decreases b
  {
    if b > a {
      AboveSame(before, after, a, before[b].parent);
    }
  }

  lemma AboveSameAll(before: seq<Token>, after: seq<Token>)
    requires Links(before) && Links(after) && SameLinks(before, after)
    ensures forall a, b :: 0 <= a && b < |before| ==> Above(before, a, b) == Above(after, a, b)
  {
    forall a, b | 0 <= a && b < |before|
      ensures Above(before, a, b) == Above(after, a, b)
    {
      AboveSame(before, after, a, b);
    }
  }

  lemma {:induction false} ChildrenSame(before: seq<Token>, after: seq<Token>, i: int)
    requires |before| == |after| && SameLinks(before, after)
    ensures Children(before, i) == Children(after, i)
  {
    if before != [] {
      ChildrenSame(before[..|before| - 1], after[..|after| - 1], i);
    }
  }

  lemma {:induction false} NoChildrenYet(toks: seq<Token>, i: int)
    requires Links(toks) && i >= |toks|
    ensures Children(toks, i) == 0
  {
    if toks != [] {
      NoChildrenYet(toks[..|toks| - 1], i);
    }
  }

  // ----- closing: the climb and the backward scan -----

  /** The last open token, or -1: the backward scan of the build without links. */
  function LastOpen(toks: seq<Token>): (r: int)
    ensures -1 <= r < |toks|
    ensures r >= 0 ==> IsOpen(toks[r])
    ensures forall k :: r < k < |toks| ==> !IsOpen(toks[k])
  {
    if toks == [] then -1
    else if IsOpen(toks[|toks| - 1]) then |toks| - 1
    else LastOpen(toks[..|toks| - 1])
  }

  lemma {:induction false} ClimbMeets(toks: seq<Token>, i: int, o: int)
    requires Links(toks) && 0 <= i < |toks| && 0 <= o < |toks|
    requires IsOpen(toks[o]) && Above(toks, o, i)
    ensures IsOpen(toks[Climb(toks, i)]) && Climb(toks, i) >= o
    decreases i
  {
    if !IsOpen(toks[i]) {
      ClimbMeets(toks, toks[i].parent, o);
    }
  }

  /** Whenever some container is open, the climb over parent links ends at the
      same token as the backward scan; both look for the container to close. */
  lemma ClimbIsScan(st: State)
    requires Inv(st) && AnyOpen(st.toks)
    ensures Climb(st.toks, |st.toks| - 1) == LastOpen(st.toks)
    ensures IsOpen(st.toks[LastOpen(st.toks)])
  {
    var o := LastOpen(st.toks);
    ClimbMeets(st.toks, |st.toks| - 1, o);
  }

  /** The closing step of the build without links, as far as acceptance goes. */
  predicate ScanAccepts(st: State, kind: Kind) {
    var o := LastOpen(st.toks);
    o >= 0 && st.toks[o].kind == kind
  }

  /** The two builds accept the same closing brackets except in one case: nothing
      is open, a ':' has left a superior token, and the root above the last token
      has the bracket's kind.  There the build with links ignores the bracket. */
  lemma BuildsDiffer(st: State, kind: Kind)
    requires Inv(st)
    ensures CloseStep(st, kind).Next? <==>
              || ScanAccepts(st, kind)
              || (!AnyOpen(st.toks) && st.toks != [] && st.super != -1
                  && st.toks[Climb(st.toks, |st.toks| - 1)].kind == kind)
  {
    if AnyOpen(st.toks) {
      ClimbIsScan(st);
    }
  }

  lemma RunOnce(js: string, cap: nat, st: State, after: State)
    requires Wf(st) && !AtEnd(js, st.pos) && Step(js, cap, st) == Next(after)
    ensures Wf(after) && Run(js, cap, st) == Run(js, cap, after)
  {
    hide Step;
  }

  lemma StepOnBracket(js: string, cap: nat, st: State)
    requires Wf(st) && !AtEnd(js, st.pos)
    ensures js[st.pos] == '[' ==> Step(js, cap, st) == OpenStep(st, Array, cap)
    ensures js[st.pos] == ']' ==> Step(js, cap, st) == CloseStep(st, Array)
    ensures js[st.pos] == ':' ==> Step(js, cap, st) == Next(st.(pos := st.pos + 1, super := |st.toks| - 1))
  {
    hide OpenStep, CloseStep, StringStep, PrimitiveStep, CommaStep;
  }

  lemma StrayOpens(js: string)
    requires |js| > 0 && js[0] == '['
    ensures Step(js, 8, INITIAL) == Next(State(1, 0, [Token(Array, 0, -1, 0, -1)]))
  {
    StepOnBracket(js, 8, INITIAL);
    hide Step;
  }

  lemma StrayCloses(js: string)
    requires |js| > 1 && js[1] == ']'
    ensures Step(js, 8, State(1, 0, [Token(Array, 0, -1, 0, -1)])) == Next(State(2, -1, [Token(Array, 0, 2, 0, -1)]))
  {
    StepOnBracket(js, 8, State(1, 0, [Token(Array, 0, -1, 0, -1)]));
    hide Step;
  }

  /** The first three characters of both texts. */
  lemma {:induction false} StrayPrefix(js: string)
    requires |js| >= 3 && js[0] == '[' && js[1] == ']' && js[2] == ':'
    ensures Run(js, 8, INITIAL) == Run(js, 8, State(3, 0, [Token(Array, 0, 2, 0, -1)]))
  {
    hide Run, Step;
    var begun := State(1, 0, [Token(Array, 0, -1, 0, -1)]);
    var closed := State(2, -1, [Token(Array, 0, 2, 0, -1)]);
    StrayOpens(js);
    StrayCloses(js);
    StepOnBracket(js, 8, closed);
    RunOnce(js, 8, INITIAL, begun);
    RunOnce(js, 8, begun, closed);
    RunOnce(js, 8, closed, State(3, 0, closed.toks));
  }

  /** The extra case is reachable: after "[]:" a second ']' is let through. */
  lemma StrayBracketAccepted()
    ensures var st := State(3, 0, [Token(Array, 0, 2, 0, -1)]);
            && Run("[]:", 8, INITIAL) == (1, st)
            && Run("[]:]", 8, INITIAL) == (1, st.(pos := 4))
            && !ScanAccepts(st, Array)
  {
    var st := State(3, 0, [Token(Array, 0, 2, 0, -1)]);
    assert "[]:]"[3] == ']';
    StrayPrefix("[]:");
    StrayPrefix("[]:]");
    RunOnce("[]:]", 8, st, st.(pos := 4));
  }

  // ----- every step keeps the shape -----

  /** Counting a child changes nothing but one size. */
  lemma CountShape(toks: seq<Token>, super: int)
    requires Links(toks) && -1 <= super < |toks|
    ensures Links(Count(toks, super)) && SameLinks(toks, Count(toks, super))
    ensures forall i :: 0 <= i < |toks| ==> Count(toks, super)[i] == toks[i].(size := Count(toks, super)[i].size)
    ensures forall i :: 0 <= i < |toks| ==>
              Count(toks, super)[i].size == toks[i].size + if i == super then 1 else 0
  {
  }

  predicate Appends(st: State, t: Token, toks: seq<Token>)
    requires Wf(st)
  {
    && toks == Count(st.toks, st.super) + [t]
    && t.size == 0 && t.parent == st.super && st.pos <= t.start
  }

  lemma AppendLinks(st: State, t: Token, toks: seq<Token>)
    requires Wf(st) && Appends(st, t, toks)
    ensures Links(toks) && SameLinks(st.toks, toks)
    ensures forall i :: 0 <= i < |st.toks| ==> toks[i] == st.toks[i].(size := toks[i].size)
    ensures forall a, b :: 0 <= a && b < |st.toks| ==> Above(st.toks, a, b) == Above(toks, a, b)
    ensures forall a :: 0 <= a < |st.toks| ==> Above(toks, a, |st.toks|) == Above(st.toks, a, st.super)
  {
    CountShape(st.toks, st.super);
    assert SameLinks(st.toks, toks);
    AboveSameAll(st.toks, toks);
  }

  lemma AppendSizes(st: State, t: Token, toks: seq<Token>)
    requires Wf(st) && Appends(st, t, toks) && SizesOk(st.toks)
    ensures SizesOk(toks)
  {
    var counted := Count(st.toks, st.super);
    CountShape(st.toks, st.super);
    assert toks[..|toks| - 1] == counted;
    forall i | 0 <= i < |toks|
      ensures toks[i].size == Children(toks, i)
    {
      ChildrenSame(st.toks, counted, i);
      if i == |st.toks| {
        NoChildrenYet(st.toks, i);
      }
    }
  }

  /** Appending a token under the superior token. */
  lemma AppendKeeps(st: State, t: Token, toks: seq<Token>, pos: nat, super: int)
    requires Inv(st) && Appends(st, t, toks)
    requires st.pos <= pos && TokenOk(t, pos) && (IsOpen(t) ==> super == |st.toks|)
    requires super == st.super || super == |st.toks|
    ensures Inv(State(pos, super, toks))
  {
    AppendLinks(st, t, toks);
    AppendSizes(st, t, toks);
    AppendTokens(st, t, toks, pos);
    AppendCovers(st, t, toks, super);
    AppendInside(st, t, toks, pos);
    hide Children, Count, TokenOk, OpenCovers, ClosedCovers, SizesOk, Ordered, Above;
  }

  lemma AppendTokens(st: State, t: Token, toks: seq<Token>, pos: nat)
    requires Inv(st) && Appends(st, t, toks) && st.pos <= pos && TokenOk(t, pos)
    ensures Ordered(toks) && forall i :: 0 <= i < |toks| ==> TokenOk(toks[i], pos)
  {
    AppendLinks(st, t, toks);
    hide Children, Count, Above, ClosedCovers, OpenCovers, SizesOk;
    assert forall i :: 0 <= i < |st.toks| ==> TokenOk(st.toks[i], st.pos);
  }

  lemma AppendCovers(st: State, t: Token, toks: seq<Token>, super: int)
    requires Inv(st) && Appends(st, t, toks) && (IsOpen(t) ==> super == |st.toks|)
    requires super == st.super || super == |st.toks|
    ensures Links(toks) && OpenCovers(toks) && forall i :: 0 <= i < |toks| && IsOpen(toks[i]) ==> Above(toks, i, super)
  {
    AppendLinks(st, t, toks);
    hide Children, Count, ClosedCovers, SizesOk, TokenOk, Ordered;
    var n := |st.toks|;
    assert forall i :: 0 <= i < n ==> IsOpen(toks[i]) == IsOpen(st.toks[i]);
    forall i, j | 0 <= i < j < |toks| && IsOpen(toks[i])
      ensures Above(toks, i, j)
    {
      if j == n {
        assert Above(st.toks, i, st.super);
      }
    }
    forall i | 0 <= i < |toks| && IsOpen(toks[i])
      ensures Above(toks, i, super)
    {
      if i < n {
        assert Above(st.toks, i, st.super);
      }
    }
  }

  lemma AppendInside(st: State, t: Token, toks: seq<Token>, pos: nat)
    requires Inv(st) && Appends(st, t, toks)
    ensures Links(toks) && ClosedCovers(toks)
  {
    AppendLinks(st, t, toks);
    hide Children, Count, SizesOk, OpenCovers, Ordered, Above;
    var n := |st.toks|;
    forall i, j | 0 <= i < j < |toks| && IsContainer(toks[i].kind) && !IsOpen(toks[i]) && toks[j].start < toks[i].end
      ensures Inside(toks, i, j)
    {
      assert TokenOk(st.toks[i], st.pos);
      assert j < n;
      assert Inside(st.toks, i, j);
    }
  }

  /** Each token is as it should be once token i is closed. */
  lemma ClosedTokens(st: State, i: int, toks: seq<Token>)
    requires Inv(st) && 0 <= i < |st.toks| && i == LastOpen(st.toks)
    requires toks == st.toks[i := st.toks[i].(end := st.pos + 1)] && SameLinks(st.toks, toks)
    ensures forall k :: 0 <= k < |toks| ==> TokenOk(toks[k], st.pos + 1) && toks[k].size == Children(toks, k)
  {
    assert IsContainer(st.toks[i].kind) && TokenOk(st.toks[i], st.pos);
    forall k | 0 <= k < |toks|
      ensures TokenOk(toks[k], st.pos + 1) && toks[k].size == Children(toks, k)
    {
      assert TokenOk(st.toks[k], st.pos);
      ChildrenSame(st.toks, toks, k);
    }
  }

  lemma CloseKeeps(st: State, i: int, toks: seq<Token>)
    requires Inv(st) && 0 <= i < |st.toks| && i == LastOpen(st.toks)
    requires toks == st.toks[i := st.toks[i].(end := st.pos + 1)]
    ensures Inv(State(st.pos + 1, st.toks[i].parent, toks))
  {
    assert SameLinks(st.toks, toks) && Links(toks);
    AboveSameAll(st.toks, toks);
    ClosedTokens(st, i, toks);
    forall o | 0 <= o < |toks| && IsOpen(toks[o])
      ensures Above(toks, o, st.toks[i].parent)
    {
      assert IsOpen(st.toks[o]) && o < i;
      assert Above(st.toks, o, i);
    }
    forall a, b | 0 <= a < b < |toks| && IsContainer(toks[a].kind) && !IsOpen(toks[a]) && toks[b].start < toks[a].end
      ensures Inside(toks, a, b)
    {
      assert TokenOk(st.toks[b], st.pos);
      if a == i {
        assert Above(st.toks, i, b);
      } else {
        assert Inside(st.toks, a, b);
      }
    }
  }

  /** Every step keeps the shape, whatever the text. */
  lemma StepKeeps(js: string, cap: nat, st: State)
    requires Inv(st) && !AtEnd(js, st.pos) && Step(js, cap, st).Next?
    ensures Inv(Step(js, cap, st).st)
  {
    StepAdvances(js, cap, st);
    var c := js[st.pos];
    var after := Step(js, cap, st).st;
    if c == '{' || c == '[' {
      AppendKeeps(st, after.toks[|st.toks|], after.toks, after.pos, after.super);
    } else if c == '}' || c == ']' {
      CloseStepKeeps(st, if c == '}' then Object else Array);
    } else if c == '\"' {
      AppendKeeps(st, after.toks[|st.toks|], after.toks, after.pos, after.super);
    } else if c == ':' {
      ColonKeeps(st);
    } else if c == ',' {
      CommaKeeps(st);
    } else if StartsPrimitive(c) {
      AppendKeeps(st, after.toks[|st.toks|], after.toks, after.pos, after.super);
    } else {
      WaitKeeps(st, st.pos + 1);
    }
  }

  lemma WaitKeeps(st: State, pos: nat)
    requires Inv(st) && st.pos <= pos
    ensures Inv(st.(pos := pos))
  {
    forall i | 0 <= i < |st.toks|
      ensures TokenOk(st.toks[i], pos)
    {
      assert TokenOk(st.toks[i], st.pos);
    }
  }

  lemma ColonKeeps(st: State)
    requires Inv(st)
    ensures Inv(st.(pos := st.pos + 1, super := |st.toks| - 1))
  {
    WaitKeeps(st, st.pos + 1);
  }

  lemma CommaKeeps(st: State)
    requires Inv(st) && CommaStep(st).Next?
    ensures Inv(CommaStep(st).st)
  {
    WaitKeeps(st, st.pos + 1);
    if st.super != -1 && !IsContainer(st.toks[st.super].kind) {
      assert TokenOk(st.toks[st.super], st.pos);
    }
  }

  /** A closing bracket that is accepted closes the last open container, if any. */
  lemma CloseStepIs(st: State, kind: Kind)
    requires Inv(st) && CloseStep(st, kind).Next?
    ensures var i := LastOpen(st.toks);
            && (AnyOpen(st.toks) ==> 0 <= i < |st.toks|)
            && CloseStep(st, kind).st
               == if AnyOpen(st.toks)
                  then State(st.pos + 1, st.toks[i].parent, st.toks[i := st.toks[i].(end := st.pos + 1)])
                  else st.(pos := st.pos + 1)
  {
    assert Wf(st);
    if AnyOpen(st.toks) {
      ClimbIsScan(st);
    }
    hide Inv, LastOpen, Climb, Wf;
  }

  lemma CloseStepKeeps(st: State, kind: Kind)
    requires Inv(st) && CloseStep(st, kind).Next?
    ensures Inv(CloseStep(st, kind).st)
  {
    hide Inv, LastOpen, AnyOpen, CloseStep;
    CloseStepIs(st, kind);
    if AnyOpen(st.toks) {
      var i := LastOpen(st.toks);
      CloseKeeps(st, i, st.toks[i := st.toks[i].(end := st.pos + 1)]);
    } else {
      WaitKeeps(st, st.pos + 1);
    }
  }

  /** Every call keeps the shape unless it refuses the text. */
  lemma {:induction false} RunKeeps(js: string, cap: nat, st: State)
    requires Inv(st) && Run(js, cap, st).0 != INVAL
    ensures Inv(Run(js, cap, st).1)
    decreases |js| - st.pos
  {
    if !AtEnd(js, st.pos) {
      StepAdvances(js, cap, st);
      StepExtends(js, cap, js, cap, st);
      match Step(js, cap, st)
      case Stop(_, _) =>
      case Next(after) =>
        StepKeeps(js, cap, st);
        RunKeeps(js, cap, after);
    }
  }

  lemma InitialInv()
    ensures Inv(INITIAL)
  {
  }
}
