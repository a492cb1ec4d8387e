/** The tokenizer of include/cpph/third/jsmn.h (strict mode, parent links) as a
    step relation on its parser state.  The token array is represented by its
    allocated prefix, so toknext is |toks|; the array's size is a parameter. */
module Jsmn {
  import opened Wrappers

  const NOMEM := -1
  const INVAL := -2
  const PART := -3

  datatype Kind = Undefined | Object | Array | String | Primitive

  /** end is -1 while a container is open; parent is -1 at the root. */
  datatype Token = Token(kind: Kind, start: int, end: int, size: int, parent: int)

  /** Text position, superior token (or -1) and the tokens allocated so far. */
  datatype State = State(pos: nat, super: int, toks: seq<Token>)

  const INITIAL := State(0, -1, [])

  predicate Links(toks: seq<Token>) {
    forall i :: 0 <= i < |toks| ==> -1 <= toks[i].parent < i
  }

  /** Links point backwards and the superior token exists. */
  predicate Wf(st: State) {
    Links(st.toks) && -1 <= st.super < |st.toks|
  }

  predicate IsOpen(t: Token) {
    t.start != -1 && t.end == -1
  }

  predicate AnyOpen(toks: seq<Token>) {
    exists i :: 0 <= i < |toks| && IsOpen(toks[i])
  }

  // ----- lexical scans -----

  /** Where a scan for the end of a string or primitive leads. */
  datatype Scan = Found(at: nat) | Bad | More

  predicate AtEnd(js: string, p: nat) {
    p >= |js| || js[p] == '\0'
  }

  predicate IsHex(c: char) {
    '0' <= c <= '9' || 'A' <= c <= 'F' || 'a' <= c <= 'f'
  }

  /** Skips up to n hexadecimal digits; None on any other character. */
  function HexEnd(js: string, p: nat, n: nat): (r: Option<nat>)
    ensures r.Some? ==> p <= r.value && (p <= |js| ==> r.value <= |js|)
    decreases n
  {
    if n == 0 || AtEnd(js, p) then Some(p)
    else if IsHex(js[p]) then HexEnd(js, p + 1, n - 1)
    else None
  }

  predicate IsEscape(c: char) {
    c in "\"/\\bfrnt"
  }

  /** The closing quote of a string whose unread part begins at p. */
  function StringEnd(js: string, p: nat): (r: Scan)
    ensures r.Found? ==> p <= r.at < |js|
    decreases |js| - p
  {
    if AtEnd(js, p) then More
    else if js[p] == '\"' then Found(p)
    else if js[p] == '\\' && p + 1 < |js| then
      var e := js[p + 1];
      if IsEscape(e) then StringEnd(js, p + 2)
      else if e == 'x' || e == 'u' then
        match HexEnd(js, p + 2, if e == 'x' then 2 else 4)
        case None => Bad
        case Some(q) => StringEnd(js, q)
      else Bad
    else StringEnd(js, p + 1)
  }

  predicate IsDelimiter(c: char) {
    c in "\t\r\n ,]}"
  }

  /** The delimiter that ends a primitive whose unread part begins at p. */
  function PrimitiveEnd(js: string, p: nat): (r: Scan)
    ensures r.Found? ==> p <= r.at < |js|
    decreases |js| - p
  {
    if AtEnd(js, p) then More
    else if IsDelimiter(js[p]) then Found(p)
    else if js[p] < ' ' || js[p] >= 127 as char then Bad
    else PrimitiveEnd(js, p + 1)
  }

  // ----- one character of the main loop -----

  datatype Outcome = Next(st: State) | Stop(code: int, st: State)

  predicate IsContainer(k: Kind) {
    k == Object || k == Array
  }

  /** The size of the superior token counts one more child. */
  function Count(toks: seq<Token>, super: int): (r: seq<Token>)
    requires -1 <= super < |toks|
    ensures |r| == |toks|
  {
    if super == -1 then toks else toks[super := toks[super].(size := toks[super].size + 1)]
  }

  function OpenStep(st: State, kind: Kind, cap: nat): Outcome
    requires Wf(st)
  {
    if |st.toks| >= cap then Stop(NOMEM, st)
    else if st.super != -1 && st.toks[st.super].kind == Object then
      Stop(INVAL, st.(toks := st.toks + [Token(Undefined, -1, -1, 0, -1)]))
    else
      Next(State(st.pos + 1, |st.toks|, Count(st.toks, st.super) + [Token(kind, st.pos, -1, 0, st.super)]))
  }

  /** The first open token, or else the root, on the way up from token i. */
  function Climb(toks: seq<Token>, i: int): (r: int)
    requires Links(toks) && 0 <= i < |toks|
    ensures 0 <= r <= i
    ensures IsOpen(toks[r]) || toks[r].parent == -1
    decreases i
  {
    if IsOpen(toks[i]) || toks[i].parent == -1 then i else Climb(toks, toks[i].parent)
  }

  function CloseStep(st: State, kind: Kind): Outcome
    requires Wf(st)
  {
    if st.toks == [] then Stop(INVAL, st) else
    var i := Climb(st.toks, |st.toks| - 1);
    var t := st.toks[i];
    if IsOpen(t) then
      if t.kind != kind then Stop(INVAL, st)
      else Next(State(st.pos + 1, t.parent, st.toks[i := t.(end := st.pos + 1)]))
    else if t.kind != kind || st.super == -1 then Stop(INVAL, st)
    else Next(st.(pos := st.pos + 1))
  }

  /** Appends a finished string or primitive. */
  function LeafStep(st: State, cap: nat, scan: Scan, kind: Kind, start: nat, next: nat): Outcome
    requires Wf(st)
  {
    match scan
    case Bad => Stop(INVAL, st)
    case More => Stop(PART, st)
    case Found(q) =>
      if |st.toks| >= cap then Stop(NOMEM, st)
      else Next(State(next, st.super, Count(st.toks, st.super) + [Token(kind, start, q, 0, st.super)]))
  }

  predicate StartsPrimitive(c: char) {
    c in "-0123456789tfn"
  }

  function CommaStep(st: State): Outcome
    requires Wf(st)
  {
    if st.super != -1 && !IsContainer(st.toks[st.super].kind)
    then Next(st.(pos := st.pos + 1, super := st.toks[st.super].parent))
    else Next(st.(pos := st.pos + 1))
  }

  function StringStep(js: string, cap: nat, st: State): Outcome
    requires Wf(st)
  {
    var scan := StringEnd(js, st.pos + 1);
    LeafStep(st, cap, scan, String, st.pos + 1, if scan.Found? then scan.at + 1 else 0)
  }

  function PrimitiveStep(js: string, cap: nat, st: State): Outcome
    requires Wf(st)
  {
    if st.super != -1 && (st.toks[st.super].kind == Object
                          || (st.toks[st.super].kind == String && st.toks[st.super].size != 0))
    then Stop(INVAL, st) else
    var scan := PrimitiveEnd(js, st.pos);
    LeafStep(st, cap, scan, Primitive, st.pos, if scan.Found? then scan.at else 0)
  }

  function Step(js: string, cap: nat, st: State): (r: Outcome)
    requires Wf(st) && !AtEnd(js, st.pos)
    ensures Wf(r.st)
  {
    var c := js[st.pos];
    if c == '{' || c == '[' then OpenStep(st, if c == '{' then Object else Array, cap)
    else if c == '}' || c == ']' then CloseStep(st, if c == '}' then Object else Array)
    else if c == '\"' then StringStep(js, cap, st)
    else if c in "\t\r\n " then Next(st.(pos := st.pos + 1))
    else if c == ':' then Next(st.(pos := st.pos + 1, super := |st.toks| - 1))
    else if c == ',' then CommaStep(st)
    else if StartsPrimitive(c) then PrimitiveStep(js, cap, st)
    else Stop(INVAL, st)
  }

  lemma StepAdvances(js: string, cap: nat, st: State)
    requires Wf(st) && !AtEnd(js, st.pos)
    ensures Step(js, cap, st).Next? ==> st.pos < Step(js, cap, st).st.pos <= |js|
  {
    if StartsPrimitive(js[st.pos]) {
      assert !IsDelimiter(js[st.pos]);
    }
  }

  /** A whole call of the parser: result code and final state. */
  function Run(js: string, cap: nat, st: State): (r: (int, State))
    requires Wf(st)
    decreases |js| - st.pos
  {
    if AtEnd(js, st.pos) then (if AnyOpen(st.toks) then PART else |st.toks|, st) else
    StepAdvances(js, cap, st);
    match Step(js, cap, st)
    case Stop(code, last) => (code, last)
    case Next(after) => Run(js, cap, after)
  }

  lemma {:induction false} RunWf(js: string, cap: nat, st: State)
    requires Wf(st)
    ensures Wf(Run(js, cap, st).1)
    decreases |js| - st.pos
  {
    if !AtEnd(js, st.pos) {
      StepAdvances(js, cap, st);
      match Step(js, cap, st)
      case Stop(_, _) =>
      case Next(after) =>
        RunWf(js, cap, after);
    }
  }

  // ----- resuming -----

  lemma {:induction false} HexEndExtends(js: string, more: string, p: nat, n: nat)
    requires js <= more
    ensures HexEnd(js, p, n).None? ==> HexEnd(more, p, n).None?
    ensures HexEnd(js, p, n).Some? && !AtEnd(js, HexEnd(js, p, n).value) ==> HexEnd(more, p, n) == HexEnd(js, p, n)
    decreases n
  {
    if n != 0 && !AtEnd(js, p) && IsHex(js[p]) {
      HexEndExtends(js, more, p + 1, n - 1);
    }
  }

  /** A scan that is decided on a prefix is decided the same way on more text. */
  lemma {:induction false} StringEndExtends(js: string, more: string, p: nat)
    requires js <= more && !StringEnd(js, p).More?
    ensures StringEnd(more, p) == StringEnd(js, p)
    decreases |js| - p
  {
    if AtEnd(js, p) || js[p] == '\"' {
    } else if js[p] == '\\' && p + 1 < |js| {
      var e := js[p + 1];
      if IsEscape(e) {
        StringEndExtends(js, more, p + 2);
      } else if e == 'x' || e == 'u' {
        var n := if e == 'x' then 2 else 4;
        HexEndExtends(js, more, p + 2, n);
        if HexEnd(js, p + 2, n).Some? {
          StringEndExtends(js, more, HexEnd(js, p + 2, n).value);
        }
      }
    } else {
      StringEndExtends(js, more, p + 1);
    }
  }

  lemma {:induction false} PrimitiveEndExtends(js: string, more: string, p: nat)
    requires js <= more && !PrimitiveEnd(js, p).More?
    ensures PrimitiveEnd(more, p) == PrimitiveEnd(js, p)
    decreases |js| - p
  {
    if !AtEnd(js, p) && !IsDelimiter(js[p]) && ' ' <= js[p] < 127 as char {
      PrimitiveEndExtends(js, more, p + 1);
    }
  }

  /** A completed step is the same with more text and more room; a step that
      stops for lack of either leaves the state as it was. */
  lemma StepExtends(js: string, cap: nat, more: string, room: nat, st: State)
    requires Wf(st) && !AtEnd(js, st.pos) && js <= more && cap <= room
    ensures Step(js, cap, st).Next? ==> Step(more, room, st) == Step(js, cap, st)
    ensures Step(js, cap, st).Stop? && Step(js, cap, st).code != INVAL ==> Step(js, cap, st).st == st
    ensures Step(js, cap, st).Stop? && Step(js, cap, st).code == INVAL ==> Step(more, room, st) == Step(js, cap, st)
  {
    if !StringEnd(js, st.pos + 1).More? {
      StringEndExtends(js, more, st.pos + 1);
    }
    if !PrimitiveEnd(js, st.pos).More? {
      PrimitiveEndExtends(js, more, st.pos);
    }
  }

  /** Resumability: a call on a prefix of the text and part of the room, not
      refused, followed by a call with all of both, is one call with all. */
  lemma {:induction false} Resume(js: string, cap: nat, more: string, room: nat, st: State)
    requires Wf(st) && js <= more && cap <= room
    requires Run(js, cap, st).0 != INVAL
    ensures Wf(Run(js, cap, st).1)
    ensures Run(more, room, Run(js, cap, st).1) == Run(more, room, st)
    decreases |js| - st.pos
  {
    if !AtEnd(js, st.pos) {
      StepExtends(js, cap, more, room, st);
      StepAdvances(js, cap, st);
      match Step(js, cap, st)
      case Stop(_, _) =>
      case Next(after) =>
        Resume(js, cap, more, room, after);
    }
  }

  /** A refusal on a prefix is final. */
  lemma {:induction false} RefusalExtends(js: string, cap: nat, more: string, room: nat, st: State)
    requires Wf(st) && js <= more && cap <= room
    requires Run(js, cap, st).0 == INVAL
    ensures Run(more, room, st).0 == INVAL
    decreases |js| - st.pos
  {
    StepExtends(js, cap, more, room, st);
    StepAdvances(js, cap, st);
    match Step(js, cap, st)
    case Stop(_, _) =>
    case Next(after) =>
      RefusalExtends(js, cap, more, room, after);
  }

  /** One call of the parser in a longer session: the text and room it sees. */
  datatype Call = Call(js: string, cap: nat)

  predicate Growing(calls: seq<Call>) {
    forall i, j :: 0 <= i < j < |calls| ==> calls[i].js <= calls[j].js && calls[i].cap <= calls[j].cap
  }

  /** The state and result after a sequence of calls, as long as none refuses. */
  function Session(calls: seq<Call>, st: State): (r: Option<(int, State)>)
    requires Wf(st) && calls != []
    decreases |calls|
  {
    var first := Run(calls[0].js, calls[0].cap, st);
    if |calls| == 1 then Some(first)
    else if first.0 == INVAL then None else
    RunWf(calls[0].js, calls[0].cap, st);
    Session(calls[1..], first.1)
  }

  /** A session breaks off exactly if a call before the last would refuse the text on its
      own. */
  lemma {:induction false} SessionWhen(calls: seq<Call>, st: State)
    requires Wf(st) && calls != [] && Growing(calls)
    ensures Session(calls, st).Some?
            <==> forall k :: 0 <= k < |calls| - 1 ==> Run(calls[k].js, calls[k].cap, st).0 != INVAL
    decreases |calls|
  {
    if |calls| > 1 && Run(calls[0].js, calls[0].cap, st).0 != INVAL {
      var rest, after := calls[1..], Run(calls[0].js, calls[0].cap, st).1;
      RunWf(calls[0].js, calls[0].cap, st);
      SessionWhen(rest, after);
      forall k | 0 <= k < |rest|
        ensures calls[k + 1] == rest[k] && Run(rest[k].js, rest[k].cap, after) == Run(rest[k].js, rest[k].cap, st)
      {
        assert calls[0].js <= calls[k + 1].js && calls[0].cap <= calls[k + 1].cap;
        Resume(calls[0].js, calls[0].cap, rest[k].js, rest[k].cap, st);
      }
      SessionParts(calls, st, after);
    }
  }

  lemma {:induction false} SessionParts(calls: seq<Call>, st: State, after: State)
    requires Wf(st) && Wf(after) && |calls| > 1
    requires Run(calls[0].js, calls[0].cap, st).0 != INVAL && Run(calls[0].js, calls[0].cap, st).1 == after
    requires forall k :: 0 <= k < |calls| - 1 ==>
                           Run(calls[1..][k].js, calls[1..][k].cap, after)
                           == Run(calls[1..][k].js, calls[1..][k].cap, st)
    ensures (forall k :: 0 <= k < |calls| - 1 ==> Run(calls[k].js, calls[k].cap, st).0 != INVAL)
            <==> forall k :: 0 <= k < |calls| - 2 ==> Run(calls[1..][k].js, calls[1..][k].cap, after).0 != INVAL
  {
    hide Run;
    var rest := calls[1..];
    if forall k :: 0 <= k < |rest| - 1 ==> Run(rest[k].js, rest[k].cap, after).0 != INVAL {
      forall k | 0 <= k < |calls| - 1
        ensures Run(calls[k].js, calls[k].cap, st).0 != INVAL
      {
        if k > 0 {
          assert calls[k] == rest[k - 1];
        }
      }
    }
    if forall k :: 0 <= k < |calls| - 1 ==> Run(calls[k].js, calls[k].cap, st).0 != INVAL {
      forall k | 0 <= k < |rest| - 1
        ensures Run(rest[k].js, rest[k].cap, after).0 != INVAL
      {
        assert rest[k] == calls[k + 1];
      }
    }
  }

  /** However the text and the token array grow between calls, the last call
      ends where a single call on the final text and array would. */
  lemma {:induction false} SessionIsOneRun(calls: seq<Call>, st: State)
    requires Wf(st) && calls != [] && Growing(calls) && Session(calls, st).Some?
    ensures var last := calls[|calls| - 1];
            Session(calls, st) == Some(Run(last.js, last.cap, st))
    decreases |calls|
  {
    if |calls| > 1 {
      var last := calls[|calls| - 1];
      assert calls[0].js <= last.js && calls[0].cap <= last.cap;
      Resume(calls[0].js, calls[0].cap, last.js, last.cap, st);
      assert calls[1..][|calls| - 2] == last;
      SessionIsOneRun(calls[1..], Run(calls[0].js, calls[0].cap, st).1);
    }
  }
}
