/** The tokenizer as the source runs it: a parser object whose position, superior
    token and token array change in place, proved to perform Jsmn.Run. */
module JsmnParser {
  import opened Wrappers
  import opened Jsmn

  class Parser {
    var pos: nat
    var toksuper: int
    var tokens: seq<Token>    // the allocated tokens; toknext is |tokens|

    ghost function Abs(): State
      reads this
    {
      State(pos, toksuper, tokens)
    }

    ghost predicate Valid()
      reads this
    {
      Wf(Abs())
    }

    constructor ()
      ensures Valid() && Abs() == INITIAL
    {
      pos, toksuper, tokens := 0, -1, [];
    }

    /** jsmn_init on a cleared token array. */
    method Init()
      modifies this
      ensures Valid() && Abs() == INITIAL
    {
      pos, toksuper, tokens := 0, -1, [];
    }

    /** Takes a fresh token from the array; fails when it is used up. */
    method AllocToken(numTokens: nat) returns (ok: bool)
      modifies `tokens
      ensures ok == (|old(tokens)| < numTokens)
      ensures tokens == if ok then old(tokens) + [Token(Undefined, -1, -1, 0, -1)] else old(tokens)
    {
      ok := |tokens| < numTokens;
      if ok {
        tokens := tokens + [Token(Undefined, -1, -1, 0, -1)];
      }
    }

    /** Writes the token allocated last. */
    method FillLast(kind: Kind, start: int, end: int, parent: int)
      requires tokens != []
      modifies `tokens
      ensures tokens == old(tokens)[..|old(tokens)| - 1] + [Token(kind, start, end, 0, parent)]
    {
      tokens := tokens[|tokens| - 1 := Token(kind, start, end, 0, parent)];
    }

    /** Counts one more child of the superior token. */
    method CountChild()
      requires -1 <= toksuper < |tokens|
      modifies `tokens
      ensures tokens == Count(old(tokens), toksuper)
    {
      if toksuper != -1 {
        tokens := tokens[toksuper := tokens[toksuper].(size := tokens[toksuper].size + 1)];
      }
    }

    /** Skips a run of hexadecimal digits in place. */
    method SkipHex(js: string, n: nat) returns (ok: bool)
      modifies `pos
      ensures ok <==> HexEnd(js, old(pos), n).Some?
      ensures ok ==> HexEnd(js, old(pos), n) == Some(pos)
    {
      var i := 0;
      while i < n && pos < |js| && js[pos] != '\0'
        invariant 0 <= i <= n
        invariant HexEnd(js, pos, n - i) == HexEnd(js, old(pos), n)
      {
        if !IsHex(js[pos]) {
          return false;
        }
        pos := pos + 1;
        i := i + 1;
      }
      return true;
    }

    /** jsmn_parse_string: on success pos is left on the closing quote. */
    method ParseString(js: string, numTokens: nat) returns (r: int)
      requires Valid() && !AtEnd(js, pos)
      modifies this
      ensures toksuper == old(toksuper)
      ensures var scan := StringEnd(js, old(pos) + 1);
              match scan
              case Bad => r == INVAL && Abs() == old(Abs())
              case More => r == PART && Abs() == old(Abs())
              case Found(q) =>
                if |old(tokens)| >= numTokens then r == NOMEM && Abs() == old(Abs())
                else r == 0 && pos == q && tokens == old(tokens) + [Token(String, old(pos) + 1, q, 0, toksuper)]
    {
      hide HexEnd, IsHex, IsEscape, Wf;
      var start := pos;
      pos := pos + 1;
      while pos < |js| && js[pos] != '\0'
        invariant start < pos <= |js|
        invariant tokens == old(tokens) && toksuper == old(toksuper)
        invariant StringEnd(js, pos) == StringEnd(js, start + 1)
        decreases |js| - pos
      {
        var c := js[pos];
        if c == '\"' {
          var ok := AllocToken(numTokens);
          if !ok {
            pos := start;
            return NOMEM;
          }
          FillLast(String, start + 1, pos, toksuper);
          return 0;
        }
        if c == '\\' && pos + 1 < |js| {
          pos := pos + 1;
          var e := js[pos];
          if IsEscape(e) {
          } else if e == 'x' || e == 'u' {
            pos := pos + 1;
            var ok := SkipHex(js, if e == 'x' then 2 else 4);
            if !ok {
              pos := start;
              return INVAL;
            }
            pos := pos - 1;
          } else {
            pos := start;
            return INVAL;
          }
        }
        pos := pos + 1;
      }
      pos := start;
      return PART;
    }

    /** jsmn_parse_primitive: on success pos is left before the delimiter. */
    method ParsePrimitive(js: string, numTokens: nat) returns (r: int)
      requires Valid() && !AtEnd(js, pos) && !IsDelimiter(js[pos])
      modifies this
      ensures toksuper == old(toksuper)
      ensures var scan := PrimitiveEnd(js, old(pos));
              match scan
              case Bad => r == INVAL && Abs() == old(Abs())
              case More => r == PART && Abs() == old(Abs())
              case Found(q) =>
                if |old(tokens)| >= numTokens then r == NOMEM && Abs() == old(Abs())
                else r == 0 && pos + 1 == q && tokens == old(tokens) + [Token(Primitive, old(pos), q, 0, toksuper)]
    {
      var start := pos;
      while pos < |js| && js[pos] != '\0'
        invariant start <= pos <= |js|
        invariant tokens == old(tokens) && toksuper == old(toksuper)
        invariant PrimitiveEnd(js, pos) == PrimitiveEnd(js, start)
        decreases |js| - pos
      {
        if IsDelimiter(js[pos]) {
          var ok := AllocToken(numTokens);
          if !ok {
            pos := start;
            return NOMEM;
          }
          FillLast(Primitive, start, pos, toksuper);
          pos := pos - 1;
          return 0;
        }
        if js[pos] < ' ' || js[pos] >= 127 as char {
          pos := start;
          return INVAL;
        }
        pos := pos + 1;
      }
      pos := start;
      return PART;
    }

    /** A '{' or '['. */
    method OpenContainer(kind: Kind, numTokens: nat) returns (r: int)
      requires Valid()
      modifies this
      ensures match OpenStep(old(Abs()), kind, numTokens)
              case Stop(code, st) => r == code && Abs() == st
              case Next(st) => r == 0 && Abs() == st.(pos := pos) && pos == old(pos)
    {
      var ok := AllocToken(numTokens);
      if !ok {
        return NOMEM;
      }
      if toksuper != -1 {
        if tokens[toksuper].kind == Object {
          return INVAL;
        }
        CountChild();
      }
      FillLast(kind, pos, -1, toksuper);
      toksuper := |tokens| - 1;
      return 0;
    }

    /** A '}' or ']': climbs the parent links from the last token. */
    method CloseContainer(kind: Kind) returns (r: int)
      requires Valid()
      modifies this
      ensures match CloseStep(old(Abs()), kind)
              case Stop(code, st) => r == code && Abs() == st
              case Next(st) => r == 0 && Abs() == st.(pos := pos) && pos == old(pos)
    {
      if |tokens| < 1 {
        return INVAL;
      }
      var i := |tokens| - 1;
      while true
        invariant 0 <= i < |tokens| && Climb(tokens, i) == Climb(tokens, |tokens| - 1)
        invariant Abs() == old(Abs())
        decreases i
      {
        var t := tokens[i];
        if t.start != -1 && t.end == -1 {
          if t.kind != kind {
            return INVAL;
          }
          tokens := tokens[i := t.(end := pos + 1)];
          toksuper := t.parent;
          return 0;
        }
        if t.parent == -1 {
          if t.kind != kind || toksuper == -1 {
            return INVAL;
          }
          return 0;
        }
        i := t.parent;
      }
    }

    /** One pass through the switch; pos is left for the loop to advance. */
    method Dispatch(js: string, numTokens: nat) returns (r: int)
      requires Valid() && !AtEnd(js, pos)
      modifies this
      ensures match Step(js, numTokens, old(Abs()))
              case Stop(code, st) => r == code && r < 0 && Abs() == st
              case Next(st) => r == 0 && Abs().(pos := pos + 1) == st
    {
      hide StringEnd, PrimitiveEnd, Climb;
      r := 0;
      var c := js[pos];
      if c == '{' || c == '[' {
        r := OpenContainer(if c == '{' then Object else Array, numTokens);
      } else if c == '}' || c == ']' {
        r := CloseContainer(if c == '}' then Object else Array);
      } else if c == '\"' {
        r := ParseString(js, numTokens);
        if r == 0 {
          CountLast();
        }
      } else if c in "\t\r\n " {
      } else if c == ':' {
        toksuper := |tokens| - 1;
      } else if c == ',' {
        if toksuper != -1 && tokens[toksuper].kind != Array && tokens[toksuper].kind != Object {
          toksuper := tokens[toksuper].parent;
        }
      } else if StartsPrimitive(c) {
        if toksuper != -1 {
          var t := tokens[toksuper];
          if t.kind == Object || (t.kind == String && t.size != 0) {
            return INVAL;
          }
        }
        r := ParsePrimitive(js, numTokens);
        if r == 0 {
          CountLast();
        }
      } else {
        r := INVAL;
      }
    }

    /** Counting the child after appending it is counting it before. */
    method CountLast()
      requires tokens != [] && -1 <= toksuper < |tokens| - 1
      modifies `tokens
      ensures tokens == Count(old(tokens)[..|old(tokens)| - 1], toksuper) + [old(tokens)[|old(tokens)| - 1]]
    {
      CountChild();
    }

    /** jsmn_parse. */
    method Parse(js: string, numTokens: nat) returns (r: int)
      requires Valid()
      modifies this
      ensures Valid() && (r, Abs()) == Run(js, numTokens, old(Abs()))
    {
      hide Step;
      RunWf(js, numTokens, Abs());
      var count := |tokens|;
      while pos < |js| && js[pos] != '\0'
        invariant Valid() && count == |tokens|
        invariant Run(js, numTokens, Abs()) == Run(js, numTokens, old(Abs()))
        decreases |js| - pos
      {
        StepAdvances(js, numTokens, Abs());
        StepCounts(js, numTokens, Abs());
        var c := js[pos];
        r := Dispatch(js, numTokens);
        if r < 0 {
          return;
        }
        if c in "{[\"" || StartsPrimitive(c) {
          count := count + 1;
        }
        pos := pos + 1;
      }
      var i := |tokens| - 1;
      while i >= 0
        invariant -1 <= i < |tokens|
        invariant forall k :: i < k < |tokens| ==> !IsOpen(tokens[k])
      {
        if tokens[i].start != -1 && tokens[i].end == -1 {
          return PART;
        }
        i := i - 1;
      }
      return count;
    }
  }

  /** A completed step allocates one token for a value and none otherwise. */
  lemma StepCounts(js: string, cap: nat, st: State)
    requires Wf(st) && !AtEnd(js, st.pos)
    ensures var c := js[st.pos];
            Step(js, cap, st).Next? ==>
            |Step(js, cap, st).st.toks| == |st.toks| + if c in "{[\"" || StartsPrimitive(c) then 1 else 0
  {
  }
}
