/** The JSON reader of include/cpph/refl/archive/json-reader.hxx: it reads one
    root value from a character stream, tokenizing again whenever it may be
    complete and enlarging the token array on demand, and then navigates the
    flat token array with a cursor and a stack of scopes. */
module JsonReader {
  import opened Wrappers
  import opened Jsmn
  import opened JsmnTree
  import opened JsmnText
  import opened JsmnParser
  import JsonCursor

  const NPOS := JsonCursor.NPOS

  datatype Status = Ready | Refused | EndOfFile

  /** rest[..k] is the shortest text that completes the first root value. */
  ghost predicate FirstRoot(rest: string, k: nat) {
    && k <= |rest| && Complete(rest[..k])
    && forall j :: 0 <= j < k ==> !Complete(rest[..j])
  }

  ghost predicate NoRoot(rest: string) {
    forall j :: 0 <= j <= |rest| ==> !Complete(rest[..j])
  }

  /** The first index not before `from` whose token starts at or after e, by
      binary search (std::lower_bound). */
  method LowerBound(tokens: seq<Token>, from: nat, e: int) returns (r: nat)
    requires from <= |tokens| && Ordered(tokens)
    ensures r == Boundary(tokens, from, e)
  {
    r := from;
    var count := |tokens| - from;
    while count > 0
      invariant from <= r && 0 <= count && r + count <= |tokens|
      invariant forall k :: from <= k < r ==> tokens[k].start < e
      invariant r + count < |tokens| ==> tokens[r + count].start >= e
      decreases count
    {
      var step := count / 2;
      if tokens[r + step].start < e {
        r := r + step + 1;
        count := count - (step + 1);
      } else {
        count := step;
      }
    }
    BoundaryUnique(tokens, from, e, r);
  }

  class Reader {
    const input: string      // what the stream buffer delivers
    var at: nat              // how much of it has been read
    var buffer: string
    const parser: Parser
    var posNext: int
    var scopes: seq<JsonCursor.Scope>
    var keygen: int

    ghost predicate Valid()
      reads this, parser
    {
      && at <= |input| && parser.Valid()
      && (posNext != NPOS ==> 0 <= posNext <= |parser.tokens|)
      && JsonCursor.Inside(parser.tokens, Cursor())
      && (posNext != NPOS || scopes != [] ==> Ordered(parser.tokens))
    }

    ghost function Cursor(): JsonCursor.Cursor
      reads this
    {
      JsonCursor.Cursor(posNext, scopes, keygen)
    }

    constructor (text: string)
      ensures Valid() && fresh(parser) && input == text && at == 0 && posNext == NPOS
    {
      input := text;
      at, buffer, posNext, scopes, keygen := 0, "", NPOS, [], 0;
      parser := new Parser();
    }

    /** The buffer holds the beginning of rest, the text from its first character on. */
    ghost predicate Reading(rest: string)
      reads this
    {
      |buffer| <= at <= |input| && input[at - |buffer|..] == rest && buffer <= rest
    }

    /** The parser stands where a call on `seen` with the present room left it. */
    ghost predicate Resumable(room: nat, seen: string)
      reads this, parser
    {
      && parser.Valid() && seen <= buffer
      && Run(seen, room, INITIAL).0 != INVAL
      && parser.Abs() == Run(seen, room, INITIAL).1
    }

    /** Reads one more character into the buffer. */
    method ReadChar(ghost rest: string) returns (c: Option<char>)
      requires Reading(rest)
      modifies `buffer, `at
      ensures Reading(rest)
      ensures c.None? ==> buffer == old(buffer) == rest
      ensures c.Some? ==> buffer == old(buffer) + [c.value]
    {
      if at == |input| {
        assert |rest| == |buffer|;
        return None;
      }
      var ch := input[at];
      assert rest[|buffer|] == ch;
      buffer := buffer + [ch];
      at := at + 1;
      return Some(ch);
    }

    /** One call of the tokenizer on the buffer: it resumes, and its result is
        that of a single call on the buffer. */
    method Tokenize(room: nat, ghost before: nat, ghost seen: string) returns (r: int)
      requires before <= room && Resumable(before, seen)
      modifies parser
      ensures parser.Valid() && (r, parser.Abs()) == Run(buffer, room, INITIAL)
      ensures r != INVAL ==> Resumable(room, buffer)
    {
      Resume(seen, before, buffer, room, INITIAL);
      hide Run;
      r := parser.Parse(buffer, room);
      if r != INVAL {
        Resume(buffer, room, buffer, room, INITIAL);
      }
    }

    /** The first phase: one call per character until a token appears. */
    method ReadFirstToken(ghost rest: string) returns (s: Status, ghost shorter: string)
      requires Reading(rest) && buffer == "" && parser.Valid() && parser.Abs() == INITIAL
      modifies parser, `buffer, `at
      ensures Reading(rest) && parser.Valid()
      ensures s == Ready || s == Refused || s == EndOfFile
      ensures s != Ready ==> NoRoot(rest)
      ensures s == Ready ==>
                && |buffer| > 0 && shorter == buffer[..|buffer| - 1] && Undecided(shorter)
                && Whole(shorter).1.toks == []
                && Resumable(8, buffer) && Whole(buffer) == (Whole(buffer).0, parser.Abs()) && parser.tokens != []
                && Whole(buffer).0 != INVAL
    {
      hide Run, Complete, Whole;
      EmptyUndecided();
      s, shorter := Ready, "";
      assert Resumable(8, "");
      assert Whole("") == (0, INITIAL) by { RoomDecided("", 8); }
      while parser.tokens == []
        invariant Reading(rest) && Resumable(8, buffer) && parser.Abs() == Whole(buffer).1 && Whole(buffer).0 != INVAL
        invariant parser.tokens == [] ==> Undecided(buffer)
        invariant parser.tokens != [] ==>
                    && |buffer| > 0 && shorter == buffer[..|buffer| - 1] && Undecided(shorter)
                    && Whole(shorter).1.toks == []
        decreases |rest| - |buffer|, parser.tokens == []
      {
        shorter := buffer;
        var c := ReadChar(rest);
        if c.None? {
          NoRootAtEnd(rest);
          return EndOfFile, shorter;
        }
        assert shorter == buffer[..|buffer| - 1];
        var r := Tokenize(8, 8, shorter);
        if r == NOMEM || r == INVAL {
          if r == NOMEM {
            FirstCallHasRoom(shorter, c.value);
          } else {
            RoomDecided(buffer, 8);
          }
          NoRootAfterRefusal(rest, shorter, c.value);
          return Refused, shorter;
        }
        RoomDecided(buffer, 8);
        if parser.tokens == [] {
          NothingComplete(buffer);
          UndecidedExtends(shorter, c.value);
        }
      }
    }

    /** Tokenizes the buffer, enlarging the token array while it is too small. */
    method TokenizeAll(size: nat, ghost seen: string) returns (r: int, room: nat)
      requires size >= 8 && Resumable(size, seen)
      modifies parser
      ensures size <= room && parser.Valid()
      ensures r == Whole(buffer).0
      ensures r != INVAL ==> Resumable(room, buffer) && parser.Abs() == Whole(buffer).1
    {
      hide Run;
      room := size;
      r := Tokenize(room, size, seen);
      while r == NOMEM
        invariant size <= room
        invariant parser.Valid() && (r, parser.Abs()) == Run(buffer, room, INITIAL)
        invariant r != INVAL ==> Resumable(room, buffer)
        decreases |buffer| - room, r == NOMEM
      {
        OutOfRoom(buffer, room, INITIAL);
        ghost var before := room;
        room := room * 3 / 2;
        r := Tokenize(room, before, buffer);
      }
      RoomDecided(buffer, room);
    }

    /** The second phase: reads on and tokenizes at every closing bracket of the
        root's kind. */
    method ReadContainer(ghost rest: string, stopChar: char) returns (s: Status)
      requires Reading(rest) && Resumable(8, buffer) && OpenRoot(buffer, stopChar)
      modifies parser, `buffer, `at
      ensures Reading(rest) && parser.Valid()
      ensures s == Ready || s == Refused || s == EndOfFile
      ensures s != Ready ==> NoRoot(rest)
      ensures s == Ready ==> FirstRoot(rest, |buffer|) && buffer == rest[..|buffer|]
      ensures s == Ready ==> parser.Valid() && parser.Abs() == Whole(buffer).1 && !AnyOpen(parser.tokens)
    {
      hide Run, Complete, Whole, OpenRoot;
      ghost var seen, refused := buffer, false;
      var room := 8;
      while true
        invariant Reading(rest) && room >= 8 && Resumable(room, seen)
        invariant if refused then NoRoot(rest) && Whole(buffer).0 == INVAL else OpenRoot(buffer, stopChar)
        decreases |rest| - |buffer|
      {
        ghost var prev := buffer;
        var c := ReadChar(rest);
        if c.None? {
          if !refused {
            OpenRootAtEnd(rest, stopChar);
          }
          return EndOfFile;
        }
        if refused {
          RefusedForever(prev, buffer);
        } else if Whole(buffer).0 == INVAL {
          refused := true;
          OpenRootRefused(rest, prev, c.value, stopChar);
        } else {
          OpenRootGrows(rest, prev, c.value, stopChar);
        }
        if c.value == stopChar {
          var r;
          r, room := TokenizeAll(room, seen);
          if r == INVAL || r == 0 {
            return Refused;
          } else if r == PART {
            seen := buffer;
          } else {
            CodeMeansClosed(buffer);
            assert buffer == rest[..|buffer|];
            return Ready;
          }
        }
      }
    }

    /** Both phases, on a cleared buffer and parser. */
    method ReadRoot(ghost rest: string) returns (s: Status)
      requires Reading(rest) && buffer == "" && parser.Valid() && parser.Abs() == INITIAL
      modifies parser, `buffer, `at
      ensures Reading(rest) && parser.Valid()
      ensures s != Ready ==> NoRoot(rest)
      ensures s == Ready ==> FirstRoot(rest, |buffer|) && parser.Abs() == Whole(buffer).1
    {
      hide Run, Complete, Whole, OpenRoot, Undecided;
      ghost var shorter;
      s, shorter := ReadFirstToken(rest);
      if s != Ready {
        return;
      }
      ghost var last := buffer[|buffer| - 1];
      assert shorter + [last] == buffer;
      FirstTokenDecides(rest, shorter, last);
      if parser.tokens[0].kind == Object {
        s := ReadContainer(rest, '}');
      } else if parser.tokens[0].kind == Array {
        s := ReadContainer(rest, ']');
      }
    }

    /** Reads the next root value unless one is being read already. */
    method Prepare() returns (s: Status)
      requires Valid()
      modifies `at, `buffer, `posNext, `scopes, parser
      ensures Valid() && old(at) <= at
      ensures old(posNext) != NPOS ==> s == Ready && at == old(at) && parser.Abs() == old(parser.Abs())
      ensures old(posNext) == NPOS && s == Ready ==>
                && FirstRoot(input[old(at)..], at - old(at)) && buffer == input[old(at)..at]
                && Cursor() == JsonCursor.Cursor(0, [], keygen) && parser.tokens == Whole(buffer).1.toks
      ensures old(posNext) == NPOS && s != Ready ==> NoRoot(input[old(at)..]) && posNext == NPOS
    {
      hide Run, Complete, FirstRoot, NoRoot;
      if posNext != NPOS {
        return Ready;
      }
      ghost var rest := input[at..];
      scopes, buffer := [], "";
      parser.Init();
      s := ReadRoot(rest);
      assert at - |buffer| == old(at) by {
        assert |rest| == |input| - old(at);
      }
      if s == Ready {
        posNext := 0;
        RootIsComplete(rest, |buffer|);
        assert rest[..|buffer|] == buffer == input[old(at)..at];
        WholeInv(buffer);
      }
    }

    /** Enters the container at the cursor and issues the key to leave it by. */
    method StepIn(kind: JsonCursor.ScopeType) returns (r: JsonCursor.Moved)
      requires Valid()
      modifies `posNext, `scopes, `keygen
      ensures Valid() && r == JsonCursor.StepIn(parser.tokens, old(Cursor()), kind)
      ensures Cursor() == if r.Moved? then r.cur else old(Cursor())
    {
      if posNext < 0 || posNext >= |parser.tokens| {
        return JsonCursor.Thrown(JsonCursor.OutOfRange);
      }
      var token := parser.tokens[posNext];
      if kind == JsonCursor.ObjectScope && token.kind != Object {
        return JsonCursor.Thrown(JsonCursor.ParseFailed);
      }
      if kind == JsonCursor.ArrayScope && token.kind != Array {
        return JsonCursor.Thrown(JsonCursor.ParseFailed);
      }
      keygen := keygen + 1;
      var elems := token.size * if kind == JsonCursor.ObjectScope then 2 else 1;
      scopes := scopes + [JsonCursor.Scope(kind, keygen, posNext, false, elems)];
      posNext := posNext + 1;
      return JsonCursor.Moved(JsonCursor.Cursor(posNext, scopes, keygen));
    }

    /** Consumes the entity at the cursor; a container is stepped over. */
    method Step() returns (r: JsonCursor.Moved)
      requires Valid()
      modifies `posNext, `scopes
      ensures Valid() && r == JsonCursor.Step(parser.tokens, old(Cursor()))
      ensures r.Moved? ==> Cursor() == r.cur
    {
      if scopes == [] {
        return JsonCursor.Moved(JsonCursor.Cursor(posNext, scopes, keygen));
      }
      if posNext < 0 || posNext >= |parser.tokens| {
        return JsonCursor.Thrown(JsonCursor.OutOfRange);
      }
      hide Boundary;
      var top, token := scopes[|scopes| - 1], parser.tokens[posNext];
      if top.isKeyNext && token.kind != String {
        return JsonCursor.Thrown(JsonCursor.InvalidContext);
      }
      if token.kind == Object || token.kind == Array {
        posNext := LowerBound(parser.tokens, posNext, token.end);
      } else {
        posNext := posNext + 1;
      }
      if posNext == |parser.tokens| {
        posNext := NPOS;
      }
      var left := top.elemLeft;
      top := top.(elemLeft := top.elemLeft - 1);
      scopes := scopes[|scopes| - 1 := top];
      if left <= 0 {
        return JsonCursor.Thrown(JsonCursor.InvalidContext);
      }
      scopes := scopes[|scopes| - 1 := top.(isKeyNext := false)];
      return JsonCursor.Moved(JsonCursor.Cursor(posNext, scopes, keygen));
    }

    /** read_key_next. */
    method KeyNext() returns (r: JsonCursor.Moved)
      requires Valid()
      modifies `scopes
      ensures Valid() && r == JsonCursor.KeyNext(parser.tokens, old(Cursor()))
      ensures Cursor() == if r.Moved? then r.cur else old(Cursor())
    {
      if scopes == [] {
        return JsonCursor.Thrown(JsonCursor.InvalidContext);
      }
      var top := scopes[|scopes| - 1];
      if top.isKeyNext {
        return JsonCursor.Thrown(JsonCursor.InvalidContext);
      }
      if top.kind != JsonCursor.ObjectScope {
        return JsonCursor.Thrown(JsonCursor.ParseFailed);
      }
      scopes := scopes[|scopes| - 1 := top.(isKeyNext := true)];
      return JsonCursor.Moved(JsonCursor.Cursor(posNext, scopes, keygen));
    }

    /** Searches the scopes from the top for a key; -1 if there is none. */
    method FindScope(key: int) returns (i: int)
      ensures i == match JsonCursor.FindKey(scopes, key) case Some(k) => k case None => -1
    {
      i := |scopes| - 1;
      assert scopes[..i + 1] == scopes;
      while i >= 0 && scopes[i].key != key
        invariant -1 <= i < |scopes|
        invariant JsonCursor.FindKey(scopes[..i + 1], key) == JsonCursor.FindKey(scopes, key)
      {
        assert scopes[..i + 1][..i] == scopes[..i];
        i := i - 1;
      }
    }

    /** Leaves the scope with the given key, and every scope opened inside it. */
    method StepOut(key: int) returns (r: JsonCursor.Moved)
      requires Valid()
      modifies `posNext, `scopes
      ensures Valid() && r == JsonCursor.StepOut(parser.tokens, old(Cursor()), key)
      ensures Cursor() == if r.Moved? then r.cur else old(Cursor())
    {
      var i := FindScope(key);
      hide Boundary, JsonCursor.FindKey;
      if i < 0 || scopes[i].isKeyNext {
        return JsonCursor.Thrown(JsonCursor.InvalidContext);
      }
      var token := scopes[i].tokenPos;
      posNext := LowerBound(parser.tokens, token, parser.tokens[token].end);
      scopes := scopes[..i];
      if scopes == [] {
        posNext := NPOS;
      } else {
        var top := scopes[|scopes| - 1];
        scopes := scopes[|scopes| - 1 := top.(elemLeft := top.elemLeft - 1, isKeyNext := false)];
      }
      return JsonCursor.Moved(JsonCursor.Cursor(posNext, scopes, keygen));
    }
  }

  lemma RootIsComplete(rest: string, k: nat)
    requires FirstRoot(rest, k)
    ensures k <= |rest| && Whole(rest[..k]).0 != INVAL && Whole(rest[..k]).1.toks != []
  {
  }

  /** Undecided, with the first token a container that stopChar closes. */
  ghost predicate OpenRoot(text: string, stopChar: char) {
    && Undecided(text) && Whole(text).1.toks != [] && IsOpen(Whole(text).1.toks[0])
    && (stopChar == '}' || stopChar == ']')
    && Whole(text).1.toks[0].kind == if stopChar == '}' then Object else Array
  }

  lemma OpenRootAtEnd(rest: string, stopChar: char)
    requires OpenRoot(rest, stopChar)
    ensures NoRoot(rest)
  {
    NoRootAtEnd(rest);
  }

  lemma OpenRootRefused(rest: string, text: string, c: char, stopChar: char)
    requires OpenRoot(text, stopChar) && text + [c] <= rest && Whole(text + [c]).0 == INVAL
    ensures NoRoot(rest)
  {
    NoRootAfterRefusal(rest, text, c);
  }

  /** One more accepted character: either it is the stop character and completes
      the root, or the root stays open. */
  lemma OpenRootGrows(rest: string, text: string, c: char, stopChar: char)
    requires OpenRoot(text, stopChar) && text + [c] <= rest && Whole(text + [c]).0 != INVAL
    ensures c != stopChar ==> OpenRoot(text + [c], stopChar)
    ensures Whole(text + [c]).0 == PART ==> OpenRoot(text + [c], stopChar)
    ensures Whole(text + [c]).0 != 0
    ensures Whole(text + [c]).0 > 0 ==> FirstRoot(rest, |text| + 1)
    ensures Whole(text + [c]).0 == PART || Whole(text + [c]).0 > 0
  {
    hide Whole;
    RootKindStays(text, c);
    CodeMeansClosed(text + [c]);
    if Complete(text + [c]) {
      RootClosedByLast(text, c);
      RootFound(rest, text, c);
    } else {
      UndecidedExtends(text, c);
    }
  }

  /** What the result codes of a call with room for everything say. */
  lemma CodeMeansClosed(text: string)
    ensures var r := Whole(text);
            && (r.0 >= 0 ==> r.0 == |r.1.toks| && !AnyOpen(r.1.toks))
            && (r.0 == INVAL || r.0 == PART || r.0 >= 0)
  {
    RoomEnough(text, |text|, INITIAL);
    CodeMeans(text, |text|, INITIAL);
  }

  lemma {:induction false} CodeMeans(js: string, cap: nat, st: State)
    requires Wf(st)
    ensures var r := Run(js, cap, st);
            && (r.0 >= 0 ==> r.0 == |r.1.toks| && !AnyOpen(r.1.toks))
            && (r.0 == INVAL || r.0 == PART || r.0 == NOMEM || r.0 >= 0)
    decreases |js| - st.pos
  {
    if !AtEnd(js, st.pos) {
      StepAdvances(js, cap, st);
      match Step(js, cap, st)
      case Stop(_, _) =>
      case Next(after) =>
        CodeMeans(js, cap, after);
    }
  }

  lemma FirstTokenDecides(rest: string, text: string, c: char)
    requires Undecided(text) && Whole(text).1.toks == [] && text + [c] <= rest
    requires Whole(text + [c]).0 != INVAL && Whole(text + [c]).1.toks != []
    ensures var kind := Whole(text + [c]).1.toks[0].kind;
            && kind != Undefined
            && (kind == Object ==> OpenRoot(text + [c], '}'))
            && (kind == Array ==> OpenRoot(text + [c], ']'))
            && (!IsContainer(kind) ==> FirstRoot(rest, |text| + 1))
  {
    hide Whole;
    FirstToken(text, c);
    if IsContainer(Whole(text + [c]).1.toks[0].kind) {
      UndecidedExtends(text, c);
    } else {
      RootFound(rest, text, c);
    }
  }

  lemma WholeInv(text: string)
    requires Whole(text).0 != INVAL
    ensures Inv(Whole(text).1)
  {
    hide Run, Inv;
    InitialInv();
    RunKeeps(text, |text|, INITIAL);
  }

  /** The tokenizer has read all of the buffer, whose first root is not complete
      yet, and neither was it at any shorter length. */
  ghost predicate Undecided(text: string) {
    Whole(text).0 != INVAL && forall j :: 0 <= j <= |text| ==> !Complete(text[..j])
  }

  lemma UndecidedExtends(text: string, c: char)
    requires Undecided(text) && Whole(text + [c]).0 != INVAL && !Complete(text + [c])
    ensures Undecided(text + [c])
  {
    hide Whole, Complete;
    forall j | 0 <= j <= |text| + 1
      ensures !Complete((text + [c])[..j])
    {
      if j <= |text| {
        assert (text + [c])[..j] == text[..j];
      } else {
        assert (text + [c])[..j] == text + [c];
      }
    }
  }

  /** Reading up to an undecided text and then a refused or exhausted one means
      the stream has no complete root at any length. */
  lemma NoRootAfterRefusal(rest: string, text: string, c: char)
    requires Undecided(text) && text + [c] <= rest && Whole(text + [c]).0 == INVAL
    ensures NoRoot(rest)
  {
    hide Whole;
    forall j | 0 <= j <= |rest|
      ensures !Complete(rest[..j])
    {
      if j <= |text| {
        assert rest[..j] == text[..j];
      } else {
        RefusedForever(text + [c], rest[..j]);
      }
    }
  }

  lemma NoRootAtEnd(rest: string)
    requires Undecided(rest)
    ensures NoRoot(rest)
  {
  }

  lemma RootFound(rest: string, text: string, c: char)
    requires Undecided(text) && text + [c] <= rest && Complete(text + [c])
    ensures FirstRoot(rest, |text| + 1)
  {
    hide Complete, Whole;
    assert rest[..|text| + 1] == text + [c];
    forall j | 0 <= j <= |text|
      ensures !Complete(rest[..j])
    {
      assert rest[..j] == text[..j];
    }
  }

  /** The eight tokens of the first calls are enough for one more character. */
  lemma FirstCallHasRoom(text: string, c: char)
    requires Whole(text).0 != INVAL && Whole(text).1.toks == []
    requires Run(text + [c], 8, INITIAL).0 == NOMEM
    ensures Whole(text + [c]).0 == INVAL
  {
    hide Run;
    if Whole(text + [c]).0 != INVAL {
      var longer, big := text + [c], |text| + 9;
      AtMostTwo(text, c);
      OutOfRoom(longer, 8, INITIAL);
      var st := Run(longer, 8, INITIAL).1;
      Resume(longer, 8, longer, big, INITIAL);
      RoomEnough(longer, big, INITIAL);
      RunLater(longer, big, st);
    }
  }

  lemma NothingComplete(text: string)
    requires Whole(text).1.toks == []
    ensures !Complete(text)
  {
  }

  lemma EmptyUndecided()
    ensures Undecided("") && Run("", 8, INITIAL) == (0, INITIAL)
  {
    assert ""[..0] == "";
  }

  /** A call that is not short of room decides as one with room for everything. */
  lemma RoomDecided(text: string, room: nat)
    requires Run(text, room, INITIAL).0 != NOMEM
    ensures Run(text, room, INITIAL) == Whole(text)
  {
    hide Run;
    var big := room + |text|;
    RoomIrrelevant(text, room, big, INITIAL);
    RoomEnough(text, big, INITIAL);
  }
}
