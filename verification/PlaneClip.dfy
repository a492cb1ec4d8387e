/** Clipping of a polyline or polygon against a plane: cull_ of
    include/cpph/math/plane.hxx.  A vertex is given by the side it lies on
    (true: above), an output by the vertex it copies or the edge it cuts. */
module PlaneClip {

  datatype Out = Vertex(i: nat) | Contact(a: nat, b: nat)

  /** Outputs begin..end form one piece. */
  datatype Fence = Fence(begin: nat, end: nat)

  // ----- the naive clip, edge by edge -----

  /** A vertex and, unless it is the last, the cut of the edge that leaves it. */
  function AtVertex(u: seq<bool>, i: nat): seq<Out>
    requires i < |u|
  {
    (if u[i] then [Vertex(i)] else [])
    + (if i + 1 < |u| && u[i] != u[i + 1] then [Contact(i, i + 1)] else [])
  }

  function Naive(u: seq<bool>, lo: nat, hi: nat): seq<Out>
    requires lo <= hi <= |u|
    decreases hi - lo
  {
    if lo == hi then [] else Naive(u, lo, hi - 1) + AtVertex(u, hi - 1)
  }

  /** The cut of the edge from the last vertex back to the first. */
  function Closing(u: seq<bool>, closed: bool): seq<Out>
    requires u != []
  {
    if closed && u[|u| - 1] != u[0] then [Contact(|u| - 1, 0)] else []
  }

  /** Where the loop really starts: at the first vertex below, if any. */
  function Start(u: seq<bool>, from: nat): (s: nat)
    requires from <= |u|
    ensures from <= s <= |u|
    ensures forall k :: from <= k < s ==> u[k]
    ensures s < |u| ==> !u[s]
    decreases |u| - from
  {
    if from == |u| || !u[from] then from else Start(u, from + 1)
  }

  // ----- pieces -----

  /** y may follow x in one piece: along the boundary, or, in a polygon, along the
      plane from the last cut to the cut of the closing edge. */
  predicate Follows(u: seq<bool>, closed: bool, x: Out, y: Out) {
    match (x, y)
    case (Vertex(i), Vertex(j)) => j == i + 1 || (closed && i + 1 == |u| && j == 0)
    case (Vertex(i), Contact(a, b)) => a == i
    case (Contact(a, b), Vertex(j)) => j == b
    case (Contact(a, b), Contact(c, d)) => closed && c + 1 == |u| && d == 0
  }

  predicate Piece(u: seq<bool>, closed: bool, piece: seq<Out>) {
    forall k :: 0 < k < |piece| ==> Follows(u, closed, piece[k - 1], piece[k])
  }

  /** One piece ends and another begins at b. */
  predicate BreaksAt(u: seq<bool>, closed: bool, out: seq<Out>, b: nat) {
    0 < b < |out| ==> !Follows(u, closed, out[b - 1], out[b])
  }

  /** The fences cut the outputs into consecutive pieces of at least two, as long as can be:
      the last fence is around a piece that ends the outputs and does not go on from what
      is before it, the others cut that. */
  predicate Fenced(u: seq<bool>, closed: bool, out: seq<Out>, fences: seq<Fence>, offset: nat)
    decreases |fences|
  {
    if fences == [] then out == [] else
    var last := fences[|fences| - 1];
    && offset <= last.begin && last.begin + 2 <= last.end == offset + |out|
    && Piece(u, closed, out[last.begin - offset..]) && BreaksAt(u, closed, out, last.begin - offset)
    && Fenced(u, closed, out[..last.begin - offset], fences[..|fences| - 1], offset)
  }

  /** The outputs before begin are fenced, those from begin on are the start of a piece. */
  predicate Open(u: seq<bool>, closed: bool, out: seq<Out>, fences: seq<Fence>, offset: nat, begin: nat) {
    && begin <= |out| && Fenced(u, closed, out[..begin], fences, offset) && Piece(u, closed, out[begin..])
    && BreaksAt(u, closed, out, begin)
  }

  lemma NaiveSkips(u: seq<bool>, lo: nat, mid: nat, hi: nat)
    requires lo <= mid <= hi <= |u|
    requires forall k :: mid <= k < hi ==> !u[k]
    requires hi < |u| ==> mid == hi || !u[hi]
    ensures Naive(u, lo, hi) == Naive(u, lo, mid)
    decreases hi - mid
  {
    if mid < hi {
      NaiveSkips(u, lo, mid, hi - 1);
    }
  }

  lemma {:induction false} NaiveSplit(u: seq<bool>, lo: nat, mid: nat, hi: nat)
    requires lo <= mid <= hi <= |u|
    ensures Naive(u, lo, hi) == Naive(u, lo, mid) + Naive(u, mid, hi)
    decreases hi - mid
  {
    if mid < hi {
      NaiveSplit(u, lo, mid, hi - 1);
    }
  }

  lemma PieceConcat(u: seq<bool>, closed: bool, x: seq<Out>, y: seq<Out>)
    requires Piece(u, closed, x) && Piece(u, closed, y)
    requires x != [] && y != [] ==> Follows(u, closed, x[|x| - 1], y[0])
    ensures Piece(u, closed, x + y)
  {
  }

  lemma OpenStart(u: seq<bool>, closed: bool, out: seq<Out>, fences: seq<Fence>, offset: nat)
    requires Fenced(u, closed, out, fences, offset)
    ensures Open(u, closed, out, fences, offset, |out|)
  {
    assert out[..|out|] == out;
  }

  lemma OpenGrows(u: seq<bool>, closed: bool, out: seq<Out>, more: seq<Out>, fences: seq<Fence>, offset: nat,
      begin: nat)
    requires Open(u, closed, out, fences, offset, begin) && Piece(u, closed, more)
    requires begin < |out| && more != [] ==> Follows(u, closed, out[|out| - 1], more[0])
    requires begin == |out| > 0 && more != [] ==> !Follows(u, closed, out[|out| - 1], more[0])
    ensures Open(u, closed, out + more, fences, offset, begin)
  {
    hide Follows, Fenced;
    PieceConcat(u, closed, out[begin..], more);
    hide Piece;
    assert (out + more)[..begin] == out[..begin];
    assert (out + more)[begin..] == out[begin..] + more;
  }

  lemma {:induction false} FencedGrows(u: seq<bool>, closed: bool, done: seq<Out>, piece: seq<Out>,
      fences: seq<Fence>, offset: nat)
    requires Fenced(u, closed, done, fences, offset) && |piece| >= 2 && Piece(u, closed, piece)
    requires BreaksAt(u, closed, done + piece, |done|)
    ensures Fenced(u, closed, done + piece, fences + [Fence(offset + |done|, offset + |done + piece|)], offset)
  {
    hide Piece;
    var all := fences + [Fence(offset + |done|, offset + |done + piece|)];
    assert (done + piece)[|done|..] == piece && (done + piece)[..|done|] == done;
    assert all[..|all| - 1] == fences;
  }

  lemma OpenCloses(u: seq<bool>, closed: bool, out: seq<Out>, fences: seq<Fence>, offset: nat, begin: nat)
    requires Open(u, closed, out, fences, offset, begin) && begin + 2 <= |out|
    ensures Fenced(u, closed, out, fences + [Fence(offset + begin, offset + |out|)], offset)
  {
    hide Fenced, Piece;
    FencedGrows(u, closed, out[..begin], out[begin..], fences, offset);
    assert out == out[..begin] + out[begin..];
  }

  /** What one call hands to the two output functions. */
  class Sink {
    var out: seq<Out>
    var fences: seq<Fence>
    var segmentBegin: nat
    const offset: nat

    constructor (offset: nat)
      ensures out == [] && fences == [] && segmentBegin == 0 && this.offset == offset
    {
      out, fences, segmentBegin := [], [], 0;
      this.offset := offset;
    }

    method Append(x: Out)
      modifies `out
      ensures out == old(out) + [x]
    {
      out := out + [x];
    }

    /** A fence around what was appended since the segment began; a polygon gets
        none around fewer than two outputs. */
    method SetFence(closed: bool)
      requires segmentBegin <= |out|
      modifies `fences
      ensures fences == if closed && |out| - segmentBegin < 2 then old(fences)
                        else old(fences) + [Fence(offset + segmentBegin, offset + |out|)]
    {
      if closed && |out| - segmentBegin < 2 {
        return;
      }
      fences := fences + [Fence(offset + segmentBegin, offset + |out|)];
    }
  }

  // ----- runs of vertices -----

  function Run(a: nat, b: nat): (r: seq<Out>)
    requires a <= b
    ensures |r| == b - a && forall k :: 0 <= k < b - a ==> r[k] == Vertex(a + k)
  {
    seq(b - a, k requires 0 <= k => Vertex(a + k))
  }

  /** A run above the plane, and its cut when it is followed by a vertex below. */
  lemma {:induction false} NaiveRun(u: seq<bool>, a: nat, b: nat)
    requires a < b <= |u| && forall k :: a <= k < b ==> u[k]
    ensures b == |u| ==> Naive(u, a, b) == Run(a, b)
    ensures b < |u| && !u[b] ==> Naive(u, a, b) == Run(a, b) + [Contact(b - 1, b)]
    ensures b < |u| && u[b] ==> Naive(u, a, b) == Run(a, b)
    decreases b - a
  {
    if a + 1 < b {
      NaiveRun(u, a, b - 1);
      assert Run(a, b) == Run(a, b - 1) + [Vertex(b - 1)];
    } else {
      assert Naive(u, a, a) == [];
      assert Run(a, b) == [Vertex(a)];
    }
  }

  lemma PieceRun(u: seq<bool>, closed: bool, a: nat, b: nat)
    requires a < b
    ensures Piece(u, closed, Run(a, b))
  {
  }

  /** The vertices before the first one below, and the cut after them. */
  lemma FirstPiece(u: seq<bool>, closed: bool, s: nat)
    requires 0 < s < |u| && !u[s] && forall k :: 0 <= k < s ==> u[k]
    ensures var piece := Naive(u, 0, s);
            && piece == Run(0, s) + [Contact(s - 1, s)] && |piece| == s + 1 && piece[0] == Vertex(0)
               && piece[s] == Contact(s - 1, s)
            && Piece(u, closed, piece)
  {
    NaiveRun(u, 0, s);
    hide Naive;
    PieceRun(u, closed, 0, s);
    PieceConcat(u, closed, Run(0, s), [Contact(s - 1, s)]);
  }

  // ----- the two states of the loop -----

  /** Below the plane: everything up to now is written and fenced. */
  ghost predicate AtLower(u: seq<bool>, closed: bool, sink: Sink, s: nat, now: int)
    reads sink
  {
    && s < |u| && !u[s] && s - 1 <= now < |u| && (now >= s ==> !u[now])
    && sink.out == Naive(u, s, if now < s then s else now)
    && Fenced(u, closed, sink.out, sink.fences, sink.offset)
  }

  /** Above it: the segment has begun with the cut before now. */
  ghost predicate AtUpper(u: seq<bool>, closed: bool, sink: Sink, s: nat, now: int)
    reads sink
  {
    && s < now < |u| && u[now]
    && sink.out == Naive(u, s, now)
    && sink.segmentBegin + 1 == |sink.out| && sink.out[sink.segmentBegin] == Contact(now - 1, now)
    && Open(u, closed, sink.out, sink.fences, sink.offset, sink.segmentBegin)
  }

  /** What the whole call must have written. */
  ghost predicate Done(u: seq<bool>, closed: bool, sink: Sink, s: nat)
    requires s <= |u| && u != []
    reads sink
  {
    && sink.out == Naive(u, s, |u|) + Naive(u, 0, s) + Closing(u, closed)
    && Fenced(u, closed, sink.out, sink.fences, sink.offset)
  }

  /** Writes the vertices before the first one below, and the cut after them. */
  method AppendFirst(u: seq<bool>, closed: bool, s: nat, sink: Sink)
    requires 0 < s < |u| && !u[s] && forall k :: 0 <= k < s ==> u[k]
    requires Open(u, closed, sink.out, sink.fences, sink.offset, sink.segmentBegin)
    requires sink.segmentBegin < |sink.out| ==> closed && sink.out[|sink.out| - 1] == Vertex(|u| - 1)
    requires sink.segmentBegin == |sink.out| > 0 ==> !Follows(u, closed, sink.out[|sink.out| - 1], Vertex(0))
    modifies sink`out
    ensures sink.out == old(sink.out) + Naive(u, 0, s) && |Naive(u, 0, s)| == s + 1
    ensures sink.out[|sink.out| - 1] == Contact(s - 1, s)
    ensures Open(u, closed, sink.out, sink.fences, sink.offset, sink.segmentBegin)
  {
    hide Fenced;
    FirstPiece(u, closed, s);
    hide Naive, Piece;
    OpenGrows(u, closed, sink.out, Naive(u, 0, s), sink.fences, sink.offset, sink.segmentBegin);
    hide Open, Follows;
    WriteFirst(s, sink);
  }

  method WriteFirst(s: nat, sink: Sink)
    requires s > 0
    modifies sink`out
    ensures sink.out == old(sink.out) + (Run(0, s) + [Contact(s - 1, s)])
  {
    var i := 0;
    while i < s
      invariant 0 <= i <= s
      invariant sink.out == old(sink.out) + Run(0, i)
    {
      sink.Append(Vertex(i));
      i := i + 1;
      assert Run(0, i) == Run(0, i - 1) + [Vertex(i - 1)];
    }
    sink.Append(Contact(s - 1, s));
  }

  /** Writes the cut of one edge. */
  method AppendContact(u: seq<bool>, closed: bool, a: nat, b: nat, sink: Sink)
    requires Open(u, closed, sink.out, sink.fences, sink.offset, sink.segmentBegin)
    requires sink.segmentBegin < |sink.out| ==> Follows(u, closed, sink.out[|sink.out| - 1], Contact(a, b))
    requires sink.segmentBegin == |sink.out| > 0 ==> !Follows(u, closed, sink.out[|sink.out| - 1], Contact(a, b))
    modifies sink`out
    ensures sink.out == old(sink.out) + [Contact(a, b)]
    ensures Open(u, closed, sink.out, sink.fences, sink.offset, sink.segmentBegin)
  {
    hide Open;
    OpenGrows(u, closed, sink.out, [Contact(a, b)], sink.fences, sink.offset, sink.segmentBegin);
    sink.Append(Contact(a, b));
  }

  /** Sets the fence around a finished piece. */
  method CloseSegment(u: seq<bool>, closed: bool, sink: Sink)
    requires sink.segmentBegin + 2 <= |sink.out|
    requires Open(u, closed, sink.out, sink.fences, sink.offset, sink.segmentBegin)
    modifies sink`fences
    ensures Fenced(u, closed, sink.out, sink.fences, sink.offset)
  {
    hide Open, Fenced;
    OpenCloses(u, closed, sink.out, sink.fences, sink.offset, sink.segmentBegin);
    sink.SetFence(closed);
  }

  method BeginSegment(u: seq<bool>, closed: bool, sink: Sink)
    requires Fenced(u, closed, sink.out, sink.fences, sink.offset)
    modifies sink`segmentBegin
    ensures sink.segmentBegin == |sink.out|
    ensures Open(u, closed, sink.out, sink.fences, sink.offset, sink.segmentBegin)
  {
    hide Open, Fenced;
    OpenStart(u, closed, sink.out, sink.fences, sink.offset);
    sink.segmentBegin := |sink.out|;
  }

  /** Below the plane the last output, if there is one, is the cut by which the line came
      down: no piece goes on from it. */
  lemma {:induction false} LastCut(u: seq<bool>, lo: nat, hi: nat)
    requires lo <= hi < |u| && !u[lo] && !u[hi]
    ensures var out := Naive(u, lo, hi);
            out != [] ==> out[|out| - 1].Contact? && out[|out| - 1].b > 0
    decreases hi - lo
  {
    if lo < hi && !u[hi - 1] {
      LastCut(u, lo, hi - 1);
    }
  }

  /** One round below the plane; done when no vertex above is left. */
  method Lower(u: seq<bool>, closed: bool, sink: Sink, s: nat, now: int) returns (next: nat, done: bool)
    requires AtLower(u, closed, sink, s, now) && forall k :: 0 <= k < s ==> u[k]
    modifies sink
    ensures done ==> Done(u, closed, sink, s)
    ensures !done ==> now < next && AtUpper(u, closed, sink, s, next)
  {
    hide Open, Fenced, Naive, Done;
    next := now + 1;
    while next < |u| && !u[next]
      invariant s <= next <= |u| && now < next
      invariant forall k :: s <= k < next && now < k ==> !u[k]
    {
      next := next + 1;
    }
    ghost var m: nat := if now < s then s else now;
    LastCut(u, s, m);
    done := next == |u|;
    if done {
      NaiveSkips(u, s, m, |u|);
      LowerEnd(u, closed, sink, s);
    } else {
      NaiveSkips(u, s, m, next - 1);
      NaiveStep(u, s, next);
      BeginSegment(u, closed, sink);
      AppendContact(u, closed, next - 1, next, sink);
    }
  }

  lemma NaiveStep(u: seq<bool>, lo: nat, hi: nat)
    requires lo < hi <= |u|
    ensures Naive(u, lo, hi) == Naive(u, lo, hi - 1) + AtVertex(u, hi - 1)
  {
  }

  lemma NaiveNone(u: seq<bool>)
    ensures Naive(u, 0, 0) == []
  {
  }

  /** The last vertex is below: only the deferred first vertices are left. */
  method LowerEnd(u: seq<bool>, closed: bool, sink: Sink, s: nat)
    requires s < |u| && !u[s] && !u[|u| - 1] && (forall k :: 0 <= k < s ==> u[k])
    requires sink.out == Naive(u, s, |u|)
    requires Fenced(u, closed, sink.out, sink.fences, sink.offset)
    modifies sink
    ensures Done(u, closed, sink, s)
  {
    hide Open, Fenced, Naive;
    NaiveNone(u);
    LastCut(u, s, |u| - 1);
    NaiveSkips(u, s, |u| - 1, |u|);
    if s > 0 {
      BeginSegment(u, closed, sink);
      AppendFirst(u, closed, s, sink);
      if closed {
        AppendContact(u, closed, |u| - 1, 0, sink);
      }
      CloseSegment(u, closed, sink);
    }
  }

  /** Writes a run of vertices above the plane. */
  method AppendRun(u: seq<bool>, now: nat, sink: Sink) returns (next: nat)
    requires now < |u| && u[now]
    modifies sink`out
    ensures now < next <= |u| && (forall k :: now <= k < next ==> u[k]) && (next < |u| ==> !u[next])
    ensures sink.out == old(sink.out) + Run(now, next)
  {
    next := now + 1;
    sink.Append(Vertex(now));
    assert Run(now, now + 1) == [Vertex(now)];
    while next < |u| && u[next]
      invariant now < next <= |u| && forall k :: now <= k < next ==> u[k]
      invariant sink.out == old(sink.out) + Run(now, next)
    {
      sink.Append(Vertex(next));
      next := next + 1;
      assert Run(now, next) == Run(now, next - 1) + [Vertex(next - 1)];
    }
  }

  /** What the clip has reached when a run above the plane, from now to next, is written. */
  lemma RunWritten(u: seq<bool>, closed: bool, out: seq<Out>, fences: seq<Fence>, offset: nat, begin: nat, s: nat,
      now: nat, next: nat)
    requires s <= now < next <= |u| && (forall k :: now <= k < next ==> u[k]) && (next < |u| ==> !u[next])
    requires now > 0 && out == Naive(u, s, now) && begin + 1 == |out| && out[begin] == Contact(now - 1, now)
    requires Open(u, closed, out, fences, offset, begin)
    ensures Open(u, closed, out + Run(now, next), fences, offset, begin)
    ensures Naive(u, s, next) == out + Run(now, next) + if next < |u| then [Contact(next - 1, next)] else []
    ensures (out + Run(now, next))[|out + Run(now, next)| - 1] == Vertex(next - 1)
  {
    hide Fenced, AtVertex;
    NaiveRun(u, now, next);
    NaiveSplit(u, s, now, next);
    hide Naive, Open;
    PieceRun(u, closed, now, next);
    hide Piece;
    OpenGrows(u, closed, out, Run(now, next), fences, offset, begin);
  }

  /** One round above the plane; done when no vertex below is left. */
  method Upper(u: seq<bool>, closed: bool, sink: Sink, s: nat, now: nat) returns (next: nat, done: bool)
    requires AtUpper(u, closed, sink, s, now) && !u[s] && forall k :: 0 <= k < s ==> u[k]
    modifies sink
    ensures done ==> Done(u, closed, sink, s)
    ensures !done ==> now < next && AtLower(u, closed, sink, s, next)
  {
    hide Open, Fenced, Naive, Done;
    ghost var before := sink.out;
    next := AppendRun(u, now, sink);
    RunWritten(u, closed, before, sink.fences, sink.offset, sink.segmentBegin, s, now, next);
    done := next == |u|;
    if done {
      UpperEnd(u, closed, sink, s);
    } else {
      AppendContact(u, closed, next - 1, next, sink);
      CloseSegment(u, closed, sink);
    }
  }

  /** The last vertex is above: the deferred first vertices, or the closing cut. */
  method UpperEnd(u: seq<bool>, closed: bool, sink: Sink, s: nat)
    requires s < |u| && !u[s] && u[|u| - 1] && (forall k :: 0 <= k < s ==> u[k])
    requires sink.out == Naive(u, s, |u|) && sink.segmentBegin + 2 <= |sink.out|
    requires sink.out[|sink.out| - 1] == Vertex(|u| - 1)
    requires Open(u, closed, sink.out, sink.fences, sink.offset, sink.segmentBegin)
    modifies sink
    ensures Done(u, closed, sink, s)
  {
    hide Open, Fenced;
    if s > 0 {
      hide Naive;
      if !closed {
        CloseSegment(u, closed, sink);
        BeginSegment(u, closed, sink);
      }
      AppendFirst(u, closed, s, sink);
      CloseSegment(u, closed, sink);
    } else {
      if closed {
        AppendContact(u, closed, |u| - 1, 0, sink);
      }
      CloseSegment(u, closed, sink);
    }
  }

  /** cull_: the outputs are those of the naive edge-by-edge clip, begun at the
      first vertex below the plane, with the closing cut last. */
  method Cull(u: seq<bool>, closed: bool, offset: nat) returns (out: seq<Out>, fences: seq<Fence>)
    ensures |u| < 2 ==> out == [] && fences == []
    ensures |u| >= 2 ==>
              var s := if Start(u, 0) == |u| then 0 else Start(u, 0);
              && out == Naive(u, s, |u|) + Naive(u, 0, s) + Closing(u, closed)
              && Fenced(u, closed, out, fences, offset)
    ensures |u| >= 2 ==> forall x :: Count(out, x) == Expected(u, closed, x)
  {
    if |u| < 2 {
      return [], [];
    }
    out, fences := CullLine(u, closed, offset);
    ghost var s := if Start(u, 0) == |u| then 0 else Start(u, 0);
    hide Naive, Closing, Fenced, Expected, Start;
    forall x ensures Count(out, x) == Expected(u, closed, x) {
      EachOnce(u, closed, s, x);
    }
  }

  /** The same for a line of at least two vertices. */
  method CullLine(u: seq<bool>, closed: bool, offset: nat) returns (out: seq<Out>, fences: seq<Fence>)
    requires |u| >= 2
    ensures var s := if Start(u, 0) == |u| then 0 else Start(u, 0);
            && out == Naive(u, s, |u|) + Naive(u, 0, s) + Closing(u, closed)
            && Fenced(u, closed, out, fences, offset)
  {
    hide Open, Follows;
    var sink := new Sink(offset);
    var s := 0;
    if u[0] {
      s := 1;
      while s < |u| && u[s]
        invariant 1 <= s <= |u| && forall k :: 0 <= k < s ==> u[k]
      {
        s := s + 1;
      }
      if s == |u| {
        out, fences := AllAbove(u, closed, sink);
        StartIs(u, 0, s);
        return;
      }
    }
    StartIs(u, 0, s);
    assert AtLower(u, closed, sink, s, s - 1);
    hide AtLower, AtUpper, Naive, Fenced;
    var now: int := s - 1;
    var isUpper, done := false, false;
    while !done
      invariant done ==> Done(u, closed, sink, s)
      invariant !done && isUpper ==> AtUpper(u, closed, sink, s, now)
      invariant !done && !isUpper ==> AtLower(u, closed, sink, s, now)
      invariant !done ==> now < |u|
      decreases !done, |u| - now
    {
      hide Done;
      if isUpper {
        UpperBound(u, closed, sink, s, now);
        now, done := Upper(u, closed, sink, s, now);
        if !done { LowerBound(u, closed, sink, s, now); }
        isUpper := false;
      } else {
        now, done := Lower(u, closed, sink, s, now);
        if !done { UpperBound(u, closed, sink, s, now); }
        isUpper := true;
      }
    }
    return sink.out, sink.fences;
  }

  lemma UpperBound(u: seq<bool>, closed: bool, sink: Sink, s: nat, now: int)
    requires AtUpper(u, closed, sink, s, now)
    ensures 0 <= s < now < |u|
  {
  }

  lemma LowerBound(u: seq<bool>, closed: bool, sink: Sink, s: nat, now: int)
    requires AtLower(u, closed, sink, s, now)
    ensures 0 <= s < |u| && s - 1 <= now < |u|
  {
  }

  /** No vertex is below: one piece, all of the input. */
  method AllAbove(u: seq<bool>, closed: bool, sink: Sink) returns (out: seq<Out>, fences: seq<Fence>)
    requires |u| >= 2 && forall k :: 0 <= k < |u| ==> u[k]
    requires sink.out == [] && sink.fences == [] && sink.segmentBegin == 0
    modifies sink
    ensures out == Naive(u, 0, |u|) + Naive(u, 0, 0) + Closing(u, closed)
    ensures Fenced(u, closed, out, fences, sink.offset)
  {
    hide Follows;
    OpenStart(u, closed, [], [], sink.offset);
    PieceRun(u, closed, 0, |u|);
    hide Piece, Fenced;
    OpenGrows(u, closed, [], Run(0, |u|), [], sink.offset, 0);
    hide Open;
    var next := AppendRun(u, 0, sink);
    NaiveRun(u, 0, |u|);
    CloseSegment(u, closed, sink);
    return sink.out, sink.fences;
  }

  lemma {:induction false} StartIs(u: seq<bool>, from: nat, s: nat)
    requires from <= s <= |u| && (forall k :: from <= k < s ==> u[k]) && (s < |u| ==> !u[s])
    ensures Start(u, from) == s
    decreases s - from
  {
    if from < s {
      StartIs(u, from + 1, s);
    }
  }

  // ----- what it means -----

  /** How often the clip of the closed or open line u has to write x: once if x is
      a vertex above the plane, or the cut of an edge between the two sides. */
  function Expected(u: seq<bool>, closed: bool, x: Out): nat {
    match x
    case Vertex(i) => if i < |u| && u[i] then 1 else 0
    case Contact(a, b) =>
      if a < |u| && b < |u| && u[a] != u[b] && (b == a + 1 || (closed && a + 1 == |u| && b == 0)) then 1 else 0
  }

  function Count(s: seq<Out>, x: Out): nat {
    multiset(s)[x]
  }

  lemma CountConcat(a: seq<Out>, b: seq<Out>, x: Out)
    ensures Count(a + b, x) == Count(a, x) + Count(b, x)
  {
  }

  lemma CountNone(x: Out)
    ensures Count([], x) == 0
  {
  }

  lemma CountOne(y: Out, x: Out)
    ensures Count([y], x) == if x == y then 1 else 0
  {
  }

  /** The part of that which the vertices lo..hi and the edges leaving them account for. */
  function Share(u: seq<bool>, lo: nat, hi: nat, x: Out): nat
    requires lo <= hi <= |u|
  {
    match x
    case Vertex(i) => if lo <= i < hi && u[i] then 1 else 0
    case Contact(a, b) => if lo <= a < hi && b == a + 1 < |u| && u[a] != u[b] then 1 else 0
  }

  lemma CountAtVertex(u: seq<bool>, i: nat, x: Out)
    requires i < |u|
    ensures Count(AtVertex(u, i), x) == Share(u, i, i + 1, x)
  {
    var cut := i + 1 < |u| && u[i] != u[i + 1];
    CountConcat(if u[i] then [Vertex(i)] else [], if cut then [Contact(i, i + 1)] else [], x);
    CountOne(Vertex(i), x);
    CountOne(Contact(i, i + 1), x);
    CountNone(x);
    hide Count;
  }

  lemma ShareSplit(u: seq<bool>, lo: nat, mid: nat, hi: nat, x: Out)
    requires lo <= mid <= hi <= |u|
    ensures Share(u, lo, hi, x) == Share(u, lo, mid, x) + Share(u, mid, hi, x)
  {
  }

  lemma {:induction false} NaiveOnce(u: seq<bool>, lo: nat, hi: nat, x: Out)
    requires lo <= hi <= |u|
    ensures Count(Naive(u, lo, hi), x) == Share(u, lo, hi, x)
    decreases hi - lo
  {
    hide Count;
    if lo == hi {
      CountNone(x);
    } else {
      NaiveOnce(u, lo, hi - 1, x);
      ShareSplit(u, lo, hi - 1, hi, x);
      CountAtVertex(u, hi - 1, x);
      NaiveStep(u, lo, hi);
      hide AtVertex, Naive, Share;
      CountConcat(Naive(u, lo, hi - 1), AtVertex(u, hi - 1), x);
    }
  }

  /** Wherever the clip begins, nothing is left out and nothing is written twice. */
  lemma {:induction false} EachOnce(u: seq<bool>, closed: bool, s: nat, x: Out)
    requires |u| >= 2 && s <= |u|
    ensures Count(Naive(u, s, |u|) + Naive(u, 0, s) + Closing(u, closed), x) == Expected(u, closed, x)
  {
    hide Naive;
    NaiveOnce(u, s, |u|, x);
    NaiveOnce(u, 0, s, x);
    CountConcat(Naive(u, s, |u|) + Naive(u, 0, s), Closing(u, closed), x);
    CountConcat(Naive(u, s, |u|), Naive(u, 0, s), x);
    assert closed && u[|u| - 1] != u[0] ==> multiset(Closing(u, closed)) == multiset{Contact(|u| - 1, 0)};
  }

  function Crossings(u: seq<bool>, lo: nat, hi: nat): nat
    requires lo <= hi <= |u|
    decreases hi - lo
  {
    if lo == hi then 0 else Crossings(u, lo, hi - 1) + if hi < |u| && u[hi - 1] != u[hi] then 1 else 0
  }

  function Below(u: seq<bool>, lo: nat, hi: nat): nat
    requires lo <= hi <= |u|
    decreases hi - lo
  {
    if lo == hi then 0 else Below(u, lo, hi - 1) + if u[hi - 1] then 0 else 1
  }

  lemma {:induction false} NaiveSize(u: seq<bool>, lo: nat, hi: nat)
    requires lo <= hi <= |u|
    ensures |Naive(u, lo, hi)| == (hi - lo) - Below(u, lo, hi) + Crossings(u, lo, hi)
    decreases hi - lo
  {
    if lo < hi {
      NaiveSize(u, lo, hi - 1);
    }
  }

  /** The source says that clipping never yields more vertices than it is given.
      That holds exactly when no more edges cross the plane than vertices lie
      below it. */
  lemma DoesNotExpand(u: seq<bool>, closed: bool, s: nat)
    requires u != [] && s <= |u|
    ensures var out := Naive(u, s, |u|) + Naive(u, 0, s) + Closing(u, closed);
            |out| <= |u| <==> Crossings(u, 0, |u|) + |Closing(u, closed)| <= Below(u, 0, |u|)
  {
    NaiveSplit(u, 0, s, |u|);
    NaiveSize(u, 0, |u|);
  }

  /** It fails already for a triangle with one corner below, where the clip begins at
      that corner: four outputs. */
  lemma TriangleExpands()
    ensures var u := [true, true, false];
            Start(u, 0) == 2 && |Naive(u, 2, 3) + Naive(u, 0, 2) + Closing(u, true)| == 4
  {
    var u := [true, true, false];
    StartIs(u, 0, 2);
    assert Naive(u, 0, 0) == [] && Naive(u, 2, 2) == [];
    assert Naive(u, 2, 3) == [];
    assert Naive(u, 0, 1) == [Vertex(0)];
    assert Naive(u, 0, 2) == [Vertex(0), Vertex(1), Contact(1, 2)];
  }
}
