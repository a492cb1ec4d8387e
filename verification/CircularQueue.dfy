/** The circular queue of include/cpph/container/circular_queue.hxx: a buffer with one
    slot to spare, refining a FIFO that drops its oldest elements when it is full. */
module CircularQueue {

  import Bits

  // ----- the FIFO -----

  /** The last n elements. */
  function LastN<T>(s: seq<T>, n: nat): seq<T> {
    if |s| <= n then s else s[|s| - n..]
  }

  /** One element into a FIFO of at most n. */
  function Rotated<T>(s: seq<T>, x: T, n: nat): seq<T> {
    LastN(s + [x], n)
  }

  /** Elements one by one. */
  function RotatedAll<T>(s: seq<T>, xs: seq<T>, n: nat): seq<T>
    decreases |xs|
  {
    if xs == [] then s else Rotated(RotatedAll(s, xs[..|xs| - 1], n), xs[|xs| - 1], n)
  }

  lemma LastNOfLastN<T>(s: seq<T>, x: T, n: nat)
    ensures LastN(LastN(s, n) + [x], n) == LastN(s + [x], n)
  {
  }

  /** One by one or in one go: what remains are the last n of old and new together. */
  lemma {:induction false} OneByOne<T>(s: seq<T>, xs: seq<T>, n: nat)
    requires |s| <= n
    ensures RotatedAll(s, xs, n) == LastN(s + xs, n)
    decreases |xs|
  {
    if xs == [] {
      assert s + xs == s;
    } else {
      var before, x := xs[..|xs| - 1], xs[|xs| - 1];
      hide LastN;
      OneByOne(s, before, n);
      LastNOfLastN(s + before, x, n);
      assert s + before + [x] == s + xs;
    }
  }

  // ----- index arithmetic -----

  function Next(current: nat, cap: nat): nat {
    if current + 1 == cap then 0 else current + 1
  }

  /** The slot jmp slots further, or back. */
  function Jmp(at: nat, jmp: int, cap: nat): int
    requires cap > 0
  {
    if jmp >= 0 then (at + jmp) % cap else at + jmp + if at + jmp < 0 then cap else 0
  }

  lemma ModOnce(x: nat, cap: nat)
    requires x < 2 * cap
    ensures x % cap == if x >= cap then x - cap else x
  {
    if x >= cap {
      Bits.ModUnique(x, cap, 1, x - cap);
    } else {
      Bits.ModUnique(x, cap, 0, x);
    }
  }

  lemma JmpWraps(at: nat, jmp: int, cap: nat)
    requires at < cap && 0 <= at + jmp + cap && jmp <= cap
    ensures Jmp(at, jmp, cap)
            == if at + jmp >= cap then at + jmp - cap else if at + jmp < 0 then at + jmp + cap else at + jmp
  {
    if jmp >= 0 {
      ModOnce(at + jmp, cap);
    }
  }

  /** The elements between tail and head. */
  function Live<T>(data: seq<T>, cap: nat, tail: nat, head: nat): (s: seq<T>)
    requires tail < cap && head < cap && (cap > 1 ==> |data| == cap)
    ensures |s| == if head >= tail then head - tail else head + cap - tail
  {
    if tail == head then [] else if tail < head then data[tail..head] else data[tail..] + data[..head]
  }

  lemma LiveAt<T>(data: seq<T>, cap: nat, tail: nat, head: nat, k: nat)
    requires tail < cap && head < cap && (cap > 1 ==> |data| == cap) && k < |Live(data, cap, tail, head)|
    ensures |data| == cap && Live(data, cap, tail, head)[k] == data[Jmp(tail, k, cap)]
  {
    JmpWraps(tail, k, cap);
  }

  lemma LiveSplit<T>(data: seq<T>, cap: nat, tail: nat, head: nat, n: nat)
    requires tail < cap && head < cap && (cap > 1 ==> |data| == cap) && n <= |Live(data, cap, tail, head)|
    ensures var mid := Jmp(tail, n, cap);
            && 0 <= mid < cap && Live(data, cap, tail, head)[n..] == Live(data, cap, mid, head)
    ensures Live(data, cap, tail, head)[..n]
            == if n == 0 then [] else if tail < head then data[tail..tail + n]
               else if n <= cap - tail then data[tail..tail + n] else data[tail..] + data[..n - (cap - tail)]
  {
    JmpWraps(tail, n, cap);
  }

  lemma LastNSplit<T>(s: seq<T>, xs: seq<T>, n: nat, begin: nat, dropped: nat)
    requires |s| <= n
    requires begin == if |xs| > n then |xs| - n else 0
    requires dropped == if |s| + (|xs| - begin) > n then |s| + (|xs| - begin) - n else 0
    ensures dropped <= |s| && LastN(s + xs, n) == s[dropped..] + xs[begin..]
  {
  }

  /** Writing xs at head, with or without wrapping, appends it to what is live. */
  lemma LiveCopied<T>(before: seq<T>, after: seq<T>, cap: nat, tail: nat, head: nat, xs: seq<T>)
    requires tail < cap && head < cap && |before| == |after| == cap && xs != []
    requires |Live(before, cap, tail, head)| + |xs| < cap
    requires head + |xs| < cap ==> after == before[..head] + xs + before[head + |xs|..]
    requires head + |xs| >= cap ==> after == xs[cap - head..] + before[head + |xs| - cap..head] + xs[..cap - head]
    ensures var next := if head + |xs| < cap then head + |xs| else head + |xs| - cap;
            Live(after, cap, tail, next) == Live(before, cap, tail, head) + xs
  {
    if head + |xs| >= cap {
      var next := head + |xs| - cap;
      assert tail <= head && next < tail;
      assert after[tail..] == before[tail..head] + xs[..cap - head] && after[..next] == xs[cap - head..];
      assert before[tail..head] + xs[..cap - head] + xs[cap - head..] == before[tail..head] + xs;
    } else if tail <= head {
      assert after[tail..head + |xs|] == before[tail..head] + xs;
    } else {
      assert after[tail..] == before[tail..] && after[..head + |xs|] == before[..head] + xs;
      assert before[tail..] + before[..head] + xs == before[tail..] + (before[..head] + xs);
    }
  }

  class Queue<T(0)> {
    var data: array<T>
    var cap: nat
    var head: nat
    var tail: nat

    ghost predicate Valid()
      reads this
    {
      head < cap && tail < cap && data.Length == if cap > 1 then cap else 0
    }

    ghost function Contents(): (s: seq<T>)
      requires Valid()
      reads this, data
    {
      Live(data[..], cap, tail, head)
    }

    constructor (capacity: nat)
      ensures Valid() && fresh(data) && Capacity() == capacity && Contents() == []
    {
      cap := capacity + 1;
      data := new T[if capacity > 0 then capacity + 1 else 0];
      head, tail := 0, 0;
    }

    function Capacity(): nat
      reads this
      requires cap > 0
    {
      cap - 1
    }

    function Size(): (n: nat)
      requires Valid()
      reads this, data
      ensures n == |Contents()| <= Capacity()
    {
      if head >= tail then head - tail else head + cap - tail
    }

    predicate IsFull()
      requires Valid()
      reads this, data
      ensures IsFull() <==> |Contents()| == Capacity()
    {
      Next(head, cap) == tail
    }

    predicate Empty()
      requires Valid()
      reads this, data
      ensures Empty() <==> Contents() == []
    {
      head == tail
    }

    method Push(x: T)
      requires Valid() && !IsFull()
      modifies this`head, data
      ensures Valid() && Contents() == old(Contents()) + [x]
    {
      data[head] := x;
      head := Next(head, cap);
    }

    method Pop() returns (x: T)
      requires Valid() && !Empty()
      modifies this`tail
      ensures Valid() && [x] + Contents() == old(Contents())
    {
      x := data[tail];
      tail := Next(tail, cap);
    }

    /** emplace_rotate, push_back, enqueue: drops the oldest when full. */
    method Rotate(x: T)
      requires Valid() && Capacity() > 0
      modifies this`head, this`tail, data
      ensures Valid() && Contents() == Rotated(old(Contents()), x, Capacity())
    {
      if IsFull() {
        var dropped := Pop();
      }
      Push(x);
    }

    /** Forgets the n oldest. */
    method Drop(n: nat)
      requires Valid() && n <= Size()
      modifies this`tail
      ensures Valid() && Contents() == old(Contents())[n..]
    {
      LiveSplit(data[..], cap, tail, head, n);
      hide Live, Jmp;
      tail := Jmp(tail, n, cap);
    }

    /** The contents become the last of old and new elements together. */
    method EnqueueN(xs: seq<T>)
      requires Valid()
      modifies this`head, this`tail, data
      ensures Valid() && Contents() == LastN(old(Contents()) + xs, Capacity())
    {
      hide Live, LastN;
      var begin, total := 0, |xs|;
      if Capacity() < total {
        begin := total - Capacity();
        total := Capacity();
      }
      var space := Capacity() - Size();
      LastNSplit(Contents(), xs, Capacity(), begin, if space < total then total - space else 0);
      if space < total {
        Drop(total - space);
      }
      CopyIn(xs[begin..]);
    }

    /** Copies elements there is space for behind the newest. */
    method CopyIn(xs: seq<T>)
      requires Valid() && |Contents()| + |xs| <= Capacity()
      modifies this`head, data
      ensures Valid() && Contents() == old(Contents()) + xs
    {
      hide Live;
      var total := |xs|;
      JmpWraps(head, total, cap);
      if total > 0 {
        ghost var before := data[..];
        WriteWrapped(xs);
        LiveCopied(before, data[..], cap, tail, head, xs);
      }
      hide Jmp;
      head := Jmp(head, total, cap);
    }

    /** Writes from head to the end of the buffer, and the rest from its beginning. */
    method WriteWrapped(xs: seq<T>)
      requires head < cap == data.Length && 0 < |xs| < cap
      modifies data
      ensures var before := old(data[..]);
              && (head + |xs| < cap ==> data[..] == before[..head] + xs + before[head + |xs|..])
              && (head + |xs| >= cap ==>
                    data[..] == xs[cap - head..] + before[head + |xs| - cap..head] + xs[..cap - head])
    {
      hide Replaced;
      var nseq1 := if |xs| < cap - head then |xs| else cap - head;
      WriteAt(head, xs[..nseq1]);
      WriteAt(0, xs[nseq1..]);
      Written(old(data[..]), head, xs, nseq1);
    }

    /** The elements from at on replaced by others. */
    static function Replaced(before: seq<T>, at: nat, xs: seq<T>): (after: seq<T>)
      requires at + |xs| <= |before|
      ensures |after| == |before|
    {
      before[..at] + xs + before[at + |xs|..]
    }

    static lemma Written(before: seq<T>, head: nat, xs: seq<T>, nseq1: nat)
      requires head < |before| && 0 < |xs| < |before|
      requires nseq1 == if |xs| < |before| - head then |xs| else |before| - head
      ensures var after := Replaced(Replaced(before, head, xs[..nseq1]), 0, xs[nseq1..]);
              && (head + |xs| < |before| ==> after == before[..head] + xs + before[head + |xs|..])
              && (head + |xs| >= |before| ==>
                    after == xs[|before| - head..] + before[head + |xs| - |before|..head] + xs[..|before| - head])
    {
    }

    method WriteAt(at: nat, xs: seq<T>)
      requires at + |xs| <= data.Length
      modifies data
      ensures data[..] == Replaced(old(data[..]), at, xs)
    {
      for i := 0 to |xs|
        invariant forall k :: 0 <= k < data.Length ==> data[k] == if at <= k < at + i then xs[k - at] else old(data[k])
      {
        data[at + i] := xs[i];
      }
    }

    /** The n oldest, in order. */
    method DequeueN(n: nat) returns (out: seq<T>)
      requires Valid() && n <= Size()
      modifies this`tail
      ensures Valid() && out == old(Contents())[..n] && Contents() == old(Contents())[n..]
    {
      LiveSplit(data[..], cap, tail, head, n);
      if tail < head {
        var m := if head - tail < n then head - tail else n;
        out := data[tail..tail + m];
      } else {
        var nseq1 := if cap - tail < n then cap - tail else n;
        out := if n == 0 then [] else data[tail..tail + nseq1] + data[..n - nseq1];
      }
      hide Live;
      assert out == Contents()[..n];
      Drop(n);
    }

    /** Copies the n oldest to the back of another queue. */
    method CopyTo(next: Queue<T>, n: nat)
      requires Valid() && n <= Size() && next != this && next.data != data
      requires next.Valid() && next.Contents() == [] && n <= next.Capacity()
      modifies next`head, next`tail, next.data
      ensures next.Valid() && next.Contents() == Contents()[..n]
    {
      hide Live;
      for i := 0 to n
        invariant next.Valid() && next.Contents() == Contents()[..i]
      {
        LiveAt(data[..], cap, tail, head, i);
        JmpWraps(tail, i, cap);
        next.Rotate(data[Jmp(tail, i, cap)]);
      }
    }

    /** The oldest elements move to a buffer of the new capacity.  Capacity 0 clears the
        queue, but leaves head and tail: they fit the new capacity only if they were 0. */
    method ReserveShrink(newCap: nat)
      requires Valid()
      modifies this
      ensures cap > 0 && Capacity() == newCap
      ensures newCap > 0 || old(Capacity()) == 0 ==>
                && Valid()
                && Contents() == if |old(Contents())| <= newCap then old(Contents()) else old(Contents())[..newCap]
      ensures newCap == 0 < old(Capacity()) ==> head == tail && (Valid() <==> old(head) == 0)
    {
      hide Live, Jmp;
      if newCap == Capacity() {
        return;
      }
      if newCap == 0 {
        tail := head;
        data := new T[0];
        cap := 1;
        return;
      }
      var n := if Size() < newCap then Size() else newCap;
      var next := new Queue<T>(newCap);
      CopyTo(next, n);
      head, tail, data, cap := next.head, next.tail, next.data, next.cap;
    }
  }

  // ----- iterators -----

  /** The position of a slot, as iterator comparisons and differences use it. */
  function IdxLinear(i: nat, cap: nat, tail: nat, head: nat): int {
    if head >= tail then i else i - (if i >= tail then tail else 0) + (if i < tail then cap - tail else 0)
  }

  /** Iterator differences count elements, whether the contents wrap or not; and a
      step back undoes a step ahead. */
  lemma IteratorsCount(cap: nat, tail: nat, head: nat, i: nat, j: nat)
    requires tail < cap && head < cap
    requires var size := if head >= tail then head - tail else head + cap - tail; i <= j <= size
    ensures Jmp(tail, i, cap) >= 0 && Jmp(tail, j, cap) >= 0
    ensures IdxLinear(Jmp(tail, j, cap), cap, tail, head) - IdxLinear(Jmp(tail, i, cap), cap, tail, head) == j - i
    ensures Jmp(Jmp(tail, j, cap), i - j, cap) == Jmp(tail, i, cap)
  {
    JmpWraps(tail, i, cap);
    JmpWraps(tail, j, cap);
    JmpWraps(Jmp(tail, j, cap), i - j, cap);
  }
}
