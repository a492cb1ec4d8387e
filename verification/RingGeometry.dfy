/** Blocks on a ring of words: a run of consecutive blocks that starts at some
    word, never straddles the end, and continues at word 0 when it reaches it. */
module RingGeometry {

  /** A header word at `at`, then `extent` payload words. */
  datatype Block = Block(at: nat, extent: nat, live: bool) {
    function Size(): nat { 1 + extent }
    predicate Holds(w: nat) { at <= w < at + Size() }
  }

  function Wrap(cap: nat, x: nat): nat {
    if x >= cap then x - cap else x
  }

  function Used(blocks: seq<Block>): nat {
    if blocks == [] then 0 else blocks[0].Size() + Used(blocks[1..])
  }

  /** The blocks follow each other from `at` on. */
  predicate Tiled(cap: nat, at: nat, blocks: seq<Block>)
    decreases |blocks|
  {
    at < cap && (blocks == [] || (
      && blocks[0].at == at && at + blocks[0].Size() <= cap
      && Tiled(cap, Wrap(cap, at + blocks[0].Size()), blocks[1..])))
  }

  /** How far word w lies from `at`, going up and around. */
  function Distance(cap: nat, at: nat, w: nat): (d: nat)
    requires at < cap && w < cap
    ensures d < cap
  {
    if w >= at then w - at else w + cap - at
  }

  function Live(blocks: seq<Block>): seq<Block> {
    if blocks == [] then []
    else (if blocks[0].live then [blocks[0]] else []) + Live(blocks[1..])
  }

  /** Where the run ends. */
  function End(cap: nat, at: nat, blocks: seq<Block>): nat
    requires at < cap && Used(blocks) <= cap
  {
    Wrap(cap, at + Used(blocks))
  }

  lemma {:induction false} UsedConcat(a: seq<Block>, b: seq<Block>)
    ensures Used(a + b) == Used(a) + Used(b)
  {
    if a == [] {
      assert a + b == b;
    } else {
      assert (a + b)[1..] == a[1..] + b;
      UsedConcat(a[1..], b);
    }
  }

  lemma {:induction false} LiveConcat(a: seq<Block>, b: seq<Block>)
    ensures Live(a + b) == Live(a) + Live(b)
  {
    if a == [] {
      assert a + b == b;
    } else {
      assert (a + b)[1..] == a[1..] + b;
      LiveConcat(a[1..], b);
      var first := if a[0].live then [a[0]] else [];
      assert Live(a) == first + Live(a[1..]) && Live(a + b) == first + Live(a[1..] + b);
      assert first + (Live(a[1..]) + Live(b)) == (first + Live(a[1..])) + Live(b);
    }
  }

  /** Appending a block where the run ends. */
  lemma {:induction false} TiledAppend(cap: nat, at: nat, blocks: seq<Block>, b: Block)
    requires Tiled(cap, at, blocks) && Used(blocks) + b.Size() <= cap
    requires b.at == End(cap, at, blocks) && b.at + b.Size() <= cap
    ensures Tiled(cap, at, blocks + [b])
    ensures Used(blocks + [b]) == Used(blocks) + b.Size()
    ensures End(cap, at, blocks + [b]) == Wrap(cap, b.at + b.Size())
    decreases |blocks|
  {
    UsedConcat(blocks, [b]);
    assert Used([b]) == b.Size();
    if blocks == [] {
      assert (blocks + [b])[1..] == [];
    } else {
      assert (blocks + [b])[1..] == blocks[1..] + [b];
      TiledAppend(cap, Wrap(cap, at + blocks[0].Size()), blocks[1..], b);
    }
  }

  /** Block k holds exactly the words at the distances its predecessors leave. */
  lemma {:induction false} BlockHolds(cap: nat, at: nat, blocks: seq<Block>, k: nat, w: nat)
    requires Tiled(cap, at, blocks) && Used(blocks) <= cap && k < |blocks| && w < cap
    ensures blocks[k].Holds(w) <==> Used(blocks[..k]) <= Distance(cap, at, w) < Used(blocks[..k + 1])
    ensures blocks[k].at + blocks[k].Size() <= cap
    decreases |blocks|
  {
    var size := blocks[0].Size();
    if k == 0 {
      assert blocks[..1] == [blocks[0]];
    } else {
      var next := Wrap(cap, at + size);
      assert blocks[..k] == [blocks[0]] + blocks[1..][..k - 1];
      assert blocks[..k + 1] == [blocks[0]] + blocks[1..][..k];
      UsedConcat([blocks[0]], blocks[1..][..k - 1]);
      UsedConcat([blocks[0]], blocks[1..][..k]);
      UsedPrefix(blocks[1..], k);
      BlockHolds(cap, next, blocks[1..], k - 1, w);
    }
  }

  lemma {:induction false} UsedPrefix(blocks: seq<Block>, k: nat)
    requires k <= |blocks|
    ensures Used(blocks[..k]) <= Used(blocks)
    ensures k < |blocks| ==> Used(blocks[..k]) + blocks[k].Size() == Used(blocks[..k + 1])
  {
    UsedConcat(blocks[..k], blocks[k..]);
    assert blocks[..k] + blocks[k..] == blocks;
    if k < |blocks| {
      UsedConcat(blocks[..k], [blocks[k]]);
      assert blocks[..k] + [blocks[k]] == blocks[..k + 1];
      assert Used([blocks[k]]) == blocks[k].Size();
    }
  }

  lemma UsedOrdered(blocks: seq<Block>, i: nat, j: nat)
    requires i <= j <= |blocks|
    ensures Used(blocks[..i]) <= Used(blocks[..j])
  {
    UsedPrefix(blocks[..j], i);
    assert blocks[..j][..i] == blocks[..i];
  }

  /** No word belongs to two blocks. */
  lemma BlocksDisjoint(cap: nat, at: nat, blocks: seq<Block>, i: nat, j: nat, w: nat)
    requires Tiled(cap, at, blocks) && Used(blocks) <= cap && i < j < |blocks| && w < cap
    ensures !(blocks[i].Holds(w) && blocks[j].Holds(w))
  {
    BlockHolds(cap, at, blocks, i, w);
    BlockHolds(cap, at, blocks, j, w);
    UsedOrdered(blocks, i + 1, j);
  }

  predicate Occupied(blocks: seq<Block>, w: nat) {
    exists k :: 0 <= k < |blocks| && blocks[k].Holds(w)
  }

  /** The blocks tile exactly the words less than Used away from the start. */
  lemma {:induction false} OccupiedIs(cap: nat, at: nat, blocks: seq<Block>, w: nat)
    requires Tiled(cap, at, blocks) && Used(blocks) <= cap && w < cap
    ensures Occupied(blocks, w) <==> Distance(cap, at, w) < Used(blocks)
    decreases |blocks|
  {
    if blocks != [] {
      var next := Wrap(cap, at + blocks[0].Size());
      OccupiedIs(cap, next, blocks[1..], w);
      OccupiedSplit(blocks, w);
      if Occupied(blocks[1..], w) {
        var k :| 0 <= k < |blocks[1..]| && blocks[1..][k].Holds(w);
        BlockHolds(cap, at, blocks, k + 1, w);
        UsedPrefix(blocks, k + 2);
      }
    }
  }

  lemma OccupiedSplit(blocks: seq<Block>, w: nat)
    requires blocks != []
    ensures Occupied(blocks, w) <==> blocks[0].Holds(w) || Occupied(blocks[1..], w)
  {
    assert forall k :: 0 < k < |blocks| ==> blocks[k] == blocks[1..][k - 1];
    assert forall k :: 0 <= k < |blocks[1..]| ==> blocks[1..][k] == blocks[k + 1];
  }

  /** A stretch of n words from a that no block touches. */
  predicate FreeStretch(cap: nat, blocks: seq<Block>, a: nat, n: nat) {
    a + n <= cap && forall w :: a <= w < a + n ==> !Occupied(blocks, w)
  }

  ghost predicate HasRoom(cap: nat, blocks: seq<Block>, n: nat) {
    exists a: nat :: FreeStretch(cap, blocks, a, n)
  }

  /** The space the allocator looks at: behind the head, then before the tail. */
  predicate Fits(cap: nat, head: nat, tail: nat, extent: nat) {
    if head > tail then extent + 1 <= cap - head || extent + 1 <= tail
    else head < tail && extent + 1 <= tail - head
  }

  /** It misses nothing: there is room behind the head or before the tail exactly
      when there is room anywhere between the blocks. */
  lemma {:induction false} FitsIsFree(cap: nat, tail: nat, blocks: seq<Block>, extent: nat)
    requires Tiled(cap, tail, blocks) && 0 < Used(blocks) <= cap
    ensures Fits(cap, End(cap, tail, blocks), tail, extent) <==> HasRoom(cap, blocks, extent + 1)
  {
    var head, n := End(cap, tail, blocks), extent + 1;
    forall w | 0 <= w < cap
      ensures Occupied(blocks, w) <==> Distance(cap, tail, w) < Used(blocks)
    {
      OccupiedIs(cap, tail, blocks, w);
    }
    if Fits(cap, head, tail, extent) {
      var a := if head > tail && n > cap - head then 0 else head;
      assert FreeStretch(cap, blocks, a, n);
    }
    assert Occupied(blocks, tail);
    if a: nat :| FreeStretch(cap, blocks, a, n) {
      assert !Occupied(blocks, a) && !Occupied(blocks, a + extent);
      assert !(a < tail <= a + extent);
    }
  }
}
