/** The ring allocator of include/cpph/memory/ring_allocator.hxx (without its
    fallback): headers and payloads share one array of words, blocks are taken
    at the head, freed in any order and collected lazily at the tail. */
module RingAllocator {
  import opened Wrappers
  import opened RingGeometry

  const NULL := -1
  const WORD_BYTES := 8
  const SIZE_T := 0x1_0000_0000_0000_0000

  /** A word of the buffer, as it reads when taken for a header. */
  datatype Cell = Cell(pendingKill: bool, extent: nat)

  /** Bytes to words, rounded up, in the 64-bit arithmetic of the source. */
  function WordsFor(bytes: nat): nat {
    (bytes + (WORD_BYTES - 1)) % SIZE_T / WORD_BYTES
  }

  /** The words are the fewest that hold the bytes, eight in each, unless the addition
      wraps around; then there are none. */
  lemma WordsCover(bytes: nat)
    requires bytes < 0x1_0000_0000_0000_0000
    ensures 8 * WordsFor(bytes) >= bytes <==> bytes + 7 < 0x1_0000_0000_0000_0000
    ensures if bytes + 7 < 0x1_0000_0000_0000_0000 then 8 * WordsFor(bytes) < bytes + 8 else WordsFor(bytes) == 0
  {
  }

  class Ring {
    const memory: array<Cell>
    var head: int
    var tail: int
    ghost var blocks: seq<Block>   // from the tail on, in ring order; dead ones included

    ghost const cap: nat

    ghost predicate Valid()
      reads this, memory
    {
      && memory.Length == cap > 0
      && (tail == NULL <==> head == NULL)
      && (tail == NULL ==> blocks == [])
      && (tail != NULL ==>
            && 0 <= tail < cap && blocks != [] && blocks[0].live
            && Tiled(cap, tail, blocks) && Used(blocks) <= cap && head == End(cap, tail, blocks)
            && Headers(blocks))
    }

    /** Each block's header word tells its extent and whether it is dead. */
    ghost predicate Headers(bs: seq<Block>)
      reads memory
    {
      forall k :: 0 <= k < |bs| ==>
        bs[k].at < memory.Length && memory[bs[k].at] == Cell(!bs[k].live, bs[k].extent)
    }

    /** The live allocations, oldest first. */
    ghost function Allocations(): seq<Block>
      reads this
    {
      Live(blocks)
    }

    constructor (words: nat)
      requires words > 0
      ensures Valid() && fresh(memory) && cap == words && Allocations() == []
    {
      memory := new Cell[words](_ => Cell(false, 0));
      cap, head, tail, blocks := words, NULL, NULL, [];
    }

    /** empty(): exactly when nothing is live. */
    method Empty() returns (r: bool)
      requires Valid()
      ensures r <==> Allocations() == []
    {
      r := head == NULL;
    }

    /** front(): the payload of the oldest live allocation. */
    method Front() returns (p: nat)
      requires Valid() && Allocations() != []
      ensures p == Allocations()[0].at + 1
    {
      p := tail + 1;
    }

    /** next_node() without the wrap. */
    function NextNode(node: nat): nat
      requires node < memory.Length
      reads memory
    {
      node + 1 + memory[node].extent
    }

    /** Writes the header at the head and moves the head behind the block. */
    method Place(extent: nat, live: bool)
      requires memory.Length == cap > 0 && 0 <= head < cap && head + 1 + extent <= cap
      requires tail == NULL || (0 <= tail < cap && Tiled(cap, tail, blocks) && Headers(blocks)
                                && Used(blocks) + 1 + extent <= cap && head == End(cap, tail, blocks))
      requires tail == NULL ==> blocks == []
      modifies this`head, this`tail, this`blocks, memory
      ensures tail == if old(tail) == NULL then old(head) else old(tail)
      ensures blocks == old(blocks) + [Block(old(head), extent, live)]
      ensures Tiled(cap, tail, blocks) && Used(blocks) == Used(old(blocks)) + 1 + extent <= cap
      ensures head == End(cap, tail, blocks) && Headers(blocks)
    {
      if tail == NULL {
        tail := head;
      }
      ghost var b := Block(head, extent, live);
      assert blocks == [] ==> Used(blocks) == 0;
      forall k | 0 <= k < |blocks|
        ensures blocks[k].at != head
      {
        NotAtEnd(cap, tail, blocks, k);
      }
      TiledAppend(cap, tail, blocks, b);
      memory[head] := Cell(!live, extent);
      head := head + 1 + extent;
      if head == memory.Length {
        head := 0;
      }
      blocks := blocks + [b];
    }

    /** _allocate_ring: a payload index, or none.  It fails exactly when there is
        no free stretch for the block anywhere; a failed attempt may leave a dead
        filler behind the old head. */
    method Allocate(bytes: nat) returns (p: Option<nat>)
      requires Valid()
      modifies this, memory
      ensures Valid()
      ensures p.Some? <==> HasRoom(cap, old(blocks), WordsFor(bytes) + 1)
      ensures p.Some? ==>
                && p.value > 0
                && Allocations() == old(Allocations()) + [Block(p.value - 1, WordsFor(bytes), true)]
      ensures p.None? ==>
                && Allocations() == old(Allocations())
                && (blocks == old(blocks) || blocks == old(blocks) + [Block(old(head), cap - old(head) - 1, false)])
    {
      hide HasRoom, WordsFor;
      var nblk := WordsFor(bytes);
      if head == NULL {
        assert old(blocks) == [] && Live([]) == [];
        p := AllocateFirst(nblk);
      } else {
        FitsIsFree(cap, tail, blocks, nblk);
        if head > tail {
          p := AllocateEnd(nblk);
        } else if head < tail {
          p := AllocateFront(nblk);
        } else {
          return None;
        }
      }
    }

    /** The first block goes to the start of the buffer. */
    method AllocateFirst(nblk: nat) returns (p: Option<nat>)
      requires Valid() && head == NULL
      modifies this, memory
      ensures Valid()
      ensures p.Some? <==> HasRoom(cap, [], nblk + 1)
      ensures p.None? ==> blocks == []
      ensures p.Some? ==> p.value > 0 && Allocations() == [Block(p.value - 1, nblk, true)]
    {
      if nblk >= memory.Length {
        return None;
      }
      head := 0;
      assert FreeStretch(cap, [], 0, nblk + 1);
      Place(nblk, true);
      assert blocks == [Block(0, nblk, true)] && blocks[1..] == [];
      assert Live(blocks) == [blocks[0]] + Live([]);
      assert 0 <= head && Valid();
      return Some(1);
    }

    /** Allocation with the head above the tail: up to the end of the buffer, or
        behind a dead filler at its start. */
    method AllocateEnd(nblk: nat) returns (p: Option<nat>)
      requires Valid() && tail != NULL && head > tail
      modifies this, memory
      ensures Valid()
      ensures p.Some? <==> Fits(cap, old(head), old(tail), nblk)
      ensures p.Some? ==> p.value > 0 && Allocations() == old(Allocations()) + [Block(p.value - 1, nblk, true)]
      ensures p.None? ==>
                && Allocations() == old(Allocations())
                && (blocks == old(blocks) || blocks == old(blocks) + [Block(old(head), cap - old(head) - 1, false)])
    {
      UsedSpace(cap, tail, blocks);
      var space := memory.Length - (head + 1);
      if nblk <= space {
        LiveConcat(blocks, [Block(head, nblk, true)]);
        p := Some(head + 1);
        Place(nblk, true);
      } else if tail != 0 {
        LiveConcat(blocks, [Block(head, space, false)]);
        Place(space, false);
        p := AllocateFront(nblk);
      } else {
        return None;
      }
    }

    /** Allocation between the head and the tail above it. */
    method AllocateFront(nblk: nat) returns (p: Option<nat>)
      requires Valid() && tail != NULL && head < tail
      modifies this, memory
      ensures Valid()
      ensures p.Some? <==> nblk + 1 <= old(tail) - old(head)
      ensures p.None? ==> blocks == old(blocks)
      ensures p.Some? ==> p.value > 0 && Allocations() == old(Allocations()) + [Block(p.value - 1, nblk, true)]
    {
      var space := tail - head - 1;
      if nblk > space {
        return None;
      }
      UsedSpace(cap, tail, blocks);
      LiveConcat(blocks, [Block(head, nblk, true)]);
      p := Some(head + 1);
      Place(nblk, true);
    }

    /** _flush_ring: collects dead blocks at the tail. */
    method Flush()
      requires memory.Length == cap > 0 && 0 <= tail < cap && blocks != []
      requires Tiled(cap, tail, blocks) && Used(blocks) <= cap && head == End(cap, tail, blocks) && Headers(blocks)
      modifies this`head, this`tail, this`blocks
      ensures Valid() && Allocations() == old(Allocations())
    {
      while tail != NULL && memory[tail].pendingKill
        invariant tail == NULL <==> head == NULL
        invariant tail == NULL ==> blocks == []
        invariant tail != NULL ==>
                    && 0 <= tail < cap && blocks != []
                    && Tiled(cap, tail, blocks) && Used(blocks) <= cap && head == End(cap, tail, blocks)
                       && Headers(blocks)
        invariant Allocations() == old(Allocations())
        decreases |blocks|
      {
        assert memory[blocks[0].at] == Cell(!blocks[0].live, blocks[0].extent);
        tail := NextNode(tail);
        if tail == memory.Length {
          tail := 0;
        }
        if tail == head {
          RestEmpty(cap, blocks);
          tail, head := NULL, NULL;
        } else {
          assert Used(blocks[1..]) > 0;
        }
        assert forall k :: 0 <= k < |blocks[1..]| ==> blocks[1..][k] == blocks[k + 1];
        blocks := blocks[1..];
      }
    }

    /** _deallocate_ring: marks the block and collects what can be collected. */
    method Deallocate(p: nat, ghost k: nat)
      requires Valid() && k < |blocks| && blocks[k].live && blocks[k].at + 1 == p
      modifies this, memory
      ensures Valid()
      ensures Allocations() == Live(old(blocks)[..k]) + Live(old(blocks)[k + 1..])
    {
      var node := p - 1;
      ghost var b := blocks[k];
      forall j | 0 <= j < |blocks| && j != k
        ensures blocks[j].at != node
      {
        HeadersDiffer(cap, tail, blocks, j, k);
      }
      memory[node] := memory[node].(pendingKill := true);
      KillKeeps(cap, tail, blocks, k);
      blocks := blocks[k := b.(live := false)];
      Flush();
    }

    /** The owner of a live block may write anything into its payload: headers
        are not disturbed. */
    method WritePayload(ghost k: nat, w: nat, c: Cell)
      requires Valid() && k < |blocks| && blocks[k].at < w < blocks[k].at + blocks[k].Size()
      modifies memory
      ensures Valid() && blocks == old(blocks) && w < memory.Length && memory[w] == c
      ensures forall j :: 0 <= j < memory.Length && j != w ==> memory[j] == old(memory[j])
    {
      BlockHolds(cap, tail, blocks, k, blocks[k].at);
      forall j | 0 <= j < |blocks|
        ensures blocks[j].at != w
      {
        if j != k {
          BlockHolds(cap, tail, blocks, j, blocks[j].at);
          if j < k {
            BlocksDisjoint(cap, tail, blocks, j, k, w);
          } else {
            BlocksDisjoint(cap, tail, blocks, k, j, w);
          }
        }
      }
      memory[w] := c;
    }
  }

  /** Following next_node from any block, around the end of the buffer, visits
      the blocks in order and arrives at the head. */
  lemma NextNodeVisits(r: Ring, k: nat)
    requires r.Valid() && k < |r.blocks|
    ensures Wrap(r.cap, r.NextNode(r.blocks[k].at)) == if k + 1 < |r.blocks| then r.blocks[k + 1].at else r.head
  {
    BlockStarts(r.cap, r.tail, r.blocks, k);
    if k + 1 < |r.blocks| {
      BlockStarts(r.cap, r.tail, r.blocks, k + 1);
    }
    assert r.blocks[..k + 1] == r.blocks || k + 1 < |r.blocks|;
  }

  lemma {:induction false} BlockStarts(cap: nat, tail: nat, blocks: seq<Block>, k: nat)
    requires Tiled(cap, tail, blocks) && Used(blocks) <= cap && k < |blocks|
    ensures Used(blocks[..k]) + blocks[k].Size() == Used(blocks[..k + 1]) <= Used(blocks)
    ensures blocks[k].at == Wrap(cap, tail + Used(blocks[..k])) && blocks[k].at + blocks[k].Size() <= cap
    decreases k
  {
    UsedPrefix(blocks, k);
    UsedPrefix(blocks, k + 1);
    if k > 0 {
      var next := Wrap(cap, tail + blocks[0].Size());
      BlockStarts(cap, next, blocks[1..], k - 1);
      assert blocks[..k] == [blocks[0]] + blocks[1..][..k - 1];
      UsedConcat([blocks[0]], blocks[1..][..k - 1]);
      assert Used([blocks[0]]) == blocks[0].Size();
    }
  }

  /** No two live allocations share a word. */
  lemma AllocationsDisjoint(r: Ring, i: nat, j: nat, w: nat)
    requires r.Valid() && i < j < |r.Allocations()| && w < r.cap
    ensures !(r.Allocations()[i].Holds(w) && r.Allocations()[j].Holds(w))
    ensures r.Allocations()[i].at + r.Allocations()[i].Size() <= r.cap
  {
    var a, b := LivePlaces(r.blocks, i, j);
    BlocksDisjoint(r.cap, r.tail, r.blocks, a, b, w);
    BlockHolds(r.cap, r.tail, r.blocks, a, w);
  }

  lemma {:induction false} LivePlaces(blocks: seq<Block>, i: nat, j: nat) returns (a: nat, b: nat)
    requires i < j < |Live(blocks)|
    ensures a < b < |blocks| && blocks[a] == Live(blocks)[i] && blocks[b] == Live(blocks)[j]
    decreases |blocks|
  {
    if !blocks[0].live {
      a, b := LivePlaces(blocks[1..], i, j);
      a, b := a + 1, b + 1;
    } else if i > 0 {
      a, b := LivePlaces(blocks[1..], i - 1, j - 1);
      a, b := a + 1, b + 1;
    } else {
      b := LivePlace(blocks[1..], j - 1);
      a, b := 0, b + 1;
    }
  }

  lemma {:induction false} LivePlace(blocks: seq<Block>, j: nat) returns (b: nat)
    requires j < |Live(blocks)|
    ensures b < |blocks| && blocks[b] == Live(blocks)[j]
    decreases |blocks|
  {
    if !blocks[0].live {
      b := LivePlace(blocks[1..], j);
      b := b + 1;
    } else if j == 0 {
      b := 0;
    } else {
      b := LivePlace(blocks[1..], j - 1);
      b := b + 1;
    }
  }

  /** No block starts at the end of a run that leaves room. */
  lemma NotAtEnd(cap: nat, tail: nat, blocks: seq<Block>, k: nat)
    requires Tiled(cap, tail, blocks) && Used(blocks) < cap && k < |blocks|
    ensures blocks[k].at != End(cap, tail, blocks)
  {
    var e := End(cap, tail, blocks);
    OccupiedIs(cap, tail, blocks, e);
    BlockHolds(cap, tail, blocks, k, e);
    assert blocks[k].at == e ==> blocks[k].Holds(e);
  }

  lemma HeadersDiffer(cap: nat, tail: nat, blocks: seq<Block>, j: nat, k: nat)
    requires Tiled(cap, tail, blocks) && Used(blocks) <= cap && j < |blocks| && k < |blocks| && j != k
    ensures blocks[j].at != blocks[k].at
  {
    var w := blocks[k].at;
    BlockHolds(cap, tail, blocks, k, 0);
    assert blocks[k].Holds(w);
    if j < k {
      BlocksDisjoint(cap, tail, blocks, j, k, w);
    } else {
      BlocksDisjoint(cap, tail, blocks, k, j, w);
    }
  }

  /** How much is used, seen from head and tail. */
  lemma UsedSpace(cap: nat, tail: nat, blocks: seq<Block>)
    requires Tiled(cap, tail, blocks) && 0 < Used(blocks) <= cap
    ensures var head := End(cap, tail, blocks);
            Used(blocks) == if head > tail then head - tail else cap - (tail - head)
  {
  }

  lemma UsedNone(blocks: seq<Block>)
    ensures Used(blocks) == 0 <==> blocks == []
  {
  }

  /** If the tail meets the head, the block just collected was the last. */
  lemma RestEmpty(cap: nat, blocks: seq<Block>)
    requires blocks != [] && Tiled(cap, blocks[0].at, blocks) && Used(blocks) <= cap
    requires Wrap(cap, blocks[0].at + blocks[0].Size()) == End(cap, blocks[0].at, blocks)
    ensures blocks[1..] == []
  {
    UsedNone(blocks[1..]);
  }

  function Killed(blocks: seq<Block>, k: nat): (r: seq<Block>)
    requires k < |blocks|
    ensures |r| == |blocks|
  {
    blocks[k := blocks[k].(live := false)]
  }

  lemma KilledRest(blocks: seq<Block>, k: nat)
    requires 0 < k < |blocks|
    ensures Killed(blocks, k)[0] == blocks[0] && Killed(blocks, k)[1..] == Killed(blocks[1..], k - 1)
  {
  }

  lemma {:induction false} KillTiled(cap: nat, at: nat, blocks: seq<Block>, k: nat)
    requires Tiled(cap, at, blocks) && k < |blocks|
    ensures Tiled(cap, at, Killed(blocks, k)) && Used(Killed(blocks, k)) == Used(blocks)
    decreases k
  {
    if k == 0 {
      assert Killed(blocks, k)[1..] == blocks[1..];
    } else {
      KilledRest(blocks, k);
      hide Killed;
      KillTiled(cap, Wrap(cap, at + blocks[0].Size()), blocks[1..], k - 1);
    }
  }

  lemma {:induction false} KillLive(blocks: seq<Block>, k: nat)
    requires k < |blocks| && blocks[k].live
    ensures Live(Killed(blocks, k)) == Live(blocks[..k]) + Live(blocks[k + 1..])
    decreases k
  {
    if k == 0 {
      assert Killed(blocks, k)[1..] == blocks[1..];
      assert blocks[..0] == [];
    } else {
      KilledRest(blocks, k);
      hide Killed;
      KillLive(blocks[1..], k - 1);
      assert blocks[..k][1..] == blocks[1..][..k - 1];
      assert blocks[1..][k..] == blocks[k + 1..];
    }
  }

  lemma KillKeeps(cap: nat, at: nat, blocks: seq<Block>, k: nat)
    requires Tiled(cap, at, blocks) && k < |blocks| && blocks[k].live
    ensures var killed := blocks[k := blocks[k].(live := false)];
            && Tiled(cap, at, killed) && Used(killed) == Used(blocks)
            && Live(killed) == Live(blocks[..k]) + Live(blocks[k + 1..])
  {
    hide Tiled, Used, Live;
    KillTiled(cap, at, blocks, k);
    KillLive(blocks, k);
  }
}
