/** Stored DEFLATE blocks as the fallback of src/import/stb_image_write.h writes
    them, and their decoding. */
module Stored {
  import opened Bits
  import opened Wrappers
  import opened Inflate
  import opened Deflate

  const MAX_STORED := 32767

  /** Final flag, LEN and its complement NLEN, low byte first, then the data. */
  function StoredBlock(block: seq<Byte>, final: bool): (s: seq<Byte>)
    requires |block| <= MAX_STORED
    ensures |s| == 5 + |block|
  {
    var len := |block|;
    [if final then 1 else 0, len % 256, len / 256 % 256, (-len - 1) % 256, (-len - 1) / 256 % 256] + block
  }

  /** The blocks of a nonempty byte string. */
  function StoredBlocks(data: seq<Byte>): seq<Byte>
  {
    if |data| <= MAX_STORED then StoredBlock(data, true)
    else StoredBlock(data[..MAX_STORED], false) + StoredBlocks(data[MAX_STORED..])
  }

  /** The length of the blocks fits the bound that guards the fallback. */
  lemma {:induction false} StoredSize(data: seq<Byte>)
    requires data != []
    ensures |StoredBlocks(data)| == |data| + (|data| + 32766) / 32767 * 5
  {
    hide StoredBlock;
    if |data| > MAX_STORED {
      var more := data[MAX_STORED..];
      StoredSize(more);
      assert |data| + 32766 == 32767 + (|more| + 32766);
    }
  }

  lemma {:induction false} ReadBytesOf(bytes: seq<Byte>, rest: seq<bool>)
    ensures ReadBytes(BytesToBits(bytes) + rest, |bytes|) == Some(Body(bytes, rest))
  {
    if bytes == [] {
      assert BytesToBits(bytes) + rest == rest;
    } else {
      hide LowBits, ReadNumber;
      var tail := BytesToBits(bytes[1..]) + rest;
      Assoc(LowBits(bytes[0], 8), BytesToBits(bytes[1..]), rest);
      assert Pow2(8) == 256 by { PowTable(); }
      ReadNumberOf(bytes[0], 8, tail);
      ReadBytesOf(bytes[1..], rest);
      assert [bytes[0]] + bytes[1..] == bytes;
    }
  }

  lemma ReadTwoBytes(lo: Byte, hi: Byte, rest: seq<bool>)
    ensures ReadNumber(LowBits(lo, 8) + (LowBits(hi, 8) + rest), 16) == Some(Read(lo + 256 * hi, rest))
  {
    hide LowBits, Pow2, ReadNumber;
    assert Pow2(8) == 256 by { PowTable(); }
    assert Pow2(16) == 65536 by { Pow2Add(8, 8); }
    LowBitsConcat(lo, hi, 8, 8);
    Assoc(LowBits(lo, 8), LowBits(hi, 8), rest);
    ReadNumberOf(lo + 256 * hi, 16, rest);
  }

  /** The first byte: the final flag, two zero type bits and five bits of padding. */
  lemma StoredHeader(final: bool, tail: seq<bool>)
    requires |tail| % 8 == 0
    ensures var flag, padded := if final then 1 else 0, LowBits(0, 5) + tail;
            && ReadNumber(LowBits(flag, 8) + tail, 1) == Some(Read(flag, LowBits(0, 2) + padded))
            && ReadNumber(LowBits(0, 2) + padded, 2) == Some(Read(0, padded))
            && Align(padded) == tail
  {
    hide LowBits, ReadNumber, Pow2;
    var flag := if final then 1 else 0;
    var padded := LowBits(0, 5) + tail;
    assert Pow2(1) == 2 && Pow2(2) == 4 by { PowTable(); }
    LowBitsConcat(flag, 0, 1, 7);
    LowBitsConcat(0, 0, 2, 5);
    Assoc(LowBits(flag, 1), LowBits(0, 7), tail);
    Assoc(LowBits(0, 2), LowBits(0, 5), tail);
    ReadNumberOf(flag, 1, LowBits(0, 2) + padded);
    ReadNumberOf(0, 2, padded);
    assert padded[5..] == tail;
  }

  lemma ComplementBytes(len: int)
    requires 0 <= len <= MAX_STORED
    ensures len % 256 + 256 * (len / 256 % 256) == len
    ensures (-len - 1) % 256 + 256 * ((-len - 1) / 256 % 256) == 0xffff - len
  {
  }

  lemma FirstByte(s: seq<Byte>, rest: seq<Byte>)
    requires s != []
    ensures BytesToBits(s + rest) == LowBits(s[0], 8) + BytesToBits(s[1..] + rest)
  {
    hide LowBits;
    assert (s + rest)[1..] == s[1..] + rest;
  }

  lemma StoredBits(block: seq<Byte>, final: bool, rest: seq<Byte>)
    requires |block| <= MAX_STORED
    ensures var s := StoredBlock(block, final);
            BytesToBits(s + rest)
            == LowBits(s[0], 8)
               + (LowBits(s[1], 8) + (LowBits(s[2], 8)
                  + (LowBits(s[3], 8) + (LowBits(s[4], 8) + (BytesToBits(block) + BytesToBits(rest))))))
  {
    hide LowBits, BytesToBits;
    var s := StoredBlock(block, final);
    assert s[5..] == block;
    FirstByte(s, rest);
    FirstByte(s[1..], rest);
    FirstByte(s[2..], rest);
    FirstByte(s[3..], rest);
    FirstByte(s[4..], rest);
    BytesToBitsConcat(block, rest);
  }

  lemma {:induction false} ReadStoredBody(block: seq<Byte>, lo: Byte, hi: Byte, nlo: Byte, nhi: Byte, rest: seq<bool>,
                       output: seq<Byte>, padded: seq<bool>)
    requires lo + 256 * hi == |block| && nlo + 256 * nhi == 0xffff - |block|
    requires Align(padded)
             == LowBits(lo, 8) + (LowBits(hi, 8) + (LowBits(nlo, 8) + (LowBits(nhi, 8) + (BytesToBits(block) + rest))))
    ensures ReadStoredBlock(padded, output) == Some(Body(output + block, rest))
  {
    hide LowBits, ReadNumber, BytesToBits, Align, ReadBytes;
    var content := BytesToBits(block) + rest;
    ReadTwoBytes(lo, hi, LowBits(nlo, 8) + (LowBits(nhi, 8) + content));
    ReadTwoBytes(nlo, nhi, content);
    ReadBytesOf(block, rest);
  }

  /** Decoding one stored block. */
  lemma {:induction false} ReadStored(block: seq<Byte>, final: bool, rest: seq<Byte>, output: seq<Byte>)
    requires |block| <= MAX_STORED
    ensures ReadBlocks(BytesToBits(StoredBlock(block, final) + rest), output)
            == if final then Some(Body(output + block, BytesToBits(rest)))
               else ReadBlocks(BytesToBits(rest), output + block)
  {
    hide LowBits, ReadNumber, BytesToBits, Align, ReadStoredBlock, ReadFixedBlock;
    var s := StoredBlock(block, final);
    StoredBits(block, final, rest);
    var tail := LowBits(s[1], 8) + (LowBits(s[2], 8)
                + (LowBits(s[3], 8) + (LowBits(s[4], 8) + (BytesToBits(block) + BytesToBits(rest)))));
    StoredHeader(final, tail);
    ComplementBytes(|block|);
    ReadStoredBody(block, s[1], s[2], s[3], s[4], BytesToBits(rest), output, LowBits(0, 5) + tail);
  }

  /** Decoding the whole fallback. */
  lemma {:induction false} ReadAllStored(data: seq<Byte>, rest: seq<Byte>, output: seq<Byte>)
    ensures ReadBlocks(BytesToBits(StoredBlocks(data) + rest), output) == Some(Body(output + data, BytesToBits(rest)))
    decreases |data|
  {
    hide ReadBlocks, BytesToBits, StoredBlock;
    if |data| <= MAX_STORED {
      ReadStored(data, true, rest, output);
    } else {
      var block, more := data[..MAX_STORED], data[MAX_STORED..];
      assert StoredBlocks(data) + rest == StoredBlock(block, false) + (StoredBlocks(more) + rest);
      ReadStored(block, false, StoredBlocks(more) + rest, output);
      ReadAllStored(more, rest, output + block);
      assert output + block + more == output + data;
    }
  }
}
