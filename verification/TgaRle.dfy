/** The run-length coding of TGA images in src/import/stb_image_write.h: raw packets
    and runs of 1..128 pixels, row by row. */
module TgaRle {

  import opened Bits
  import opened Wrappers

  // ----- pixels -----

  /** The bytes a pixel is written as: blue, green, red, alpha, or grey, alpha. */
  function PixelBytes(pixel: seq<Byte>): (bytes: seq<Byte>)
    requires 1 <= |pixel| <= 4
    ensures |bytes| == |pixel|
  {
    match |pixel|
    case 1 => [pixel[0]]
    case 2 => [pixel[0], pixel[1]]
    case 3 => [pixel[2], pixel[1], pixel[0]]
    case _ => [pixel[2], pixel[1], pixel[0], pixel[3]]
  }

  function PixelOf(bytes: seq<Byte>): (pixel: seq<Byte>)
    requires 1 <= |bytes| <= 4
    ensures |pixel| == |bytes|
  {
    match |bytes|
    case 1 => [bytes[0]]
    case 2 => [bytes[0], bytes[1]]
    case 3 => [bytes[2], bytes[1], bytes[0]]
    case _ => [bytes[2], bytes[1], bytes[0], bytes[3]]
  }

  lemma PixelBack(pixel: seq<Byte>)
    requires 1 <= |pixel| <= 4
    ensures PixelOf(PixelBytes(pixel)) == pixel
  {
  }

  predicate Row(row: seq<seq<Byte>>, comp: nat) {
    forall k :: 0 <= k < |row| ==> |row[k]| == comp
  }

  function Raw(row: seq<seq<Byte>>, comp: nat): (data: seq<Byte>)
    requires 1 <= comp <= 4 && Row(row, comp)
    ensures |data| == comp * |row|
  {
    if row == [] then [] else PixelBytes(row[0]) + Raw(row[1..], comp)
  }

  // ----- the decoder -----

  function ReadRaw(data: seq<Byte>, comp: nat, n: nat): Option<(seq<seq<Byte>>, seq<Byte>)>
    requires 1 <= comp <= 4
    decreases n
  {
    if n == 0 then Some(([], data)) else
    if |data| < comp then None else
    var rest :- ReadRaw(data[comp..], comp, n - 1);
    Some(([PixelOf(data[..comp])] + rest.0, rest.1))
  }

  function Repeat(pixel: seq<Byte>, n: nat): (row: seq<seq<Byte>>)
    ensures |row| == n
  {
    seq(n, _ => pixel)
  }

  /** One packet: below 128 a raw one, else a run; both of the count's low seven bits
      and one pixels. */
  function ReadPacket(data: seq<Byte>, comp: nat): Option<(seq<seq<Byte>>, seq<Byte>)>
    requires 1 <= comp <= 4
  {
    if data == [] then None
    else if data[0] < 128 then ReadRaw(data[1..], comp, data[0] + 1)
    else if |data| < 1 + comp then None
    else Some((Repeat(PixelOf(data[1..1 + comp]), data[0] - 127), data[1 + comp..]))
  }

  lemma {:induction false} ReadRawLength(data: seq<Byte>, comp: nat, n: nat)
    requires 1 <= comp <= 4 && ReadRaw(data, comp, n).Some?
    ensures |ReadRaw(data, comp, n).value.0| == n && |ReadRaw(data, comp, n).value.1| <= |data|
    decreases n
  {
    if n > 0 {
      ReadRawLength(data[comp..], comp, n - 1);
    }
  }

  /** Packets until the row is full; no packet may run over its end. */
  function ReadRow(data: seq<Byte>, comp: nat, width: nat): Option<(seq<seq<Byte>>, seq<Byte>)>
    requires 1 <= comp <= 4
    decreases |data|
  {
    if width == 0 then Some(([], data)) else
    var packet :- ReadPacket(data, comp);
    assert |packet.1| < |data| by {
      PacketShortens(data, comp);
    }
    if |packet.0| > width then None else
    var rest :- ReadRow(packet.1, comp, width - |packet.0|);
    Some((packet.0 + rest.0, rest.1))
  }

  lemma ReadRawStep(first: seq<Byte>, tail: seq<Byte>, comp: nat, n: nat)
    requires 1 <= comp <= 4 && |first| == comp && n > 0 && ReadRaw(tail, comp, n - 1).Some?
    ensures var rest := ReadRaw(tail, comp, n - 1).value;
            ReadRaw(first + tail, comp, n) == Some(([PixelOf(first)] + rest.0, rest.1))
  {
    hide PixelOf;
    assert (first + tail)[..comp] == first && (first + tail)[comp..] == tail;
  }

  lemma Assoc(a: seq<Byte>, b: seq<Byte>, c: seq<Byte>)
    ensures a + b + c == a + (b + c)
  {
  }

  lemma RawStep(row: seq<seq<Byte>>, comp: nat)
    requires 1 <= comp <= 4 && Row(row, comp) && row != []
    ensures |row[0]| == comp && Row(row[1..], comp)
    ensures Raw(row, comp) == PixelBytes(row[0]) + Raw(row[1..], comp)
  {
  }

  lemma {:induction false} ReadRawBack(row: seq<seq<Byte>>, comp: nat, more: seq<Byte>)
    requires 1 <= comp <= 4 && Row(row, comp)
    ensures ReadRaw(Raw(row, comp) + more, comp, |row|) == Some((row, more))
    decreases |row|
  {
    hide PixelBytes, PixelOf, Row;
    if row == [] {
      assert Raw(row, comp) + more == more;
    } else {
      RawStep(row, comp);
      hide Raw, ReadRaw;
      var first := PixelBytes(row[0]);
      PixelBack(row[0]);
      ReadRawBack(row[1..], comp, more);
      ReadRawStep(first, Raw(row[1..], comp) + more, comp, |row|);
      Assoc(first, Raw(row[1..], comp), more);
      assert row == [row[0]] + row[1..];
    }
  }

  lemma ReadRowStep(data: seq<Byte>, comp: nat, n: nat)
    requires 1 <= comp <= 4 && n > 0 && ReadPacket(data, comp).Some?
    requires |ReadPacket(data, comp).value.0| <= n
    ensures var packet := ReadPacket(data, comp).value;
            var rest := ReadRow(packet.1, comp, n - |packet.0|);
            && |packet.1| < |data|
            && ReadRow(data, comp, n) == if rest == None then None else Some((packet.0 + rest.value.0, rest.value.1))
  {
    PacketShortens(data, comp);
    hide ReadPacket;
  }

  lemma AssocRow(a: seq<seq<Byte>>, b: seq<seq<Byte>>, c: seq<seq<Byte>>)
    ensures a + b + c == a + (b + c)
  {
  }

  /** A row is read in two goes as well as in one. */
  lemma {:induction false} ReadRowMore(data: seq<Byte>, comp: nat, i: nat, n: nat)
    requires 1 <= comp <= 4 && ReadRow(data, comp, i).Some?
    requires ReadRow(ReadRow(data, comp, i).value.1, comp, n).Some?
    ensures var a := ReadRow(data, comp, i).value;
            var b := ReadRow(a.1, comp, n).value;
            ReadRow(data, comp, i + n) == Some((a.0 + b.0, b.1))
    decreases |data|
  {
    hide ReadPacket;
    if i == 0 {
      var b := ReadRow(data, comp, n).value;
      assert [] + b.0 == b.0;
    } else {
      var packet := ReadPacket(data, comp).value;
      ReadRowStep(data, comp, i);
      ReadRowStep(data, comp, i + n);
      hide ReadRow;
      var a := ReadRow(packet.1, comp, i - |packet.0|).value;
      var b := ReadRow(a.1, comp, n).value;
      ReadRowMore(packet.1, comp, i - |packet.0|, n);
      AssocRow(packet.0, a.0, b.0);
    }
  }

  lemma PacketShortens(data: seq<Byte>, comp: nat)
    requires 1 <= comp <= 4 && ReadPacket(data, comp).Some?
    ensures |ReadPacket(data, comp).value.1| < |data| && ReadPacket(data, comp).value.0 != []
  {
    if data[0] < 128 {
      ReadRawLength(data[1..], comp, data[0] + 1);
    }
  }

  // ----- the encoder -----

  /** The packet chosen at i: a run of equal pixels, as long as it can be, or a raw
      one, whose pixels from the third on differ from the one two before. */
  predicate IsPacket(row: seq<seq<Byte>>, i: nat, len: nat, diff: bool) {
    && 1 <= len <= 128 && i + len <= |row|
    && (!diff ==> len >= 2 && (forall k :: i <= k < i + len ==> row[k] == row[i])
                  && (len == 128 || i + len == |row| || row[i + len] != row[i]))
    && (diff ==> (i + 1 < |row| ==> row[i] != row[i + 1])
                 && (forall k :: i + 2 <= k < i + len ==> row[k - 2] != row[k])
                 && (len == 128 || i + len == |row|
                     || (len < 127 && i + len + 1 < |row| && row[i + len - 1] == row[i + len + 1]
                         && (len > 1 ==> row[i + len - 2] != row[i + len]))))
  }

  method NextPacket(row: seq<seq<Byte>>, i: nat) returns (len: nat, diff: bool)
    requires i < |row|
    ensures IsPacket(row, i, len, diff)
  {
    len, diff := 1, true;
    if i + 1 < |row| {
      len := 2;
      diff := row[i] != row[i + 1];
      var k := i + 2;
      if diff {
        var prev := i;
        while k < |row| && len < 128
          invariant prev + 2 == k == i + len <= |row| && len <= 128
          invariant forall j :: i + 2 <= j < k ==> row[j - 2] != row[j]
        {
          if row[prev] != row[k] {
            prev := prev + 1;
            len := len + 1;
          } else {
            len := len - 1;
            break;
          }
          k := k + 1;
        }
      } else {
        while k < |row| && len < 128
          invariant k == i + len <= |row| && 2 <= len <= 128
          invariant forall j :: i <= j < k ==> row[j] == row[i]
        {
          if row[i] == row[k] {
            len := len + 1;
          } else {
            break;
          }
          k := k + 1;
        }
      }
    }
  }

  /** The first pixel from k on that equals the one two before it, or the row's end. */
  function FirstRepeat(row: seq<seq<Byte>>, k: nat): (r: nat)
    requires 2 <= k <= |row|
    ensures k <= r <= |row| && (r < |row| ==> row[r] == row[r - 2])
    ensures forall j :: k <= j < r ==> row[j - 2] != row[j]
    decreases |row| - k
  {
    if k == |row| || row[k] == row[k - 2] then k else FirstRepeat(row, k + 1)
  }

  /** The first pixel from k on that differs from the given one, or the row's end. */
  function FirstOther(row: seq<seq<Byte>>, pixel: seq<Byte>, k: nat): (r: nat)
    requires k <= |row|
    ensures k <= r <= |row| && (r < |row| ==> row[r] != pixel)
    ensures forall j :: k <= j < r ==> row[j] == pixel
    decreases |row| - k
  {
    if k == |row| || row[k] != pixel then k else FirstOther(row, pixel, k + 1)
  }

  predicate RawAt(row: seq<seq<Byte>>, i: nat)
    requires i < |row|
  {
    i + 1 < |row| ==> row[i] != row[i + 1]
  }

  /** The length of the packet at i: a run ends at the first other pixel.  A raw packet
      ends one pixel before the first one that equals the one two before it: the scan
      compares with that one, where the neighbour would find a run. */
  function LengthAt(row: seq<seq<Byte>>, i: nat): nat
    requires i < |row|
  {
    if !RawAt(row, i) then Least(128, FirstOther(row, row[i], i) - i)
    else if i + 1 == |row| then 1
    else
      var stop := FirstRepeat(row, i + 2);
      if stop < |row| && stop < i + 128 then stop - 1 - i else Least(128, |row| - i)
  }

  function Least(a: nat, b: nat): nat {
    if a < b then a else b
  }

  /** There is one packet at each place, of this kind and this length. */
  lemma PacketExact(row: seq<seq<Byte>>, i: nat, len: nat, diff: bool)
    requires i < |row|
    ensures IsPacket(row, i, len, diff) <==> diff == RawAt(row, i) && len == LengthAt(row, i)
  {
    if RawAt(row, i) {
      RawExact(row, i, len);
    } else {
      RunExact(row, i, len);
    }
  }

  lemma RawExact(row: seq<seq<Byte>>, i: nat, len: nat)
    requires i < |row| && RawAt(row, i)
    ensures IsPacket(row, i, len, true) <==> len == LengthAt(row, i)
    ensures !IsPacket(row, i, len, false)
  {
    if i + 1 < |row| {
      var stop := FirstRepeat(row, i + 2);
      assert IsPacket(row, i, len, true) && i + len < |row| && len < 128 ==> stop == i + len + 1;
    }
  }

  lemma RunExact(row: seq<seq<Byte>>, i: nat, len: nat)
    requires i < |row| && !RawAt(row, i)
    ensures IsPacket(row, i, len, false) <==> len == LengthAt(row, i)
    ensures !IsPacket(row, i, len, true)
  {
    var other := FirstOther(row, row[i], i);
    assert IsPacket(row, i, len, false) && len < 128 ==> other == i + len;
  }

  /** Between unequal neighbours a single pixel makes a packet exactly if the pixel after
      them equals it. */
  lemma SinglePixel(row: seq<seq<Byte>>, i: nat, len: nat, diff: bool)
    requires i + 2 < |row| && row[i] != row[i + 1] && IsPacket(row, i, len, diff)
    ensures len == 1 <==> row[i] == row[i + 2]
  {
    PacketExact(row, i, len, diff);
  }

  /** The bytes of a packet. */
  function PacketBytes(row: seq<seq<Byte>>, comp: nat, i: nat, len: nat, diff: bool): (data: seq<Byte>)
    requires 1 <= comp <= 4 && Row(row, comp) && 1 <= len <= 128 && i + len <= |row|
  {
    if diff then [len - 1] + Raw(row[i..i + len], comp) else [(len - 129) % 256] + PixelBytes(row[i])
  }

  lemma LengthFits(row: seq<seq<Byte>>, i: nat)
    requires i < |row|
    ensures 1 <= LengthAt(row, i) <= 128 && i + LengthAt(row, i) <= |row|
  {
  }

  /** The bytes of the row from pixel i on. */
  function Coded(row: seq<seq<Byte>>, comp: nat, i: nat): seq<Byte>
    requires 1 <= comp <= 4 && Row(row, comp) && i <= |row|
    decreases |row| - i
  {
    if i == |row| then [] else
    LengthFits(row, i);
    PacketBytes(row, comp, i, LengthAt(row, i), RawAt(row, i)) + Coded(row, comp, i + LengthAt(row, i))
  }

  /** From pixel i on, two different pixels by turns. */
  predicate Alternating(row: seq<seq<Byte>>, i: nat) {
    && i + 1 < |row| && row[i] != row[i + 1]
    && forall k :: i + 2 <= k < |row| ==> row[k] == row[k - 2]
  }

  lemma AlternatingNext(row: seq<seq<Byte>>, i: nat)
    requires i + 2 < |row|
    ensures Alternating(row, i) <==> row[i] != row[i + 1] && row[i] == row[i + 2] && Alternating(row, i + 1)
  {
  }

  lemma CodedStep(row: seq<seq<Byte>>, comp: nat, i: nat)
    requires 1 <= comp <= 4 && Row(row, comp) && i < |row|
    ensures 1 <= LengthAt(row, i) <= 128 && i + LengthAt(row, i) <= |row|
    ensures |Coded(row, comp, i)| == 1 + (if RawAt(row, i) then LengthAt(row, i) * comp else comp)
                                     + |Coded(row, comp, i + LengthAt(row, i))|
  {
    hide LengthAt, PixelBytes, Raw, RawAt, PacketBytes;
    LengthFits(row, i);
    PacketSize(row, comp, i, LengthAt(row, i), RawAt(row, i));
  }

  lemma PacketSize(row: seq<seq<Byte>>, comp: nat, i: nat, len: nat, diff: bool)
    requires 1 <= comp <= 4 && Row(row, comp) && 1 <= len <= 128 && i + len <= |row|
    ensures |PacketBytes(row, comp, i, len, diff)| == 1 + if diff then len * comp else comp
  {
    hide PixelBytes, Raw;
  }

  /** How the packet at i ends, as far as it bears on the size. */
  lemma LengthMeans(row: seq<seq<Byte>>, i: nat)
    requires i + 1 < |row|
    ensures var len := LengthAt(row, i);
            if RawAt(row, i)
            then && (len == 1 <==> i + 2 < |row| && row[i] == row[i + 2])
                 && (i + len < |row| ==> len == 128 || i + len + 1 < |row|)
            else len >= 2
  {
  }

  /** A row grows by a byte for all its pixels but one at most, and it grows by so many
      exactly if two different pixels alternate in it. */
  lemma {:induction false} LongestRow(row: seq<seq<Byte>>, comp: nat, i: nat)
    requires 1 <= comp <= 4 && Row(row, comp) && i + 1 < |row|
    ensures |Coded(row, comp, i)| <= (|row| - i) * comp + |row| - i - 1
    ensures |Coded(row, comp, i)| == (|row| - i) * comp + |row| - i - 1 <==> Alternating(row, i)
    decreases |row| - i
  {
    hide Coded, LengthAt, Row, Alternating;
    var len := LengthAt(row, i);
    CodedStep(row, comp, i);
    LengthMeans(row, i);
    var rest := |row| - i - len;
    if rest == 0 {
      CodedEnd(row, comp);
    } else if rest == 1 {
      CodedLast(row, comp);
    } else {
      LongestRow(row, comp, i + len);
    }
    assert |Coded(row, comp, i + len)| <= rest * comp + rest;
    Split(len, rest, comp);
    if i + 2 < |row| {
      AlternatingNext(row, i);
    } else {
      AlternatingLast(row, i);
    }
  }

  lemma Split(len: nat, rest: nat, comp: nat)
    ensures (len + rest) * comp == len * comp + rest * comp
    ensures comp >= 1 && len >= 2 ==> len * comp >= comp + 1
  {
    if comp >= 1 && len >= 2 {
      assert len * comp == comp + (len - 1) * comp;
      assert (len - 1) * comp >= 1;
    }
  }

  lemma AlternatingLast(row: seq<seq<Byte>>, i: nat)
    requires i + 2 == |row|
    ensures Alternating(row, i) <==> row[i] != row[i + 1]
  {
  }

  lemma CodedEnd(row: seq<seq<Byte>>, comp: nat)
    requires 1 <= comp <= 4 && Row(row, comp)
    ensures Coded(row, comp, |row|) == []
  {
  }

  lemma CodedLast(row: seq<seq<Byte>>, comp: nat)
    requires 1 <= comp <= 4 && Row(row, comp) && row != []
    ensures |Coded(row, comp, |row| - 1)| == 1 + comp
  {
    CodedStep(row, comp, |row| - 1);
    CodedEnd(row, comp);
    hide Coded;
  }

  /** Alternating pixels, no two neighbours equal, become a packet each but for the last
      two: longer, from three pixels on, than raw packets of 128 pixels each. */
  lemma AlternatingRow(row: seq<seq<Byte>>, comp: nat)
    requires 1 <= comp <= 4 && Row(row, comp) && Alternating(row, 0)
    ensures |Coded(row, comp, 0)| == |row| * comp + |row| - 1
    ensures |Coded(row, comp, 0)| > |row| * comp + (|row| + 127) / 128 <==> |row| >= 3
  {
    LongestRow(row, comp, 0);
    hide Coded, Row, Alternating;
  }

  lemma ReadRun(data: seq<Byte>, pixel: seq<Byte>, comp: nat, len: nat, more: seq<Byte>)
    requires 1 <= |pixel| == comp <= 4 && 2 <= len <= 128
    requires data == [(len - 129) % 256] + PixelBytes(pixel) + more
    ensures ReadPacket(data, comp) == Some((Repeat(pixel, len), more))
  {
    PixelBack(pixel);
    hide PixelBytes, PixelOf, Repeat, ReadRaw;
    assert data[1..1 + comp] == PixelBytes(pixel) && data[1 + comp..] == more;
  }

  lemma PacketBack(row: seq<seq<Byte>>, comp: nat, i: nat, len: nat, diff: bool, more: seq<Byte>)
    requires 1 <= comp <= 4 && Row(row, comp) && IsPacket(row, i, len, diff)
    ensures ReadPacket(PacketBytes(row, comp, i, len, diff) + more, comp) == Some((row[i..i + len], more))
  {
    hide PixelBytes, PixelOf, Raw, ReadRaw;
    var data := PacketBytes(row, comp, i, len, diff) + more;
    if diff {
      ReadRawBack(row[i..i + len], comp, more);
      assert data[1..] == Raw(row[i..i + len], comp) + more;
    } else {
      ReadRun(data, row[i], comp, len, more);
      assert Repeat(row[i], len) == row[i..i + len];
    }
  }

  /** Wherever it is found, out is read as this row and nothing more. */
  ghost predicate Codes(out: seq<Byte>, row: seq<seq<Byte>>, comp: nat)
    requires 1 <= comp <= 4
  {
    forall more :: ReadRow(out + more, comp, |row|) == Some((row, more))
  }

  lemma CodesMore(out: seq<Byte>, row: seq<seq<Byte>>, comp: nat, i: nat, len: nat, diff: bool)
    requires 1 <= comp <= 4 && Row(row, comp) && IsPacket(row, i, len, diff)
    requires Codes(out, row[..i], comp)
    ensures Codes(out + PacketBytes(row, comp, i, len, diff), row[..i + len], comp)
  {
    hide ReadPacket;
    var packet := PacketBytes(row, comp, i, len, diff);
    hide IsPacket;
    forall more: seq<Byte>
      ensures ReadRow(out + packet + more, comp, i + len) == Some((row[..i + len], more))
    {
      PacketBack(row, comp, i, len, diff, more);
      ReadOne(packet + more, comp, row[i..i + len], more);
      hide ReadRow, PacketBytes;
      Assoc(out, packet, more);
      ReadRowMore(out + (packet + more), comp, i, len);
      assert row[..i] + row[i..i + len] == row[..i + len];
    }
  }

  lemma ReadOne(data: seq<Byte>, comp: nat, pixels: seq<seq<Byte>>, more: seq<Byte>)
    requires 1 <= comp <= 4 && ReadPacket(data, comp) == Some((pixels, more)) && pixels != []
    ensures ReadRow(data, comp, |pixels|) == Some((pixels, more))
  {
    hide ReadPacket;
    assert ReadRow(more, comp, 0) == Some(([], more));
    assert pixels + [] == pixels;
  }

  method WriteRaw(row: seq<seq<Byte>>, comp: nat, before: seq<Byte>) returns (out: seq<Byte>)
    requires 1 <= comp <= 4 && Row(row, comp)
    ensures out == before + Raw(row, comp)
  {
    hide PixelBytes;
    out := before;
    for k := 0 to |row|
      invariant Row(row[..k], comp) && out == before + Raw(row[..k], comp)
    {
      RawUpTo(row, comp, k);
      out := out + PixelBytes(row[k]);
    }
    assert row[..|row|] == row;
  }

  lemma RawUpTo(row: seq<seq<Byte>>, comp: nat, k: nat)
    requires 1 <= comp <= 4 && Row(row, comp) && k < |row|
    ensures Raw(row[..k + 1], comp) == Raw(row[..k], comp) + PixelBytes(row[k])
  {
    hide PixelBytes;
    RawOneMore(row[..k + 1], comp);
    assert row[..k + 1][..k] == row[..k];
  }

  method WritePacket(row: seq<seq<Byte>>, comp: nat, i: nat, len: nat, diff: bool, before: seq<Byte>)
      returns (out: seq<Byte>)
    requires 1 <= comp <= 4 && Row(row, comp) && 1 <= len <= 128 && i + len <= |row|
    ensures out == before + PacketBytes(row, comp, i, len, diff)
  {
    hide PixelBytes, Raw;
    if diff {
      out := WriteRaw(row[i..i + len], comp, before + [len - 1]);
      Assoc(before, [len - 1], Raw(row[i..i + len], comp));
    } else {
      var header: int := len - 129;
      out := before + [header % 256];
      out := out + PixelBytes(row[i]);
      Assoc(before, [header % 256], PixelBytes(row[i]));
    }
  }

  /** One row of the image: exactly its packets, and it is read back. */
  method EncodeRow(row: seq<seq<Byte>>, comp: nat) returns (out: seq<Byte>)
    requires 1 <= comp <= 4 && Row(row, comp)
    ensures out == Coded(row, comp, 0) && Codes(out, row, comp)
  {
    hide IsPacket, PixelBytes, Codes, PacketBytes, LengthAt, RawAt;
    var i := 0;
    out := [];
    CodesNone(row, comp);
    while i < |row|
      invariant i <= |row| && Codes(out, row[..i], comp)
      invariant out + Coded(row, comp, i) == Coded(row, comp, 0)
    {
      var len, diff := NextPacket(row, i);
      PacketExact(row, i, len, diff);
      LengthFits(row, i);
      CodesMore(out, row, comp, i, len, diff);
      Assoc(out, PacketBytes(row, comp, i, len, diff), Coded(row, comp, i + len));
      out := WritePacket(row, comp, i, len, diff, out);
      i := i + len;
    }
    assert row[..|row|] == row;
  }

  lemma CodesNone(row: seq<seq<Byte>>, comp: nat)
    requires 1 <= comp <= 4
    ensures Codes([], row[..0], comp)
  {
    hide ReadPacket;
    forall more: seq<Byte>
      ensures ReadRow([] + more, comp, 0) == Some(([], more))
    {
      assert [] + more == more;
    }
  }

  lemma {:induction false} RawOneMore(row: seq<seq<Byte>>, comp: nat)
    requires 1 <= comp <= 4 && Row(row, comp) && row != []
    ensures Raw(row, comp) == Raw(row[..|row| - 1], comp) + PixelBytes(row[|row| - 1])
    decreases |row|
  {
    hide PixelBytes;
    if |row| == 1 {
      assert Raw(row[1..], comp) == [] && Raw(row[..0], comp) == [];
    } else {
      RawOneMore(row[1..], comp);
      assert row[1..][..|row| - 2] == row[..|row| - 1][1..];
      Assoc(PixelBytes(row[0]), Raw(row[1..|row| - 1], comp), PixelBytes(row[|row| - 1]));
    }
  }

  // ----- the image -----

  function ReadRows(data: seq<Byte>, comp: nat, width: nat, height: nat): Option<(seq<seq<seq<Byte>>>, seq<Byte>)>
    requires 1 <= comp <= 4
    decreases height
  {
    if height == 0 then Some(([], data)) else
    var row :- ReadRow(data, comp, width);
    var rest :- ReadRows(row.1, comp, width, height - 1);
    Some(([row.0] + rest.0, rest.1))
  }

  function Reversed(rows: seq<seq<seq<Byte>>>): (r: seq<seq<seq<Byte>>>)
    ensures |r| == |rows|
  {
    seq(|rows|, k requires 0 <= k < |rows| => rows[|rows| - 1 - k])
  }

  /** Reading one row more than could be read. */
  lemma {:induction false} ReadRowsMore(data: seq<Byte>, comp: nat, width: nat, height: nat)
    requires 1 <= comp <= 4 && ReadRows(data, comp, width, height).Some?
    requires ReadRow(ReadRows(data, comp, width, height).value.1, comp, width).Some?
    ensures var a := ReadRows(data, comp, width, height).value;
            var b := ReadRow(a.1, comp, width).value;
            ReadRows(data, comp, width, height + 1) == Some((a.0 + [b.0], b.1))
    decreases height
  {
    hide ReadRow;
    if height == 0 {
      var b := ReadRow(data, comp, width).value;
      assert ReadRows(b.1, comp, width, 0) == Some(([], b.1));
      assert [] + [b.0] == [b.0] + [];
    } else {
      var row := ReadRow(data, comp, width).value;
      ReadRowsMore(row.1, comp, width, height - 1);
      var a := ReadRows(row.1, comp, width, height - 1).value;
      var b := ReadRow(a.1, comp, width).value;
      assert [row.0] + a.0 + [b.0] == [row.0] + (a.0 + [b.0]);
    }
  }

  /** Wherever it is found, out is read as these rows and nothing more. */
  ghost predicate CodesRows(out: seq<Byte>, rows: seq<seq<seq<Byte>>>, comp: nat, width: nat)
    requires 1 <= comp <= 4
  {
    forall more :: ReadRows(out + more, comp, width, |rows|) == Some((rows, more))
  }

  lemma CodesNoRows(comp: nat, width: nat)
    requires 1 <= comp <= 4
    ensures CodesRows([], [], comp, width)
  {
    forall more: seq<Byte>
      ensures ReadRows([] + more, comp, width, 0) == Some(([], more))
    {
      assert [] + more == more;
    }
  }

  lemma CodesOneRowMore(out: seq<Byte>, rows: seq<seq<seq<Byte>>>, data: seq<Byte>, row: seq<seq<Byte>>, comp: nat,
      width: nat)
    requires 1 <= comp <= 4 && |row| == width && CodesRows(out, rows, comp, width) && Codes(data, row, comp)
    ensures CodesRows(out + data, rows + [row], comp, width)
  {
    hide ReadRow, ReadRows;
    forall more: seq<Byte>
      ensures ReadRows(out + data + more, comp, width, |rows| + 1) == Some((rows + [row], more))
    {
      Assoc(out, data, more);
      ReadRowsMore(out + (data + more), comp, width, |rows|);
    }
  }

  /** The rows of the image, the last one first unless flipped. */
  method EncodeImage(rows: seq<seq<seq<Byte>>>, comp: nat, width: nat, flip: bool) returns (out: seq<Byte>)
    requires 1 <= comp <= 4 && forall j :: 0 <= j < |rows| ==> |rows[j]| == width && Row(rows[j], comp)
    ensures CodesRows(out, if flip then rows else Reversed(rows), comp, width)
  {
    hide CodesRows, Codes, Row, Coded;
    ghost var written := if flip then rows else Reversed(rows);
    var j, jend, jdir := |rows| - 1, -1, -1;
    if flip {
      j, jend, jdir := 0, |rows|, 1;
    }
    ghost var done := 0;
    out := [];
    CodesNoRows(comp, width);
    assert written[..0] == [];
    while j != jend
      invariant done <= |rows| && j == if flip then done else |rows| - 1 - done
      invariant CodesRows(out, written[..done], comp, width)
      decreases |rows| - done
    {
      var data := EncodeRow(rows[j], comp);
      CodesOneRowMore(out, written[..done], data, rows[j], comp, width);
      assert written[..done] + [rows[j]] == written[..done + 1];
      out := out + data;
      j := j + jdir;
      done := done + 1;
    }
    assert written[..|rows|] == written;
  }
}
