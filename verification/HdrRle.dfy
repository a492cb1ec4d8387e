/** The run-length coding of HDR scanlines in src/import/stb_image_write.h: dumps of
    1..128 bytes and runs of 1..127, component by component. */
module HdrRle {

  import opened Bits
  import opened Wrappers

  // ----- the decoder -----

  function Repeat(b: Byte, n: nat): (r: seq<Byte>)
    ensures |r| == n
  {
    seq(n, _ => b)
  }

  /** The first packet of a stream, as its bytes and its size: a count above 128
      announces a run of one byte, any other count but 0 that many bytes as they are. */
  function Packet(data: seq<Byte>): (p: Option<(seq<Byte>, nat)>)
    ensures p.Some? ==> p.value.0 != [] && 0 < p.value.1 <= |data|
  {
    if data == [] || data[0] == 0 then None
    else if data[0] > 128 then
      if |data| < 2 then None else Some((Repeat(data[1], data[0] - 128), 2))
    else
      if |data| < 1 + data[0] then None else Some((data[1..1 + data[0]], 1 + data[0]))
  }

  /** Unpacks a whole stream of packets. */
  function Unpack(data: seq<Byte>): Option<seq<Byte>> {
    if data == [] then Some([]) else
    var packet :- Packet(data);
    var rest :- Unpack(data[packet.1..]);
    Some(packet.0 + rest)
  }

  /** Reads packets until exactly n bytes are there; the rest of the stream is left. */
  function ReadComponent(data: seq<Byte>, n: nat): Option<(seq<Byte>, seq<Byte>)>
    decreases |data|
  {
    if n == 0 then Some(([], data)) else
    var packet :- Packet(data);
    if |packet.0| > n then None else
    var rest :- ReadComponent(data[packet.1..], n - |packet.0|);
    Some((packet.0 + rest.0, rest.1))
  }

  lemma PacketStays(data: seq<Byte>, more: seq<Byte>)
    requires Packet(data).Some?
    ensures Packet(data + more) == Packet(data)
    ensures (data + more)[Packet(data).value.1..] == data[Packet(data).value.1..] + more
  {
    if data[0] <= 128 {
      assert (data + more)[1..1 + data[0]] == data[1..1 + data[0]];
    }
  }

  /** What unpacks can also be read in front of anything else. */
  lemma {:induction false} ReadUnpacked(data: seq<Byte>, more: seq<Byte>)
    requires Unpack(data).Some?
    ensures ReadComponent(data + more, |Unpack(data).value|) == Some((Unpack(data).value, more))
    decreases |data|
  {
    hide Packet;
    if data == [] {
      assert data + more == more;
    } else {
      PacketStays(data, more);
      ReadUnpacked(data[Packet(data).value.1..], more);
    }
  }

  lemma UnpackStep(data: seq<Byte>)
    requires Packet(data).Some? && Unpack(data[Packet(data).value.1..]).Some?
    ensures Unpack(data) == Some(Packet(data).value.0 + Unpack(data[Packet(data).value.1..]).value)
  {
  }

  lemma Assoc(a: seq<Byte>, b: seq<Byte>, c: seq<Byte>)
    ensures a + b + c == a + (b + c)
  {
  }

  lemma {:induction false} UnpackConcat(a: seq<Byte>, b: seq<Byte>)
    requires Unpack(a).Some? && Unpack(b).Some?
    ensures Unpack(a + b) == Some(Unpack(a).value + Unpack(b).value)
    decreases |a|
  {
    hide Packet;
    if a == [] {
      assert a + b == b;
      assert [] + Unpack(b).value == Unpack(b).value;
    } else {
      PacketStays(a, b);
      var packet := Packet(a).value;
      var rest := a[packet.1..];
      UnpackStep(a);
      hide Unpack;
      UnpackConcat(rest, b);
      UnpackStep(a + b);
      Assoc(packet.0, Unpack(rest).value, Unpack(b).value);
    }
  }

  lemma UnpackOne(data: seq<Byte>)
    requires Packet(data).Some? && Packet(data).value.1 == |data|
    ensures Unpack(data) == Some(Packet(data).value.0)
  {
    hide Packet;
    assert Unpack([]) == Some([]);
    assert data[|data|..] == [];
    assert Packet(data).value.0 + [] == Packet(data).value.0;
  }

  lemma UnpackRun(n: nat, b: Byte)
    requires 1 <= n <= 127
    ensures Unpack([n + 128, b]) == Some(Repeat(b, n))
  {
    var data: seq<Byte> := [n + 128, b];
    assert Packet(data) == Some((Repeat(b, n), 2));
    UnpackOne(data);
  }

  lemma UnpackDump(bytes: seq<Byte>)
    requires 1 <= |bytes| <= 128
    ensures Unpack([|bytes| as Byte] + bytes) == Some(bytes)
  {
    var data := [|bytes| as Byte] + bytes;
    assert data[1..] == bytes;
    PacketOfDump(data, bytes);
    hide Packet;
    UnpackOne(data);
  }

  lemma PacketOfDump(data: seq<Byte>, bytes: seq<Byte>)
    requires data != [] && data[1..] == bytes && 1 <= |bytes| == data[0] <= 128
    ensures Packet(data) == Some((bytes, |data|))
  {
    assert data[1..1 + data[0]] == data[1..];
  }

  // ----- the encoder -----

  /** The bytes written so far unpack to the first x bytes of the component. */
  predicate Written(comp: seq<Byte>, x: nat, out: seq<Byte>) {
    x <= |comp| && Unpack(out) == Some(comp[..x])
  }

  lemma WriteMore(comp: seq<Byte>, x: nat, out: seq<Byte>, packet: seq<Byte>, n: nat)
    requires Written(comp, x, out) && x + n <= |comp| && Unpack(packet) == Some(comp[x..x + n])
    ensures Written(comp, x + n, out + packet)
  {
    UnpackConcat(out, packet);
    assert comp[..x] + comp[x..x + n] == comp[..x + n];
  }

  predicate RunAt(comp: seq<Byte>, r: nat)
    requires r + 2 < |comp|
  {
    comp[r] == comp[r + 1] && comp[r] == comp[r + 2]
  }

  /** Bytes as they are, 128 at a time behind their number. */
  function Dumps(bytes: seq<Byte>): (data: seq<Byte>)
    ensures |data| == |bytes| + (|bytes| + 127) / 128
    decreases |bytes|
  {
    if bytes == [] then []
    else if |bytes| <= 128 then [|bytes|] + bytes
    else [128] + bytes[..128] + Dumps(bytes[128..])
  }

  /** One byte n times, 127 times at most behind 128 more than the number. */
  function Runs(b: Byte, n: nat): (data: seq<Byte>)
    ensures |data| == 2 * ((n + 126) / 127)
    decreases n
  {
    if n == 0 then []
    else if n <= 127 then [n + 128, b]
    else [255, b] + Runs(b, n - 127)
  }

  /** The first place from x on where three bytes are equal, or the end. */
  function RunStart(comp: seq<Byte>, x: nat): (r: nat)
    requires x <= |comp|
    ensures x <= r <= |comp| && (r < |comp| ==> r + 2 < |comp| && RunAt(comp, r))
    ensures forall k :: x <= k < r && k + 2 < |comp| ==> !RunAt(comp, k)
    decreases |comp| - x
  {
    if x + 2 >= |comp| then |comp| else if RunAt(comp, x) then x else RunStart(comp, x + 1)
  }

  /** The first byte from r on that differs from b, or the end. */
  function RunStop(comp: seq<Byte>, b: Byte, r: nat): (end: nat)
    requires r <= |comp|
    ensures r <= end <= |comp| && (end < |comp| ==> comp[end] != b)
    ensures forall k :: r <= k < end ==> comp[k] == b
    decreases |comp| - r
  {
    if r == |comp| || comp[r] != b then r else RunStop(comp, b, r + 1)
  }

  /** All packets from x on: what stands in front of a run as it is, then the run. */
  function Coded(comp: seq<Byte>, x: nat): seq<Byte>
    requires x <= |comp|
    decreases |comp| - x
  {
    var r := RunStart(comp, x);
    if r == |comp| then Dumps(comp[x..])
    else
      var end := RunStop(comp, comp[r], r);
      Dumps(comp[x..r]) + Runs(comp[r], end - r) + Coded(comp, end)
  }

  lemma StartIs(comp: seq<Byte>, x: nat, r: nat)
    requires x <= r <= |comp| && (r < |comp| ==> r + 2 < |comp| && RunAt(comp, r))
    requires forall k :: x <= k < r && k + 2 < |comp| ==> !RunAt(comp, k)
    ensures RunStart(comp, x) == r
  {
    var s := RunStart(comp, x);
    if s != r {
      assert false;
    }
  }

  lemma StopIs(comp: seq<Byte>, b: Byte, r: nat, end: nat)
    requires r <= end <= |comp| && (end < |comp| ==> comp[end] != b) && forall k :: r <= k < end ==> comp[k] == b
    ensures RunStop(comp, b, r) == end
  {
    var s := RunStop(comp, b, r);
    if s != end {
      assert false;
    }
  }

  /** A component of equal bytes is coded as one run. */
  lemma ConstantCoded(comp: seq<Byte>)
    requires |comp| >= 3 && forall k :: 0 <= k < |comp| ==> comp[k] == comp[0]
    ensures Coded(comp, 0) == Runs(comp[0], |comp|)
  {
    StartIs(comp, 0, 0);
    StopIs(comp, comp[0], 0, |comp|);
    StartIs(comp, |comp|, |comp|);
    assert comp[0..0] == [] && comp[|comp|..] == [];
  }

  lemma DumpsStep(bytes: seq<Byte>, n: nat)
    requires n == if |bytes| > 128 then 128 else |bytes|
    requires bytes != []
    ensures Dumps(bytes) == [n as Byte] + bytes[..n] + Dumps(bytes[n..])
  {
    if |bytes| <= 128 {
      assert bytes[..n] == bytes && bytes[n..] == [];
    }
  }

  lemma RunsStep(b: Byte, n: nat, len: nat)
    requires n > 0 && len == if n > 127 then 127 else n
    ensures Runs(b, n) == [len + 128, b] + Runs(b, n - len)
  {
  }

  /** The start of the first run of three from x on; the width if there is none. */
  method FirstRun(comp: seq<Byte>, x: nat) returns (r: nat)
    requires x < |comp|
    ensures r == |comp| || (x <= r && r + 2 < |comp| && RunAt(comp, r) && comp[r] == comp[r + 1] == comp[r + 2])
    ensures forall k :: x <= k < r && k + 2 < |comp| ==> !RunAt(comp, k)
  {
    r := x;
    while r + 2 < |comp|
      invariant x <= r < |comp|
      invariant forall k :: x <= k < r && k + 2 < |comp| ==> !RunAt(comp, k)
    {
      if RunAt(comp, r) {
        break;
      }
      r := r + 1;
    }
    if r + 2 >= |comp| {
      r := |comp|;
    }
  }

  /** Dumps the bytes x..r, at most 128 at a time. */
  method DumpTo(comp: seq<Byte>, x: nat, r: nat, before: seq<Byte>) returns (out: seq<Byte>)
    requires x <= r <= |comp| && Written(comp, x, before)
    ensures Written(comp, r, out) && out == before + Dumps(comp[x..r])
  {
    hide Unpack, Written, Dumps;
    var at := x;
    out := before;
    while at < r
      invariant x <= at <= r && Written(comp, at, out)
      invariant out + Dumps(comp[at..r]) == before + Dumps(comp[x..r])
    {
      var len := if r - at > 128 then 128 else r - at;
      DumpsStep(comp[at..r], len);
      assert comp[at..r][..len] == comp[at..at + len] && comp[at..r][len..] == comp[at + len..r];
      Assoc(out, [len] + comp[at..at + len], Dumps(comp[at + len..r]));
      UnpackDump(comp[at..at + len]);
      WriteMore(comp, at, out, [len] + comp[at..at + len], len);
      out := out + ([len] + comp[at..at + len]);
      at := at + len;
    }
    NothingDumped(comp, r);
  }

  lemma NothingDumped(comp: seq<Byte>, r: nat)
    requires r <= |comp|
    ensures Dumps(comp[r..r]) == []
  {
  }

  /** The end of the run that starts at r. */
  method RunEnd(comp: seq<Byte>, r: nat) returns (end: nat)
    requires r + 2 < |comp| && RunAt(comp, r)
    ensures r + 3 <= end <= |comp| && (end < |comp| ==> comp[end] != comp[r])
    ensures forall k :: r <= k < end ==> comp[k] == comp[r]
  {
    end := r;
    while end < |comp| && comp[end] == comp[r]
      invariant r <= end <= |comp|
      invariant forall k :: r <= k < end ==> comp[k] == comp[r]
    {
      end := end + 1;
    }
  }

  /** Writes the run x..r, at most 127 at a time. */
  method RunTo(comp: seq<Byte>, x: nat, r: nat, before: seq<Byte>) returns (out: seq<Byte>)
    requires x <= r <= |comp| && Written(comp, x, before)
    requires forall k :: x <= k < r ==> comp[k] == comp[x]
    ensures Written(comp, r, out) && out == before + if x < r then Runs(comp[x], r - x) else []
  {
    hide Unpack, Written, Runs;
    var at := x;
    out := before;
    while at < r
      invariant x <= at <= r && Written(comp, at, out)
      invariant x < r ==> out + Runs(comp[x], r - at) == before + Runs(comp[x], r - x)
      invariant x == r ==> out == before
    {
      var len := if r - at > 127 then 127 else r - at;
      RunsStep(comp[x], r - at, len);
      Assoc(out, [len + 128, comp[x]], Runs(comp[x], r - at - len));
      UnpackRun(len, comp[at]);
      assert Repeat(comp[at], len) == comp[at..at + len];
      WriteMore(comp, at, out, [len + 128, comp[at]], len);
      out := out + [len + 128, comp[at]];
      at := at + len;
    }
    if x < r {
      NothingRun(comp[x]);
    }
  }

  lemma NothingRun(b: Byte)
    ensures Runs(b, 0) == []
  {
  }

  /** Before another packet the output is at most one byte in 128 longer. */
  predicate Compact(x: nat, length: nat) {
    128 * length <= 129 * x
  }

  lemma StillCompact(x: nat, length: nat, dump: nat, run: nat)
    requires Compact(x, length) && run >= 3
    ensures Compact(x + dump + run, length + dump + (dump + 127) / 128 + 2 * ((run + 126) / 127))
  {
    assert 128 * ((dump + 127) / 128) <= dump + 127;
    assert 127 * ((run + 126) / 127) <= run + 126;
  }

  /** One component: exactly its packets; unpacking gives it back, and it grows by at most
      one byte in 128 and one more. */
  method EncodeComponent(comp: seq<Byte>) returns (out: seq<Byte>)
    ensures out == Coded(comp, 0)
    ensures Unpack(out) == Some(comp)
    ensures 128 * |out| <= 129 * |comp| + 127
  {
    hide Unpack, Coded, RunStart, RunStop, Dumps, Runs;
    var x := 0;
    out := [];
    assert Unpack([]) == Some([]) by { UnpackNothing(); }
    while x < |comp|
      invariant Written(comp, x, out) && out + Coded(comp, x) == Coded(comp, 0)
      invariant x < |comp| ==> Compact(x, |out|)
      invariant 128 * |out| <= 129 * x + 127
    {
      hide Written;
      var r := FirstRun(comp, x);
      StartIs(comp, x, r);
      ghost var length, before := |out|, out;
      out := DumpTo(comp, x, r, out);
      if r + 2 < |comp| {
        var end := RunEnd(comp, r);
        StopIs(comp, comp[r], r, end);
        CodedRun(comp, x, r, end);
        Assoc(before, Dumps(comp[x..r]), Runs(comp[r], end - r));
        Assoc(before, Dumps(comp[x..r]) + Runs(comp[r], end - r), Coded(comp, end));
        out := RunTo(comp, r, end, out);
        StillCompact(x, length, r - x, end - r);
        x := end;
      } else {
        CodedRest(comp, x);
        x := r;
      }
    }
    assert comp[..|comp|] == comp;
    CodedEnd(comp);
  }

  lemma CodedRun(comp: seq<Byte>, x: nat, r: nat, end: nat)
    requires x <= r < end <= |comp| && RunStart(comp, x) == r && RunStop(comp, comp[r], r) == end
    ensures Coded(comp, x) == Dumps(comp[x..r]) + Runs(comp[r], end - r) + Coded(comp, end)
  {
  }

  lemma CodedRest(comp: seq<Byte>, x: nat)
    requires x <= |comp| && RunStart(comp, x) == |comp|
    ensures Coded(comp, x) == Dumps(comp[x..|comp|]) && Coded(comp, |comp|) == []
  {
    CodedEnd(comp);
    assert comp[x..|comp|] == comp[x..];
  }

  lemma CodedEnd(comp: seq<Byte>)
    ensures Coded(comp, |comp|) == []
  {
    assert comp[|comp|..] == [];
  }

  lemma UnpackNothing()
    ensures Unpack([]) == Some([])
  {
  }

  // ----- the scanline -----

  /** A pixel as its three mantissas and its exponent. */
  type Rgbe = p: seq<Byte> | |p| == 4 witness [0, 0, 0, 0]

  function Component(pixels: seq<Rgbe>, c: nat): (comp: seq<Byte>)
    requires c < 4
    ensures |comp| == |pixels|
  {
    seq(|pixels|, x requires 0 <= x < |pixels| => pixels[x][c])
  }

  function Flat(pixels: seq<Rgbe>): (data: seq<Byte>)
    ensures |data| == 4 * |pixels|
  {
    if pixels == [] then [] else Flat(pixels[..|pixels| - 1]) + pixels[|pixels| - 1]
  }

  function Big(high: nat, low: nat): nat {
    256 * high + low
  }

  /** The pixels a scanline of the given width decodes to, and what follows it.  Only
      widths of 8 to 32767 are run-length coded, behind a header with the width. */
  ghost predicate Decodes(data: seq<Byte>, width: nat, pixels: seq<Rgbe>, rest: seq<Byte>) {
    && |pixels| == width
    && if width < 8 || width >= 32768 then data == Flat(pixels) + rest else
       && |data| >= 4 && data[0] == 2 && data[1] == 2 && Big(data[2], data[3]) == width
       && var c0 := ReadComponent(data[4..], width);
       && c0.Some? && c0.value.0 == Component(pixels, 0)
       && var c1 := ReadComponent(c0.value.1, width);
       && c1.Some? && c1.value.0 == Component(pixels, 1)
       && var c2 := ReadComponent(c1.value.1, width);
       && c2.Some? && c2.value.0 == Component(pixels, 2)
       && var c3 := ReadComponent(c2.value.1, width);
       && c3.Some? && c3.value.0 == Component(pixels, 3) && c3.value.1 == rest
  }

  /** A scanline decodes to one row of pixels at most. */
  lemma DecodesOnce(data: seq<Byte>, width: nat, p: seq<Rgbe>, q: seq<Rgbe>, r: seq<Byte>, s: seq<Byte>)
    requires Decodes(data, width, p, r) && Decodes(data, width, q, s)
    ensures p == q && r == s
  {
    if width < 8 || width >= 32768 {
      FlatOnce(p, q, r, s);
    } else {
      hide ReadComponent;
      forall x | 0 <= x < width
        ensures p[x] == q[x]
      {
        assert forall c :: 0 <= c < 4 ==> p[x][c] == Component(p, c)[x];
        assert forall c :: 0 <= c < 4 ==> q[x][c] == Component(q, c)[x];
      }
    }
  }

  lemma {:induction false} FlatOnce(p: seq<Rgbe>, q: seq<Rgbe>, r: seq<Byte>, s: seq<Byte>)
    requires |p| == |q| && Flat(p) + r == Flat(q) + s
    ensures p == q && r == s
  {
    var n := |Flat(p)|;
    assert r == (Flat(p) + r)[n..] && s == (Flat(q) + s)[n..];
    assert Flat(p) == (Flat(p) + r)[..n] && Flat(q) == (Flat(q) + s)[..n];
    if p != [] {
      var i := |p| - 1;
      assert Flat(p) == Flat(p[..i]) + p[i] && Flat(q) == Flat(q[..i]) + q[i];
      FlatOnce(p[..i], q[..i], p[i], q[i]);
      assert p == p[..i] + [p[i]] && q == q[..i] + [q[i]];
    }
  }

  predicate Holds(scratch: seq<Byte>, at: nat, pixels: seq<Rgbe>, c: nat, upto: nat)
    requires c < 4 && upto <= |pixels| && at + upto <= |scratch|
  {
    forall k :: 0 <= k < upto ==> scratch[at + k] == pixels[k][c]
  }

  lemma HoldsComponent(scratch: seq<Byte>, at: nat, pixels: seq<Rgbe>, c: nat)
    requires c < 4 && at + |pixels| <= |scratch| && Holds(scratch, at, pixels, c, |pixels|)
    ensures scratch[at..at + |pixels|] == Component(pixels, c)
  {
  }

  lemma HoldsMore(before: seq<Byte>, after: seq<Byte>, at: nat, pixels: seq<Rgbe>, c: nat, x: nat)
    requires c < 4 && x < |pixels| && at + x < |before| == |after| && Holds(before, at, pixels, c, x)
    requires before[at..at + x] == after[at..at + x] && after[at + x] == pixels[x][c]
    ensures Holds(after, at, pixels, c, x + 1)
  {
    forall k | 0 <= k < x
      ensures after[at + k] == pixels[k][c]
    {
      assert after[at..at + x][k] == before[at..at + x][k];
    }
  }

  /** Puts one pixel where each component's bytes are collected. */
  method PutPixel(scratch: array<Byte>, pixels: seq<Rgbe>, x: nat)
    requires x < |pixels| && scratch.Length == 4 * |pixels|
    requires forall c :: 0 <= c < 4 ==> Holds(scratch[..], At(|pixels|, c), pixels, c, x)
    modifies scratch
    ensures forall c :: 0 <= c < 4 ==> Holds(scratch[..], At(|pixels|, c), pixels, c, x + 1)
  {
    hide Holds;
    var width := |pixels|;
    scratch[x + width * 0] := pixels[x][0];
    scratch[x + width * 1] := pixels[x][1];
    scratch[x + width * 2] := pixels[x][2];
    scratch[x + width * 3] := pixels[x][3];
    forall c | 0 <= c < 4
      ensures Holds(scratch[..], At(width, c), pixels, c, x + 1)
    {
      var at := At(width, c);
      assert at == 0 || at == width || at == 2 * width || at == 3 * width;
      HoldsMore(old(scratch[..]), scratch[..], at, pixels, c, x);
    }
  }

  /** Where component c begins. */
  function At(width: nat, c: nat): (at: nat)
    requires c < 4
    ensures at + width <= 4 * width
  {
    match c
    case 0 => 0
    case 1 => width
    case 2 => 2 * width
    case _ => 3 * width
  }

  method FillScratch(pixels: seq<Rgbe>) returns (scratch: array<Byte>)
    ensures fresh(scratch) && scratch.Length == 4 * |pixels|
    ensures scratch[..|pixels|] == Component(pixels, 0)
    ensures scratch[|pixels|..2 * |pixels|] == Component(pixels, 1)
    ensures scratch[2 * |pixels|..3 * |pixels|] == Component(pixels, 2)
    ensures scratch[3 * |pixels|..4 * |pixels|] == Component(pixels, 3)
  {
    var width := |pixels|;
    scratch := new Byte[4 * width];
    for x := 0 to width
      invariant forall c :: 0 <= c < 4 ==> Holds(scratch[..], At(width, c), pixels, c, x)
    {
      hide Holds, At;
      PutPixel(scratch, pixels, x);
    }
    hide Holds, Component;
    assert Holds(scratch[..], At(width, 0), pixels, 0, width) && Holds(scratch[..], At(width, 1), pixels, 1, width);
    assert Holds(scratch[..], At(width, 2), pixels, 2, width) && Holds(scratch[..], At(width, 3), pixels, 3, width);
    HoldsComponent(scratch[..], 0, pixels, 0);
    HoldsComponent(scratch[..], width, pixels, 1);
    HoldsComponent(scratch[..], 2 * width, pixels, 2);
    HoldsComponent(scratch[..], 3 * width, pixels, 3);
  }

  /** The four coded components behind their header. */
  lemma CodedDecodes(header: seq<Byte>, c0: seq<Byte>, c1: seq<Byte>, c2: seq<Byte>, c3: seq<Byte>, pixels: seq<Rgbe>,
      rest: seq<Byte>)
    requires 8 <= |pixels| < 32768 && |header| == 4
    requires header[0] == 2 && header[1] == 2 && Big(header[2], header[3]) == |pixels|
    requires Unpack(c0) == Some(Component(pixels, 0)) && Unpack(c1) == Some(Component(pixels, 1))
    requires Unpack(c2) == Some(Component(pixels, 2)) && Unpack(c3) == Some(Component(pixels, 3))
    ensures Decodes(header + (c0 + (c1 + (c2 + (c3 + rest)))), |pixels|, pixels, rest)
  {
    hide Unpack, ReadComponent, Component, Big;
    ReadUnpacked(c0, c1 + (c2 + (c3 + rest)));
    ReadUnpacked(c1, c2 + (c3 + rest));
    ReadUnpacked(c2, c3 + rest);
    ReadUnpacked(c3, rest);
    var tail := c0 + (c1 + (c2 + (c3 + rest)));
    assert (header + tail)[4..] == tail;
  }

  lemma Regroup(h: seq<Byte>, a: seq<Byte>, b: seq<Byte>, c: seq<Byte>, d: seq<Byte>, rest: seq<Byte>)
    ensures h + a + b + c + d + rest == h + (a + (b + (c + (d + rest))))
  {
    Assoc(h + a + b + c, d, rest);
    Assoc(h + a + b, c, d + rest);
    Assoc(h + a, b, c + (d + rest));
    Assoc(h, a, b + (c + (d + rest)));
  }

  /** The four components, coded. */
  method CodeComponents(pixels: seq<Rgbe>) returns (c0: seq<Byte>, c1: seq<Byte>, c2: seq<Byte>, c3: seq<Byte>)
    ensures c0 == Coded(Component(pixels, 0), 0) && c1 == Coded(Component(pixels, 1), 0)
    ensures c2 == Coded(Component(pixels, 2), 0) && c3 == Coded(Component(pixels, 3), 0)
    ensures Unpack(c0) == Some(Component(pixels, 0)) && Unpack(c1) == Some(Component(pixels, 1))
    ensures Unpack(c2) == Some(Component(pixels, 2)) && Unpack(c3) == Some(Component(pixels, 3))
  {
    hide Unpack, Component, Coded;
    var width := |pixels|;
    var scratch := FillScratch(pixels);
    c0 := EncodeComponent(scratch[..width]);
    c1 := EncodeComponent(scratch[width..2 * width]);
    c2 := EncodeComponent(scratch[2 * width..3 * width]);
    c3 := EncodeComponent(scratch[3 * width..4 * width]);
  }

  /** stbiw__write_hdr_scanline after the conversion to mantissas and exponent. */
  method WriteScanline(pixels: seq<Rgbe>) returns (out: seq<Byte>)
    ensures forall rest :: Decodes(out + rest, |pixels|, pixels, rest)
    ensures var n := |pixels|;
            out == if n < 8 || n >= 32768 then Flat(pixels)
                   else [2, 2, n / 256, n % 256] + Coded(Component(pixels, 0), 0) + Coded(Component(pixels, 1), 0)
                        + Coded(Component(pixels, 2), 0) + Coded(Component(pixels, 3), 0)
  {
    hide Unpack, Component, Coded, ReadComponent;
    var width := |pixels|;
    out := [];
    if width < 8 || width >= 32768 {
      for x := 0 to width
        invariant out == Flat(pixels[..x])
      {
        assert pixels[..x + 1][..x] == pixels[..x];
        out := out + pixels[x];
      }
      assert pixels[..width] == pixels;
      return;
    }
    hide Decodes, Flat;
    var c0, c1, c2, c3 := CodeComponents(pixels);
    var header: seq<Byte> := [2, 2, width / 256, width % 256];
    out := header + c0 + c1 + c2 + c3;
    assert header[0] == 2 && header[1] == 2 && Big(header[2], header[3]) == width;
    AllDecode(header, c0, c1, c2, c3, pixels);
  }

  lemma AllDecode(header: seq<Byte>, c0: seq<Byte>, c1: seq<Byte>, c2: seq<Byte>, c3: seq<Byte>, pixels: seq<Rgbe>)
    requires 8 <= |pixels| < 32768 && |header| == 4
    requires header[0] == 2 && header[1] == 2 && Big(header[2], header[3]) == |pixels|
    requires Unpack(c0) == Some(Component(pixels, 0)) && Unpack(c1) == Some(Component(pixels, 1))
    requires Unpack(c2) == Some(Component(pixels, 2)) && Unpack(c3) == Some(Component(pixels, 3))
    ensures forall rest :: Decodes(header + c0 + c1 + c2 + c3 + rest, |pixels|, pixels, rest)
  {
    hide Decodes, Unpack, Component, Big;
    forall rest: seq<Byte>
      ensures Decodes(header + c0 + c1 + c2 + c3 + rest, |pixels|, pixels, rest)
    {
      CodedDecodes(header, c0, c1, c2, c3, pixels, rest);
      Regroup(header, c0, c1, c2, c3, rest);
    }
  }
}
