/** The image data of a PNG file, as stbi_write_png_to_mem of
    src/import/stb_image_write.h builds it: a filter byte and a filtered line for
    each row, compressed.  Decompressing and unfiltering gives the rows back. */
module PngImage {

  import opened Bits
  import opened Wrappers
  import opened PngFilter
  import Inflate
  import ZlibCompress

  // ----- the decoder -----

  /** The rows of filtered image data, by section 9 of the PNG specification: each
      line is reconstructed with the row before it. */
  function Unfilter(data: seq<Byte>, size: nat, n: nat, prior: seq<Byte>): Option<seq<seq<Byte>>>
    requires 0 < n && |prior| == size
    decreases |data|
  {
    if data == [] then Some([])
    else if |data| < size + 1 || data[0] >= 5 then None
    else
      var row := Reconstruct(data[0], n, prior, data[1..size + 1]);
      var rest :- Unfilter(data[size + 1..], size, n, row);
      Some([row] + rest)
  }

  function LastOr(rows: seq<seq<Byte>>, prior: seq<Byte>): seq<Byte> {
    if rows == [] then prior else rows[|rows| - 1]
  }

  lemma UnfilterStep(first: Byte, line: seq<Byte>, rest: seq<Byte>, n: nat, prior: seq<Byte>)
    requires 0 < n && |prior| == |line| && first < 5
    ensures var row := Reconstruct(first, n, prior, line);
            var tail := Unfilter(rest, |line|, n, row);
            Unfilter([first] + line + rest, |line|, n, prior) == if tail == None then None else Some([row] + tail.value)
  {
    hide Reconstruct;
    var data := [first] + line + rest;
    assert data[1..|line| + 1] == line && data[|line| + 1..] == rest;
  }

  /** One more line adds one more row. */
  lemma {:induction false} UnfilterOneMore(data: seq<Byte>, size: nat, n: nat, prior: seq<Byte>, rows: seq<seq<Byte>>,
      filter: nat, line: seq<Byte>)
    requires 0 < n && |prior| == size && |line| == size && filter < 5
    requires Unfilter(data, size, n, prior) == Some(rows)
    ensures |LastOr(rows, prior)| == size
    ensures Unfilter(data + ([filter] + line), size, n, prior)
            == Some(rows + [Reconstruct(filter, n, LastOr(rows, prior), line)])
    decreases |data|
  {
    hide Reconstruct, Unfilter;
    if data == [] {
      UnfilterNone(size, n, prior);
      UnfilterNone(size, n, Reconstruct(filter, n, prior, line));
      UnfilterStep(filter, line, [], n, prior);
      assert data + ([filter] + line) == [filter] + line + [];
      var row := Reconstruct(filter, n, prior, line);
      assert rows == [] && [row] + [] == rows + [row];
    } else {
      var first, firstLine, rest, tail := UnfilterSplit(data, size, n, prior, rows);
      var row := Reconstruct(first, n, prior, firstLine);
      UnfilterOneMore(rest, size, n, row, tail, filter, line);
      UnfilterStep(first, firstLine, rest + ([filter] + line), n, prior);
      Regroup([first], firstLine, rest, [filter] + line);
      LastOfMore(row, tail, prior);
      hide LastOr;
      assert [row] + (tail + [Reconstruct(filter, n, LastOr(rows, prior), line)])
          == rows + [Reconstruct(filter, n, LastOr(rows, prior), line)];
    }
  }

  lemma UnfilterNone(size: nat, n: nat, prior: seq<Byte>)
    requires 0 < n && |prior| == size
    ensures Unfilter([], size, n, prior) == Some([])
  {
  }

  lemma LastOfMore(row: seq<Byte>, tail: seq<seq<Byte>>, prior: seq<Byte>)
    ensures LastOr([row] + tail, prior) == LastOr(tail, row)
  {
  }

  lemma Regroup(a: seq<Byte>, b: seq<Byte>, c: seq<Byte>, d: seq<Byte>)
    ensures a + b + c + d == a + b + (c + d)
  {
  }

  /** The first line of data that can be unfiltered, and the rest. */
  lemma UnfilterSplit(data: seq<Byte>, size: nat, n: nat, prior: seq<Byte>, rows: seq<seq<Byte>>)
    returns (first: Byte, line: seq<Byte>, rest: seq<Byte>, tail: seq<seq<Byte>>)
    requires 0 < n && |prior| == size && data != [] && Unfilter(data, size, n, prior) == Some(rows)
    ensures first < 5 && |line| == size && |rest| < |data| && data == [first] + line + rest
    ensures Unfilter(rest, size, n, Reconstruct(first, n, prior, line)) == Some(tail)
    ensures rows == [Reconstruct(first, n, prior, line)] + tail
  {
    hide Reconstruct;
    first, line, rest := data[0], data[1..size + 1], data[size + 1..];
    tail := Unfilter(rest, size, n, Reconstruct(first, n, prior, line)).value;
  }

  // ----- the choice of the filter -----

  const INT_MAX := 0x7fff_ffff

  /** The signed value of a byte. */
  function Signed(b: Byte): (r: int)
    ensures -128 <= r < 128 && (r - b) % 256 == 0
  {
    if b < 128 then b else b - 256
  }

  /** The sum of the magnitudes of a line's bytes, taken as signed. */
  function Weight(line: seq<Byte>): nat {
    if line == [] then 0 else Weight(line[..|line| - 1]) + Abs(Signed(line[|line| - 1]))
  }

  /** A byte is counted by its distance from the nearest multiple of 256. */
  lemma WeightMeans(line: seq<Byte>, b: Byte)
    ensures Weight([]) == 0 && Weight(line + [b]) == Weight(line) + if b < 128 then b else 256 - b
  {
    assert (line + [b])[..|line|] == line;
  }

  method Estimate(line: array<Byte>) returns (est: nat)
    ensures est == Weight(line[..])
  {
    est := 0;
    for i := 0 to line.Length
      invariant est == Weight(line[..i])
    {
      est := est + Abs(Signed(line[i]));
      assert line[..i + 1][..i] == line[..i];
    }
    assert line[..line.Length] == line[..];
  }

  function Cost(shape: Shape, pixels: seq<Byte>, y: nat, filter: nat): nat
    requires Fits(shape, |pixels|) && y < shape.height && filter < 5
  {
    Weight(Line(shape, pixels, y, filter))
  }

  /** best is the first of the filters below upto with the least cost; 0 as long as
      no cost is below the largest int. */
  ghost predicate Best(shape: Shape, pixels: seq<Byte>, y: nat, upto: nat, best: nat, value: nat)
    requires Fits(shape, |pixels|) && y < shape.height && upto <= 5
  {
    && (value == INT_MAX ==> best == 0)
    && (value != INT_MAX ==> best < upto && value == Cost(shape, pixels, y, best) && value < INT_MAX)
    && (forall f :: 0 <= f < upto ==> value <= Cost(shape, pixels, y, f))
    && (forall f :: 0 <= f < best && f < upto ==> value < Cost(shape, pixels, y, f))
  }

  /** Runs through all five filters. */
  method ChooseFilter(shape: Shape, pixels: array<Byte>, y: nat, lineBuffer: array<Byte>) returns (best: nat)
    requires Fits(shape, pixels.Length) && y < shape.height
    requires lineBuffer.Length == Size(shape) && lineBuffer != pixels
    modifies lineBuffer
    ensures best < 5
    ensures exists value :: Best(shape, pixels[..], y, 5, best, value)
  {
    hide Line, Fits, Weight;
    best := 0;
    var bestValue: nat := INT_MAX;
    for filter := 0 to 5
      invariant best < 5 && Best(shape, pixels[..], y, filter, best, bestValue)
    {
      EncodePngLine(shape, pixels, y, filter, lineBuffer);
      var est := Estimate(lineBuffer);
      assert est == Cost(shape, pixels[..], y, filter);
      if est < bestValue {
        bestValue := est;
        best := filter;
      }
    }
  }

  // ----- the image -----

  /** One row: its filter byte and line.  A forced filter is used as it is. */
  method EncodeRow(shape: Shape, pixels: array<Byte>, y: nat, forced: int, lineBuffer: array<Byte>)
      returns (filter: nat)
    requires Fits(shape, pixels.Length) && y < shape.height && forced < 5
    requires lineBuffer.Length == Size(shape) && lineBuffer != pixels
    modifies lineBuffer
    ensures filter < 5 && lineBuffer[..] == Line(shape, pixels[..], y, filter)
    ensures forced > -1 ==> filter == forced
    ensures forced <= -1 ==> exists value :: Best(shape, pixels[..], y, 5, filter, value)
  {
    if forced > -1 {
      filter := forced;
    } else {
      filter := ChooseFilter(shape, pixels, y, lineBuffer);
    }
    EncodePngLine(shape, pixels, y, filter, lineBuffer);
  }

  /** What the rows before y have become. */
  ghost predicate Encoded(shape: Shape, pixels: seq<Byte>, y: nat, data: seq<Byte>)
    requires Fits(shape, |pixels|) && y <= shape.height
  {
    Unfilter(data, Size(shape), shape.n, Zeros(Size(shape))) == Some(Rows(shape, pixels, y))
  }

  lemma EncodedOneMore(shape: Shape, pixels: seq<Byte>, y: nat, data: seq<Byte>, filter: nat)
    requires Fits(shape, |pixels|) && y < shape.height && filter < 5 && Encoded(shape, pixels, y, data)
    ensures Encoded(shape, pixels, y + 1, data + ([filter] + Line(shape, pixels, y, filter)))
  {
    var rows := Rows(shape, pixels, y);
    assert LastOr(rows, Zeros(Size(shape))) == Prior(shape, pixels, y);
    RoundTrip(filter, shape.n, Prior(shape, pixels, y), Row(shape, pixels, y));
    UnfilterOneMore(data, Size(shape), shape.n, Zeros(Size(shape)), rows, filter, Line(shape, pixels, y, filter));
  }

  lemma RowsFit(y: nat, height: nat, size: nat)
    requires y < height
    ensures (size + 1) * y + size + 1 == (size + 1) * (y + 1) <= (size + 1) * height
  {
    MulMonotone(size + 1, size + 1, y + 1, height);
  }

  /** The filter of row y: the one that is forced, if it is one of the five, else the first
      of least cost. */
  ghost predicate Chosen(shape: Shape, pixels: seq<Byte>, y: nat, forceFilter: int, filter: nat)
    requires Fits(shape, |pixels|) && y < shape.height
  {
    && filter < 5
    && if 0 <= forceFilter < 5 then filter == forceFilter else exists value :: Best(shape, pixels, y, 5, filter, value)
  }

  /** The filter bytes and lines of the first rows. */
  ghost function Lines(shape: Shape, pixels: seq<Byte>, filters: seq<nat>): seq<Byte>
    requires Fits(shape, |pixels|) && |filters| <= shape.height && forall y :: 0 <= y < |filters| ==> filters[y] < 5
  {
    if filters == [] then [] else
    var y := |filters| - 1;
    Lines(shape, pixels, filters[..y]) + ([filters[y]] + Line(shape, pixels, y, filters[y]))
  }

  ghost predicate MadeBy(shape: Shape, pixels: seq<Byte>, filters: seq<nat>, forceFilter: int, data: seq<Byte>)
    requires Fits(shape, |pixels|) && |filters| <= shape.height
  {
    && (forall k :: 0 <= k < |filters| ==> Chosen(shape, pixels, k, forceFilter, filters[k]))
    && data == Lines(shape, pixels, filters)
  }

  /** The filtered image is made of lines by the filters chosen for them. */
  ghost predicate Made(shape: Shape, pixels: seq<Byte>, y: nat, forceFilter: int, data: seq<Byte>)
    requires Fits(shape, |pixels|) && y <= shape.height
  {
    exists filters: seq<nat> :: |filters| == y && MadeBy(shape, pixels, filters, forceFilter, data)
  }

  lemma {:induction false} MadeByOneMore(shape: Shape, pixels: seq<Byte>, filters: seq<nat>, forceFilter: int,
      data: seq<Byte>, filter: nat)
    requires Fits(shape, |pixels|) && |filters| < shape.height && MadeBy(shape, pixels, filters, forceFilter, data)
    requires Chosen(shape, pixels, |filters|, forceFilter, filter)
    ensures MadeBy(shape, pixels, filters + [filter], forceFilter,
              data + ([filter] + Line(shape, pixels, |filters|, filter)))
  {
    hide Best, Line, Fits;
    assert (filters + [filter])[..|filters|] == filters;
  }

  lemma {:induction false} MadeOneMore(shape: Shape, pixels: seq<Byte>, y: nat, forceFilter: int, data: seq<Byte>,
      filter: nat)
    requires Fits(shape, |pixels|) && y < shape.height && Made(shape, pixels, y, forceFilter, data)
    requires Chosen(shape, pixels, y, forceFilter, filter)
    ensures Made(shape, pixels, y + 1, forceFilter, data + ([filter] + Line(shape, pixels, y, filter)))
  {
    var filters: seq<nat> :| |filters| == y && MadeBy(shape, pixels, filters, forceFilter, data);
    hide Best, Line, Fits, Chosen, MadeBy;
    MadeByOneMore(shape, pixels, filters, forceFilter, data, filter);
    assert |filters + [filter]| == y + 1;
  }

  lemma MadeNone(shape: Shape, pixels: seq<Byte>, forceFilter: int)
    requires Fits(shape, |pixels|)
    ensures Made(shape, pixels, 0, forceFilter, [])
  {
    assert Lines(shape, pixels, []) == [];
    hide Chosen, Lines;
    var none: seq<nat> := [];
    assert MadeBy(shape, pixels, none, forceFilter, []);
  }

  /** The filtered image: each row by the filter chosen for it; unfiltering gives every row
      back, in writing order. */
  method FilterImage(shape: Shape, pixels: array<Byte>, forceFilter: int) returns (filt: array<Byte>)
    requires Fits(shape, pixels.Length)
    ensures filt.Length == (Size(shape) + 1) * shape.height
    ensures Encoded(shape, pixels[..], shape.height, filt[..])
    ensures Made(shape, pixels[..], shape.height, forceFilter, filt[..])
  {
    hide Encoded, Size, Fits, Line, Best, Made;
    var forced := if forceFilter >= 5 then -1 else forceFilter;
    MadeNone(shape, pixels[..], forceFilter);
    var size := Size(shape);
    filt := new Byte[(size + 1) * shape.height];
    var lineBuffer := new Byte[size];
    var at := 0;
    EncodedNone(shape, pixels[..]);
    for y := 0 to shape.height
      invariant at == (size + 1) * y <= filt.Length
      invariant Encoded(shape, pixels[..], y, filt[..at]) && Made(shape, pixels[..], y, forceFilter, filt[..at])
      invariant fresh(filt) && fresh(lineBuffer) && filt != lineBuffer
    {
      RowsFit(y, shape.height, size);
      ghost var before := filt[..at];
      var filter := EncodeRow(shape, pixels, y, forced, lineBuffer);
      EncodedOneMore(shape, pixels[..], y, before, filter);
      MadeOneMore(shape, pixels[..], y, forceFilter, before, filter);
      PutRow(filt, at, filter, lineBuffer);
      assert filt[..at + size + 1] == before + ([filter] + lineBuffer[..]);
      at := at + size + 1;
    }
    assert filt[..at] == filt[..];
  }

  lemma EncodedNone(shape: Shape, pixels: seq<Byte>)
    requires Fits(shape, |pixels|)
    ensures Encoded(shape, pixels, 0, [])
  {
  }

  /** Copies a filter byte and a line into the filtered image. */
  method PutRow(filt: array<Byte>, at: nat, filter: Byte, line: array<Byte>)
    requires at + line.Length + 1 <= filt.Length && filt != line
    modifies filt
    ensures filt[..at] == old(filt[..at])
    ensures filt[at] == filter && filt[at + 1..at + line.Length + 1] == line[..]
  {
    filt[at] := filter;
    for i := 0 to line.Length
      invariant filt[..at] == old(filt[..at]) && filt[at] == filter
      invariant filt[at + 1..at + 1 + i] == line[..i]
    {
      filt[at + 1 + i] := line[i];
    }
  }

  /** Rows without a stride follow one another. */
  function Packed(shape: Shape): Shape {
    if shape.stride == 0 then shape.(stride := shape.width * shape.n) else shape
  }

  /** With a stride of 0 row y is the y-th stretch of pixels; with another one nothing
      changes. */
  lemma PackedRows(shape: Shape, y: nat)
    requires y < shape.height
    ensures var r, row := Packed(shape), if shape.flip then shape.height - 1 - y else y;
            if shape.stride == 0 then RowStart(r, y) == Size(shape) * row && Size(r) == Size(shape) else r == shape
  {
  }

  /** The image data of the file.  For an image with at least one row, inflating and
      unfiltering gives exactly its rows; an image without rows gets a stream that
      does not inflate. */
  method ImageData(shape: Shape, pixels: array<Byte>, forceFilter: int, level: int, hash: ZlibCompress.Hash)
    returns (stream: seq<Byte>)
    requires Fits(Packed(shape), pixels.Length)
    ensures shape.height > 0
            <==> exists data :: Inflate.Decompress(stream) == Some(data)
                                && Encoded(Packed(shape), pixels[..], shape.height, data)
                                && Made(Packed(shape), pixels[..], shape.height, forceFilter, data)
  {
    var packed := Packed(shape);
    var filt := FilterImage(packed, pixels, forceFilter);
    stream := ZlibCompress.Compress(filt[..], level, hash);
    if packed.height > 0 {
      RowsFit(0, packed.height, Size(packed));
    }
  }
}
