/** The scanline filters of the PNG writer in src/import/stb_image_write.h, against
    section 9 of the PNG specification (ISO/IEC 15948): unfiltering undoes them. */
module PngFilter {

  import opened Bits

  // ----- the filters of the specification -----

  function Abs(x: int): (r: nat)
    ensures r == x || r == -x
  {
    if x < 0 then -x else x
  }

  /** Of left, above and upper left the one nearest to left + above - upper left;
      of equally near ones the first. */
  function Paeth(a: Byte, b: Byte, c: Byte): (r: Byte)
    ensures var p := a + b - c;
            && Abs(p - r) <= Abs(p - a) && Abs(p - r) <= Abs(p - b) && Abs(p - r) <= Abs(p - c)
            && (r == a || (r == b && Abs(p - b) < Abs(p - a))
                || (r == c && Abs(p - c) < Abs(p - a) && Abs(p - c) < Abs(p - b)))
  {
    var p := a + b - c;
    var pa, pb, pc := Abs(p - a), Abs(p - b), Abs(p - c);
    if pa <= pb && pa <= pc then a else if pb <= pc then b else c
  }

  /** The average of two bytes, rounded down. */
  function Average(a: nat, b: nat): (r: nat)
    ensures 2 * r <= a + b < 2 * r + 2
  {
    (a + b) / 2
  }

  function Predictor(filter: nat, a: Byte, b: Byte, c: Byte): Byte
    requires filter < 5
  {
    match filter
    case 0 => 0
    case 1 => a
    case 2 => b
    case 3 => Average(a, b)
    case _ => Paeth(a, b, c)
  }

  /** What each filter type of the specification predicts, from left, above and upper left. */
  lemma Predicts(a: Byte, b: Byte, c: Byte)
    ensures Predictor(0, a, b, c) == 0 && Predictor(1, a, b, c) == a && Predictor(2, a, b, c) == b
    ensures 2 * Predictor(3, a, b, c) <= a + b < 2 * Predictor(3, a, b, c) + 2
    ensures var r, pa, pb, pc := Predictor(4, a, b, c), Abs(b - c), Abs(a - c), Abs(a + b - 2 * c);
            if pa <= pb && pa <= pc then r == a else if pb <= pc then r == b else r == c
  {
  }

  /** The byte one pixel to the left; zero before the first pixel. */
  function Left(line: seq<Byte>, i: nat, n: nat): Byte
    requires 0 < n && i < |line| + n
  {
    if i < n then 0 else line[i - n]
  }

  /** What the filter predicts at i from the row up to i and the row above. */
  function Guess(filter: nat, n: nat, prior: seq<Byte>, row: seq<Byte>, i: nat): Byte
    requires filter < 5 && 0 < n && i < |prior| && i <= |row|
  {
    Predictor(filter, Left(row, i, n), prior[i], Left(prior, i, n))
  }

  function Filtered(filter: nat, n: nat, prior: seq<Byte>, row: seq<Byte>): (line: seq<Byte>)
    requires filter < 5 && 0 < n && |prior| == |row|
    ensures |line| == |row|
  {
    seq(|row|, i requires 0 <= i < |row| => (row[i] - Guess(filter, n, prior, row, i)) % 256)
  }

  /** The decoder: each byte is the filtered byte plus the prediction from what is
      already reconstructed. */
  function Reconstruct(filter: nat, n: nat, prior: seq<Byte>, line: seq<Byte>): (row: seq<Byte>)
    requires filter < 5 && 0 < n && |prior| == |line|
    ensures |row| == |line|
    decreases |line|
  {
    if line == [] then [] else
    var i := |line| - 1;
    var done := Reconstruct(filter, n, prior[..i], line[..i]);
    done + [(line[i] + Guess(filter, n, prior, done, i)) % 256]
  }

  lemma AddBack(x: Byte, p: Byte)
    ensures ((x - p) % 256 + p) % 256 == x
  {
  }

  lemma GuessOfPrefix(filter: nat, n: nat, prior: seq<Byte>, row: seq<Byte>, i: nat, k: nat)
    requires filter < 5 && 0 < n && i < k <= |prior| && i <= k <= |row|
    ensures Guess(filter, n, prior[..k], row[..k], i) == Guess(filter, n, prior, row, i)
    ensures Guess(filter, n, prior, row[..i], i) == Guess(filter, n, prior, row, i)
  {
  }

  lemma FilteredPrefix(filter: nat, n: nat, prior: seq<Byte>, row: seq<Byte>, k: nat)
    requires filter < 5 && 0 < n && |prior| == |row| && k <= |row|
    ensures Filtered(filter, n, prior[..k], row[..k]) == Filtered(filter, n, prior, row)[..k]
  {
    forall i | 0 <= i < k
      ensures Filtered(filter, n, prior[..k], row[..k])[i] == Filtered(filter, n, prior, row)[i]
    {
      GuessOfPrefix(filter, n, prior, row, i, k);
    }
  }

  /** Unfiltering gives the row back, whatever the filter, the pixel size and the
      row above. */
  lemma {:induction false} RoundTrip(filter: nat, n: nat, prior: seq<Byte>, row: seq<Byte>)
    requires filter < 5 && 0 < n && |prior| == |row|
    ensures Reconstruct(filter, n, prior, Filtered(filter, n, prior, row)) == row
    decreases |row|
  {
    if row != [] {
      var i := |row| - 1;
      var line := Filtered(filter, n, prior, row);
      FilteredPrefix(filter, n, prior, row, i);
      RoundTrip(filter, n, prior[..i], row[..i]);
      assert line[i] == (row[i] - Guess(filter, n, prior, row, i)) % 256;
      GuessOfPrefix(filter, n, prior, row, i, |row|);
      AddBack(row[i], Guess(filter, n, prior, row, i));
      hide Guess, Filtered;
      assert Reconstruct(filter, n, prior, line) == row[..i] + [row[i]];
    }
  }

  // ----- the rows of an image -----

  /** The parameters of the writer: pixels of n bytes, rows stride bytes apart,
      written bottom up when flip is set. */
  datatype Shape = Shape(width: nat, height: nat, n: nat, stride: nat, flip: bool)

  function Size(shape: Shape): nat {
    shape.width * shape.n
  }

  predicate Fits(shape: Shape, length: nat) {
    && 0 < shape.width && 0 < shape.n
    && (shape.height > 0 ==> shape.stride * (shape.height - 1) + Size(shape) <= length)
  }

  function RowStart(shape: Shape, y: nat): nat
    requires y < shape.height
  {
    shape.stride * if shape.flip then shape.height - 1 - y else y
  }

  /** From the row above to a row. */
  function SignedStride(shape: Shape): int {
    if shape.flip then -(shape.stride as int) else shape.stride
  }

  lemma RowStartFits(shape: Shape, length: nat, y: nat)
    requires Fits(shape, length) && y < shape.height
    ensures RowStart(shape, y) + Size(shape) <= length
    ensures y > 0 ==> RowStart(shape, y - 1) == RowStart(shape, y) - SignedStride(shape)
  {
    var row, last := if shape.flip then shape.height - 1 - y else y, shape.height - 1;
    MulMonotone(shape.stride, shape.stride, row, last);
    if y > 0 {
      assert shape.stride * (row + 1) == shape.stride * row + shape.stride;
      assert shape.stride * (row - 1) == shape.stride * row - shape.stride;
    }
  }

  /** Row y in writing order. */
  function Row(shape: Shape, pixels: seq<Byte>, y: nat): (row: seq<Byte>)
    requires Fits(shape, |pixels|) && y < shape.height
    ensures |row| == Size(shape)
  {
    RowStartFits(shape, |pixels|, y);
    pixels[RowStart(shape, y)..RowStart(shape, y) + Size(shape)]
  }

  function Zeros(size: nat): (row: seq<Byte>)
    ensures |row| == size
  {
    seq(size, _ => 0)
  }

  /** The row above; zeros above the first. */
  function Prior(shape: Shape, pixels: seq<Byte>, y: nat): (row: seq<Byte>)
    requires Fits(shape, |pixels|) && y < shape.height
    ensures |row| == Size(shape)
  {
    if y == 0 then Zeros(Size(shape)) else Row(shape, pixels, y - 1)
  }

  function Line(shape: Shape, pixels: seq<Byte>, y: nat, filter: nat): (line: seq<Byte>)
    requires Fits(shape, |pixels|) && y < shape.height && filter < 5
    ensures |line| == Size(shape)
  {
    Filtered(filter, shape.n, Prior(shape, pixels, y), Row(shape, pixels, y))
  }

  function Rows(shape: Shape, pixels: seq<Byte>, upto: nat): (rows: seq<seq<Byte>>)
    requires Fits(shape, |pixels|) && upto <= shape.height
    ensures |rows| == upto
  {
    if upto == 0 then [] else Rows(shape, pixels, upto - 1) + [Row(shape, pixels, upto - 1)]
  }

  // ----- the writer's filter code -----

  const FIRST_MAP: seq<nat> := [0, 1, 0, 5, 6]

  /** The filter code chosen for a filter; the first row has codes of its own. */
  function TypeOf(filter: nat, y: nat): (t: nat)
    requires filter < 5
    ensures t < 7
  {
    if y != 0 then filter else FIRST_MAP[filter]
  }

  lemma RowAt(shape: Shape, pixels: seq<Byte>, y: nat, i: nat)
    requires Fits(shape, |pixels|) && y < shape.height && i < Size(shape)
    ensures shape.n > 0 && RowStart(shape, y) + Size(shape) <= |pixels|
    ensures Row(shape, pixels, y)[i] == pixels[RowStart(shape, y) + i]
    ensures y > 0 ==>
              var above := RowStart(shape, y) + i - SignedStride(shape);
              i <= above && above + Size(shape) <= |pixels| + i && Prior(shape, pixels, y)[i] == pixels[above]
    ensures y == 0 ==> Prior(shape, pixels, y)[i] == 0
  {
    RowStartFits(shape, |pixels|, y);
    if y > 0 {
      RowStartFits(shape, |pixels|, y - 1);
    }
  }

  lemma LineAt(shape: Shape, pixels: seq<Byte>, y: nat, filter: nat, i: nat)
    requires Fits(shape, |pixels|) && y < shape.height && filter < 5 && i < Size(shape)
    ensures var row, prior, n := Row(shape, pixels, y), Prior(shape, pixels, y), shape.n;
            Line(shape, pixels, y, filter)[i]
            == (row[i] - if i < n then Predictor(filter, 0, prior[i], 0)
                         else Predictor(filter, row[i - n], prior[i], prior[i - n])) % 256
  {
  }

  lemma PaethEdges(a: Byte)
    ensures Paeth(0, a, 0) == a && Paeth(a, 0, 0) == a
  {
  }

  /** The code's special cases are the specification's prediction. */
  lemma Specials(filter: nat, y: nat, a: Byte, b: Byte, c: Byte)
    requires filter < 5 && TypeOf(filter, y) != 0
    ensures var t := TypeOf(filter, y);
            && (t in {1, 5, 6} && (y == 0 ==> b == 0) ==> Predictor(filter, 0, b, 0) == 0)
            && (t == 2 ==> Predictor(filter, a, b, c) == b)
            && (t == 3 ==> Predictor(filter, 0, b, 0) == b / 2)
            && (t == 3 ==> 2 * Predictor(filter, a, b, c) <= a + b < 2 * Predictor(filter, a, b, c) + 2)
            && (t == 4 ==> Predictor(filter, a, b, c) == Paeth(a, b, c))
            && (t == 1 ==> Predictor(filter, a, b, c) == a)
            && (t == 5 ==> Predictor(filter, a, 0, 0) == a / 2)
            && (t == 6 ==> Predictor(filter, a, 0, 0) == Paeth(a, 0, 0))
            && (t in {2, 3, 4} ==> y > 0) && (t in {5, 6} ==> y == 0)
  {
    PaethEdges(b);
  }

  /** One byte of the line: the code's guess is the specification's prediction. */
  method EncodeByte(shape: Shape, pixels: array<Byte>, y: nat, filter: nat, i: nat) returns (value: Byte)
    requires Fits(shape, pixels.Length) && y < shape.height && filter < 5 && i < Size(shape)
    requires TypeOf(filter, y) != 0
    ensures value == Line(shape, pixels[..], y, filter)[i]
  {
    hide Guess, Filtered, Paeth, Row, Prior, RowStart, Size, Fits;
    var z, signedStride, t, n := RowStart(shape, y), SignedStride(shape), TypeOf(filter, y), shape.n;
    var guess: Byte;
    RowAt(shape, pixels[..], y, i);
    LineAt(shape, pixels[..], y, filter, i);
    hide Line, SignedStride;
    ghost var b := Prior(shape, pixels[..], y)[i];
    if i < n {
      Specials(filter, y, 0, b, 0);
      hide TypeOf, Predictor;
      if t == 2 {
        guess := pixels[z + i - signedStride];
      } else if t == 3 {
        guess := pixels[z + i - signedStride] / 2;
      } else if t == 4 {
        guess := Paeth(0, pixels[z + i - signedStride], 0);
      } else {
        guess := 0;
      }
    } else {
      RowAt(shape, pixels[..], y, i - n);
      ghost var a, c := Row(shape, pixels[..], y)[i - n], Prior(shape, pixels[..], y)[i - n];
      Specials(filter, y, a, b, c);
      hide TypeOf, Predictor;
      if t == 1 {
        guess := pixels[z + i - n];
      } else if t == 2 {
        guess := pixels[z + i - signedStride];
      } else if t == 3 {
        guess := Average(pixels[z + i - n], pixels[z + i - signedStride]);
      } else if t == 4 {
        guess := Paeth(pixels[z + i - n], pixels[z + i - signedStride], pixels[z + i - signedStride - n]);
      } else if t == 5 {
        guess := pixels[z + i - n] / 2;
      } else {
        guess := Paeth(pixels[z + i - n], 0, 0);
      }
    }
    value := (pixels[z + i] - guess) % 256;
  }

  /** stbiw__encode_png_line: the filtered line of the specification.  The loop for
      the first pixel and the one for the rest are one here: the difference is in the
      value subtracted. */
  method EncodePngLine(shape: Shape, pixels: array<Byte>, y: nat, filter: nat, lineBuffer: array<Byte>)
    requires Fits(shape, pixels.Length) && y < shape.height && filter < 5
    requires lineBuffer.Length == Size(shape) && lineBuffer != pixels
    modifies lineBuffer
    ensures lineBuffer[..] == Line(shape, pixels[..], y, filter)
  {
    ghost var line := Line(shape, pixels[..], y, filter);
    var z := RowStart(shape, y);
    if TypeOf(filter, y) == 0 {
      CopiedLine(shape, pixels[..], y, filter);
      RowStartFits(shape, pixels.Length, y);
      hide Line, Fits;
      for i := 0 to lineBuffer.Length
        invariant lineBuffer[..i] == pixels[z..z + i]
      {
        lineBuffer[i] := pixels[z + i];
      }
      return;
    }
    hide Line, Fits, TypeOf, RowStart;
    for i := 0 to lineBuffer.Length
      invariant lineBuffer[..i] == line[..i]
    {
      lineBuffer[i] := EncodeByte(shape, pixels, y, filter, i);
    }
  }

  /** Filter code 0 predicts nothing; above the first row it stands for filter 2 too. */
  lemma CopiedLine(shape: Shape, pixels: seq<Byte>, y: nat, filter: nat)
    requires Fits(shape, |pixels|) && y < shape.height && filter < 5 && TypeOf(filter, y) == 0
    ensures Line(shape, pixels, y, filter) == Row(shape, pixels, y)
  {
    forall i | 0 <= i < Size(shape)
      ensures Line(shape, pixels, y, filter)[i] == Row(shape, pixels, y)[i]
    {
      LineAt(shape, pixels, y, filter, i);
    }
  }
}
