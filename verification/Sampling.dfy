/** Fixed-point bilinear sampling and the RGB normalisation built on it. */
module Sampling {
  import opened Common
  import opened Frames

  const ONE: int := 65536  // fixed-point one: coordinates carry 16 fractional bits

  /** The weighted sum of four neighbours, before rounding: 32 fractional bits. */
  function Weighted(p00: byte, p10: byte, p01: byte, p11: byte, fx: nat, fy: nat): int
    requires fx < ONE && fy < ONE
  {
    (p00 * (ONE - fx) + p10 * fx) * (ONE - fy) + (p01 * (ONE - fx) + p11 * fx) * fy
  }

  /** Rounded to the nearest integer and clamped to a byte, as the sampler returns it. */
  function Blend(p00: byte, p10: byte, p01: byte, p11: byte, fx: nat, fy: nat): (r: byte)
    requires fx < ONE && fy < ONE
  {
    WeightedBetween(p00, p10, p01, p11, fx, fy, 0, 255);
    Min((Weighted(p00, p10, p01, p11, fx, fy) + 0x8000_0000) / 0x1_0000_0000, 255)
  }

  lemma MixBetween(a: int, b: int, f: nat, lo: int, hi: int)
    requires lo <= a <= hi && lo <= b <= hi && f < ONE
    ensures lo * ONE <= a * (ONE - f) + b * f <= hi * ONE
  {
    var g := ONE - f;
    assert lo * g + lo * f == lo * ONE && hi * g + hi * f == hi * ONE;
    ScaleBetween(a, g, lo, hi);
    ScaleBetween(b, f, lo, hi);
  }

  lemma ScaleBetween(a: int, f: nat, lo: int, hi: int)
    requires lo <= a <= hi
    ensures lo * f <= a * f <= hi * f
  {
  }

  lemma WeightedBetween(p00: byte, p10: byte, p01: byte, p11: byte, fx: nat, fy: nat, lo: byte, hi: byte)
    requires fx < ONE && fy < ONE
    requires lo <= p00 <= hi && lo <= p10 <= hi && lo <= p01 <= hi && lo <= p11 <= hi
    ensures lo * 0x1_0000_0000 <= Weighted(p00, p10, p01, p11, fx, fy) <= hi * 0x1_0000_0000
  {
    MixBetween(p00, p10, fx, lo, hi);
    MixBetween(p01, p11, fx, lo, hi);
    MixBetween(p00 * (ONE - fx) + p10 * fx, p01 * (ONE - fx) + p11 * fx, fy, lo * ONE, hi * ONE);
  }

  /**
   * A blended value lies between its four neighbours; so the clamp never acts, and every
   * intermediate fits an unsigned 64-bit word.
   */
  lemma BlendBetween(p00: byte, p10: byte, p01: byte, p11: byte, fx: nat, fy: nat, lo: byte, hi: byte)
    requires fx < ONE && fy < ONE
    requires lo <= p00 <= hi && lo <= p10 <= hi && lo <= p01 <= hi && lo <= p11 <= hi
    ensures lo <= Blend(p00, p10, p01, p11, fx, fy) <= hi
    ensures var exact := Weighted(p00, p10, p01, p11, fx, fy) + 0x8000_0000;
      && 0 <= exact <= U64_MAX
      && Blend(p00, p10, p01, p11, fx, fy) == exact / 0x1_0000_0000
  {
    hide Weighted;
    WeightedBetween(p00, p10, p01, p11, fx, fy, lo, hi);
  }

  /** The nearest byte to the four neighbours, each weighted by the area opposite to it. */
  lemma BlendIsNearest(p00: byte, p10: byte, p01: byte, p11: byte, fx: nat, fy: nat)
    requires fx < ONE && fy < ONE
    ensures var gx, gy := ONE - fx, ONE - fy;
      var exact := p00 * (gx * gy) + p10 * (fx * gy) + p01 * (gx * fy) + p11 * (fx * fy);
      -(ONE * ONE) <= 2 * (Blend(p00, p10, p01, p11, fx, fy) * (ONE * ONE) - exact) <= ONE * ONE
  {
    BlendBetween(p00, p10, p01, p11, fx, fy, 0, 255);
    FourAreas(p00, p10, p01, p11, fx, fy);
    hide Weighted, Blend;
  }

  lemma FourAreas(p00: byte, p10: byte, p01: byte, p11: byte, fx: nat, fy: nat)
    requires fx < ONE && fy < ONE
    ensures var gx, gy := ONE - fx, ONE - fy;
      Weighted(p00, p10, p01, p11, fx, fy)
      == p00 * (gx * gy) + p10 * (fx * gy) + p01 * (gx * fy) + p11 * (fx * fy)
  {
    var gx, gy := ONE - fx, ONE - fy;
    Regroup(p00, gx, p10, fx, gy);
    Regroup(p01, gx, p11, fx, fy);
  }

  lemma Regroup(a: int, u: int, b: int, v: int, w: int)
    ensures (a * u + b * v) * w == a * (u * w) + b * (v * w)
  {
  }

  /** Along one axis only the two neighbours on it count, by how near they are. */
  lemma BlendOnAxis(p00: byte, p10: byte, p01: byte, p11: byte, f: nat)
    requires f < ONE
    ensures Blend(p00, p10, p01, p11, f, 0) == (p00 * (ONE - f) + p10 * f + ONE / 2) / ONE
    ensures Blend(p00, p10, p01, p11, 0, f) == (p00 * (ONE - f) + p01 * f + ONE / 2) / ONE
  {
    BlendBetween(p00, p10, p01, p11, f, 0, 0, 255);
    BlendBetween(p00, p10, p01, p11, 0, f, 0, 255);
    hide Blend;
    assert Weighted(p00, p10, p01, p11, f, 0) == (p00 * (ONE - f) + p10 * f) * ONE;
    assert Weighted(p00, p10, p01, p11, 0, f) == p00 * ONE * (ONE - f) + p01 * ONE * f
                                              == (p00 * (ONE - f) + p01 * f) * ONE;
  }

  /** On a grid point the sample is the neighbour itself. */
  lemma BlendOnGrid(p00: byte, p10: byte, p01: byte, p11: byte)
    ensures Blend(p00, p10, p01, p11, 0, 0) == p00
  {
  }

  // ---- Coordinates ----

  function FixedPointCoordinate(output: nat, outputSize: nat, inputSize: nat): nat {
    if outputSize <= 1 || inputSize <= 1 then 0
    else Times(output, (inputSize - 1) * ONE) / (outputSize - 1)
  }

  lemma SpreadInRange(output: nat, last: nat, intervals: nat)
    requires output <= intervals && intervals > 0
    ensures Times(output, last) / intervals <= last
    ensures output == intervals ==> Times(output, last) / intervals == last
  {
    TimesMonotone(output, intervals, last);
    DivMonotone(Times(output, last), Times(intervals, last), intervals);
    TimesIsProduct(intervals, last);
    DivCancel(last, intervals);
  }

  /** Coordinates stay on the input, rise with the output position, and hit both ends. */
  lemma CoordinateInRange(output: nat, outputSize: nat, inputSize: nat)
    requires output < outputSize && inputSize > 0
    ensures FixedPointCoordinate(output, outputSize, inputSize) <= (inputSize - 1) * ONE
    ensures FixedPointCoordinate(output, outputSize, inputSize) / ONE < inputSize
    ensures output == 0 ==> FixedPointCoordinate(output, outputSize, inputSize) == 0
    ensures output == outputSize - 1 > 0 ==>
      FixedPointCoordinate(output, outputSize, inputSize) == (inputSize - 1) * ONE
  {
    if outputSize > 1 && inputSize > 1 {
      SpreadInRange(output, (inputSize - 1) * ONE, outputSize - 1);
      if output == 0 {
        DivMonotone(0, 0, outputSize - 1);
      }
    }
  }

  lemma CoordinateMonotone(a: nat, b: nat, outputSize: nat, inputSize: nat)
    requires a <= b
    ensures FixedPointCoordinate(a, outputSize, inputSize) <= FixedPointCoordinate(b, outputSize, inputSize)
  {
    if outputSize > 1 && inputSize > 1 {
      TimesMonotone(a, b, (inputSize - 1) * ONE);
      DivMonotone(Times(a, (inputSize - 1) * ONE), Times(b, (inputSize - 1) * ONE), outputSize - 1);
    }
  }

  /** Coordinates are spread evenly: each is the last fixed-point position at or before its exact place. */
  lemma CoordinateSpreads(output: nat, outputSize: nat, inputSize: nat)
    requires outputSize > 1 && inputSize > 1
    ensures var q := FixedPointCoordinate(output, outputSize, inputSize);
      q * (outputSize - 1) <= output * ((inputSize - 1) * 65536) < (q + 1) * (outputSize - 1)
  {
    TimesIsProduct(output, (inputSize - 1) * ONE);
  }

  /** No product overflows: frame dimensions are 32-bit and outputs are at most 2^15 wide. */
  lemma CoordinateFits(output: nat, inputSize: nat)
    requires output < 0x8000 && 0 < inputSize <= 0x1_0000_0000
    ensures Times(output, (inputSize - 1) * ONE) <= U64_MAX
  {
    TimesIsProduct(output, (inputSize - 1) * ONE);
    MulMonotone(output, 0x7FFF, (inputSize - 1) * ONE);
  }

  /** At equal sizes every coordinate is a grid point. */
  lemma CoordinateOfOwnSize(output: nat, size: nat)
    requires output < size
    ensures FixedPointCoordinate(output, size, size) == output * ONE
  {
    if size > 1 {
      TimesIsProduct(output, (size - 1) * ONE);
      assert output * ((size - 1) * ONE) == output * ONE * (size - 1);
      DivCancel(output * ONE, size - 1);
    }
  }

  // ---- Resampling ----

  /** Where one output coordinate reads: two neighbouring input positions and a fraction. */
  datatype Tap = Tap(first: nat, second: nat, fraction: nat)

  function TapAt(output: nat, outputSize: nat, inputSize: nat): (t: Tap)
    requires output < outputSize && inputSize > 0
    ensures t.first <= t.second < inputSize && t.second <= t.first + 1 && t.fraction < ONE
  {
    CoordinateInRange(output, outputSize, inputSize);
    var q := FixedPointCoordinate(output, outputSize, inputSize);
    Tap(q / ONE, Min(q / ONE + 1, inputSize - 1), q % ONE)
  }

  /** A tap is its coordinate split in position and fraction; the neighbour is the next position on the input. */
  lemma TapMeaning(output: nat, outputSize: nat, inputSize: nat)
    requires output < outputSize && inputSize > 0
    ensures var t := TapAt(output, outputSize, inputSize);
      && 65536 * t.first + t.fraction == FixedPointCoordinate(output, outputSize, inputSize)
      && t.second == if t.first + 1 < inputSize then t.first + 1 else t.first
  {
    hide FixedPointCoordinate;
    CoordinateInRange(output, outputSize, inputSize);
  }

  function SampleFrame(f: Frame, tx: Tap, ty: Tap, channel: nat): (r: byte)
    requires tx.first < f.width && tx.second < f.width && tx.fraction < ONE
    requires ty.first < f.height && ty.second < f.height && ty.fraction < ONE
    requires channel < 3
  {
    Blend(Channel(f, ty.first, tx.first, channel), Channel(f, ty.first, tx.second, channel),
          Channel(f, ty.second, tx.first, channel), Channel(f, ty.second, tx.second, channel),
          tx.fraction, ty.fraction)
  }

  function ResampledPixel(f: Frame, w: nat, h: nat, x: nat, y: nat): (r: seq<byte>)
    requires x < w && y < h
    ensures |r| == 3
  {
    var tx, ty := TapAt(x, w, f.width), TapAt(y, h, f.height);
    [SampleFrame(f, tx, ty, 0), SampleFrame(f, tx, ty, 1), SampleFrame(f, tx, ty, 2)]
  }

  function ResampledRow(f: Frame, w: nat, h: nat, y: nat, columns: nat): (r: seq<byte>)
    requires y < h && columns <= w
    ensures |r| == 3 * columns
  {
    if columns == 0 then [] else ResampledRow(f, w, h, y, columns - 1) + ResampledPixel(f, w, h, columns - 1, y)
  }

  function Resampled(f: Frame, w: nat, h: nat, rows: nat): (r: seq<byte>)
    requires rows <= h
    ensures |r| == Times(rows, 3 * w)
  {
    if rows == 0 then [] else Resampled(f, w, h, rows - 1) + ResampledRow(f, w, h, rows - 1, w)
  }

  method ResamplePixel(f: Frame, w: nat, h: nat, x: nat, y: nat) returns (pixel: seq<byte>)
    requires x < w && y < h
    ensures pixel == ResampledPixel(f, w, h, x, y)
  {
    hide Blend;
    var tx, ty := TapAt(x, w, f.width), TapAt(y, h, f.height);
    pixel := [];
    for channel := 0 to 3
      invariant pixel == ResampledPixel(f, w, h, x, y)[..channel]
    {
      pixel := pixel + [SampleFrame(f, tx, ty, channel)];
    }
  }

  method ResampleRow(f: Frame, w: nat, h: nat, y: nat) returns (row: seq<byte>)
    requires y < h
    ensures row == ResampledRow(f, w, h, y, w)
  {
    hide ResampledPixel;
    row := [];
    for x := 0 to w
      invariant row == ResampledRow(f, w, h, y, x)
    {
      var pixel := ResamplePixel(f, w, h, x, y);
      row := row + pixel;
    }
  }

  method ResampleRgb(f: Frame, w: nat, h: nat) returns (output: seq<byte>)
    ensures output == Resampled(f, w, h, h)
  {
    output := [];
    for y := 0 to h
      invariant output == Resampled(f, w, h, y)
    {
      var row := ResampleRow(f, w, h, y);
      output := output + row;
    }
  }

  lemma {:induction false} RowAt(f: Frame, w: nat, h: nat, y: nat, columns: nat, x: nat, channel: nat)
    requires y < h && x < columns <= w && channel < 3
    ensures ResampledRow(f, w, h, y, columns)[3 * x + channel] == ResampledPixel(f, w, h, x, y)[channel]
  {
    hide ResampledPixel;
    if x < columns - 1 {
      RowAt(f, w, h, y, columns - 1, x, channel);
    }
  }

  /** Byte `(y * w + x) * 3 + channel` of the output is the sample at column `x` of row `y`. */
  lemma {:induction false} ResampledAt(f: Frame, w: nat, h: nat, rows: nat, x: nat, y: nat, channel: nat)
    requires y < rows <= h && x < w && channel < 3
    ensures Times(y, 3 * w) + 3 * x + channel < Times(rows, 3 * w)
    ensures Resampled(f, w, h, rows)[Times(y, 3 * w) + 3 * x + channel]
              == ResampledPixel(f, w, h, x, y)[channel]
    decreases rows
  {
    hide ResampledPixel, ResampledRow;
    RowAt(f, w, h, y, w, x, channel);
    if y < rows - 1 {
      ResampledAt(f, w, h, rows - 1, x, y, channel);
    }
  }

  /** Every normalised value is the nearest byte to the four visible pixels at its taps, weighted by opposite areas. */
  lemma ResampledIsBilinear(f: Frame, w: nat, h: nat, x: nat, y: nat, channel: nat)
    requires x < w && y < h && channel < 3
    ensures var tx, ty := TapAt(x, w, f.width), TapAt(y, h, f.height);
      var gx, gy := 65536 - tx.fraction, 65536 - ty.fraction;
      var exact := Channel(f, ty.first, tx.first, channel) * (gx * gy)
                   + Channel(f, ty.first, tx.second, channel) * (tx.fraction * gy)
                   + Channel(f, ty.second, tx.first, channel) * (gx * ty.fraction)
                   + Channel(f, ty.second, tx.second, channel) * (tx.fraction * ty.fraction);
      -0x1_0000_0000 <= 2 * (ResampledPixel(f, w, h, x, y)[channel] * 0x1_0000_0000 - exact) <= 0x1_0000_0000
  {
    hide Blend, Channel, TapAt;
    var tx, ty := TapAt(x, w, f.width), TapAt(y, h, f.height);
    BlendIsNearest(Channel(f, ty.first, tx.first, channel), Channel(f, ty.first, tx.second, channel),
                   Channel(f, ty.second, tx.first, channel), Channel(f, ty.second, tx.second, channel),
                   tx.fraction, ty.fraction);
  }

  /** Every normalised value lies between the four visible input pixels it is read from. */
  lemma ResampledBetweenNeighbours(f: Frame, w: nat, h: nat, x: nat, y: nat, channel: nat, lo: byte, hi: byte)
    requires x < w && y < h && channel < 3
    requires var tx, ty := TapAt(x, w, f.width), TapAt(y, h, f.height);
      && lo <= Channel(f, ty.first, tx.first, channel) <= hi && lo <= Channel(f, ty.first, tx.second, channel) <= hi
      && lo <= Channel(f, ty.second, tx.first, channel) <= hi && lo <= Channel(f, ty.second, tx.second, channel) <= hi
    ensures lo <= ResampledPixel(f, w, h, x, y)[channel] <= hi
  {
    hide Blend, Channel;
    var tx, ty := TapAt(x, w, f.width), TapAt(y, h, f.height);
    BlendBetween(Channel(f, ty.first, tx.first, channel), Channel(f, ty.first, tx.second, channel),
                 Channel(f, ty.second, tx.first, channel), Channel(f, ty.second, tx.second, channel),
                 tx.fraction, ty.fraction, lo, hi);
  }

  /** Resampling to the frame's own size returns its visible RGB bytes unchanged, padding and alpha dropped. */
  lemma ResampleOwnSize(f: Frame, x: nat, y: nat, channel: nat)
    requires x < f.width && y < f.height && channel < 3
    ensures ResampledPixel(f, f.width, f.height, x, y)[channel] == Channel(f, y, x, channel)
  {
    CoordinateOfOwnSize(x, f.width);
    CoordinateOfOwnSize(y, f.height);
    var tx, ty := TapAt(x, f.width, f.width), TapAt(y, f.height, f.height);
    assert tx.first == x && tx.fraction == 0 && ty.first == y && ty.fraction == 0;
    BlendOnGrid(Channel(f, y, x, channel), Channel(f, y, tx.second, channel),
                Channel(f, ty.second, x, channel), Channel(f, ty.second, tx.second, channel));
  }
}
