/**
 Two-stage pair similarity: a 64-bit difference hash may reject a pair, and only the summed RGB
 difference may accept it. A `u64` hash is modelled by its 64 bits, least significant first.
 */
module Perceptual {
  import opened Common
  import opened Frames

  const SCALE: nat := 10_000
  const HASH_BITS: nat := 64

  type Bits = seq<bool>

  // ---------------------------------------------------------------- hash distance

  function Xor(a: Bits, b: Bits): (r: Bits)
    requires |a| == |b|
    ensures |r| == |a|
  {
    seq(|a|, i requires 0 <= i < |a| => a[i] != b[i])
  }

  function CountOnes(a: Bits): (r: nat)
    ensures r <= |a|
  {
    if a == [] then 0 else CountOnes(a[..|a| - 1]) + (if a[|a| - 1] then 1 else 0)
  }

  function Hamming(a: Bits, b: Bits): nat
    requires |a| == |b|
  {
    CountOnes(Xor(a, b))
  }

  lemma {:induction false} HammingStep(a: Bits, b: Bits)
    requires |a| == |b| > 0
    ensures Hamming(a, b)
         == Hamming(a[..|a| - 1], b[..|b| - 1]) + (if a[|a| - 1] != b[|b| - 1] then 1 else 0)
  {
    assert Xor(a, b)[..|a| - 1] == Xor(a[..|a| - 1], b[..|b| - 1]);
  }

  /** Hamming distance is a metric: symmetric, zero exactly on equal words, triangular. */
  lemma {:induction false} HammingMetric(a: Bits, b: Bits, c: Bits)
    requires |a| == |b| == |c|
    ensures Hamming(a, b) == Hamming(b, a)
    ensures Hamming(a, b) == 0 <==> a == b
    ensures Hamming(a, c) <= Hamming(a, b) + Hamming(b, c)
  {
    assert Xor(a, b) == Xor(b, a);
    if a != [] {
      var n := |a| - 1;
      HammingStep(a, b);
      HammingStep(b, c);
      HammingStep(a, c);
      HammingMetric(a[..n], b[..n], c[..n]);
      assert a == a[..n] + [a[n]] && b == b[..n] + [b[n]];
    }
  }

  /** The distance is the number of positions at which the words differ. */
  lemma {:induction false} HammingCountsDifferences(a: Bits, b: Bits)
    requires |a| == |b|
    ensures Hamming(a, b) == |set k | 0 <= k < |a| && a[k] != b[k]|
  {
    hide Hamming;
    var all := set k | 0 <= k < |a| && a[k] != b[k];
    if a == [] {
      HammingMetric(a, b, a);
      assert all == {};
    } else {
      var n := |a| - 1;
      var before := set k | 0 <= k < n && a[..n][k] != b[..n][k];
      HammingStep(a, b);
      HammingCountsDifferences(a[..n], b[..n]);
      assert all == if a[n] != b[n] then before + {n} else before;
    }
  }

  // ---------------------------------------------------------------- difference hash

  function Luma(r: byte, g: byte, b: byte): (v: nat)
    ensures v <= 255
    ensures Min(r, Min(g, b)) <= v <= Max(r, Max(g, b))
  {
    (r * 77 + g * 150 + b * 29 + 128) / 256
  }

  /** The weights are 77, 150 and 29 parts in 256 of red, green and blue, rounded to nearest. */
  lemma LumaIsNearest(r: byte, g: byte, b: byte)
    ensures -256 <= 2 * (77 * r + 150 * g + 29 * b - 256 * Luma(r, g, b)) < 256
    ensures Luma(r, r, r) == r
  {
  }

  function SampleCoordinate(size: nat, index: nat, samples: nat): (r: nat)
    requires 0 < size && 1 < samples && index < samples
    ensures r < size
    ensures index == 0 ==> r == 0
    ensures index == samples - 1 ==> r == size - 1
  {
    SampleInRange(size - 1, index, samples - 1);
    (size - 1) * index / (samples - 1)
  }

  lemma SampleInRange(last: nat, index: nat, intervals: nat)
    requires 0 < intervals && index <= intervals
    ensures last * index / intervals <= last
    ensures index == intervals ==> last * index / intervals == last
  {
    MulMonotone(index, intervals, last);
    DivCancel(last, intervals);
    DivMonotone(last * index, last * intervals, intervals);
  }

  /** The samples are evenly spread: coordinate `r` is the last one at or before its exact place. */
  lemma SamplesAreSpread(size: nat, index: nat, samples: nat)
    requires 0 < size && 1 < samples && index < samples
    ensures var r := SampleCoordinate(size, index, samples);
      r * (samples - 1) <= (size - 1) * index < (r + 1) * (samples - 1)
  {
    FloorBounds((size - 1) * index, samples - 1);
  }

  /** A frame of the size of the grid is sampled pixel by pixel. */
  lemma OwnGrid(size: nat, index: nat)
    requires 1 < size && index < size
    ensures SampleCoordinate(size, index, size) == index
  {
    var d := size - 1;
    DivCancel(index, d);
    assert d * index == index * d;
  }

  /** Luma of the 9x8 sample grid at (row, column). */
  function GridLuma(f: Frame, row: nat, column: nat): nat
    requires row < 8 && column < 9
  {
    var y := SampleCoordinate(f.height, row, 8);
    var x := SampleCoordinate(f.width, column, 9);
    Luma(Channel(f, y, x, 0), Channel(f, y, x, 1), Channel(f, y, x, 2))
  }

  /** Bit `k` compares a grid sample with its right-hand neighbour. */
  predicate HashBit(f: Frame, k: nat)
    requires k < 64
  {
    GridLuma(f, k / 8, k % 8) > GridLuma(f, k / 8, k % 8 + 1)
  }

  function DHash(f: Frame): (h: Bits)
    ensures |h| == 64
  {
    seq(64, k requires 0 <= k < 64 => HashBit(f, k))
  }

  /** Bit `8 * row + column` says that the sample at (row, column) is brighter than the one to its right. */
  lemma HashBitMeaning(f: Frame, row: nat, column: nat)
    requires row < 8 && column < 8
    ensures var y, x, next := SampleCoordinate(f.height, row, 8), SampleCoordinate(f.width, column, 9),
                              SampleCoordinate(f.width, column + 1, 9);
      DHash(f)[8 * row + column] <==>
        Luma(Channel(f, y, x, 0), Channel(f, y, x, 1), Channel(f, y, x, 2))
        > Luma(Channel(f, y, next, 0), Channel(f, y, next, 1), Channel(f, y, next, 2))
  {
    hide Luma, SampleCoordinate;
    var k := 8 * row + column;
    assert k / 8 == row && k % 8 == column;
    assert DHash(f)[k] == HashBit(f, k);
  }

  /** The hash loop: eight rows of nine samples, one bit per adjacent pair. */
  method ComputeDHash(f: Frame) returns (h: Bits)
    ensures |h| == 64
    ensures forall k :: 0 <= k < 64 ==> (h[k] <==> HashBit(f, k))
    ensures h == DHash(f)
  {
    hide GridLuma;
    var samples: seq<seq<nat>> := [];
    for row := 0 to 8
      invariant |samples| == row
      invariant forall i :: 0 <= i < row ==> |samples[i]| == 9
      invariant forall i, j :: 0 <= i < row && 0 <= j < 9 ==> samples[i][j] == GridLuma(f, i, j)
    {
      var values: seq<nat> := [];
      for column := 0 to 9
        invariant |values| == column
        invariant forall j :: 0 <= j < column ==> values[j] == GridLuma(f, row, j)
      {
        values := values + [GridLuma(f, row, column)];
      }
      samples := samples + [values];
    }
    h := [];
    for row := 0 to 8
      invariant |h| == 8 * row
      invariant forall k :: 0 <= k < 8 * row ==> (h[k] <==> HashBit(f, k))
    {
      for column := 0 to 8
        invariant |h| == 8 * row + column
        invariant forall k :: 0 <= k < 8 * row + column ==> (h[k] <==> HashBit(f, k))
      {
        var k := 8 * row + column;
        assert k / 8 == row && k % 8 == column;
        h := h + [samples[row][column] > samples[row][column + 1]];
      }
    }
  }

  // ---------------------------------------------------------------- RGB confirmation

  /** RGB difference of one four-byte chunk; alpha is not compared. */
  function PixelDifference(left: seq<byte>, right: seq<byte>, x: nat): (r: nat)
    requires 4 * x + 3 < |left| == |right|
    ensures r <= 765
  {
    AbsDiff(left[4 * x], right[4 * x])
    + AbsDiff(left[4 * x + 1], right[4 * x + 1])
    + AbsDiff(left[4 * x + 2], right[4 * x + 2])
  }

  function RowDifference(left: seq<byte>, right: seq<byte>, n: nat): (r: nat)
    requires 4 * n <= |left| == |right|
    ensures r <= 765 * n
  {
    if n == 0 then 0 else RowDifference(left, right, n - 1) + PixelDifference(left, right, n - 1)
  }

  function TotalDifference(left: Frame, right: Frame, rows: nat): (r: nat)
    requires SameSize(left, right) && rows <= left.height
    ensures r <= Times(rows, 765 * left.width)
  {
    if rows == 0 then 0
    else TotalDifference(left, right, rows - 1)
         + RowDifference(VisibleRow(left, rows - 1), VisibleRow(right, rows - 1), left.width)
  }

  function MaxDifference(f: Frame): (r: nat)
    ensures 0 < r
  {
    TimesMonotone(1, f.height, 765 * f.width);
    Times(f.height, 765 * f.width)
  }

  /** Rounded difference in basis points: nearest integer to `total * SCALE / maximum`. */
  function DifferenceBps(total: nat, maximum: nat): (r: nat)
    requires 0 < maximum
  {
    (total * SCALE + maximum / 2) / maximum
  }

  /** Confirmation score of two frames of one size. */
  function Confirmation(left: Frame, right: Frame): (r: int)
    requires SameSize(left, right)
    ensures 0 <= r <= SCALE
  {
    SCALE - Min(DifferenceBps(TotalDifference(left, right, left.height), MaxDifference(left)), SCALE)
  }

  datatype Score = Score(basisPoints: nat, exact: bool)

  predicate VisibleEqual(left: Frame, right: Frame)
    requires SameSize(left, right)
  {
    forall y :: 0 <= y < left.height ==> VisibleRow(left, y) == VisibleRow(right, y)
  }

  lemma {:induction false} EqualRowHasNoDifference(row: seq<byte>, n: nat)
    requires 4 * n <= |row|
    ensures RowDifference(row, row, n) == 0
  {
    if n > 0 {
      EqualRowHasNoDifference(row, n - 1);
    }
  }

  lemma {:induction false} EqualFramesHaveNoDifference(left: Frame, right: Frame, rows: nat)
    requires SameSize(left, right) && rows <= left.height && VisibleEqual(left, right)
    ensures TotalDifference(left, right, rows) == 0
  {
    hide VisibleRow, RowDifference;
    if rows > 0 {
      EqualFramesHaveNoDifference(left, right, rows - 1);
      EqualRowHasNoDifference(VisibleRow(left, rows - 1), left.width);
    }
  }

  /** The identical-pixels shortcut and the full sum give the same basis points. */
  lemma FastPathAgrees(left: Frame, right: Frame)
    requires SameSize(left, right) && VisibleEqual(left, right)
    ensures Confirmation(left, right) == SCALE
  {
    EqualFramesHaveNoDifference(left, right, left.height);
    NoDifferenceScoresZero(MaxDifference(left));
  }

  lemma NoDifferenceScoresZero(maximum: nat)
    requires 0 < maximum
    ensures DifferenceBps(0, maximum) == 0
  {
    FloorBounds(maximum / 2, maximum);
    if maximum / 2 / maximum > 0 {
      MulMonotone(1, maximum / 2 / maximum, maximum);
    }
  }

  /** The inner loop of the sum: one row of four-byte chunks. */
  method SumRow(left: seq<byte>, right: seq<byte>, width: nat) returns (total: nat)
    requires |left| == |right| == 4 * width
    ensures total == RowDifference(left, right, width)
  {
    total := 0;
    for x := 0 to width
      invariant total == RowDifference(left, right, x)
    {
      total := total + AbsDiff(left[4 * x], right[4 * x]);
      total := total + AbsDiff(left[4 * x + 1], right[4 * x + 1]);
      total := total + AbsDiff(left[4 * x + 2], right[4 * x + 2]);
    }
  }

  /** The shortcut scan: rows are compared without their padding, alpha included. */
  method VisiblePixelsIdentical(left: Frame, right: Frame) returns (identical: bool)
    requires SameSize(left, right)
    ensures identical <==> VisibleEqual(left, right)
  {
    hide VisibleRow;
    for y := 0 to left.height
      invariant forall i :: 0 <= i < y ==> VisibleRow(left, i) == VisibleRow(right, i)
    {
      if VisibleRow(left, y) != VisibleRow(right, y) {
        return false;
      }
    }
    return true;
  }

  method SumRows(left: Frame, right: Frame) returns (total: nat)
    requires SameSize(left, right)
    ensures total == TotalDifference(left, right, left.height)
  {
    hide VisibleRow, RowDifference;
    total := 0;
    for row := 0 to left.height
      invariant total == TotalDifference(left, right, row)
    {
      var difference := SumRow(VisibleRow(left, row), VisibleRow(right, row), left.width);
      total := total + difference;
    }
  }

  /** The score, with the identical-pixels shortcut and the clamp of the original. */
  method RgbMeanAbsoluteSimilarity(left: Frame, right: Frame) returns (score: Score)
    requires SameSize(left, right)
    ensures score.basisPoints == Confirmation(left, right)
    ensures score.exact <==> VisibleEqual(left, right)
  {
    hide VisibleEqual, TotalDifference, MaxDifference;
    var identical := VisiblePixelsIdentical(left, right);
    if identical {
      FastPathAgrees(left, right);
      return Score(SCALE, true);
    }
    var total := SumRows(left, right);
    var maximum := MaxDifference(left);
    score := Score(SCALE - Min((total * SCALE + maximum / 2) / maximum, SCALE), false);
  }

  // ---------------------------------------------------------------- metric laws

  lemma AbsTriangle(a: int, b: int, c: int)
    ensures AbsDiff(a, c) <= AbsDiff(a, b) + AbsDiff(b, c)
    ensures AbsDiff(a, b) == AbsDiff(b, a)
  {
  }

  lemma PixelTriangle(a: seq<byte>, b: seq<byte>, c: seq<byte>, x: nat)
    requires 4 * x + 3 < |a| == |b| == |c|
    ensures PixelDifference(a, c, x) <= PixelDifference(a, b, x) + PixelDifference(b, c, x)
    ensures PixelDifference(a, b, x) == PixelDifference(b, a, x)
  {
    AbsTriangle(a[4 * x], b[4 * x], c[4 * x]);
    AbsTriangle(a[4 * x + 1], b[4 * x + 1], c[4 * x + 1]);
    AbsTriangle(a[4 * x + 2], b[4 * x + 2], c[4 * x + 2]);
  }

  lemma {:induction false} RowTriangle(a: seq<byte>, b: seq<byte>, c: seq<byte>, n: nat)
    requires 4 * n <= |a| == |b| == |c|
    ensures RowDifference(a, c, n) <= RowDifference(a, b, n) + RowDifference(b, c, n)
    ensures RowDifference(a, b, n) == RowDifference(b, a, n)
  {
    hide PixelDifference;
    if n > 0 {
      RowTriangle(a, b, c, n - 1);
      PixelTriangle(a, b, c, n - 1);
    }
  }

  /** Summed RGB difference is a symmetric, triangular distance. */
  lemma {:induction false} TotalTriangle(a: Frame, b: Frame, c: Frame, rows: nat)
    requires SameSize(a, b) && SameSize(b, c) && rows <= a.height
    ensures TotalDifference(a, c, rows) <= TotalDifference(a, b, rows) + TotalDifference(b, c, rows)
    ensures TotalDifference(a, b, rows) == TotalDifference(b, a, rows)
  {
    hide VisibleRow, RowDifference;
    if rows > 0 {
      TotalTriangle(a, b, c, rows - 1);
      RowTriangle(VisibleRow(a, rows - 1), VisibleRow(b, rows - 1), VisibleRow(c, rows - 1), a.width);
    }
  }

  // ---- What the sum is

  /** The sum of `f(0)` to `f(n - 1)`. */
  function SumTo(n: nat, f: nat -> nat): nat {
    if n == 0 then 0 else SumTo(n - 1, f) + f(n - 1)
  }

  /** The difference of one visible channel, zero outside the frames. */
  function ChannelGap(left: Frame, right: Frame, y: nat, x: nat, c: nat): nat
    requires SameSize(left, right) && c < 4
  {
    if y < left.height && x < left.width then AbsDiff(Channel(left, y, x, c), Channel(right, y, x, c)) else 0
  }

  /** Red, green and blue of one visible pixel. */
  function RgbGap(left: Frame, right: Frame, y: nat, x: nat): nat
    requires SameSize(left, right)
  {
    ChannelGap(left, right, y, x, 0) + ChannelGap(left, right, y, x, 1) + ChannelGap(left, right, y, x, 2)
  }

  lemma PixelIsGap(left: Frame, right: Frame, y: nat, x: nat)
    requires SameSize(left, right) && y < left.height && x < left.width
    ensures PixelDifference(VisibleRow(left, y), VisibleRow(right, y), x) == RgbGap(left, right, y, x)
  {
    hide VisibleRow, AbsDiff;
  }

  lemma {:induction false} RowIsSum(left: Frame, right: Frame, y: nat, n: nat)
    requires SameSize(left, right) && y < left.height && n <= left.width
    ensures RowDifference(VisibleRow(left, y), VisibleRow(right, y), n) == SumTo(n, x => RgbGap(left, right, y, x))
  {
    hide VisibleRow, PixelDifference, RgbGap;
    if n > 0 {
      RowIsSum(left, right, y, n - 1);
      PixelIsGap(left, right, y, n - 1);
    }
  }

  /** The total is the sum over all visible pixels of the differences of red, green and blue. */
  lemma {:induction false} TotalIsChannelSum(left: Frame, right: Frame, rows: nat)
    requires SameSize(left, right) && rows <= left.height
    ensures TotalDifference(left, right, rows)
         == SumTo(rows, y => SumTo(left.width, x => RgbGap(left, right, y, x)))
  {
    hide RowDifference, VisibleRow, RgbGap;
    if rows > 0 {
      TotalIsChannelSum(left, right, rows - 1);
      RowIsSum(left, right, rows - 1, left.width);
    }
  }

  /** Rounding to nearest costs at most one unit of the triangle inequality. */
  lemma {:induction false} RoundedTriangle(direct: nat, first: nat, second: nat, maximum: nat)
    requires 0 < maximum && direct <= first + second
    ensures DifferenceBps(direct, maximum) <= DifferenceBps(first, maximum) + DifferenceBps(second, maximum) + 1
  {
    var d1 := DifferenceBps(first, maximum);
    var d2 := DifferenceBps(second, maximum);
    var d := DifferenceBps(direct, maximum);
    var h := maximum / 2;
    FloorBounds(first * SCALE + h, maximum);
    FloorBounds(second * SCALE + h, maximum);
    FloorBounds(direct * SCALE + h, maximum);
    assert (d1 + 1) * maximum + (d2 + 1) * maximum == (d1 + d2 + 2) * maximum;
    if d >= d1 + d2 + 2 {
      MulMonotone(d1 + d2 + 2, d, maximum);
    }
  }

  lemma FloorBounds(a: nat, d: nat)
    requires 0 < d
    ensures a / d * d <= a < (a / d + 1) * d
  {
  }

  /** The difference never exceeds the whole scale, so the clamp of the score is dead. */
  lemma ClampIsDead(left: Frame, right: Frame)
    requires SameSize(left, right)
    ensures Confirmation(left, right)
         == SCALE - DifferenceBps(TotalDifference(left, right, left.height), MaxDifference(left))
  {
    assert TotalDifference(left, right, left.height) <= MaxDifference(left);
    hide TotalDifference, MaxDifference, DifferenceBps;
    ShareWithinScale(TotalDifference(left, right, left.height), MaxDifference(left));
  }

  lemma ShareWithinScale(total: nat, maximum: nat)
    requires 0 < maximum && total <= maximum
    ensures DifferenceBps(total, maximum) <= SCALE
  {
    FloorBounds(total * SCALE + maximum / 2, maximum);
    if DifferenceBps(total, maximum) > SCALE {
      MulMonotone(SCALE + 1, DifferenceBps(total, maximum), maximum);
    }
  }

  lemma SameMaximum(a: Frame, b: Frame)
    requires SameSize(a, b)
    ensures MaxDifference(a) == MaxDifference(b)
  {
  }

  /** Scores against a common frame bound the score between the two others. */
  lemma {:induction false} ConfirmationDrift(a: Frame, pivot: Frame, b: Frame)
    requires SameSize(a, pivot) && SameSize(pivot, b)
    ensures Confirmation(a, b) >= Confirmation(pivot, a) + Confirmation(pivot, b) - SCALE - 1
  {
    hide TotalDifference, MaxDifference, DifferenceBps;
    TotalTriangle(a, pivot, b, a.height);
    TotalTriangle(pivot, a, pivot, a.height);
    assert MaxDifference(a) == MaxDifference(pivot) by { SameMaximum(a, pivot); }
    RoundedTriangle(TotalDifference(a, b, a.height), TotalDifference(a, pivot, a.height),
                    TotalDifference(pivot, b, a.height), MaxDifference(a));
    ClampIsDead(a, b);
    ClampIsDead(pivot, a);
    ClampIsDead(pivot, b);
  }

  lemma ConfirmationSymmetric(a: Frame, b: Frame)
    requires SameSize(a, b)
    ensures Confirmation(a, b) == Confirmation(b, a)
  {
    hide TotalDifference, MaxDifference;
    TotalTriangle(a, b, a, a.height);
    SameMaximum(a, b);
  }

  /** A one-pixel frame with the given red value. */
  function RedPixel(red: byte): (f: Frame)
    ensures f.width == 1 && f.height == 1
  {
    RgbaLayout(1, 1, 4, [red, 0, 0, 255])
  }

  /** The extra unit of the drift bound is reached, so the bound cannot be tightened. */
  lemma DriftBoundIsTight()
    ensures Confirmation(RedPixel(5), RedPixel(0)) == 9_935
    ensures Confirmation(RedPixel(5), RedPixel(10)) == 9_935
    ensures Confirmation(RedPixel(0), RedPixel(10)) == 2 * 9_935 - 10_001
  {
    var a, p, b := RedPixel(0), RedPixel(5), RedPixel(10);
    assert TotalDifference(p, a, 1) == RowDifference(VisibleRow(p, 0), VisibleRow(a, 0), 1) == 5;
    assert TotalDifference(p, b, 1) == RowDifference(VisibleRow(p, 0), VisibleRow(b, 0), 1) == 5;
    assert TotalDifference(a, b, 1) == RowDifference(VisibleRow(a, 0), VisibleRow(b, 0), 1) == 10;
  }

  // ---- What the score is

  /** The score is the nearest whole number of basis points to the share that does not differ. */
  lemma ConfirmationIsNearest(left: Frame, right: Frame)
    requires SameSize(left, right)
    ensures var total := SumTo(left.height, y => SumTo(left.width, x => RgbGap(left, right, y, x)));
      var maximum := 3 * 255 * (left.width * left.height);
      -maximum <= 2 * ((SCALE - Confirmation(left, right)) * maximum - total * SCALE) <= maximum
  {
    hide TotalDifference, RgbGap;
    TotalIsChannelSum(left, right, left.height);
    ClampIsDead(left, right);
    MaximumIsProduct(left);
    NearestShare(TotalDifference(left, right, left.height), MaxDifference(left));
  }

  lemma MaximumIsProduct(f: Frame)
    ensures MaxDifference(f) == 3 * 255 * (f.width * f.height)
  {
    TimesIsProduct(f.height, 765 * f.width);
    assert f.height * (765 * f.width) == 765 * (f.width * f.height);
  }

  lemma NearestShare(total: nat, maximum: int)
    requires 0 < maximum
    ensures -maximum <= 2 * (DifferenceBps(total, maximum) * maximum - total * SCALE) <= maximum
  {
    FloorBounds(total * SCALE + maximum / 2, maximum);
  }

  /** Frames that agree in every visible red, green and blue score the whole scale, whatever alpha and padding. */
  lemma AlphaAndPaddingIgnored(left: Frame, right: Frame)
    requires SameSize(left, right)
    requires forall y, x, c | 0 <= y < left.height && 0 <= x < left.width && 0 <= c < 3 ::
      Channel(left, y, x, c) == Channel(right, y, x, c)
    ensures Confirmation(left, right) == SCALE
  {
    hide Channel;
    var rows: nat -> nat := y => SumTo(left.width, x => RgbGap(left, right, y, x));
    forall y | 0 <= y < left.height
      ensures rows(y) == 0
    {
      forall x | 0 <= x < left.width ensures RgbGap(left, right, y, x) == 0 {
        assert Channel(left, y, x, 0) == Channel(right, y, x, 0) && Channel(left, y, x, 1) == Channel(right, y, x, 1);
        assert Channel(left, y, x, 2) == Channel(right, y, x, 2);
      }
      ZeroSum(left.width, x => RgbGap(left, right, y, x));
    }
    ZeroSum(left.height, rows);
    TotalIsChannelSum(left, right, left.height);
    NoDifferenceScoresZero(MaxDifference(left));
  }

  lemma {:induction false} ZeroSum(n: nat, f: nat -> nat)
    requires forall i | 0 <= i < n :: f(i) == 0
    ensures SumTo(n, f) == 0
  {
    if n > 0 {
      ZeroSum(n - 1, f);
    }
  }

  /** A one-pixel frame of the given colour. */
  function OnePixel(red: byte, green: byte, blue: byte, alpha: byte): (f: Frame)
    ensures f.width == 1 && f.height == 1
  {
    RgbaLayout(1, 1, 4, [red, green, blue, alpha])
  }

  /** One pixel: each of red, green and blue weighs the same, alpha nothing; black against white scores zero. */
  lemma OnePixelScores(r: byte, g: byte, b: byte, alpha: byte, other: byte)
    ensures Confirmation(OnePixel(0, 0, 0, alpha), OnePixel(r, g, b, other))
         == SCALE - ((r + g + b) * SCALE + 382) / 765
  {
    var left, right := OnePixel(0, 0, 0, alpha), OnePixel(r, g, b, other);
    var a, z := VisibleRow(left, 0), VisibleRow(right, 0);
    assert a == [0, 0, 0, alpha] && z == [r, g, b, other];
    assert RowDifference(a, z, 1) == RowDifference(a, z, 0) + PixelDifference(a, z, 0);
    assert TotalDifference(left, right, 1) == TotalDifference(left, right, 0) + RowDifference(a, z, 1) == r + g + b;
    assert MaxDifference(left) == 765;
  }

  // ---------------------------------------------------------------- pair decision

  datatype Policy = Policy(maxHashDistance: nat, minimumSimilarity: nat)

  predicate ValidPolicy(p: Policy) {
    p.maxHashDistance <= HASH_BITS && p.minimumSimilarity <= SCALE
  }

  /** A policy is valid within the 64 bits of a hash and the 10000 basis points of a score. */
  lemma PolicyIff(p: Policy)
    ensures ValidPolicy(p) <==> p.maxHashDistance <= 64 && p.minimumSimilarity <= 10_000
  {
  }

  datatype Decision =
    | RejectedByHash(distance: nat)
    | RejectedByConfirmation(distance: nat, confirmation: nat)
    | Accepted(distance: nat, confirmation: nat)

  datatype CompareError = DimensionMismatch

  function Compare(policy: Policy, left: Frame, right: Frame): (r: Result<Decision, CompareError>)
    ensures r.Err? <==> !SameSize(left, right)
    ensures r.Ok? && r.value.Accepted? ==>
              r.value.confirmation == Confirmation(left, right) >= policy.minimumSimilarity
  {
    if !SameSize(left, right) then Err(DimensionMismatch)
    else
      var distance := Hamming(DHash(left), DHash(right));
      if distance > policy.maxHashDistance then Ok(RejectedByHash(distance))
      else
        var confirmation := Confirmation(left, right);
        if confirmation >= policy.minimumSimilarity then Ok(Accepted(distance, confirmation))
        else Ok(RejectedByConfirmation(distance, confirmation))
  }

  /** The hash may only reject; only the score accepts; every decision carries what it was made on. */
  lemma CompareDecides(policy: Policy, left: Frame, right: Frame)
    requires SameSize(left, right)
    ensures var d, distance, score := Compare(policy, left, right).value, Hamming(DHash(left), DHash(right)),
                                      Confirmation(left, right);
      && (d == RejectedByHash(distance) <==> distance > policy.maxHashDistance)
      && (d == RejectedByConfirmation(distance, score) <==>
            distance <= policy.maxHashDistance && score < policy.minimumSimilarity)
      && (d == Accepted(distance, score) <==>
            distance <= policy.maxHashDistance && score >= policy.minimumSimilarity)
  {
    hide DHash, Hamming, Confirmation;
  }

  predicate Accepts(policy: Policy, left: Frame, right: Frame): (r: bool)
    ensures r ==> SameSize(left, right)
  {
    var d := Compare(policy, left, right);
    d.Ok? && d.value.Accepted?
  }

  /** Acceptance means both gates passed, is symmetric, and two frames accepted against a common
      pivot are bounded against each other. */
  lemma AcceptedAgainstPivot(policy: Policy, pivot: Frame, a: Frame, b: Frame)
    requires Accepts(policy, pivot, a) && Accepts(policy, pivot, b)
    ensures SameSize(a, b)
    ensures Confirmation(a, b) >= 2 * policy.minimumSimilarity - 10_001
    ensures Hamming(DHash(a), DHash(b)) <= 2 * policy.maxHashDistance
    ensures Accepts(policy, a, pivot)
  {
    hide Confirmation, Hamming, DHash;
    ConfirmationDrift(a, pivot, b);
    ConfirmationSymmetric(pivot, a);
    HammingMetric(DHash(a), DHash(pivot), DHash(b));
    HammingMetric(DHash(pivot), DHash(a), DHash(b));
  }
}
