/**
 * What the confirmation score means, stated on the descriptor bytes themselves: which bytes an
 * alignment compares, what a translated copy and a flat image score, where a crop samples.
 */
module ConfirmationLaws {
  import opened Common
  import opened Sampling
  import opened Confirmation

  /** Byte `channel` of the pixel at column `x` of row `y`. */
  function ByteAt(d: Descriptor, x: nat, y: nat, channel: nat): byte
    requires x < 16 && y < 16 && channel < 3
  {
    d[48 * y + 3 * x + channel]
  }

  // ---- Translations ----

  /** A shift compares three channels of every pixel of the overlap. */
  lemma OverlapChannels(dx: int, dy: int)
    requires -16 <= dx <= 16 && -16 <= dy <= 16
    ensures ShiftChannels(dx, dy) == 3 * (16 - AbsDiff(dx, 0)) * (16 - AbsDiff(dy, 0))
  {
    hide Sum, CountRow;
    var rows := CountRows(dx, dy);
    var across := 3 * (16 - AbsDiff(dx, 0));
    forall y | 0 <= y < SIDE
      ensures rows(y) == if 0 <= y + dy < SIDE then across else 0
    {
      OverlapRow(dx, dy, y);
    }
    OverlapSum(rows, across, dy);
  }

  lemma OverlapRow(dx: int, dy: int, y: int)
    requires -16 <= dx <= 16 && 0 <= y < SIDE
    ensures CountRows(dx, dy)(y) == if 0 <= y + dy < SIDE then 3 * (16 - AbsDiff(dx, 0)) else 0
  {
    hide Sum;
    if 0 <= y + dy < SIDE {
      OverlapSum(CountRow(dx, dy, y), 3, dx);
    } else {
      ZeroSum(CountRow(dx, dy, y), 0, SIDE);
    }
  }

  /** A sum over the positions that stay on the grid when shifted by `d`. */
  lemma OverlapSum(f: int -> int, k: int, d: int)
    requires -16 <= d <= 16 && forall i | 0 <= i < SIDE :: f(i) == if 0 <= i + d < SIDE then k else 0
    ensures Sum(f, 0, SIDE) == (16 - AbsDiff(d, 0)) * k
  {
    hide Sum;
    var lo, hi := if d < 0 then -d else 0, if d < 0 then SIDE else SIDE - d;
    SplitSum(f, 0, lo, SIDE);
    SplitSum(f, lo, hi, SIDE);
    ZeroSum(f, 0, lo);
    ConstantSum(f, k, lo, hi);
    ZeroSum(f, hi, SIDE);
  }

  lemma {:induction false} SplitSum(f: int -> int, lo: int, mid: int, hi: int)
    requires lo <= mid <= hi
    ensures Sum(f, lo, hi) == Sum(f, lo, mid) + Sum(f, mid, hi)
    decreases hi - mid
  {
    if mid < hi {
      SplitSum(f, lo, mid, hi - 1);
    }
  }

  /** The right descriptor holds the left one moved by (dx, dy), as far as they overlap. */
  predicate MovedCopy(left: Descriptor, right: Descriptor, dx: int, dy: int) {
    forall x, y, c | 0 <= x < 16 && 0 <= y < 16 && 0 <= c < 3 && 0 <= x + dx < 16 && 0 <= y + dy < 16 ::
      ByteAt(left, x, y, c) == ByteAt(right, x + dx, y + dy, c)
  }

  /** A copy moved by at most one pixel each way scores the whole scale. */
  lemma MovedCopyScoresWhole(left: Descriptor, right: Descriptor, dx: int, dy: int)
    requires -1 <= dx <= 1 && -1 <= dy <= 1 && MovedCopy(left, right, dx, dy)
    ensures ShiftScore(left, right, dx, dy) == SCALE && Similarity(left, right) == SCALE
  {
    hide Sum, Similarity;
    var rows := ShiftRows(left, right, dx, dy);
    forall y | 0 <= y < SIDE ensures rows(y) == 0 {
      forall x | 0 <= x < SIDE ensures ShiftRow(left, right, dx, dy, y)(x) == 0 {
        if Overlaps(dx, dy, x, y) {
          assert ByteAt(left, x, y, 0) == ByteAt(right, x + dx, y + dy, 0);
          assert ByteAt(left, x, y, 1) == ByteAt(right, x + dx, y + dy, 1);
          assert ByteAt(left, x, y, 2) == ByteAt(right, x + dx, y + dy, 2);
        }
      }
      ZeroSum(ShiftRow(left, right, dx, dy, y), 0, SIDE);
    }
    ZeroSum(rows, 0, SIDE);
    OverlapChannels(dx, dy);
    ScoreIsExact(0, ShiftChannels(dx, dy));
    SimilarityIsUpperBound(left, right, dx, dy, 0, 0);
  }

  /** Difference of one byte of the left descriptor to the byte it falls on, none off the overlap. */
  function Gap(left: Descriptor, right: Descriptor, dx: int, dy: int, x: int, y: int, c: nat): int
    requires c < 3
  {
    if 0 <= x < 16 && 0 <= y < 16 && 0 <= x + dx < 16 && 0 <= y + dy < 16
    then AbsDiff(ByteAt(left, x, y, c), ByteAt(right, x + dx, y + dy, c)) else 0
  }

  /** A shift sums the differences of all overlapping bytes, each channel once. */
  lemma ShiftIsSumOfGaps(left: Descriptor, right: Descriptor, dx: int, dy: int)
    ensures ShiftDifference(left, right, dx, dy)
         == Sum(y => Sum(x => Gap(left, right, dx, dy, x, y, 0) + Gap(left, right, dx, dy, x, y, 1)
                              + Gap(left, right, dx, dy, x, y, 2), 0, 16), 0, 16)
  {
    hide Sum;
    var rows: int -> int := y => Sum(x => Gap(left, right, dx, dy, x, y, 0) + Gap(left, right, dx, dy, x, y, 1)
                                          + Gap(left, right, dx, dy, x, y, 2), 0, 16);
    forall y | 0 <= y < SIDE ensures ShiftRows(left, right, dx, dy)(y) == rows(y) {
      var row: int -> int := x => Gap(left, right, dx, dy, x, y, 0) + Gap(left, right, dx, dy, x, y, 1)
                                  + Gap(left, right, dx, dy, x, y, 2);
      SameSum(ShiftRow(left, right, dx, dy, y), row, 0, SIDE);
    }
    SameSum(ShiftRows(left, right, dx, dy), rows, 0, SIDE);
  }

  // ---- Flat images ----

  /** Every byte is `v`. */
  predicate Flat(d: Descriptor, v: byte) {
    forall k | 0 <= k < |d| :: d[k] == v
  }

  /** The whole scale less the rounded difference of the two grey values. */
  function FlatScore(a: byte, b: byte): int {
    SCALE - (AbsDiff(a, b) * SCALE + 127) / 255
  }

  /** Only one score is nearest, whatever the number of compared channels. */
  lemma FlatScoreIsNearest(a: byte, b: byte, channels: nat)
    requires 0 < channels
    ensures ScoreFromDifference(AbsDiff(a, b) * channels, channels) == FlatScore(a, b)
  {
    var gap := AbsDiff(a, b);
    var score := ScoreFromDifference(gap * channels, channels);
    MulMonotone(gap, 255, channels);
    ScoreIsNearest(gap * channels, channels);
    var off := 2 * ((SCALE - score) * 255 - gap * SCALE);
    assert 2 * ((SCALE - score) * (channels * 255) - gap * channels * SCALE) == off * channels by {
      Scaled(SCALE - score, gap * SCALE, channels);
      assert gap * channels * SCALE == gap * SCALE * channels;
    }
    CancelFactor(off, 255, channels);
    CancelFactor(-255, off, channels);
  }

  lemma CancelFactor(a: int, b: int, factor: int)
    requires 0 < factor && a * factor <= b * factor
    ensures a <= b
  {
    if a > b {
      MulMonotone(1, a - b, factor);
    }
  }

  lemma Scaled(a: int, b: int, channels: int)
    ensures 2 * (a * (channels * 255) - b * channels) == 2 * (a * 255 - b) * channels
  {
  }

  lemma FlatShift(left: Descriptor, right: Descriptor, a: byte, b: byte, dx: int, dy: int)
    requires Flat(left, a) && Flat(right, b) && -1 <= dx <= 1 && -1 <= dy <= 1
    ensures ShiftScore(left, right, dx, dy) == FlatScore(a, b)
  {
    hide Sum, ScoreFromDifference;
    var gap := AbsDiff(a, b);
    forall y | 0 <= y < SIDE ensures ShiftRows(left, right, dx, dy)(y) == CountRows(dx, dy)(y) * gap {
      ScaledSum(ShiftRow(left, right, dx, dy, y), CountRow(dx, dy, y), gap, 0, SIDE);
    }
    ScaledSum(ShiftRows(left, right, dx, dy), CountRows(dx, dy), gap, 0, SIDE);
    OverlapChannels(dx, dy);
    FlatScoreIsNearest(a, b, ShiftChannels(dx, dy));
  }

  lemma {:induction false} ScaledSum(f: int -> int, g: int -> int, k: int, lo: int, hi: int)
    requires forall i | lo <= i < hi :: f(i) == g(i) * k
    ensures Sum(f, lo, hi) == Sum(g, lo, hi) * k
    decreases hi - lo
  {
    if lo < hi {
      ScaledSum(f, g, k, lo, hi - 1);
      assert f(hi - 1) == g(hi - 1) * k;
    }
  }

  lemma FlatCrop(source: Descriptor, target: Descriptor, a: byte, b: byte, ix: nat, iy: nat)
    requires Flat(source, a) && Flat(target, b) && ix <= ONE && iy <= ONE
    ensures CropScore(source, target, ix, iy) == FlatScore(a, b)
  {
    hide Sum, ScoreFromDifference, SampleDescriptor, CropCoordinate;
    var gap := AbsDiff(a, b);
    var rows := CropRows(source, target, ix, iy);
    forall y | 0 <= y < SIDE ensures rows(y) == 48 * gap {
      forall x | 0 <= x < SIDE ensures CropRow(source, target, ix, iy, y)(x) == 3 * gap {
        CropInRange(ix, x);
        CropInRange(iy, y);
        FlatSample(source, a, CropCoordinate(ix, x), CropCoordinate(iy, y), 0);
        FlatSample(source, a, CropCoordinate(ix, x), CropCoordinate(iy, y), 1);
        FlatSample(source, a, CropCoordinate(ix, x), CropCoordinate(iy, y), 2);
      }
      ConstantSum(CropRow(source, target, ix, iy, y), 3 * gap, 0, SIDE);
    }
    ConstantSum(rows, 48 * gap, 0, SIDE);
    FlatScoreIsNearest(a, b, DESCRIPTOR_BYTES);
  }

  lemma FlatSample(d: Descriptor, v: byte, xq: nat, yq: nat, channel: nat)
    requires Flat(d, v) && xq <= FULL_SPAN && yq <= FULL_SPAN && channel < 3
    ensures SampleDescriptor(d, xq, yq, channel) == v
  {
    BlendBetween(v, v, v, v, xq % ONE, yq % ONE, v, v);
    hide Blend;
  }

  /** Two flat images score by the difference of their values alone: black against white scores zero. */
  lemma FlatImagesScore(left: Descriptor, right: Descriptor, a: byte, b: byte)
    requires Flat(left, a) && Flat(right, b)
    ensures Similarity(left, right) == SCALE - (AbsDiff(a, b) * SCALE + 127) / 255
    ensures a == 0 && b == 255 ==> Similarity(left, right) == 0
  {
    hide ShiftScore, CropScore, Flat;
    SimilarityIsAttained(left, right);
    var score := Similarity(left, right);
    if AttainedByShift(left, right, score) {
      var k :| 0 <= k < 9 && ShiftScore(left, right, k % 3 - 1, k / 3 - 1) == score;
      FlatShift(left, right, a, b, k % 3 - 1, k / 3 - 1);
    } else if AttainedByCrop(left, right, score) {
      var k: nat :| k < 16 && CropScore(left, right, Inset(k / 4), Inset(k % 4)) == score;
      FlatCrop(left, right, a, b, Inset(k / 4), Inset(k % 4));
    } else {
      var k: nat :| k < 16 && CropScore(right, left, Inset(k / 4), Inset(k % 4)) == score;
      FlatCrop(right, left, b, a, Inset(k / 4), Inset(k % 4));
    }
  }

  // ---- Crops ----

  /** A crop spreads the sixteen positions evenly between its insets: first and last lie on them. */
  lemma CropSpreads(inset: nat, position: nat)
    requires inset <= ONE && position < SIDE
    ensures CropCoordinate(inset, 0) == inset && CropCoordinate(inset, 15) == 15 * 65536 - inset
    ensures 0 <= position * (15 * 65536 - 2 * inset) - 15 * (CropCoordinate(inset, position) - inset) < 15
  {
  }

  /** A cropped sample is the nearest byte to its four neighbours weighted by the areas opposite to them. */
  lemma SampleIsBilinear(d: Descriptor, x: nat, fx: nat, y: nat, fy: nat, channel: nat)
    requires x < 15 && y < 15 && fx < 65536 && fy < 65536 && channel < 3
    ensures var gx, gy := 65536 - fx, 65536 - fy;
      var exact := ByteAt(d, x, y, channel) * (gx * gy) + ByteAt(d, x + 1, y, channel) * (fx * gy)
                   + ByteAt(d, x, y + 1, channel) * (gx * fy) + ByteAt(d, x + 1, y + 1, channel) * (fx * fy);
      -0x1_0000_0000 <= 2 * (SampleDescriptor(d, 65536 * x + fx, 65536 * y + fy, channel) * 0x1_0000_0000 - exact)
                     <= 0x1_0000_0000
  {
    BlendIsNearest(ByteAt(d, x, y, channel), ByteAt(d, x + 1, y, channel), ByteAt(d, x, y + 1, channel),
                   ByteAt(d, x + 1, y + 1, channel), fx, fy);
    hide Blend;
    assert (65536 * x + fx) / ONE == x && (65536 * x + fx) % ONE == fx;
    assert (65536 * y + fy) / ONE == y && (65536 * y + fy) % ONE == fy;
  }

  /** The tried insets are nothing, a half, three quarters and one whole pixel. */
  predicate TriedInset(inset: nat) {
    inset == 0 || inset == 32768 || inset == 49152 || inset == 65536
  }

  lemma InsetIsTried(inset: nat) returns (k: nat)
    requires TriedInset(inset)
    ensures k < 4 && Inset(k) == inset
  {
    k := if inset == 0 then 0 else if inset == 32768 then 1 else if inset == 49152 then 2 else 3;
  }

  /** Every crop by tried insets counts, both ways. */
  lemma TriedCropsCount(left: Descriptor, right: Descriptor, ix: nat, iy: nat)
    requires TriedInset(ix) && TriedInset(iy)
    ensures CropScore(left, right, ix, iy) <= Similarity(left, right)
    ensures CropScore(right, left, ix, iy) <= Similarity(left, right)
  {
    hide CropScore, ShiftScore, Similarity, Inset, TriedInset;
    var i := InsetIsTried(ix);
    var j := InsetIsTried(iy);
    SimilarityIsUpperBound(left, right, 0, 0, i, j);
  }

  /** And nothing else does: a score above every shift by at most one pixel comes from such a crop. */
  lemma OnlyTriedCropsCount(left: Descriptor, right: Descriptor) returns (ix: nat, iy: nat)
    requires forall dx, dy | -1 <= dx <= 1 && -1 <= dy <= 1 :: ShiftScore(left, right, dx, dy) < Similarity(left, right)
    ensures TriedInset(ix) && TriedInset(iy)
    ensures var s := Similarity(left, right);
      CropScore(left, right, ix, iy) == s || CropScore(right, left, ix, iy) == s
  {
    hide CropScore, ShiftScore, Similarity;
    SimilarityIsAttained(left, right);
    var score := Similarity(left, right);
    if AttainedByCrop(left, right, score) {
      var k: nat :| k < 16 && CropScore(left, right, Inset(k / 4), Inset(k % 4)) == score;
      ix, iy := Inset(k / 4), Inset(k % 4);
    } else {
      var k: nat :| k < 16 && CropScore(right, left, Inset(k / 4), Inset(k % 4)) == score;
      ix, iy := Inset(k / 4), Inset(k % 4);
    }
  }
}
