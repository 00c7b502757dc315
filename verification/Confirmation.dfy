/**
 * The colour-aware confirmation score of two normalised descriptors: the best agreement over nine
 * small translations and fifteen bounded crops taken both ways.
 */
module Confirmation {
  import opened Common
  import opened Sampling

  const SIDE: int := 16
  const DESCRIPTOR_BYTES: int := 768
  const SCALE: int := 10000
  const FULL_SPAN: int := 15 * 65536
  const SHIFTS: nat := 9
  const CROPS: nat := 16
  const INSETS: seq<nat> := [0, 32768, 49152, 65536]

  type Descriptor = d: seq<byte> | |d| == 768 witness seq(768, _ => 0)

  predicate OnGrid(x: int, y: int) {
    0 <= x < SIDE && 0 <= y < SIDE
  }

  function Cell(d: Descriptor, x: int, y: int, channel: int): byte
    requires OnGrid(x, y) && 0 <= channel < 3
  {
    d[(y * SIDE + x) * 3 + channel]
  }

  // ---- Sums over integer ranges ----

  function Sum(f: int -> int, lo: int, hi: int): int
    decreases hi - lo
  {
    if hi <= lo then 0 else Sum(f, lo, hi - 1) + f(hi - 1)
  }

  lemma SumStep(f: int -> int, lo: int, hi: int)
    requires lo <= hi
    ensures Sum(f, lo, lo) == 0 && Sum(f, lo, hi + 1) == Sum(f, lo, hi) + f(hi)
  {
  }

  lemma {:induction false} ShiftedSum(f: int -> int, g: int -> int, delta: int, lo: int, hi: int)
    requires forall i | lo <= i < hi :: f(i) == g(i + delta)
    ensures Sum(f, lo, hi) == Sum(g, lo + delta, hi + delta)
    decreases hi - lo
  {
    if lo < hi {
      ShiftedSum(f, g, delta, lo, hi - 1);
      assert f(hi - 1) == g(hi - 1 + delta);
    }
  }

  /** Terms outside `inner` are zero, so summing over a wider range changes nothing. */
  lemma {:induction false} WiderSum(f: int -> int, lo: int, hi: int, innerLo: int, innerHi: int)
    requires lo <= innerLo <= innerHi <= hi
    requires forall i | lo <= i < hi && !(innerLo <= i < innerHi) :: f(i) == 0
    ensures Sum(f, lo, hi) == Sum(f, innerLo, innerHi)
    decreases hi - lo
  {
    if hi > innerHi {
      WiderSum(f, lo, hi - 1, innerLo, innerHi);
      assert f(hi - 1) == 0;
    } else if innerLo < innerHi {
      WiderSum(f, lo, hi - 1, innerLo, innerHi - 1);
    } else {
      ZeroSum(f, lo, hi);
    }
  }

  lemma {:induction false} ZeroSum(f: int -> int, lo: int, hi: int)
    requires forall i | lo <= i < hi :: f(i) == 0
    ensures Sum(f, lo, hi) == 0
    decreases hi - lo
  {
    if lo < hi {
      ZeroSum(f, lo, hi - 1);
      assert f(hi - 1) == 0;
    }
  }

  /** Two functions that vanish off the grid and agree up to a shift have equal sums over the grid. */
  lemma ShiftedGridSum(f: int -> int, g: int -> int, delta: int)
    requires -SIDE <= delta <= SIDE
    requires forall i :: f(i) == g(i + delta)
    requires forall i | !(0 <= i < SIDE) :: f(i) == 0
    requires forall i | !(0 <= i < SIDE) :: g(i) == 0
    ensures Sum(f, 0, SIDE) == Sum(g, 0, SIDE)
  {
    hide Sum;
    WiderSum(f, -SIDE, 2 * SIDE, 0, SIDE);
    ShiftedSum(f, g, delta, -SIDE, 2 * SIDE);
    WiderSum(g, -SIDE + delta, 2 * SIDE + delta, 0, SIDE);
  }

  lemma {:induction false} SumBetween(f: int -> int, g: int -> int, k: int, lo: int, hi: int)
    requires forall i | lo <= i < hi :: 0 <= f(i) <= g(i) * k
    ensures 0 <= Sum(f, lo, hi) <= Sum(g, lo, hi) * k
    decreases hi - lo
  {
    if lo < hi {
      SumBetween(f, g, k, lo, hi - 1);
      assert 0 <= f(hi - 1) <= g(hi - 1) * k;
    }
  }

  lemma {:induction false} SameSum(f: int -> int, g: int -> int, lo: int, hi: int)
    requires forall i | lo <= i < hi :: f(i) == g(i)
    ensures Sum(f, lo, hi) == Sum(g, lo, hi)
    decreases hi - lo
  {
    if lo < hi {
      SameSum(f, g, lo, hi - 1);
      assert f(hi - 1) == g(hi - 1);
    }
  }

  // ---- Score ----

  function ScoreFromDifference(difference: nat, channels: nat): (score: int)
    ensures 0 <= score <= SCALE
  {
    if channels == 0 then
      0
    else
      var maximum := channels * 255;
      SCALE - Min((difference * SCALE + maximum / 2) / maximum, SCALE)
  }

  /** Equal pixels score the whole scale; a possible difference never needs the clamp nor overflows. */
  lemma ScoreIsExact(difference: nat, channels: nat)
    requires 0 < channels <= DESCRIPTOR_BYTES && difference <= channels * 255
    ensures difference == 0 ==> ScoreFromDifference(difference, channels) == SCALE
    ensures var maximum := channels * 255;
      && (difference * SCALE + maximum / 2) / maximum <= SCALE
      && difference * SCALE + maximum / 2 <= U64_MAX
  {
    var maximum := channels * 255;
    DivMonotone(difference * SCALE + maximum / 2, SCALE * maximum + maximum / 2, maximum);
    assert (SCALE * maximum + maximum / 2) / maximum == SCALE by {
      RoundedQuotient(SCALE, maximum);
    }
    RoundedQuotient(0, maximum);
  }

  /** The score is the nearest whole number of basis points to the share that does not differ. */
  lemma ScoreIsNearest(difference: nat, channels: nat)
    requires 0 < channels && difference <= channels * 255
    ensures var maximum := channels * 255;
      -maximum <= 2 * ((SCALE - ScoreFromDifference(difference, channels)) * maximum - difference * SCALE) <= maximum
  {
    var maximum: int := channels * 255;
    var rounded := (difference * SCALE + maximum / 2) / maximum;
    assert rounded * maximum <= difference * SCALE + maximum / 2 < (rounded + 1) * maximum;
    if rounded > SCALE {
      MulMonotone(SCALE + 1, rounded, maximum);
    }
  }

  lemma RoundedQuotient(q: nat, d: nat)
    requires d >= 2
    ensures (q * d + d / 2) / d == q
  {
    var x := q * d + d / 2;
    assert q * d <= x < (q + 1) * d;
    if x / d < q { MulMonotone(x / d + 1, q, d); }
    if x / d > q { MulMonotone(q + 1, x / d, d); }
  }

  // ---- Translations ----

  function PixelDifference(left: Descriptor, lx: int, ly: int, right: Descriptor, rx: int, ry: int): (r: int)
    requires OnGrid(lx, ly) && OnGrid(rx, ry)
    ensures 0 <= r <= 3 * 255
  {
    AbsDiff(Cell(left, lx, ly, 0), Cell(right, rx, ry, 0))
    + AbsDiff(Cell(left, lx, ly, 1), Cell(right, rx, ry, 1))
    + AbsDiff(Cell(left, lx, ly, 2), Cell(right, rx, ry, 2))
  }

  predicate Overlaps(dx: int, dy: int, x: int, y: int) {
    OnGrid(x, y) && OnGrid(x + dx, y + dy)
  }

  /** The difference at one left pixel, zero where the shifted right image does not reach. */
  function ShiftTerm(left: Descriptor, right: Descriptor, dx: int, dy: int, x: int, y: int): int {
    if Overlaps(dx, dy, x, y) then PixelDifference(left, x, y, right, x + dx, y + dy) else 0
  }

  function CountTerm(dx: int, dy: int, x: int, y: int): int {
    if Overlaps(dx, dy, x, y) then 3 else 0
  }

  function ShiftRow(left: Descriptor, right: Descriptor, dx: int, dy: int, y: int): int -> int {
    x => ShiftTerm(left, right, dx, dy, x, y)
  }

  function CountRow(dx: int, dy: int, y: int): int -> int {
    x => CountTerm(dx, dy, x, y)
  }

  function ShiftRows(left: Descriptor, right: Descriptor, dx: int, dy: int): int -> int {
    y => Sum(ShiftRow(left, right, dx, dy, y), 0, SIDE)
  }

  function CountRows(dx: int, dy: int): int -> int {
    y => Sum(CountRow(dx, dy, y), 0, SIDE)
  }

  function ShiftDifference(left: Descriptor, right: Descriptor, dx: int, dy: int): int {
    Sum(ShiftRows(left, right, dx, dy), 0, SIDE)
  }

  function ShiftChannels(dx: int, dy: int): int {
    Sum(CountRows(dx, dy), 0, SIDE)
  }

  lemma PixelDifferenceSymmetric(left: Descriptor, lx: int, ly: int, right: Descriptor, rx: int, ry: int)
    requires OnGrid(lx, ly) && OnGrid(rx, ry)
    ensures PixelDifference(left, lx, ly, right, rx, ry) == PixelDifference(right, rx, ry, left, lx, ly)
  {
  }

  lemma ShiftTermMirrors(left: Descriptor, right: Descriptor, dx: int, dy: int, x: int, y: int)
    ensures ShiftTerm(left, right, dx, dy, x, y) == ShiftTerm(right, left, -dx, -dy, x + dx, y + dy)
    ensures CountTerm(dx, dy, x, y) == CountTerm(-dx, -dy, x + dx, y + dy)
  {
    if Overlaps(dx, dy, x, y) {
      PixelDifferenceSymmetric(left, x, y, right, x + dx, y + dy);
    }
  }

  lemma RowMirrors(left: Descriptor, right: Descriptor, dx: int, dy: int, y: int)
    requires -SIDE <= dx <= SIDE
    ensures ShiftRows(left, right, dx, dy)(y) == ShiftRows(right, left, -dx, -dy)(y + dy)
    ensures CountRows(dx, dy)(y) == CountRows(-dx, -dy)(y + dy)
  {
    hide PixelDifference, Sum;
    forall x
      ensures ShiftRow(left, right, dx, dy, y)(x) == ShiftRow(right, left, -dx, -dy, y + dy)(x + dx)
      ensures CountRow(dx, dy, y)(x) == CountRow(-dx, -dy, y + dy)(x + dx)
    {
      ShiftTermMirrors(left, right, dx, dy, x, y);
    }
    ShiftedGridSum(ShiftRow(left, right, dx, dy, y), ShiftRow(right, left, -dx, -dy, y + dy), dx);
    ShiftedGridSum(CountRow(dx, dy, y), CountRow(-dx, -dy, y + dy), dx);
  }

  lemma RowOffGrid(left: Descriptor, right: Descriptor, dx: int, dy: int, y: int)
    requires !(0 <= y < SIDE)
    ensures ShiftRows(left, right, dx, dy)(y) == 0 && CountRows(dx, dy)(y) == 0
  {
    hide Sum;
    ZeroSum(ShiftRow(left, right, dx, dy, y), 0, SIDE);
    ZeroSum(CountRow(dx, dy, y), 0, SIDE);
  }

  /** Shifting one way over (dx, dy) compares the same pixels as the other way over (-dx, -dy). */
  lemma ShiftMirrors(left: Descriptor, right: Descriptor, dx: int, dy: int)
    requires -SIDE <= dx <= SIDE && -SIDE <= dy <= SIDE
    ensures ShiftDifference(left, right, dx, dy) == ShiftDifference(right, left, -dx, -dy)
    ensures ShiftChannels(dx, dy) == ShiftChannels(-dx, -dy)
  {
    hide Sum;
    DifferenceMirrors(left, right, dx, dy);
    ChannelsMirror(left, right, dx, dy);
  }

  lemma DifferenceMirrors(left: Descriptor, right: Descriptor, dx: int, dy: int)
    requires -SIDE <= dx <= SIDE && -SIDE <= dy <= SIDE
    ensures ShiftDifference(left, right, dx, dy) == ShiftDifference(right, left, -dx, -dy)
  {
    hide ShiftRows, CountRows, Sum;
    var f, g := ShiftRows(left, right, dx, dy), ShiftRows(right, left, -dx, -dy);
    forall y ensures f(y) == g(y + dy) {
      RowMirrors(left, right, dx, dy, y);
    }
    forall y | !(0 <= y < SIDE) ensures f(y) == 0 {
      RowOffGrid(left, right, dx, dy, y);
    }
    forall y | !(0 <= y < SIDE) ensures g(y) == 0 {
      RowOffGrid(right, left, -dx, -dy, y);
    }
    ShiftedGridSum(f, g, dy);
  }

  lemma ChannelsMirror(left: Descriptor, right: Descriptor, dx: int, dy: int)
    requires -SIDE <= dx <= SIDE && -SIDE <= dy <= SIDE
    ensures ShiftChannels(dx, dy) == ShiftChannels(-dx, -dy)
  {
    hide ShiftRows, CountRows, Sum;
    var f, g := CountRows(dx, dy), CountRows(-dx, -dy);
    forall y ensures f(y) == g(y + dy) {
      RowMirrors(left, right, dx, dy, y);
    }
    forall y | !(0 <= y < SIDE) ensures f(y) == 0 {
      RowOffGrid(left, right, dx, dy, y);
    }
    forall y | !(0 <= y < SIDE) ensures g(y) == 0 {
      RowOffGrid(right, left, -dx, -dy, y);
    }
    ShiftedGridSum(f, g, dy);
  }

  lemma ShiftInRange(left: Descriptor, right: Descriptor, dx: int, dy: int)
    ensures 0 <= ShiftDifference(left, right, dx, dy) <= ShiftChannels(dx, dy) * 255
  {
    hide Sum;
    var f, m := ShiftRows(left, right, dx, dy), CountRows(dx, dy);
    forall y | 0 <= y < SIDE ensures 0 <= f(y) <= m(y) * 255 {
      SumBetween(ShiftRow(left, right, dx, dy, y), CountRow(dx, dy, y), 255, 0, SIDE);
    }
    SumBetween(f, m, 255, 0, SIDE);
  }

  function ShiftScore(left: Descriptor, right: Descriptor, dx: int, dy: int): (score: int)
    ensures 0 <= score <= SCALE
  {
    ShiftInRange(left, right, dx, dy);
    ShiftChannelsNonNegative(dx, dy);
    ScoreFromDifference(ShiftDifference(left, right, dx, dy), ShiftChannels(dx, dy))
  }

  lemma ShiftChannelsNonNegative(dx: int, dy: int)
    ensures ShiftChannels(dx, dy) >= 0
  {
    hide Sum;
    var m := CountRows(dx, dy);
    forall y | 0 <= y < SIDE ensures 0 <= m(y) <= m(y) * 1 {
      SumBetween(CountRow(dx, dy, y), CountRow(dx, dy, y), 1, 0, SIDE);
    }
    SumBetween(m, m, 1, 0, SIDE);
  }

  /** An identical pair has no difference at shift (0, 0), where every channel is compared. */
  lemma IdenticalScore(d: Descriptor)
    ensures ShiftScore(d, d, 0, 0) == SCALE
  {
    hide Sum;
    var f := ShiftRows(d, d, 0, 0);
    forall y | 0 <= y < SIDE ensures f(y) == 0 {
      ZeroSum(ShiftRow(d, d, 0, 0, y), 0, SIDE);
    }
    ZeroSum(f, 0, SIDE);
    AllChannelsAtZero();
    ScoreIsExact(0, DESCRIPTOR_BYTES);
  }

  lemma {:induction false} ConstantSum(f: int -> int, k: int, lo: int, hi: int)
    requires lo <= hi && forall i | lo <= i < hi :: f(i) == k
    ensures Sum(f, lo, hi) == (hi - lo) * k
    decreases hi - lo
  {
    if lo < hi {
      ConstantSum(f, k, lo, hi - 1);
      assert f(hi - 1) == k;
    }
  }

  lemma AllChannelsAtZero()
    ensures ShiftChannels(0, 0) == DESCRIPTOR_BYTES
  {
    hide Sum;
    var m := CountRows(0, 0);
    forall y | 0 <= y < SIDE ensures m(y) == 48 {
      ConstantSum(CountRow(0, 0, y), 3, 0, SIDE);
    }
    ConstantSum(m, 48, 0, SIDE);
  }

  // ---- Bounded crops ----

  /** Fixed-point source position of a target column when `inset` is cropped from both edges. */
  function CropCoordinate(inset: nat, position: nat): nat
    requires inset <= ONE && position < SIDE
  {
    inset + position * (FULL_SPAN - 2 * inset) / 15
  }

  /** A cropped coordinate stays between the insets, so every read is on the descriptor. */
  lemma CropInRange(inset: nat, position: nat)
    requires inset <= ONE && position < SIDE
    ensures inset <= CropCoordinate(inset, position) <= FULL_SPAN - inset
    ensures CropCoordinate(inset, position) / ONE < SIDE
  {
    MulMonotone(position, 15, FULL_SPAN - 2 * inset);
  }

  function SampleDescriptor(d: Descriptor, xq: nat, yq: nat, channel: nat): byte
    requires xq <= FULL_SPAN && yq <= FULL_SPAN && channel < 3
  {
    var x0, y0 := Min(xq / ONE, SIDE - 1), Min(yq / ONE, SIDE - 1);
    var x1, y1 := Min(x0 + 1, SIDE - 1), Min(y0 + 1, SIDE - 1);
    Blend(Cell(d, x0, y0, channel), Cell(d, x1, y0, channel), Cell(d, x0, y1, channel), Cell(d, x1, y1, channel),
          xq % ONE, yq % ONE)
  }

  function CropTerm(source: Descriptor, target: Descriptor, ix: nat, iy: nat, x: int, y: int): int
    requires ix <= ONE && iy <= ONE
  {
    if OnGrid(x, y) then
      CropInRange(ix, x);
      CropInRange(iy, y);
      var xq, yq := CropCoordinate(ix, x), CropCoordinate(iy, y);
      AbsDiff(SampleDescriptor(source, xq, yq, 0), Cell(target, x, y, 0))
      + AbsDiff(SampleDescriptor(source, xq, yq, 1), Cell(target, x, y, 1))
      + AbsDiff(SampleDescriptor(source, xq, yq, 2), Cell(target, x, y, 2))
    else
      0
  }

  function CropRow(source: Descriptor, target: Descriptor, ix: nat, iy: nat, y: int): int -> int
    requires ix <= ONE && iy <= ONE
  {
    x => CropTerm(source, target, ix, iy, x, y)
  }

  function CropRows(source: Descriptor, target: Descriptor, ix: nat, iy: nat): int -> int
    requires ix <= ONE && iy <= ONE
  {
    y => Sum(CropRow(source, target, ix, iy, y), 0, SIDE)
  }

  lemma CropTermInRange(source: Descriptor, target: Descriptor, ix: nat, iy: nat, x: int, y: int)
    requires ix <= ONE && iy <= ONE && OnGrid(x, y)
    ensures 0 <= CropTerm(source, target, ix, iy, x, y) <= 3 * 255
  {
    hide SampleDescriptor, Cell, CropCoordinate;
  }

  lemma CropDifferenceInRange(source: Descriptor, target: Descriptor, ix: nat, iy: nat)
    requires ix <= ONE && iy <= ONE
    ensures 0 <= Sum(CropRows(source, target, ix, iy), 0, SIDE) <= DESCRIPTOR_BYTES * 255
  {
    hide Sum, CropTerm;
    var f, m := CropRows(source, target, ix, iy), CountRows(0, 0);
    forall y | 0 <= y < SIDE ensures 0 <= f(y) <= m(y) * 255 {
      forall x | 0 <= x < SIDE
        ensures 0 <= CropRow(source, target, ix, iy, y)(x) <= CountRow(0, 0, y)(x) * 255
      {
        CropTermInRange(source, target, ix, iy, x, y);
      }
      SumBetween(CropRow(source, target, ix, iy, y), CountRow(0, 0, y), 255, 0, SIDE);
    }
    SumBetween(f, m, 255, 0, SIDE);
    AllChannelsAtZero();
  }

  function CropDifference(source: Descriptor, target: Descriptor, ix: nat, iy: nat): (r: nat)
    requires ix <= ONE && iy <= ONE
    ensures r <= DESCRIPTOR_BYTES * 255
  {
    CropDifferenceInRange(source, target, ix, iy);
    Sum(CropRows(source, target, ix, iy), 0, SIDE)
  }

  function CropScore(source: Descriptor, target: Descriptor, ix: nat, iy: nat): (score: int)
    requires ix <= ONE && iy <= ONE
    ensures 0 <= score <= SCALE
  {
    ScoreFromDifference(CropDifference(source, target, ix, iy), DESCRIPTOR_BYTES)
  }

  /** An uncropped sample is the cell itself, so leaving out the crop by (0, 0) loses nothing. */
  lemma NoCropIsNoShift(source: Descriptor, target: Descriptor)
    ensures CropScore(source, target, 0, 0) == ShiftScore(source, target, 0, 0)
  {
    hide Sum;
    var f, g := CropRows(source, target, 0, 0), ShiftRows(source, target, 0, 0);
    forall y | 0 <= y < SIDE ensures f(y) == g(y) {
      forall x | 0 <= x < SIDE ensures CropRow(source, target, 0, 0, y)(x) == ShiftRow(source, target, 0, 0, y)(x) {
        GridSample(source, x, y, 0);
        GridSample(source, x, y, 1);
        GridSample(source, x, y, 2);
        hide SampleDescriptor, Cell;
      }
      SameSum(CropRow(source, target, 0, 0, y), ShiftRow(source, target, 0, 0, y), 0, SIDE);
    }
    SameSum(f, g, 0, SIDE);
    AllChannelsAtZero();
  }

  lemma NoCropCoordinate(position: nat)
    requires position < SIDE
    ensures CropCoordinate(0, position) == position * ONE
  {
  }

  lemma GridSample(d: Descriptor, x: nat, y: nat, channel: nat)
    requires OnGrid(x, y) && channel < 3
    ensures CropCoordinate(0, x) == x * ONE && CropCoordinate(0, y) == y * ONE
    ensures SampleDescriptor(d, x * ONE, y * ONE, channel) == Cell(d, x, y, channel)
  {
    hide Blend, Cell, CropCoordinate;
    NoCropCoordinate(x);
    NoCropCoordinate(y);
    var xq, yq := x * ONE, y * ONE;
    assert xq / ONE == x && xq % ONE == 0 && yq / ONE == y && yq % ONE == 0;
    BlendOnGrid(Cell(d, x, y, channel), Cell(d, Min(x + 1, SIDE - 1), y, channel),
                Cell(d, x, Min(y + 1, SIDE - 1), channel),
                Cell(d, Min(x + 1, SIDE - 1), Min(y + 1, SIDE - 1), channel));
  }

  // ---- The best alignment ----

  function BestShift(left: Descriptor, right: Descriptor, n: nat): (best: int)
    requires n <= 9
    ensures 0 <= best <= SCALE
  {
    if n == 0 then 0
    else Max(BestShift(left, right, n - 1), ShiftScore(left, right, (n - 1) % 3 - 1, (n - 1) / 3 - 1))
  }

  function Inset(k: nat): (r: nat)
    requires k < 4
    ensures r <= ONE
  {
    INSETS[k]
  }

  function BestCrop(left: Descriptor, right: Descriptor, n: nat): (best: int)
    requires n <= 16
    ensures 0 <= best <= SCALE
  {
    if n <= 1 then 0
    else
      var ix, iy := Inset((n - 1) / 4), Inset((n - 1) % 4);
      Max(Max(BestCrop(left, right, n - 1), CropScore(left, right, ix, iy)), CropScore(right, left, ix, iy))
  }

  /** The confirmation score of two descriptors. */
  function Similarity(left: Descriptor, right: Descriptor): (score: int)
    ensures 0 <= score <= SCALE
  {
    Max(BestShift(left, right, SHIFTS), BestCrop(left, right, CROPS))
  }

  lemma {:induction false} BestShiftBound(left: Descriptor, right: Descriptor, n: nat, k: nat)
    requires k < n <= 9
    ensures ShiftScore(left, right, k % 3 - 1, k / 3 - 1) <= BestShift(left, right, n)
  {
    hide ShiftScore;
    if k < n - 1 {
      BestShiftBound(left, right, n - 1, k);
    }
  }

  lemma {:induction false} BestShiftMirrorBound(left: Descriptor, right: Descriptor, n: nat)
    requires n <= 9
    ensures BestShift(left, right, n) <= BestShift(right, left, SHIFTS)
  {
    hide ShiftScore;
    if n > 0 {
      BestShiftMirrorBound(left, right, n - 1);
      var k := n - 1;
      MirroredScore(left, right, k % 3 - 1, k / 3 - 1);
      assert (8 - k) % 3 - 1 == -(k % 3 - 1) && (8 - k) / 3 - 1 == -(k / 3 - 1);
      BestShiftBound(right, left, SHIFTS, 8 - k);
    }
  }

  lemma MirroredScore(left: Descriptor, right: Descriptor, dx: int, dy: int)
    requires -1 <= dx <= 1 && -1 <= dy <= 1
    ensures ShiftScore(left, right, dx, dy) == ShiftScore(right, left, -dx, -dy)
  {
    ShiftMirrors(left, right, dx, dy);
  }

  lemma {:induction false} BestCropSymmetric(left: Descriptor, right: Descriptor, n: nat)
    requires n <= 16
    ensures BestCrop(left, right, n) == BestCrop(right, left, n)
  {
    hide CropScore;
    if n > 1 {
      BestCropSymmetric(left, right, n - 1);
    }
  }

  /** The score does not depend on which of the two frames is asked about. */
  lemma SimilaritySymmetric(left: Descriptor, right: Descriptor)
    ensures Similarity(left, right) == Similarity(right, left)
  {
    BestShiftMirrorBound(left, right, SHIFTS);
    BestShiftMirrorBound(right, left, SHIFTS);
    BestCropSymmetric(left, right, CROPS);
  }

  /** Equal descriptors score the whole scale, and no score is below the plain comparison in place. */
  lemma SimilarityAtLeastInPlace(left: Descriptor, right: Descriptor)
    ensures ShiftScore(left, right, 0, 0) <= Similarity(left, right)
    ensures left == right ==> Similarity(left, right) == SCALE
  {
    hide ShiftScore, BestShift, BestCrop;
    BestShiftBound(left, right, SHIFTS, 4);
    IdenticalScore(left);
  }

  lemma {:induction false} BestCropBound(left: Descriptor, right: Descriptor, n: nat, k: nat)
    requires 0 < k < n <= CROPS
    ensures CropScore(left, right, Inset(k / 4), Inset(k % 4)) <= BestCrop(left, right, n)
    ensures CropScore(right, left, Inset(k / 4), Inset(k % 4)) <= BestCrop(left, right, n)
  {
    hide CropScore, Inset;
    if k < n - 1 {
      BestCropBound(left, right, n - 1, k);
    }
  }

  /** No tried alignment scores higher than the similarity; this holds for all sixteen crops, both ways. */
  lemma SimilarityIsUpperBound(left: Descriptor, right: Descriptor, dx: int, dy: int, i: nat, j: nat)
    requires -1 <= dx <= 1 && -1 <= dy <= 1 && i < 4 && j < 4
    ensures ShiftScore(left, right, dx, dy) <= Similarity(left, right)
    ensures CropScore(left, right, Inset(i), Inset(j)) <= Similarity(left, right)
    ensures CropScore(right, left, Inset(i), Inset(j)) <= Similarity(left, right)
  {
    hide CropScore, ShiftScore, BestShift, BestCrop;
    var k := 3 * (dy + 1) + dx + 1;
    assert k % 3 - 1 == dx && k / 3 - 1 == dy;
    BestShiftBound(left, right, SHIFTS, k);
    if i == 0 && j == 0 {
      NoCropIsNoShift(left, right);
      NoCropIsNoShift(right, left);
      MirroredScore(left, right, 0, 0);
      BestShiftBound(left, right, SHIFTS, 4);
    } else {
      assert (4 * i + j) / 4 == i && (4 * i + j) % 4 == j;
      BestCropBound(left, right, CROPS, 4 * i + j);
    }
  }

  ghost predicate AttainedByShift(left: Descriptor, right: Descriptor, score: int) {
    exists k | 0 <= k < 9 :: ShiftScore(left, right, k % 3 - 1, k / 3 - 1) == score
  }

  ghost predicate AttainedByCrop(left: Descriptor, right: Descriptor, score: int) {
    exists k: nat | k < 16 :: CropScore(left, right, Inset(k / 4), Inset(k % 4)) == score
  }

  lemma {:induction false} BestShiftAttained(left: Descriptor, right: Descriptor, n: nat)
    requires 0 < n <= 9
    ensures AttainedByShift(left, right, BestShift(left, right, n))
  {
    hide ShiftScore;
    var k := n - 1;
    assert n == 1 ==> BestShift(left, right, n - 1) == 0;
    if BestShift(left, right, n) == ShiftScore(left, right, k % 3 - 1, k / 3 - 1) {
      assert 0 <= k < 9;
    } else {
      BestShiftAttained(left, right, n - 1);
    }
  }

  lemma {:induction false} BestCropAttained(left: Descriptor, right: Descriptor, n: nat)
    requires n <= 16
    ensures var best := BestCrop(left, right, n);
      best == 0 || AttainedByCrop(left, right, best) || AttainedByCrop(right, left, best)
  {
    hide CropScore, Inset;
    if n > 1 {
      var k := n - 1;
      var best := BestCrop(left, right, n);
      if best == CropScore(left, right, Inset(k / 4), Inset(k % 4)) {
        assert AttainedByCrop(left, right, best);
      } else if best == CropScore(right, left, Inset(k / 4), Inset(k % 4)) {
        assert AttainedByCrop(right, left, best);
      } else {
        BestCropAttained(left, right, n - 1);
      }
    }
  }

  /** The similarity is the score of some tried alignment. */
  lemma SimilarityIsAttained(left: Descriptor, right: Descriptor)
    ensures var s := Similarity(left, right);
      AttainedByShift(left, right, s) || AttainedByCrop(left, right, s) || AttainedByCrop(right, left, s)
  {
    hide BestShift, BestCrop, AttainedByShift, AttainedByCrop;
    BestShiftAttained(left, right, SHIFTS);
    BestCropAttained(left, right, CROPS);
  }

  // ---- The loops ----

  method ComparePixels(left: Descriptor, lx: nat, ly: nat, right: Descriptor, rx: nat, ry: nat)
    returns (difference: nat, channels: nat)
    requires OnGrid(lx, ly) && OnGrid(rx, ry)
    ensures difference == PixelDifference(left, lx, ly, right, rx, ry) && channels == 3
  {
    difference, channels := 0, 0;
    var leftIndex, rightIndex := (ly * SIDE + lx) * 3, (ry * SIDE + rx) * 3;
    for channel := 0 to 3
      invariant channels == channel
      invariant difference ==
        (if channel > 0 then AbsDiff(Cell(left, lx, ly, 0), Cell(right, rx, ry, 0)) else 0)
        + (if channel > 1 then AbsDiff(Cell(left, lx, ly, 1), Cell(right, rx, ry, 1)) else 0)
        + (if channel > 2 then AbsDiff(Cell(left, lx, ly, 2), Cell(right, rx, ry, 2)) else 0)
    {
      difference := difference + AbsDiff(left[leftIndex + channel], right[rightIndex + channel]);
      channels := channels + 1;
    }
  }

  method CompareRow(left: Descriptor, right: Descriptor, dx: int, dy: int, y: nat)
    returns (difference: int, channels: int)
    requires 0 <= y < SIDE && 0 <= y + dy < SIDE
    ensures difference == Sum(ShiftRow(left, right, dx, dy, y), 0, SIDE)
    ensures channels == Sum(CountRow(dx, dy, y), 0, SIDE)
  {
    hide PixelDifference;
    difference, channels := 0, 0;
    var x := 0;
    while x < SIDE
      invariant 0 <= x <= SIDE
      invariant difference == Sum(ShiftRow(left, right, dx, dy, y), 0, x)
      invariant channels == Sum(CountRow(dx, dy, y), 0, x)
    {
      if 0 <= x + dx < SIDE {
        var pixel, counted := ComparePixels(left, x, y, right, x + dx, y + dy);
        difference, channels := difference + pixel, channels + counted;
      }
      x := x + 1;
    }
  }

  lemma RowNotReached(left: Descriptor, right: Descriptor, dx: int, dy: int, y: int)
    requires !(0 <= y + dy < SIDE)
    ensures ShiftRows(left, right, dx, dy)(y) == 0 && CountRows(dx, dy)(y) == 0
  {
    hide Sum;
    ZeroSum(ShiftRow(left, right, dx, dy, y), 0, SIDE);
    ZeroSum(CountRow(dx, dy, y), 0, SIDE);
  }

  method CompareShifted(left: Descriptor, right: Descriptor, dx: int, dy: int) returns (score: int)
    ensures score == ShiftScore(left, right, dx, dy)
  {
    hide ShiftRow, CountRow, ScoreFromDifference, Sum;
    var difference, channels := 0, 0;
    var y := 0;
    SumStep(ShiftRows(left, right, dx, dy), 0, 0);
    SumStep(CountRows(dx, dy), 0, 0);
    while y < SIDE
      invariant 0 <= y <= SIDE
      invariant difference == Sum(ShiftRows(left, right, dx, dy), 0, y)
      invariant channels == Sum(CountRows(dx, dy), 0, y)
    {
      SumStep(ShiftRows(left, right, dx, dy), 0, y);
      SumStep(CountRows(dx, dy), 0, y);
      if 0 <= y + dy < SIDE {
        var row, counted := CompareRow(left, right, dx, dy, y);
        difference, channels := difference + row, channels + counted;
      } else {
        RowNotReached(left, right, dx, dy, y);
      }
      y := y + 1;
    }
    ShiftInRange(left, right, dx, dy);
    ShiftChannelsNonNegative(dx, dy);
    score := ScoreFromDifference(difference, channels);
  }

  method TranslationSimilarity(left: Descriptor, right: Descriptor) returns (best: int)
    ensures best == BestShift(left, right, SHIFTS)
  {
    hide ShiftScore;
    best := 0;
    var dy := -1;
    while dy <= 1
      invariant -1 <= dy <= 2
      invariant best == BestShift(left, right, 3 * (dy + 1))
    {
      var dx := -1;
      while dx <= 1
        invariant -1 <= dx <= 2
        invariant best == BestShift(left, right, 3 * (dy + 1) + dx + 1)
      {
        var score := CompareShifted(left, right, dx, dy);
        assert (3 * (dy + 1) + dx + 1) % 3 == dx + 1 && (3 * (dy + 1) + dx + 1) / 3 == dy + 1;
        best := Max(best, score);
        dx := dx + 1;
      }
      dy := dy + 1;
    }
  }

  method CompareCroppedRow(source: Descriptor, target: Descriptor, ix: nat, iy: nat, y: nat) returns (difference: int)
    requires ix <= ONE && iy <= ONE && y < SIDE
    ensures difference == Sum(CropRow(source, target, ix, iy, y), 0, SIDE)
  {
    hide SampleDescriptor;
    CropInRange(iy, y);
    var yq := CropCoordinate(iy, y);
    hide CropCoordinate;
    difference := 0;
    var x := 0;
    while x < SIDE
      invariant 0 <= x <= SIDE
      invariant difference == Sum(CropRow(source, target, ix, iy, y), 0, x)
    {
      CropInRange(ix, x);
      var xq := CropCoordinate(ix, x);
      var channel := 0;
      ghost var before := difference;
      while channel < 3
        invariant 0 <= channel <= 3
        invariant difference == before
          + (if channel > 0 then AbsDiff(SampleDescriptor(source, xq, yq, 0), Cell(target, x, y, 0)) else 0)
          + (if channel > 1 then AbsDiff(SampleDescriptor(source, xq, yq, 1), Cell(target, x, y, 1)) else 0)
          + (if channel > 2 then AbsDiff(SampleDescriptor(source, xq, yq, 2), Cell(target, x, y, 2)) else 0)
      {
        difference := difference + AbsDiff(SampleDescriptor(source, xq, yq, channel), Cell(target, x, y, channel));
        channel := channel + 1;
      }
      x := x + 1;
    }
  }

  method ScaledSimilarity(source: Descriptor, target: Descriptor, ix: nat, iy: nat) returns (score: int)
    requires ix <= ONE && iy <= ONE
    ensures score == CropScore(source, target, ix, iy)
  {
    hide CropRow;
    var difference := 0;
    var y := 0;
    while y < SIDE
      invariant 0 <= y <= SIDE
      invariant difference == Sum(CropRows(source, target, ix, iy), 0, y)
    {
      var row := CompareCroppedRow(source, target, ix, iy, y);
      difference := difference + row;
      y := y + 1;
    }
    CropDifferenceInRange(source, target, ix, iy);
    score := ScoreFromDifference(difference, DESCRIPTOR_BYTES);
  }

  method CroppedSimilarity(left: Descriptor, right: Descriptor) returns (best: int)
    ensures best == BestCrop(left, right, CROPS)
  {
    hide CropScore, Inset;
    best := 0;
    var k := 1;
    while k < CROPS
      invariant 1 <= k <= CROPS
      invariant best == BestCrop(left, right, k)
    {
      var ix, iy := Inset(k / 4), Inset(k % 4);
      var forth := ScaledSimilarity(left, right, ix, iy);
      var back := ScaledSimilarity(right, left, ix, iy);
      best := Max(Max(best, forth), back);
      k := k + 1;
    }
  }

  datatype ConfirmationError = InvalidDescriptorLength(length: nat)

  /** Two byte strings of descriptor length get a score; anything else is refused by its length. */
  method ConfirmationSimilarity(left: seq<byte>, right: seq<byte>) returns (r: Result<int, ConfirmationError>)
    ensures |left| != DESCRIPTOR_BYTES ==> r == Err(InvalidDescriptorLength(|left|))
    ensures |left| == DESCRIPTOR_BYTES != |right| ==> r == Err(InvalidDescriptorLength(|right|))
    ensures |left| == |right| == DESCRIPTOR_BYTES ==> r == Ok(Similarity(left, right)) && 0 <= r.value <= SCALE
  {
    hide BestShift, BestCrop;
    if |left| != DESCRIPTOR_BYTES {
      return Err(InvalidDescriptorLength(|left|));
    }
    if |right| != DESCRIPTOR_BYTES {
      return Err(InvalidDescriptorLength(|right|));
    }
    var shifted := TranslationSimilarity(left, right);
    var cropped := CroppedSimilarity(left, right);
    return Ok(Max(shifted, cropped));
  }
}
