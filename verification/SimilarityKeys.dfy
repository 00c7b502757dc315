/**
 * Index keys of the global similar-frame store: four 16-bit bands of each of two 64-bit hashes,
 * and one bucket of the quantised mean colour. A hash is modelled by its 64 bits, least
 * significant first, so a band is a slice of sixteen bits.
 */
module SimilarityKeys {
  import opened Common
  import opened Perceptual
  import opened Confirmation

  const BANDS: int := 4
  const COMPONENT_MAX: int := 31
  const RADIUS: int := 2

  type Hash = h: seq<bool> | |h| == 64 witness seq(64, _ => false)

  datatype GlobalDescriptor = GlobalDescriptor(frame: u64, average: Hash, difference: Hash, rgb: Descriptor)

  datatype HashKind = Average | Difference

  datatype Key = BandKey(kind: HashKind, band: nat, value: seq<bool>) | ColorKey(bucket: int)

  function HashOf(d: GlobalDescriptor, kind: HashKind): Hash {
    if kind == Average then d.average else d.difference
  }

  function Band(h: Hash, band: nat): (r: seq<bool>)
    requires band < BANDS
    ensures |r| == 16
  {
    h[16 * band..16 * band + 16]
  }

  // ---- Colour buckets ----

  function ChannelSum(rgb: Descriptor, channel: nat, pixels: nat): (sum: nat)
    requires channel < 3 && pixels <= 256
    ensures sum <= 255 * pixels
  {
    if pixels == 0 then 0 else ChannelSum(rgb, channel, pixels - 1) + rgb[3 * (pixels - 1) + channel]
  }

  /** Mean of one channel over all 256 pixels, rounded to the nearest integer. */
  function ChannelMean(rgb: Descriptor, channel: nat): (mean: nat)
    requires channel < 3
    ensures mean <= 255
  {
    (ChannelSum(rgb, channel, 256) + 128) / 256
  }

  function Quantized(mean: nat): (q: int)
    ensures 0 <= q <= COMPONENT_MAX
  {
    Min(mean / 8, COMPONENT_MAX)
  }

  function Component(rgb: Descriptor, channel: nat): (q: int)
    requires channel < 3
    ensures 0 <= q <= COMPONENT_MAX
  {
    Quantized(ChannelMean(rgb, channel))
  }

  lemma {:induction false} ChannelSumIsSum(rgb: Descriptor, channel: nat, pixels: nat)
    requires channel < 3 && pixels <= 256
    ensures ChannelSum(rgb, channel, pixels)
         == Sum(i => if 0 <= i < 256 then rgb[3 * i + channel] as int else 0, 0, pixels)
  {
    if pixels > 0 {
      ChannelSumIsSum(rgb, channel, pixels - 1);
    }
  }

  /** The mean is the nearest integer to the sum of all 256 bytes of the channel, and its component keeps five bits. */
  lemma ComponentMeaning(rgb: Descriptor, channel: nat)
    requires channel < 3
    ensures var total := Sum(i => if 0 <= i < 256 then rgb[3 * i + channel] as int else 0, 0, 256);
      -256 < 2 * (total - 256 * ChannelMean(rgb, channel)) + 1 <= 256
    ensures 8 * Component(rgb, channel) <= ChannelMean(rgb, channel) < 8 * Component(rgb, channel) + 8
  {
    ChannelSumIsSum(rgb, channel, 256);
    hide ChannelSum, Sum;
  }

  function Pack(red: int, green: int, blue: int): int {
    red + 32 * green + 1024 * blue
  }

  function Red(bucket: int): int { bucket % 32 }
  function Green(bucket: int): int { bucket / 32 % 32 }
  function Blue(bucket: int): int { bucket / 1024 % 32 }

  predicate InComponentRange(q: int) {
    0 <= q <= COMPONENT_MAX
  }

  /** Packing loses nothing: the three components can be read back. */
  lemma PackRoundTrip(red: int, green: int, blue: int)
    requires InComponentRange(red) && InComponentRange(green) && InComponentRange(blue)
    ensures var bucket := Pack(red, green, blue);
      Red(bucket) == red && Green(bucket) == green && Blue(bucket) == blue && 0 <= bucket < 32768
  {
    var bucket := Pack(red, green, blue);
    assert bucket == 32 * (green + 32 * blue) + red;
    assert bucket / 32 == green + 32 * blue;
    assert bucket == 1024 * blue + (red + 32 * green);
    assert bucket / 1024 == blue;
  }

  function ColorBucket(rgb: Descriptor): int {
    Pack(Component(rgb, 0), Component(rgb, 1), Component(rgb, 2))
  }

  method ComputeColorBucket(rgb: Descriptor) returns (bucket: int)
    ensures bucket == ColorBucket(rgb)
  {
    var red: nat, green: nat, blue: nat := 0, 0, 0;
    for pixel := 0 to 256
      invariant red == ChannelSum(rgb, 0, pixel)
      invariant green == ChannelSum(rgb, 1, pixel)
      invariant blue == ChannelSum(rgb, 2, pixel)
    {
      red := red + rgb[3 * pixel];
      green := green + rgb[3 * pixel + 1];
      blue := blue + rgb[3 * pixel + 2];
    }
    bucket := Pack(Quantized((red + 128) / 256), Quantized((green + 128) / 256), Quantized((blue + 128) / 256));
  }

  predicate CloseBy(a: int, b: int) {
    AbsDiff(a, b) <= RADIUS
  }

  /** `c` is among the components tried around `q`. */
  predicate Reaches(q: int, c: int) {
    Max(q - RADIUS, 0) <= c <= Min(q + RADIUS, COMPONENT_MAX)
  }

  /** The buckets searched for a bucket: every component within the radius, cut off at the ends. */
  function NearbyColorKeys(bucket: int): set<Key> {
    set r, g, b | 0 <= r <= COMPONENT_MAX && 0 <= g <= COMPONENT_MAX && 0 <= b <= COMPONENT_MAX
                  && Reaches(Red(bucket), r) && Reaches(Green(bucket), g) && Reaches(Blue(bucket), b)
      :: ColorKey(Pack(r, g, b))
  }

  /** Two descriptors are near in colour when all three components are. */
  predicate NearColors(a: Descriptor, b: Descriptor) {
    && CloseBy(Component(a, 0), Component(b, 0))
    && CloseBy(Component(a, 1), Component(b, 1))
    && CloseBy(Component(a, 2), Component(b, 2))
  }

  lemma ReachesInRange(q: int, c: int)
    requires Reaches(q, c)
    ensures InComponentRange(c) && CloseBy(q, c)
  {
  }

  lemma NearbyIffClose(a: Descriptor, b: Descriptor)
    ensures ColorKey(ColorBucket(b)) in NearbyColorKeys(ColorBucket(a)) <==> NearColors(a, b)
  {
    hide Component, Pack, Red, Green, Blue;
    PackRoundTrip(Component(a, 0), Component(a, 1), Component(a, 2));
    PackRoundTrip(Component(b, 0), Component(b, 1), Component(b, 2));
    var mine := ColorBucket(a);
    if ColorKey(ColorBucket(b)) in NearbyColorKeys(mine) {
      var red, green, blue :| Reaches(Red(mine), red) && Reaches(Green(mine), green) && Reaches(Blue(mine), blue)
        && ColorBucket(b) == Pack(red, green, blue);
      ReachesInRange(Red(mine), red);
      ReachesInRange(Green(mine), green);
      ReachesInRange(Blue(mine), blue);
      PackRoundTrip(red, green, blue);
    }
    if NearColors(a, b) {
      assert Reaches(Red(mine), Component(b, 0)) && Reaches(Green(mine), Component(b, 1))
        && Reaches(Blue(mine), Component(b, 2));
    }
  }

  /** Rounded means within 16 of each other on every channel are always near. */
  lemma CloseMeansAreNear(a: Descriptor, b: Descriptor)
    requires AbsDiff(ChannelMean(a, 0), ChannelMean(b, 0)) <= 16
    requires AbsDiff(ChannelMean(a, 1), ChannelMean(b, 1)) <= 16
    requires AbsDiff(ChannelMean(a, 2), ChannelMean(b, 2)) <= 16
    ensures NearColors(a, b)
  {
    hide ChannelMean;
    CloseMeanIsClose(ChannelMean(a, 0), ChannelMean(b, 0));
    CloseMeanIsClose(ChannelMean(a, 1), ChannelMean(b, 1));
    CloseMeanIsClose(ChannelMean(a, 2), ChannelMean(b, 2));
  }

  lemma CloseMeanIsClose(a: nat, b: nat)
    requires AbsDiff(a, b) <= 16
    ensures CloseBy(Quantized(a), Quantized(b))
  {
  }

  // ---- Shared bands ----

  predicate SharesBand(a: Hash, b: Hash) {
    exists band: nat | band < BANDS :: Band(a, band) == Band(b, band)
  }

  lemma {:induction false} HammingSplit(a: Bits, b: Bits, k: nat)
    requires |a| == |b| && k <= |a|
    ensures Hamming(a, b) == Hamming(a[..k], b[..k]) + Hamming(a[k..], b[k..])
    decreases |a|
  {
    var n := |a| - 1;
    if k == |a| {
      assert a[..k] == a && b[..k] == b;
      assert a[k..] == [] && b[k..] == [];
    } else {
      HammingStep(a, b);
      HammingSplit(a[..n], b[..n], k);
      HammingStep(a[k..], b[k..]);
      assert a[..n][..k] == a[..k] && b[..n][..k] == b[..k];
      assert a[k..][..n - k] == a[..n][k..] && b[k..][..n - k] == b[..n][k..];
    }
  }

  lemma DifferentSliceCounts(a: Bits, b: Bits)
    requires |a| == |b| && a != b
    ensures Hamming(a, b) >= 1
  {
    HammingMetric(a, b, b);
  }

  /** Pigeonhole over four bands: at most three differing bits leave one band untouched. */
  lemma ThreeBitsShareABand(a: Hash, b: Hash)
    requires Hamming(a, b) <= 3
    ensures SharesBand(a, b)
  {
    hide Hamming;
    if !SharesBand(a, b) {
      HammingSplit(a, b, 16);
      HammingSplit(a[16..], b[16..], 16);
      HammingSplit(a[32..], b[32..], 16);
      assert a[16..][..16] == Band(a, 1) && b[16..][..16] == Band(b, 1);
      assert a[16..][16..] == a[32..] && b[16..][16..] == b[32..];
      assert a[32..][..16] == Band(a, 2) && b[32..][..16] == Band(b, 2);
      assert a[32..][16..] == Band(a, 3) && b[32..][16..] == Band(b, 3);
      assert a[..16] == Band(a, 0) && b[..16] == Band(b, 0);
      DifferentSliceCounts(Band(a, 0), Band(b, 0));
      DifferentSliceCounts(Band(a, 1), Band(b, 1));
      DifferentSliceCounts(Band(a, 2), Band(b, 2));
      DifferentSliceCounts(Band(a, 3), Band(b, 3));
    }
  }

  // ---- The candidate relation ----

  predicate Related(a: GlobalDescriptor, b: GlobalDescriptor) {
    SharesBand(a.average, b.average) || SharesBand(a.difference, b.difference) || NearColors(a.rgb, b.rgb)
  }

  lemma RelatedSymmetric(a: GlobalDescriptor, b: GlobalDescriptor)
    ensures Related(a, b) <==> Related(b, a)
  {
    SharesBandSymmetric(a.average, b.average);
    SharesBandSymmetric(a.difference, b.difference);
    hide Component, SharesBand;
  }

  lemma SharesBandSymmetric(a: Hash, b: Hash)
    ensures SharesBand(a, b) <==> SharesBand(b, a)
  {
  }

  /** Related: sixteen aligned bits of a hash agree, or every colour component differs by at most two. */
  lemma RelatedIff(a: GlobalDescriptor, b: GlobalDescriptor)
    ensures Related(a, b) <==>
      || (exists k: nat | k < 4 :: a.average[16 * k..16 * k + 16] == b.average[16 * k..16 * k + 16])
      || (exists k: nat | k < 4 :: a.difference[16 * k..16 * k + 16] == b.difference[16 * k..16 * k + 16])
      || (forall c: nat | c < 3 :: AbsDiff(Component(a.rgb, c), Component(b.rgb, c)) <= 2)
  {
    hide Component;
    SharesBandIff(a.average, b.average);
    SharesBandIff(a.difference, b.difference);
    hide SharesBand;
    if NearColors(a.rgb, b.rgb) {
      forall c: nat | c < 3 ensures AbsDiff(Component(a.rgb, c), Component(b.rgb, c)) <= 2 {
        assert c == 0 || c == 1 || c == 2;
      }
    }
  }

  lemma SharesBandIff(a: Hash, b: Hash)
    ensures SharesBand(a, b) <==> exists k: nat | k < 4 :: a[16 * k..16 * k + 16] == b[16 * k..16 * k + 16]
  {
    if SharesBand(a, b) {
      var k: nat :| k < BANDS && Band(a, k) == Band(b, k);
      assert a[16 * k..16 * k + 16] == b[16 * k..16 * k + 16];
    }
    if k: nat :| k < 4 && a[16 * k..16 * k + 16] == b[16 * k..16 * k + 16] {
      assert Band(a, k) == Band(b, k);
    }
  }

  /** What the index never misses. */
  lemma CloseFramesAreRelated(a: GlobalDescriptor, b: GlobalDescriptor)
    requires Hamming(a.average, b.average) <= 3
          || Hamming(a.difference, b.difference) <= 3
          || (forall c: nat | c < 3 :: AbsDiff(ChannelMean(a.rgb, c), ChannelMean(b.rgb, c)) <= 16)
    ensures Related(a, b) && Related(b, a)
  {
    hide Hamming, ChannelMean, SharesBand, NearColors;
    RelatedSymmetric(a, b);
    if Hamming(a.average, b.average) <= 3 {
      ThreeBitsShareABand(a.average, b.average);
    } else if Hamming(a.difference, b.difference) <= 3 {
      ThreeBitsShareABand(a.difference, b.difference);
    } else {
      CloseMeansAreNear(a.rgb, b.rgb);
    }
  }

  // ---- Keys stored and keys searched ----

  function BandKeys(d: GlobalDescriptor, kind: HashKind): set<Key> {
    set band: nat | band < BANDS :: BandKey(kind, band, Band(HashOf(d, kind), band))
  }

  /** The nine keys under which a descriptor is filed. */
  function KeysOf(d: GlobalDescriptor): set<Key> {
    BandKeys(d, Average) + BandKeys(d, Difference) + {ColorKey(ColorBucket(d.rgb))}
  }

  /** The keys looked up for a target: its own bands, and every nearby colour bucket. */
  function SearchKeys(d: GlobalDescriptor): set<Key> {
    BandKeys(d, Average) + BandKeys(d, Difference)
    + NearbyColorKeys(ColorBucket(d.rgb))
  }

  lemma BandKeysCount(d: GlobalDescriptor, kind: HashKind)
    ensures |BandKeys(d, kind)| == 4
  {
    var h := HashOf(d, kind);
    assert BandKeys(d, kind) == {BandKey(kind, 0, Band(h, 0)), BandKey(kind, 1, Band(h, 1)),
                                 BandKey(kind, 2, Band(h, 2)), BandKey(kind, 3, Band(h, 3))};
  }

  lemma KeysCount(d: GlobalDescriptor)
    ensures |KeysOf(d)| == 9
  {
    BandKeysCount(d, Average);
    BandKeysCount(d, Difference);
    assert BandKeys(d, Average) !! BandKeys(d, Difference);
    assert |BandKeys(d, Average) + BandKeys(d, Difference)| == 8;
  }

  lemma SharedBandKey(a: GlobalDescriptor, b: GlobalDescriptor, kind: HashKind)
    ensures (exists key :: key in BandKeys(a, kind) && key in BandKeys(b, kind))
        <==> SharesBand(HashOf(a, kind), HashOf(b, kind))
  {
    if key :| key in BandKeys(a, kind) && key in BandKeys(b, kind) {
      assert key.band < BANDS && Band(HashOf(a, kind), key.band) == Band(HashOf(b, kind), key.band);
    }
    if SharesBand(HashOf(a, kind), HashOf(b, kind)) {
      var band: nat :| band < BANDS && Band(HashOf(a, kind), band) == Band(HashOf(b, kind), band);
      var key := BandKey(kind, band, Band(HashOf(a, kind), band));
      assert key in BandKeys(a, kind) && key in BandKeys(b, kind);
    }
  }

  /** Some key searched for `a` is a key of `b`, exactly when the two are related. */
  lemma SearchFindsRelated(a: GlobalDescriptor, b: GlobalDescriptor)
    ensures (exists key :: key in SearchKeys(a) && key in KeysOf(b)) <==> Related(a, b)
  {
    SharedBandKey(a, b, Average);
    SharedBandKey(a, b, Difference);
    NearbyIffClose(a.rgb, b.rgb);
    BandKeysAreBands(a, b);
    NearbyAreColors(ColorBucket(a.rgb));
    hide SharesBand, NearColors, ColorBucket, NearbyColorKeys, BandKeys;
    if key :| key in SearchKeys(a) && key in KeysOf(b) {
      assert key in BandKeys(a, Average) || key in BandKeys(a, Difference) || key == ColorKey(ColorBucket(b.rgb));
      if key.ColorKey? {
        assert NearColors(a.rgb, b.rgb);
      } else {
        assert key in BandKeys(a, key.kind) && key in BandKeys(b, key.kind);
      }
    }
    if Related(a, b) {
      if NearColors(a.rgb, b.rgb) {
        assert ColorKey(ColorBucket(b.rgb)) in SearchKeys(a) && ColorKey(ColorBucket(b.rgb)) in KeysOf(b);
      } else {
        var kind := if SharesBand(a.average, b.average) then Average else Difference;
        var key :| key in BandKeys(a, kind) && key in BandKeys(b, kind);
        assert key in SearchKeys(a) && key in KeysOf(b);
      }
    }
  }

  lemma NearbyAreColors(bucket: int)
    ensures forall key | key in NearbyColorKeys(bucket) :: key.ColorKey?
  {
  }

  lemma BandKeysAreBands(a: GlobalDescriptor, b: GlobalDescriptor)
    ensures forall key | key in BandKeys(a, Average) || key in BandKeys(b, Average) ::
      key.BandKey? && key.kind == Average
    ensures forall key | key in BandKeys(a, Difference) || key in BandKeys(b, Difference) ::
      key.BandKey? && key.kind == Difference
  {
  }
}
