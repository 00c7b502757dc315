/** Authoritative index entries and owned RGBA payloads. */
module Frames {
  import opened Common

  datatype TimeBase = TimeBase(numerator: int, denominator: int)

  datatype Timestamp = Timestamp(ticks: int, timeBase: TimeBase)

  datatype Anchor = StreamStart | Keyframe(frameId: u64, timestamp: Option<Timestamp>)

  datatype Entry = Entry(
    frameId: u64,
    timestamp: Option<Timestamp>,
    duration: Option<Timestamp>,
    keyframe: bool,
    corrupt: bool,
    anchor: Anchor)

  /** RGBA bytes with row padding: row `y` starts at `y * stride`. */
  datatype RgbaLayout = RgbaLayout(width: nat, height: nat, stride: nat, pixels: seq<byte>) {
    predicate Valid() {
      && 0 < width
      && 0 < height
      && 4 * width <= stride
      && |pixels| == Times(height, stride)
    }
  }

  type Frame = f: RgbaLayout | f.Valid() witness RgbaLayout(1, 1, 4, [0, 0, 0, 0])

  datatype FrameError = InvalidFrame

  /** The only constructor of an owned frame: every layout defect is an error value. */
  function NewFrame(width: nat, height: nat, stride: nat, pixels: seq<byte>): (r: Result<Frame, FrameError>)
    ensures r.Ok? <==> RgbaLayout(width, height, stride, pixels).Valid()
    ensures r.Ok? ==> r.value == RgbaLayout(width, height, stride, pixels)
  {
    if width == 0 || height == 0 then Err(InvalidFrame)
    else if stride < 4 * width then Err(InvalidFrame)
    else if |pixels| != Times(height, stride) then Err(InvalidFrame)
    else Ok(RgbaLayout(width, height, stride, pixels))
  }

  predicate SameSize(left: Frame, right: Frame) {
    left.width == right.width && left.height == right.height
  }

  lemma RowInBounds(f: Frame, y: nat)
    requires y < f.height
    ensures Times(y, f.stride) + f.stride <= |f.pixels|
  {
    TimesMonotone(y + 1, f.height, f.stride);
  }

  /** The visible bytes of row `y`, padding removed. */
  function VisibleRow(f: Frame, y: nat): (r: seq<byte>)
    requires y < f.height
    ensures |r| == 4 * f.width
  {
    RowInBounds(f, y);
    f.pixels[Times(y, f.stride)..Times(y, f.stride) + 4 * f.width]
  }

  /** Channel `c` of the visible pixel at column `x` of row `y`. */
  function Channel(f: Frame, y: nat, x: nat, c: nat): (r: byte)
    requires y < f.height && x < f.width && c < 4
  {
    VisibleRow(f, y)[x * 4 + c]
  }

  /** A visible channel is the byte at `y * stride + 4 * x + c`, whatever the row padding. */
  lemma ChannelOffset(f: Frame, y: nat, x: nat, c: nat)
    requires y < f.height && x < f.width && c < 4
    ensures 0 <= y * f.stride + x * 4 + c < |f.pixels|
    ensures Channel(f, y, x, c) == f.pixels[y * f.stride + x * 4 + c]
  {
    RowInBounds(f, y);
    TimesIsProduct(y, f.stride);
  }
}
