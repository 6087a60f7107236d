/** Eight-bit RGB pixels (src/pixel/rgb.rs): three bytes per pixel, each
    channel converted from a colour by `(channel * 256.0) as u8`. */
module Pixels {
  import Colours

  newtype byte = b: int | 0 <= b < 256

  /** `RGB::WIDTH`: the bytes one pixel occupies. */
  const Width: nat := 3

  datatype RGB = RGB(r: byte, g: byte, b: byte)
  {
    /** The stored byte array `[r, g, b]`. */
    function Bytes(): (s: seq<byte>)
      ensures |s| == Width
    {
      [r, g, b]
    }
  }

  /** Rust's `as` cast from a float to an integer: truncation toward zero. */
  function Truncate(x: real): int
  {
    if x >= 0.0 then x.Floor else -((-x).Floor)
  }

  /** The cast to `u8` saturates: below 0 gives 0, above 255 gives 255. */
  function Saturate(i: int): byte
  {
    if i < 0 then 0 else if i > 255 then 255 else i as byte
  }

  /** `(v * 256.0) as u8`, computed by cases on the scaled value. */
  function ChannelByte(v: real): (b: byte)
    ensures v <= 0.0 ==> b == 0
    ensures v >= 255.0 / 256.0 ==> b == 255
  {
    var x := v * 256.0;
    if x < 1.0 then 0
    else if x >= 255.0 then 255
    else x.Floor as byte
  }

  /** The case analysis agrees with truncating and then saturating. */
  lemma ChannelByteIsSaturatedTruncation(v: real)
    ensures ChannelByte(v) == Saturate(Truncate(v * 256.0))
  {
    var x := v * 256.0;
    if x < 0.0 {
      assert (-x).Floor >= 0;
    }
  }

  /** A brighter channel never gives a smaller byte. */
  lemma ChannelByteMonotone(v: real, w: real)
    requires v <= w
    ensures ChannelByte(v) <= ChannelByte(w)
  {
    assert v * 256.0 <= w * 256.0;
  }

  /** `From<Colour> for RGB`: red, green and blue become bytes 0, 1 and 2,
      each converted on its own. */
  function FromColour(c: Colours.Colour): (p: RGB)
    ensures p.Bytes() == [ChannelByte(Colours.R(c)), ChannelByte(Colours.G(c)), ChannelByte(Colours.B(c))]
  {
    RGB(ChannelByte(Colours.R(c)), ChannelByte(Colours.G(c)), ChannelByte(Colours.B(c)))
  }

  /** The default (black) colour becomes three zero bytes. */
  lemma BlackIsZeroBytes()
    ensures FromColour(Colours.Default()).Bytes() == [0, 0, 0]
  {
  }

  /** `RGB::write`: `copy_from_slice` into a target of exactly `Width`
      bytes; the whole target is replaced by the pixel's bytes in order. */
  function Write(p: RGB, target: seq<byte>): (r: seq<byte>)
    requires |target| == Width
    ensures |r| == |target|
    ensures r[0] == p.r && r[1] == p.g && r[2] == p.b
  {
    p.Bytes()
  }
}
