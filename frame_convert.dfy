/** The pixel loop of process_and_convert_frame: the resized BGR camera frame converted
    into the display buffer, one RGB565 pixel per frame pixel, in row-major order. */
module FrameConvert {
  import opened Config
  import Color
  import FrameTransfer

  /** The display pixel at index k: the three bytes of frame pixel k are blue, green, red,
      and the conversion is given red, green, blue. */
  function ConvertedPixel(pixels: seq<bv8>, k: nat): bv16
    requires 3 * k + 2 < |pixels|
  {
    Color.Rgb888ToRgb565(Color.PackRgb888(pixels[3 * k + 2], pixels[3 * k + 1], pixels[3 * k]))
  }

  /** The BGR to RGB swap: the red field of pixel k holds the top bits of byte 3k + 2, the
      green field those of byte 3k + 1 and the blue field those of byte 3k. */
  lemma ConvertedPixelChannels(pixels: seq<bv8>, k: nat)
    requires 3 * k + 2 < |pixels|
    ensures var p := Color.Bswap16(ConvertedPixel(pixels, k));
      && Color.Red5(p) == pixels[3 * k + 2] >> 3
      && Color.Green6(p) == pixels[3 * k + 1] >> 2
      && Color.Blue5(p) == pixels[3 * k] >> 3
  {
    Color.PackRgb888Channels(pixels[3 * k + 2], pixels[3 * k + 1], pixels[3 * k]);
  }

  /** The nested y/x loop: every index of the display buffer is written with the converted
      frame pixel at the same position. */
  method ConvertFrame(pixels: array<bv8>, buffer: array<bv16>)
    requires pixels.Length == 3 * PixelCount && buffer.Length == PixelCount
    modifies buffer
    ensures forall k :: 0 <= k < PixelCount ==> buffer[k] == ConvertedPixel(pixels[..], k)
  {
    for y := 0 to ScreenHeight
      invariant forall k :: 0 <= k < y * ScreenWidth ==> buffer[k] == ConvertedPixel(pixels[..], k)
    {
      for x := 0 to ScreenWidth
        invariant forall k :: 0 <= k < y * ScreenWidth + x ==> buffer[k] == ConvertedPixel(pixels[..], k)
      {
        var idx := (y * ScreenWidth + x) * 3;
        var rgb888 := Color.PackRgb888(pixels[idx + 2], pixels[idx + 1], pixels[idx]);
        buffer[y * ScreenWidth + x] := Color.Rgb888ToRgb565(rgb888);
      }
    }
  }

  /** On the wire the converted frame is big-endian RGB565, the order the controller reads
      in its 16-bit colour mode: for pixel k, the natural word's high byte goes out first. */
  lemma ConvertedFrameOnWire(pixels: seq<bv8>, frame: seq<bv16>, k: nat)
    requires |pixels| == 3 * PixelCount && |frame| == PixelCount && k < PixelCount
    requires frame[k] == ConvertedPixel(pixels, k)
    ensures var n := Color.Natural565(pixels[3 * k + 2], pixels[3 * k + 1], pixels[3 * k]);
      && FrameTransfer.FrameBytes(frame)[2 * k] == Color.HighByte(n)
      && FrameTransfer.FrameBytes(frame)[2 * k + 1] == Color.LowByte(n)
  {
    FrameTransfer.FrameBytesAt(frame, k);
    Color.SwapPutsHighByteFirst(pixels[3 * k + 2], pixels[3 * k + 1], pixels[3 * k]);
  }
}
