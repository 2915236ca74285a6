/** The RGB888 to byte-swapped RGB565 conversion (rgb888_to_rgb565). */
module Color {

  /** The 24-bit colour word the pixel loop builds: red in bits 16..23, green in 8..15, blue in 0..7. */
  function PackRgb888(r: bv8, g: bv8, b: bv8): bv32 {
    (r as bv32 << 16) | (g as bv32 << 8) | b as bv32
  }

  function RedOf(rgb888: bv32): bv8 { ((rgb888 >> 16) & 0xFF) as bv8 }
  function GreenOf(rgb888: bv32): bv8 { ((rgb888 >> 8) & 0xFF) as bv8 }
  function BlueOf(rgb888: bv32): bv8 { (rgb888 & 0xFF) as bv8 }

  /** __builtin_bswap16 */
  function Bswap16(x: bv16): bv16 { (x << 8) | (x >> 8) }

  function LowByte(x: bv16): bv8 { (x & 0xFF) as bv8 }
  function HighByte(x: bv16): bv8 { (x >> 8) as bv8 }

  /** The natural (host-order) 5-6-5 packing of the top bits of each channel. */
  function Natural565(r: bv8, g: bv8, b: bv8): bv16 {
    (((r >> 3) & 0x1F) as bv16 << 11) | (((g >> 2) & 0x3F) as bv16 << 5) | ((b >> 3) & 0x1F) as bv16
  }

  /** The three fields of a natural-order RGB565 word. */
  function Red5(p: bv16): bv8 { ((p >> 11) & 0x1F) as bv8 }
  function Green6(p: bv16): bv8 { ((p >> 5) & 0x3F) as bv8 }
  function Blue5(p: bv16): bv8 { (p & 0x1F) as bv8 }

  /** rgb888_to_rgb565: once the byte swap is undone, the three fields hold exactly the
      top five bits of red, the top six of green and the top five of blue. */
  function Rgb888ToRgb565(rgb888: bv32): (p: bv16)
    ensures Red5(Bswap16(p)) == RedOf(rgb888) >> 3
    ensures Green6(Bswap16(p)) == GreenOf(rgb888) >> 2
    ensures Blue5(Bswap16(p)) == BlueOf(rgb888) >> 3
  {
    var r := ((rgb888 >> 16) & 0xFF) as bv8;
    var g := ((rgb888 >> 8) & 0xFF) as bv8;
    var b := (rgb888 & 0xFF) as bv8;
    var r5 := ((r >> 3) & 0x1F) as bv16;
    var g6 := ((g >> 2) & 0x3F) as bv16;
    var b5 := ((b >> 3) & 0x1F) as bv16;
    var rgb565 := (r5 << 11) | (g6 << 5) | b5;
    Bswap16(rgb565)
  }

  /** Unpacking the 24-bit word gives back the three channels it was built from. */
  lemma PackRgb888Channels(r: bv8, g: bv8, b: bv8)
    ensures RedOf(PackRgb888(r, g, b)) == r
    ensures GreenOf(PackRgb888(r, g, b)) == g
    ensures BlueOf(PackRgb888(r, g, b)) == b
  {}

  /** Byte swapping twice is the identity, so the swap can be undone. */
  lemma Bswap16Involution(x: bv16)
    ensures Bswap16(Bswap16(x)) == x
  {}

  /** The converted pixel is the byte swap of the natural 5-6-5 packing. */
  lemma Rgb565IsSwappedNaturalPack(r: bv8, g: bv8, b: bv8)
    ensures Rgb888ToRgb565(PackRgb888(r, g, b)) == Bswap16(Natural565(r, g, b))
  {
    var x := PackRgb888(r, g, b);
    ConvertsChannels(x);
    PackRgb888Channels(r, g, b);
  }

  /** The conversion only depends on the three channels of the word. */
  lemma ConvertsChannels(x: bv32)
    ensures Rgb888ToRgb565(x) == Bswap16(Natural565(RedOf(x), GreenOf(x), BlueOf(x)))
  {}

  /** The swapped word puts the natural word's high byte in its low byte and vice versa,
      so a little-endian store of it sends the high byte first. */
  lemma SwapPutsHighByteFirst(r: bv8, g: bv8, b: bv8)
    ensures LowByte(Rgb888ToRgb565(PackRgb888(r, g, b))) == HighByte(Natural565(r, g, b))
    ensures HighByte(Rgb888ToRgb565(PackRgb888(r, g, b))) == LowByte(Natural565(r, g, b))
  {}

  /** Each channel is recovered within one quantisation step: scaling a 5-bit field back by 8
      (a 6-bit field by 4) undershoots the 8-bit input by less than one step. */
  lemma QuantisationError(r: bv8, g: bv8, b: bv8)
    ensures var p := Bswap16(Rgb888ToRgb565(PackRgb888(r, g, b)));
      && 0 <= r as int - 8 * Red5(p) as int < 8
      && 0 <= g as int - 4 * Green6(p) as int < 4
      && 0 <= b as int - 8 * Blue5(p) as int < 8
  {
    PackRgb888Channels(r, g, b);
    var p := Bswap16(Rgb888ToRgb565(PackRgb888(r, g, b)));
    FieldError(r, Red5(p), 3, 8);
    FieldError(g, Green6(p), 2, 4);
    FieldError(b, Blue5(p), 3, 8);
  }

  /** The top bits of a byte, scaled back, undershoot it by less than one step. */
  lemma FieldError(x: bv8, field: bv8, k: nat, d: nat)
    requires (k == 2 && d == 4) || (k == 3 && d == 8)
    requires field == x >> k
    ensures 0 <= x as int - d * field as int < d
  {
    ShiftIsDivision(x, k, d);
  }

  /** Shifting a byte right by k divides it by 2^k. */
  lemma ShiftIsDivision(x: bv8, k: nat, d: nat)
    requires (k == 2 && d == 4) || (k == 3 && d == 8)
    ensures (x >> k) as int == x as int / d
  {
    if k == 2 {
      assert (x >> 2) as int == x as int / 4;
    } else {
      assert (x >> 3) as int == x as int / 8;
    }
  }
}
