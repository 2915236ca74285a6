/** The compile-time configuration of the driver (the #defines of main.cc). */
module Config {
  const ScreenWidth: nat := 320
  const ScreenHeight: nat := 240
  /** Pixels in one frame. */
  const PixelCount: nat := ScreenWidth * ScreenHeight
  /** Bytes in one frame buffer of 16-bit pixels. */
  const BufferSize: nat := ScreenWidth * ScreenHeight * 2
  /** Largest single SPI transfer of frame data. */
  const BlockSize: nat := 4096
  /** Attempts made by one retry-wrapped SPI transfer. */
  const MaxRetries: nat := 3

  datatype Option<T> = None | Some(value: T)
}
