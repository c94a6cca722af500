/** Pixel buffers shared by the classifier and the template preprocessor. */
module Pixels {

  /** One 8-bit colour channel (C++ `unsigned char`). */
  type byte = x: int | 0 <= x < 256

  /** A decoded image as stb_image returns it when asked for 3 channels:
      row-major RGB, three bytes per pixel. */
  datatype Image = Image(w: nat, h: nat, data: seq<byte>)

  /** The decoder hands back exactly `w * h * 3` bytes. */
  predicate WellFormed(im: Image)
  {
    |im.data| == im.w * im.h * 3
  }

  function Abs(x: int): nat
  {
    if x < 0 then -x else x
  }
}
