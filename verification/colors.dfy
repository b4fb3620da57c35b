/** The colour values that flow through the measurement pipeline. */
module Colors {

  /** One 8-bit channel of a camera pixel. */
  type Byte = x: int | 0 <= x < 256

  /** A camera pixel, channels in OpenCV's blue-green-red storage order. */
  datatype Pixel = Pixel(b: Byte, g: Byte, r: Byte)

  /** A colour with real channels in blue-green-red order (a cluster centre or a mean of pixels). */
  datatype Bgr = Bgr(b: real, g: real, r: real)

  /** A colour with real channels in red-green-blue order. */
  datatype Rgb = Rgb(r: real, g: real, b: real)

  /** A CIE L*a*b* colour; produced by a conversion this model leaves abstract. */
  datatype Lab = Lab(l: real, a: real, b: real)

  /** Swaps OpenCV's channel order into the red-green-blue order the rest of the pipeline uses. */
  function ToRgb(c: Bgr): (r: Rgb)
    ensures r.r == c.r && r.g == c.g && r.b == c.b
  {
    Rgb(c.r, c.g, c.b)
  }

  const Black := Rgb(0.0, 0.0, 0.0)

  /** Every channel of `c` lies in the closed interval [lo, hi]. */
  predicate RgbWithin(c: Rgb, lo: real, hi: real) {
    lo <= c.r <= hi && lo <= c.g <= hi && lo <= c.b <= hi
  }
}
