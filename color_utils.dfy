/** The colour science, taken as given. The sRGB to CIE Lab conversion and
    the CIEDE2000 distance are floating-point numerics; the model keeps them
    abstract and passes them around as a `ColorSpace`. */
module ColorUtils {

  /** A CIE L*a*b* colour. */
  datatype Lab = Lab(l: real, a: real, b: real)

  /** `toLab(r, g, b)` stands for rgbToLab on 8-bit channels and `dist` for
      deltaE2000; nothing is assumed about either. */
  datatype ColorSpace = ColorSpace(toLab: (int, int, int) -> Lab, dist: (Lab, Lab) -> real)
}
