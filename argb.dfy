/** Channel extraction from a 32-bit ARGB pixel.

    Java writes `(argb >> k) & 0xFF`. An arithmetic right shift by k is
    division by 2^k rounded toward negative infinity, and masking with 0xFF
    is the non-negative remainder modulo 256; Dafny's `/` and `%` on `int`
    with a positive divisor are exactly these, so the expressions below
    agree with the Java ones for negative pixel values too. */
module Argb {

  function Alpha(argb: int): int { (argb / 0x100_0000) % 0x100 }

  function Red(argb: int): int { (argb / 0x1_0000) % 0x100 }

  function Green(argb: int): int { (argb / 0x100) % 0x100 }

  function Blue(argb: int): int { argb % 0x100 }

  /** Every channel is a byte. */
  lemma ChannelsAreBytes(argb: int)
    ensures 0 <= Alpha(argb) <= 255 && 0 <= Red(argb) <= 255
    ensures 0 <= Green(argb) <= 255 && 0 <= Blue(argb) <= 255
  {
  }

  /** Red, green and blue depend only on the low 24 bits of the pixel: two
      pixels that differ only in their alpha byte have the same colour. */
  lemma ColourIgnoresAlpha(p: int, q: int)
    requires p % 0x100_0000 == q % 0x100_0000
    ensures Red(p) == Red(q) && Green(p) == Green(q) && Blue(p) == Blue(q)
  {
    LowBits(p);
    LowBits(q);
  }

  /** Each colour channel is a function of the pixel's low 24 bits. */
  lemma LowBits(p: int)
    ensures Red(p) == (p % 0x100_0000) / 0x1_0000
    ensures Green(p) == ((p % 0x100_0000) / 0x100) % 0x100
    ensures Blue(p) == (p % 0x100_0000) % 0x100
  {
    var hi, lo := p / 0x100_0000, p % 0x100_0000;
    assert p == hi * 0x100_0000 + lo;
    RedOfLowBits(p, hi, lo);
    GreenOfLowBits(p, hi, lo);
    BlueOfLowBits(p, hi, lo);
  }

  /** Division by 2^8 is determined by a quotient and a remainder in
      range. */
  lemma DivMod8(x: int, q: int, r: int)
    requires 0 <= r < 0x100 && x == q * 0x100 + r
    ensures x / 0x100 == q && x % 0x100 == r
  {
  }

  /** Division by 2^16 is determined by a quotient and a remainder in
      range. */
  lemma DivMod16(x: int, q: int, r: int)
    requires 0 <= r < 0x1_0000 && x == q * 0x1_0000 + r
    ensures x / 0x1_0000 == q
  {
  }

  lemma RedOfLowBits(p: int, hi: int, lo: int)
    requires 0 <= lo < 0x100_0000 && p == hi * 0x100_0000 + lo
    ensures Red(p) == lo / 0x1_0000
  {
    var q, r := lo / 0x1_0000, lo % 0x1_0000;
    assert lo == q * 0x1_0000 + r;
    assert 0 <= q < 0x100;
    DivMod16(p, hi * 0x100 + q, r);
    DivMod8(hi * 0x100 + q, hi, q);
  }

  lemma GreenOfLowBits(p: int, hi: int, lo: int)
    requires 0 <= lo < 0x100_0000 && p == hi * 0x100_0000 + lo
    ensures Green(p) == (lo / 0x100) % 0x100
  {
    var q, r := lo / 0x100, lo % 0x100;
    assert lo == q * 0x100 + r;
    assert 0 <= q < 0x1_0000;
    DivMod8(p, hi * 0x1_0000 + q, r);
    var q2, r2 := q / 0x100, q % 0x100;
    assert q == q2 * 0x100 + r2;
    DivMod8(hi * 0x1_0000 + q, hi * 0x100 + q2, r2);
  }

  lemma BlueOfLowBits(p: int, hi: int, lo: int)
    requires 0 <= lo < 0x100_0000 && p == hi * 0x100_0000 + lo
    ensures Blue(p) == lo % 0x100
  {
    var q, r := lo / 0x100, lo % 0x100;
    assert lo == q * 0x100 + r;
    DivMod8(p, hi * 0x1_0000 + q, r);
  }
}
