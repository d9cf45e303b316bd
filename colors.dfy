/** Colour helpers: splitting a 0xRRGGBB integer into its three channels. */
module Colors {

  /**
   * hex_to_rgb: red is the code shifted right by 16, green the code shifted right by 8
   * taken modulo 256, blue the code modulo 256. Python's right shift floors and its
   * modulo by a positive number is never negative, which is what Dafny's / and % do for
   * a positive divisor, so the model holds for every integer code.
   */
  function HexToRgb(code: int): (rgb: (int, int, int))
    ensures 0 <= rgb.1 < 256 && 0 <= rgb.2 < 256
    ensures rgb.0 * 65536 + rgb.1 * 256 + rgb.2 == code
    ensures 0 <= rgb.0 < 256 <==> 0 <= code < 0x100_0000
  {
    var hi := code / 256;
    assert code == hi * 256 + code % 256;
    assert hi == (hi / 256) * 256 + hi % 256;
    ShiftTwice(code);
    (code / 65536, hi % 256, code % 256)
  }

  /** Shifting right by 8 twice is shifting right by 16. */
  lemma ShiftTwice(code: int)
    ensures (code / 256) / 256 == code / 65536
  {
    var q := code / 65536;
    var r := code % 65536;
    assert code == q * 65536 + r && 0 <= r < 65536;
    assert code == (q * 256 + r / 256) * 256 + r % 256;
    assert code / 256 == q * 256 + r / 256;
  }

  /** The background colour of the game, 0x0095e9. */
  lemma BackgroundColour()
    ensures HexToRgb(0x0095e9) == (0, 149, 233)
  {
  }
}
