// The digit glyph table (led_buffer): for each digit 0..9, the 25 pixels of
// the 5x5 matrix in chain order (row-major), true where the LED is lit.

module Glyphs {

  /** NUM_PIXELS: LEDs in the 5x5 matrix. */
  const NumPixels: nat := 25

  /** NUMBERS: digits in the table. */
  const Numbers: nat := 10

  /** C's conversion of the 0/1 initialisers to bool: nonzero is true. */
  function Bits(s: seq<int>): seq<bool>
  {
    seq(|s|, i requires 0 <= i < |s| => s[i] != 0)
  }

  /** led_buffer[NUMBERS][NUM_PIXELS]. */
  function LedBuffer(): (t: seq<seq<bool>>)
    ensures |t| == Numbers
    ensures forall d :: 0 <= d < Numbers ==> |t[d]| == NumPixels
  {
    [
      // digit 0
      Bits([
        0, 1, 1, 1, 0,
        0, 1, 0, 1, 0,
        0, 1, 0, 1, 0,
        0, 1, 0, 1, 0,
        0, 1, 1, 1, 0
      ]),
      // digit 1
      Bits([
        0, 1, 1, 1, 0,
        0, 0, 1, 0, 0,
        0, 0, 1, 0, 0,
        0, 1, 1, 0, 0,
        0, 0, 1, 0, 0
      ]),
      // digit 2
      Bits([
        0, 1, 1, 1, 0,
        0, 1, 0, 0, 0,
        0, 0, 1, 0, 0,
        0, 0, 0, 1, 0,
        0, 1, 1, 1, 0
      ]),
      // digit 3
      Bits([
        0, 1, 1, 1, 0,
        0, 0, 0, 1, 0,
        0, 1, 1, 1, 0,
        0, 0, 0, 1, 0,
        0, 1, 1, 1, 0
      ]),
      // digit 4
      Bits([
        0, 1, 0, 0, 0,
        0, 0, 0, 1, 0,
        0, 1, 1, 1, 0,
        0, 1, 0, 1, 0,
        0, 1, 0, 1, 0
      ]),
      // digit 5
      Bits([
        0, 1, 1, 1, 0,
        0, 0, 0, 1, 0,
        0, 1, 1, 1, 0,
        0, 1, 0, 0, 0,
        0, 1, 1, 1, 0
      ]),
      // digit 6
      Bits([
        0, 1, 1, 1, 0,
        0, 1, 0, 1, 0,
        0, 1, 1, 1, 0,
        0, 1, 0, 0, 0,
        0, 1, 1, 1, 0
      ]),
      // digit 7
      Bits([
        0, 0, 0, 1, 0,
        0, 1, 0, 0, 0,
        0, 0, 1, 0, 0,
        0, 0, 0, 1, 0,
        0, 1, 1, 1, 0
      ]),
      // digit 8
      Bits([
        0, 1, 1, 1, 0,
        0, 1, 0, 1, 0,
        0, 1, 1, 1, 0,
        0, 1, 0, 1, 0,
        0, 1, 1, 1, 0
      ]),
      // digit 9
      Bits([
        0, 1, 1, 1, 0,
        0, 0, 0, 1, 0,
        0, 1, 1, 1, 0,
        0, 1, 0, 1, 0,
        0, 1, 1, 1, 0
      ])
    ]
  }

  /** Reads the digit back off a 25-pixel frame by probing a few pixels; it
      is the inverse of the table on the ten glyphs (see ReadGlyph). */
  function ReadDigit(g: seq<bool>): (d: nat)
    requires |g| == NumPixels
    ensures d < Numbers
  {
    if g[6] then
      if g[8] then (if g[12] then (if g[18] then 8 else 6) else 0)
      else (if g[1] then 2 else 7)
    else
      if g[18] then (if g[2] then (if g[16] then 9 else 3) else 4)
      else (if g[7] then 1 else 5)
  }

  /** Every glyph reads back as its own digit. */
  lemma ReadGlyph(d: nat)
    requires d < Numbers
    ensures ReadDigit(LedBuffer()[d]) == d
  {
  }

  /** No two digits share a glyph, so the lit pixels identify the digit shown. */
  lemma GlyphsDistinct(d1: nat, d2: nat)
    requires d1 < Numbers && d2 < Numbers
    requires LedBuffer()[d1] == LedBuffer()[d2]
    ensures d1 == d2
  {
    ReadGlyph(d1);
    ReadGlyph(d2);
  }
}
