// Colour packing for the WS2812 LED chain: three 8-bit channels are packed
// into a 24-bit GRB word (urgb_u32), and that word is framed by a left shift
// of 8 before it is handed to the transmit FIFO (put_pixel).

module Colour {

  /** A uint8_t value widened to a 32-bit register, as the C casts do. */
  type Byte = x: bv32 | x < 0x100

  /** The 24-bit GRB word for the channel bytes r, g, b:
      green in bits 16..23, red in bits 8..15, blue in bits 0..7. */
  function Urgb(r: Byte, g: Byte, b: Byte): (w: bv32)
    ensures w < 0x100_0000
    ensures Green(w) == g && Red(w) == r && Blue(w) == b
  {
    (r << 8) | (g << 16) | b
  }

  /** Byte 2 of a packed word (green). */
  function Green(w: bv32): Byte { ((w >> 16) & 0xFF) }

  /** Byte 1 of a packed word (red). */
  function Red(w: bv32): Byte { ((w >> 8) & 0xFF) }

  /** Byte 0 of a packed word (blue). */
  function Blue(w: bv32): Byte { (w & 0xFF) }

  /** Every 24-bit word is the packing of its own three bytes, so Urgb is a
      bijection between channel triples and words below 2^24. */
  lemma UnpackPack(w: bv32)
    requires w < 0x100_0000
    ensures Urgb(Red(w), Green(w), Blue(w)) == w
  {
  }

  /** Packing is injective: equal words come from equal channel triples. */
  lemma UrgbInjective(r1: Byte, g1: Byte, b1: Byte, r2: Byte, g2: Byte, b2: Byte)
    requires Urgb(r1, g1, b1) == Urgb(r2, g2, b2)
    ensures r1 == r2 && g1 == g2 && b1 == b2
  {
  }

  /** The word put_pixel hands to the FIFO: the 32-bit register value shifted
      left by 8, so bits 24..31 of the argument are lost and the low byte is
      padding. */
  function Frame(pixelGrb: bv32): (word: bv32)
    ensures word & 0xFF == 0
  {
    pixelGrb << 8
  }

  /** The top 24 bits of the FIFO word are the low 24 bits of the argument. */
  lemma FrameKeepsLow24(pixelGrb: bv32)
    ensures Frame(pixelGrb) >> 8 == pixelGrb & 0xFF_FFFF
  {
  }

  /** For a 24-bit word the framing loses nothing: the top 24 bits of the
      FIFO word are the colour. */
  lemma FrameOfPacked(w: bv32)
    requires w < 0x100_0000
    ensures Frame(w) >> 8 == w
  {
  }

  /** Framing a packed colour gives back its three channels from the FIFO word. */
  lemma FrameKeepsChannels(r: Byte, g: Byte, b: Byte)
    ensures Green(Frame(Urgb(r, g, b)) >> 8) == g
    ensures Red(Frame(Urgb(r, g, b)) >> 8) == r
    ensures Blue(Frame(Urgb(r, g, b)) >> 8) == b
    ensures Frame(Urgb(r, g, b)) & 0xFF == 0
  {
    FrameOfPacked(Urgb(r, g, b));
  }

  /** The off pixel: put_pixel(0) sends the zero word. */
  lemma FrameOfZero()
    ensures Frame(0) == 0
  {
  }

  /** A framed packed colour is zero exactly when the colour is black. */
  lemma FrameZeroIffBlack(r: Byte, g: Byte, b: Byte)
    ensures Frame(Urgb(r, g, b)) == 0 <==> (r == 0 && g == 0 && b == 0)
  {
    FrameKeepsChannels(r, g, b);
  }

  /** Worked value: (r, g, b) = (10, 20, 30) packs to 0x140A1E = 1313310. */
  lemma UrgbExample()
    ensures Urgb(10, 20, 30) == 0x14_0A1E
    ensures Urgb(10, 20, 30) == 1313310
  {
  }

  /** The colour the program starts with, (0, 0, 255), goes on the wire as 0x0000FF00. */
  lemma InitialBlueFrame()
    ensures Frame(Urgb(0, 0, 255)) == 0xFF00
  {
  }
}
