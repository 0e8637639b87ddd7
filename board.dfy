// The display state machine: the globals displayed_number, selected_r/g/b and
// last_time, the renderer set_led_pattern that sends one framed word per LED,
// and the debounced button interrupt handler gpio_irq_handler.

module Board {
  import opened Colour
  import opened Glyphs

  /** uint8_t holding an integer value (displayed_number). */
  type Uint8 = x: int | 0 <= x < 0x100

  /** uint32_t / uint: the GPIO number and the microsecond timestamps. */
  type Uint32 = x: int | 0 <= x < 0x1_0000_0000

  /** GPIO of button A (increments the digit). */
  const ButtonA: Uint32 := 5

  /** GPIO of button B (decrements the digit). */
  const ButtonB: Uint32 := 6

  /** Debounce window in microseconds: an edge must come strictly later than this. */
  const DebounceUs: Uint32 := 200000

  /** uint32_t subtraction, which wraps modulo 2^32. */
  function Sub32(a: Uint32, b: Uint32): Uint32
  {
    (a - b) % 0x1_0000_0000
  }

  /** uint32_t addition, which wraps modulo 2^32. */
  function Add32(a: Uint32, b: Uint32): Uint32
  {
    (a + b) % 0x1_0000_0000
  }

  /** The globals the handler reads and writes. */
  datatype Display = Display(digit: Uint8, r: Byte, g: Byte, b: Byte, lastTime: Uint32)

  /** The state at reset: digit 0, colour (0, 0, 255), last_time 0. */
  function Initial(): (s: Display)
    ensures s.digit == 0 && s.lastTime == 0
    ensures s.r == 0 && s.g == 0 && s.b == 255
    ensures Frame(Urgb(s.r, s.g, s.b)) == 0xFF00
  {
    Display(0, 0, 0, 255, 0)
  }

  // ---------------------------------------------------------------------
  // Renderer

  /** The 25 words set_led_pattern hands to the FIFO for digit d in colour
      (r, g, b): pixel i gets the framed colour where the glyph is lit and the
      framed zero word where it is dark. */
  function Render(r: Byte, g: Byte, b: Byte, d: nat): seq<bv32>
    requires d < Numbers
  {
    seq(NumPixels, i requires 0 <= i < NumPixels =>
      if LedBuffer()[d][i] then Frame(Urgb(r, g, b)) else Frame(0))
  }

  /** A render is one word per LED; each word has an empty padding byte and
      carries the packed colour where the glyph is lit and 0 where it is dark. */
  lemma RenderWords(r: Byte, g: Byte, b: Byte, d: nat, i: nat)
    requires d < Numbers && i < NumPixels
    ensures |Render(r, g, b, d)| == NumPixels
    ensures Render(r, g, b, d)[i] & 0xFF == 0
    ensures Render(r, g, b, d)[i] >> 8 == if LedBuffer()[d][i] then Urgb(r, g, b) else 0
  {
    var lit := LedBuffer()[d][i];
    var c := if lit then Urgb(r, g, b) else 0;
    assert Render(r, g, b, d)[i] == Frame(c);
    FrameOfPacked(c);
  }

  /** In any colour other than black, a pixel's word is nonzero exactly when
      the glyph lights that pixel. */
  lemma RenderLitIff(r: Byte, g: Byte, b: Byte, d: nat, i: nat)
    requires d < Numbers && i < NumPixels
    requires r != 0 || g != 0 || b != 0
    ensures Render(r, g, b, d)[i] != 0 <==> LedBuffer()[d][i]
  {
  }

  /** In any colour other than black, the frame on the wire determines the
      digit: two digits never produce the same 25 words. */
  lemma RenderShowsDigit(r: Byte, g: Byte, b: Byte, d1: nat, d2: nat)
    requires d1 < Numbers && d2 < Numbers
    requires r != 0 || g != 0 || b != 0
    requires Render(r, g, b, d1) == Render(r, g, b, d2)
    ensures d1 == d2
  {
    forall i | 0 <= i < NumPixels
      ensures LedBuffer()[d1][i] == LedBuffer()[d2][i]
    {
      RenderLitIff(r, g, b, d1, i);
      RenderLitIff(r, g, b, d2, i);
    }
    assert LedBuffer()[d1] == LedBuffer()[d2];
    GlyphsDistinct(d1, d2);
  }

  // ---------------------------------------------------------------------
  // Handler

  /** The debounce test current_time - last_time > 200000 on uint32_t: the
      elapsed time counts one wrap of the microsecond clock past 2^32, and
      exactly 200000 is too soon. */
  function Accepts(lastTime: Uint32, now: Uint32): (ok: bool)
    ensures ok <==>
      if lastTime <= now then now - lastTime > 200000
      else now + 0x1_0000_0000 - lastTime > 200000
  {
    Sub32(now, lastTime) > DebounceUs
  }

  /** Button A: (displayed_number + 1) % NUMBERS. */
  function Increment(d: Uint8): (n: Uint8)
    ensures n < Numbers
    ensures d < Numbers ==> n == if d == 9 then 0 else d + 1
  {
    (d + 1) % Numbers
  }

  /** Button B: (displayed_number - 1 + NUMBERS) % NUMBERS; the operand is
      never negative, so C's truncating % agrees with Dafny's. */
  function Decrement(d: Uint8): (n: Uint8)
    ensures n < Numbers
    ensures d < Numbers ==> n == if d == 0 then 9 else d - 1
  {
    (d - 1 + Numbers) % Numbers
  }

  /** On the digits, Increment and Decrement undo each other. */
  lemma IncrementDecrement(d: Uint8)
    requires d < Numbers
    ensures Decrement(Increment(d)) == d
    ensures Increment(Decrement(d)) == d
  {
  }

  /** One invocation of gpio_irq_handler at time now: the new globals and the
      words sent to the FIFO. */
  function Handle(s: Display, gpio: Uint32, now: Uint32): (out: (Display, seq<bv32>))
    ensures !Accepts(s.lastTime, now) ==> out == (s, [])
    ensures Accepts(s.lastTime, now) ==>
      out.0.lastTime == now && out.0.r == s.r && out.0.g == s.g && out.0.b == s.b
    ensures Accepts(s.lastTime, now) && gpio != ButtonA && gpio != ButtonB ==>
      out == (s.(lastTime := now), [])
    ensures Accepts(s.lastTime, now) && gpio == ButtonA ==>
      out.0.digit == Increment(s.digit) && out.1 == Render(s.r, s.g, s.b, out.0.digit)
    ensures Accepts(s.lastTime, now) && gpio == ButtonB ==>
      out.0.digit == Decrement(s.digit) && out.1 == Render(s.r, s.g, s.b, out.0.digit)
  {
    if !Accepts(s.lastTime, now) then (s, [])
    else
      var s1 := s.(lastTime := now);
      if gpio == ButtonA then
        var s2 := s1.(digit := Increment(s1.digit));
        (s2, Render(s2.r, s2.g, s2.b, s2.digit))
      else if gpio == ButtonB then
        var s2 := s1.(digit := Decrement(s1.digit));
        (s2, Render(s2.r, s2.g, s2.b, s2.digit))
      else
        (s1, [])
  }

  /** The handler keeps the digit in 0..9 and the colour fixed, and sends
      either nothing or exactly one 25-word frame. */
  lemma HandleKeeps(s: Display, gpio: Uint32, now: Uint32)
    ensures s.digit < Numbers ==> Handle(s, gpio, now).0.digit < Numbers
    ensures |Handle(s, gpio, now).1| == 0 || |Handle(s, gpio, now).1| == NumPixels
  {
  }

  /** An accepted A press followed by an accepted B press, in either order,
      gives back the digit. */
  lemma PressesCancel(s: Display, t1: Uint32, t2: Uint32)
    requires s.digit < Numbers
    requires Accepts(s.lastTime, t1) && Accepts(t1, t2)
    ensures Handle(Handle(s, ButtonA, t1).0, ButtonB, t2).0.digit == s.digit
    ensures Handle(Handle(s, ButtonB, t1).0, ButtonA, t2).0.digit == s.digit
  {
    IncrementDecrement(s.digit);
  }

  /** After any accepted edge at t1, an edge on either button no more than
      200000 us later is ignored: nothing changes and nothing is sent. */
  lemma SharedWindow(s: Display, g1: Uint32, t1: Uint32, g2: Uint32, t2: Uint32)
    requires Accepts(s.lastTime, t1)
    requires Sub32(t2, t1) <= DebounceUs
    ensures Handle(Handle(s, g1, t1).0, g2, t2) == (Handle(s, g1, t1).0, [])
  {
  }

  /** A button edge timestamped exactly 200000 us after the last accepted one
      is rejected; one microsecond later it is accepted. */
  lemma WindowIsStrict(t: Uint32)
    ensures !Accepts(t, Add32(t, DebounceUs))
    ensures Accepts(t, Add32(t, DebounceUs + 1))
  {
  }

  // ---------------------------------------------------------------------
  // Sequences of edges

  /** One falling edge delivered to the handler. */
  datatype Edge = Edge(gpio: Uint32, time: Uint32)

  /** The handler run over edges in order: the final globals and every word
      sent to the FIFO. */
  function Run(s: Display, edges: seq<Edge>): (Display, seq<bv32>)
    decreases |edges|
  {
    if edges == [] then (s, [])
    else
      var first := Handle(s, edges[0].gpio, edges[0].time);
      var rest := Run(first.0, edges[1..]);
      (rest.0, first.1 + rest.1)
  }

  /** words is a sequence of whole frames, each the render of some digit in
      colour (r, g, b). */
  predicate Frames(r: Byte, g: Byte, b: Byte, words: seq<bv32>)
    decreases |words|
  {
    words == [] ||
    (|words| >= NumPixels &&
     (exists d: nat :: d < Numbers && words[..NumPixels] == Render(r, g, b, d)) &&
     Frames(r, g, b, words[NumPixels..]))
  }

  /** One frame is a sequence of frames. */
  lemma FramesOfRender(r: Byte, g: Byte, b: Byte, d: nat)
    requires d < Numbers
    ensures Frames(r, g, b, Render(r, g, b, d))
  {
    var w := Render(r, g, b, d);
    assert w[..NumPixels] == w;
    assert w[NumPixels..] == [];
  }

  /** Sequences of frames concatenate to a sequence of frames. */
  lemma {:induction false} FramesAppend(r: Byte, g: Byte, b: Byte, u: seq<bv32>, v: seq<bv32>)
    requires Frames(r, g, b, u) && Frames(r, g, b, v)
    ensures Frames(r, g, b, u + v)
    decreases |u|
  {
    if u == [] {
      assert u + v == v;
    } else {
      var d: nat :| d < Numbers && u[..NumPixels] == Render(r, g, b, d);
      FramesAppend(r, g, b, u[NumPixels..], v);
      assert (u + v)[..NumPixels] == u[..NumPixels];
      assert (u + v)[NumPixels..] == u[NumPixels..] + v;
    }
  }

  /** Over any run from a state showing a digit, the digit stays in 0..9, the
      colour never changes, and the FIFO receives whole 25-word frames, each
      the render of some digit in that colour. */
  lemma {:induction false} RunKeeps(s: Display, edges: seq<Edge>)
    requires s.digit < Numbers
    ensures Run(s, edges).0.digit < Numbers
    ensures Run(s, edges).0.r == s.r && Run(s, edges).0.g == s.g && Run(s, edges).0.b == s.b
    ensures |Run(s, edges).1| % NumPixels == 0
    ensures Frames(s.r, s.g, s.b, Run(s, edges).1)
    decreases |edges|
  {
    if edges != [] {
      var first := Handle(s, edges[0].gpio, edges[0].time);
      RunKeeps(first.0, edges[1..]);
      if first.1 != [] {
        FramesOfRender(s.r, s.g, s.b, first.0.digit);
      }
      FramesAppend(s.r, s.g, s.b, first.1, Run(first.0, edges[1..]).1);
    }
  }

  /** Alternating A, B, A, B from reset, each press more than 200 ms after
      the previous one, shows 1, 0, 1, 0 in blue. */
  lemma AlternatingPresses()
    ensures var edges := [Edge(ButtonA, 200001), Edge(ButtonB, 400002),
                          Edge(ButtonA, 600003), Edge(ButtonB, 800004)];
            Run(Initial(), edges) ==
              (Initial().(lastTime := 800004),
               Render(0, 0, 255, 1) + Render(0, 0, 255, 0) +
               Render(0, 0, 255, 1) + Render(0, 0, 255, 0))
  {
    var s0 := Initial();
    var s1 := s0.(digit := 1, lastTime := 200001);
    var s2 := s1.(digit := 0, lastTime := 400002);
    var s3 := s2.(digit := 1, lastTime := 600003);
    var s4 := s3.(digit := 0, lastTime := 800004);
    assert Handle(s0, ButtonA, 200001) == (s1, Render(0, 0, 255, 1));
    assert Handle(s1, ButtonB, 400002) == (s2, Render(0, 0, 255, 0));
    assert Handle(s2, ButtonA, 600003) == (s3, Render(0, 0, 255, 1));
    assert Handle(s3, ButtonB, 800004) == (s4, Render(0, 0, 255, 0));
    var e4 := [Edge(ButtonB, 800004)];
    var e3 := [Edge(ButtonA, 600003)] + e4;
    var e2 := [Edge(ButtonB, 400002)] + e3;
    var e1 := [Edge(ButtonA, 200001)] + e2;
    assert e4[1..] == [] && e3[1..] == e4 && e2[1..] == e3 && e1[1..] == e2;
    assert Run(s4, []) == (s4, []);
    assert Render(0, 0, 255, 0) + [] == Render(0, 0, 255, 0);
    assert Run(s3, e4) == (s4, Render(0, 0, 255, 0));
    assert Run(s2, e3) == (s4, Render(0, 0, 255, 1) + Render(0, 0, 255, 0));
    assert Run(s1, e2) ==
      (s4, Render(0, 0, 255, 0) + (Render(0, 0, 255, 1) + Render(0, 0, 255, 0)));
    assert Run(s0, e1) ==
      (s4, Render(0, 0, 255, 1) + (Render(0, 0, 255, 0) + (Render(0, 0, 255, 1) + Render(0, 0, 255, 0))));
    assert e1 == [Edge(ButtonA, 200001), Edge(ButtonB, 400002),
                  Edge(ButtonA, 600003), Edge(ButtonB, 800004)];
    assert s4 == Initial().(lastTime := 800004);
    assert Render(0, 0, 255, 1) + (Render(0, 0, 255, 0) + (Render(0, 0, 255, 1) + Render(0, 0, 255, 0))) ==
           Render(0, 0, 255, 1) + Render(0, 0, 255, 0) + Render(0, 0, 255, 1) + Render(0, 0, 255, 0);
  }

  // ---------------------------------------------------------------------
  // The program's globals and its transmit FIFO

  class Device {
    var displayedNumber: Uint8
    var selectedR: Byte
    var selectedG: Byte
    var selectedB: Byte
    var lastTime: Uint32
    /** Every word handed to pio_sm_put_blocking, oldest first. */
    var log: seq<bv32>

    /** The globals as a value. */
    function State(): Display
      reads this
    {
      Display(displayedNumber, selectedR, selectedG, selectedB, lastTime)
    }

    /** The digit indexes the glyph table. */
    predicate Valid()
      reads this
    {
      displayedNumber < Numbers
    }

    /** The static initialisers of the globals; nothing sent yet. */
    constructor ()
      ensures Valid()
      ensures State() == Initial() && log == []
    {
      displayedNumber := 0;
      selectedR, selectedG, selectedB := 0, 0, 255;
      lastTime := 0;
      log := [];
    }

    /** put_pixel: one framed word to the FIFO. */
    method PutPixel(pixelGrb: bv32)
      modifies this`log
      ensures log == old(log) + [Frame(pixelGrb)]
    {
      log := log + [Frame(pixelGrb)];
    }

    /** set_led_pattern: one word per LED, in chain order. */
    method SetLedPattern(r: Byte, g: Byte, b: Byte, d: int)
      requires 0 <= d < Numbers
      modifies this`log
      ensures log == old(log) + Render(r, g, b, d)
    {
      var color := Urgb(r, g, b);
      for i := 0 to NumPixels
        invariant log == old(log) + Render(r, g, b, d)[..i]
      {
        if LedBuffer()[d][i] {
          PutPixel(color);
        } else {
          PutPixel(0);
        }
        assert Render(r, g, b, d)[..i + 1] == Render(r, g, b, d)[..i] + [Render(r, g, b, d)[i]];
      }
      assert Render(r, g, b, d)[..NumPixels] == Render(r, g, b, d);
    }

    /** The first render in main, before the heartbeat loop. */
    method ShowInitial()
      requires Valid()
      modifies this`log
      ensures log == old(log) + Render(selectedR, selectedG, selectedB, displayedNumber)
    {
      SetLedPattern(selectedR, selectedG, selectedB, displayedNumber);
    }

    /** gpio_irq_handler with the current time passed in; events is unused,
        as in the handler. */
    method GpioIrqHandler(gpio: Uint32, events: Uint32, now: Uint32)
      modifies this
      ensures State() == Handle(old(State()), gpio, now).0
      ensures log == old(log) + Handle(old(State()), gpio, now).1
      ensures old(Valid()) ==> Valid()
    {
      var currentTime := now;
      if Sub32(currentTime, lastTime) > DebounceUs {
        lastTime := currentTime;
        if gpio == ButtonA {
          displayedNumber := (displayedNumber + 1) % Numbers;
          SetLedPattern(selectedR, selectedG, selectedB, displayedNumber);
        } else if gpio == ButtonB {
          displayedNumber := (displayedNumber - 1 + Numbers) % Numbers;
          SetLedPattern(selectedR, selectedG, selectedB, displayedNumber);
        }
      }
    }
  }
}
