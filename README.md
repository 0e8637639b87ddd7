# ws2812 digit display — a Dafny model

A microcontroller program that shows one digit, 0 to 9, on a 5×5 WS2812 LED
matrix. Two push-buttons change the digit. Button A (GPIO 5) counts up and
button B (GPIO 6) counts down, both modulo 10. Each button edge goes through a
200 ms software debounce. After every accepted press the program sends the
new digit's glyph to the LED chain, one 32-bit word per LED.

The model has three modules:

- `Colour` (`colour.dfy`): `urgb_u32` packs r, g, b into a 24-bit GRB word.
  `put_pixel` frames that word by shifting it left by 8 before it goes to the
  transmit FIFO. Colour channels are `uint8_t` values widened to 32 bits
  (`Byte`, a `bv32` below 256). Packing and framing are bit operations on `bv32`,
  so the shift drops bits 24..31 exactly as the C does.
- `Glyphs` (`glyphs.dfy`): the constant table `led_buffer`, with 10 glyphs of
  25 pixels each. The entries are written as the 0/1 initialisers of the
  source and converted to `bool` as C does (nonzero is true).
- `Board` (`board.dfy`): the globals `displayed_number`, `selected_r/g/b`,
  `last_time`, the renderer `set_led_pattern` and the handler
  `gpio_irq_handler`.
  - The pure specification is `Render` (the 25 words of one frame), `Accepts`
    (the debounce test), `Increment`/`Decrement` and `Handle` (one handler
    call: new globals plus the words sent). `Run` folds `Handle` over a
    sequence of edges.
  - The class `Device` holds the globals as fields. Its field `log` holds every
    word handed to the FIFO, oldest first. Its methods are the C functions, and
    each one is proved against the specification.
  - `uint32_t` time and the `uint` GPIO number are integers in [0, 2^32).
    The wrap-around of `current_time - last_time` is written out explicitly
    (`Sub32`).
  - `displayed_number` is a `uint8_t`. The source computes `% NUMBERS` on
    `int`, and the operand is never negative, so C's truncating `%` and
    Dafny's Euclidean `%` agree.

The current time, which the source reads from the boot timer, is a parameter
of the handler. `pio_sm_put_blocking` is modelled as appending to `log`.

## Model

| member | source | states |
|---|---|---|
| `Colour.Urgb` | ws2812.c:153-155 | The packed word is below 2^24. Its byte 2 is g, byte 1 is r and byte 0 is b. |
| `Colour.UnpackPack` | ws2812.c:153-155 | Every word below 2^24 is the packing of its own three bytes, so packing is onto the 24-bit words. |
| `Colour.UrgbInjective` | ws2812.c:153-155 | Equal packed words come from equal (r, g, b) triples. |
| `Colour.UrgbExample` | ws2812.c:153-155 | (10, 20, 30) packs to 0x140A1E. |
| `Colour.Frame` | ws2812.c:157-159 | The word put_pixel sends always has a zero low byte, which is padding. |
| `Colour.FrameKeepsLow24` | ws2812.c:157-159 | The top 24 bits of the sent word are the low 24 bits of the argument, so an argument's bits 24..31 are lost. |
| `Colour.FrameOfPacked` | ws2812.c:157-159 | For a word below 2^24 the shift loses nothing: the top 24 bits of the sent word are the word itself. |
| `Colour.FrameKeepsChannels` | ws2812.c:153-159 | From the sent word of a packed colour, g, r and b read back from bits 24..31, 16..23 and 8..15. Bits 0..7 are zero. |
| `Colour.FrameOfZero` | ws2812.c:205 | put_pixel(0) sends the zero word. |
| `Colour.FrameZeroIffBlack` | ws2812.c:153-159 | A framed packed colour is zero exactly when r, g and b are all zero. |
| `Colour.InitialBlueFrame` | ws2812.c:24-26 | The start-up colour (0, 0, 255) goes on the wire as 0x0000FF00. |
| `Glyphs.LedBuffer` | ws2812.c:30-100 | The table has 10 glyphs, each of 25 pixels. |
| `Glyphs.ReadGlyph` | ws2812.c:30-100 | Probing a few pixels of glyph d gives back d. |
| `Glyphs.GlyphsDistinct` | ws2812.c:30-100 | No two digits have the same glyph. |
| `Board.Initial` | ws2812.c:23-26 | At reset the digit is 0, the colour is (0, 0, 255), and last_time is 0 (line 103). The colour frames to 0x0000FF00. |
| `Board.RenderWords` | ws2812.c:191-208 | A render has exactly 25 words. Word i has a zero low byte, and its top 24 bits are urgb_u32(r,g,b) where led_buffer[d][i] is set and 0 where it is not. |
| `Board.RenderLitIff` | ws2812.c:197-207 | In a colour other than black, word i is nonzero if and only if the glyph lights pixel i. |
| `Board.RenderShowsDigit` | ws2812.c:191-208 | In a colour other than black, two different digits never render to the same 25 words. |
| `Board.Accepts` | ws2812.c:167 | An edge is accepted iff the elapsed time, counted across one wrap of the 32-bit microsecond clock, is strictly more than 200000. |
| `Board.Increment` | ws2812.c:175 | Button A's digit is in [0, 9]. It is d + 1, except that 9 goes to 0. |
| `Board.Decrement` | ws2812.c:181 | Button B's digit is in [0, 9]. It is d - 1, except that 0 goes to 9. |
| `Board.IncrementDecrement` | ws2812.c:175-181 | On digits, incrementing then decrementing gives d back, and so does the reverse order. |
| `Board.Handle` | ws2812.c:162-189 | A rejected edge changes nothing and sends nothing. An accepted edge sets last_time to now and keeps the colour. On GPIO 5 and 6 it moves the digit and sends the frame of the new digit. On any other GPIO only last_time changes and nothing is sent. |
| `Board.HandleKeeps` | ws2812.c:162-189 | A handler call keeps the digit in [0, 9]. It sends either 0 words or exactly 25 words. |
| `Board.PressesCancel` | ws2812.c:173-184 | An accepted A press and then an accepted B press restore the original digit. So do B then A. |
| `Board.SharedWindow` | ws2812.c:165-169 | After an accepted edge on any GPIO, an edge on any GPIO at most 200000 µs later is ignored entirely. |
| `Board.WindowIsStrict` | ws2812.c:167 | An edge exactly 200000 µs after the last accepted one is rejected. One a microsecond later is accepted. |
| `Board.RunKeeps` | ws2812.c:162-189 | Over any sequence of edges, the digit stays in [0, 9] and the colour never changes. Everything sent is a sequence of 25-word blocks, and each block is the render of some digit in [0, 9] in that colour. |
| `Board.FramesOfRender` | ws2812.c:191-208 | One render is a single whole frame. |
| `Board.FramesAppend` | ws2812.c:162-189 | Two sequences of whole frames, sent one after the other, are again a sequence of whole frames. |
| `Board.AlternatingPresses` | ws2812.c:162-189 | From reset, A, B, A, B presses spaced more than 200 ms apart show 1, 0, 1, 0 in blue. They send exactly those four frames. |
| `Board.Device.constructor` | ws2812.c:23-26 | The globals start at digit 0, colour (0, 0, 255) and last_time 0. Nothing has been sent yet. |
| `Board.Device.PutPixel` | ws2812.c:157-159 | Appends the framed word to the FIFO log and changes nothing else. |
| `Board.Device.SetLedPattern` | ws2812.c:191-208 | For digit d in [0, 9], appends exactly the 25 words of Render(r, g, b, d), in pixel order. |
| `Board.Device.ShowInitial` | ws2812.c:141 | main's first call sends the frame of the current digit in the current colour. |
| `Board.Device.GpioIrqHandler` | ws2812.c:162-189 | The new globals and the words appended to the log are those of Handle applied to the old globals. The digit stays in [0, 9]. |

## Left out

- Hardware set-up in `main` (ws2812.c:113-139): GPIO directions, pull-ups, the PIO program load, the 800 kHz setting and the interrupt registration. These are SDK calls whose behaviour is not visible.
- The PIO program (`ws2812.pio.h` is not part of this model) and the FIFO's blocking and backpressure. A send is an append to `log`.
- `get_absolute_time` / `to_us_since_boot` (ws2812.c:165): the current time is a parameter of `GpioIrqHandler`.
- The `printf` diagnostics (ws2812.c:174, 176, 180, 182), which only report to the console.
- The heartbeat loop (ws2812.c:143-148): it only toggles the red LED with a delay, and nothing else reads that state.
- Interrupt preemption: each handler call is one atomic step, since the interrupt is the only writer of the globals. The button interrupts are enabled (ws2812.c:138-139) before main's first render (ws2812.c:141), so an accepted press could put its 25 words in the middle of that first frame; the atomic `ShowInitial` and `GpioIrqHandler` do not express this interleaving.
- The `events` argument of the handler is accepted and ignored, as in the source.
- The comment at ws2812.c:23 calls `displayed_number` an LED index 0 to 24. The code uses it as a digit 0 to 9, and the model follows the code.
