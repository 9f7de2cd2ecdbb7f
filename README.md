# Encoder, debounced button and NeoPixel animator

This project models the three input/output state machines of the firmware
in Dafny and proves properties about them:

- **Quadrature** (`quadrature.dfy`) is the rotary encoder of
  `src/encoder.cpp`. The two channel interrupts look the transition
  `(last_state << 2) | curr` up in a 16-entry signed table. They add the
  delta to an `int32_t` position, always resynchronise `last_state`, and call
  the spin callback on a nonzero delta. The push-button interrupt calls its
  callback and changes nothing else.
- **Debounce** (`debounce.dfy`) is the button of `src/button.cpp`. The edge
  interrupt keeps only the newest raw level and raises a pending flag.
  `button_process` then moves through three phases: it opens a debounce
  window, waits for it to elapse, and commits the sampled level. The window
  start uses 0 as its "not opened" sentinel. The callback runs only on a
  committed change to pressed.
- **Animator** (`animator.dfy`) is the round-robin LED animation of
  `src/neopixel.cpp`. At most once per interval it lights the active pixel in
  the current colour. The pixel then advances modulo `count`, and the colour
  advances through red, green and blue each time the pixel wraps.
- **Hw** (`hw.dfy`) holds what the three share: the fixed-width integer
  types, `Option` for NULL pointers, the wrapping `uint32_t` difference used
  for `millis()` intervals, and `int32_t` truncation.

Each component has two layers:

- **A value layer.** Datatypes and functions describe one step (`Decode`,
  `Debounce.Step`, `Animator.Step`) and runs of steps. The lemmas about
  these carry the interesting properties: full encoder cycles, the debounce
  trace properties, and the animation's period.
- **A class layer.** Each C struct becomes a Dafny class with the same
  fields. Each C function becomes a method that updates those fields as the
  C code does, with the same early returns.
  - Every method's `ensures` ties its new state to the value layer.
  - Functions that return early on a NULL instance take a nullable
    reference, and a NULL instance changes nothing.
  - Hardware reads (`digitalRead`, `millis()`) are parameters.
  - Callbacks are `Option<Handle>` fields. Their calls are recorded in ghost
    logs, and so are the frames shown on the LED strip.

Two modelling decisions follow the code rather than its comments:

- **Button polarity.** `stable_state` is true exactly when the raw level is
  HIGH (src/button.cpp:11 and :59). The comment on line 11 says "pressed if
  LOW". The model follows the code: "pressed" means a committed HIGH.
- **Encoder position overflow.** `position += delta` on an `int32_t`
  (src/encoder.cpp:14) overflows at the ends of its range. The model
  truncates in two's complement (`WrapI32`), as the target hardware does. All
  statements about the position hold modulo 2^32.

## Model

| member | source | states |
|---|---|---|
| Hw.Elapsed | src/button.cpp:53 | The wrapping `uint32_t` difference `now - since`: the unique `u32` that wraps to `now` when added to `since`, with its value given separately for the non-wrapped and wrapped cases. |
| Hw.WrapI32 | src/encoder.cpp:14 | `int32_t` truncation returns a value in the `int32_t` range, and returns its argument unchanged when that is already in range. |
| Hw.WrapI32Quotient | src/encoder.cpp:14 | The truncation differs from its argument by a whole multiple of 2^32. |
| Hw.WrapI32Congruent | src/encoder.cpp:14 | Arguments that are congruent modulo 2^32 truncate to the same `int32_t`. |
| Hw.WrapI32Add | src/encoder.cpp:14 | Adding into an `int32_t` and then truncating, step by step, equals one exact addition followed by one truncation. |
| Quadrature.ChannelsInverse | src/encoder.cpp:6-8 | The phase `2 * a + b` determines both channel levels. |
| Quadrature.LevelsOfInverse | src/encoder.cpp:8 | Every 2-bit phase is `2 * a + b` for its own channel levels. |
| Quadrature.Index | src/encoder.cpp:10 | The index `4 * last_state + curr` is always inside the 16-entry table. |
| Quadrature.Delta | src/encoder.cpp:11-12 | Every table entry is -1, 0 or +1. |
| Quadrature.GrayCycle | src/encoder.cpp:11 | The forward step 00->10->11->01->00 and the backward step 00->01->11->10->00 each change exactly one channel. They differ from each other, and each undoes the other. |
| Quadrature.DeltaIsGrayDirection | src/encoder.cpp:11 | The table is +1 exactly on forward steps, -1 exactly on backward steps, and 0 otherwise. |
| Quadrature.TableZeros | src/encoder.cpp:11-13 | An unchanged phase (indices 0, 5, 10, 15) and a double skip 00<->11 or 01<->10 (indices 3, 6, 9, 12) both give delta 0. |
| Quadrature.TableAntisymmetric | src/encoder.cpp:11 | `tbl[4 * p + c] == -tbl[4 * c + p]` for all phases p and c. |
| Quadrature.Decode | src/encoder.cpp:6-19 | After a decode step `last_state` is the sampled phase, whatever the delta was. The delta is -1, 0 or +1, and the position moves by exactly the delta, in `int32_t` arithmetic. |
| Quadrature.DecodeFollowsTable | src/encoder.cpp:10-14 | The delta of a decode step is `tbl[4 * last_state + curr]`, and a zero entry leaves the position unchanged. |
| Quadrature.RunPosition | src/encoder.cpp:11-14 | Over any sequence of handler calls, the position is the initial position plus the sum of the table lookups, in `int32_t` arithmetic. |
| Quadrature.RunReports | src/encoder.cpp:13-16 | The deltas passed to the spin callback are each +1 or -1, and they add up to the sum of the table lookups. |
| Quadrature.RunResynchronises | src/encoder.cpp:15-18 | After any nonempty sequence of handler calls, `last_state` is the phase of the last sample. |
| Quadrature.RotationTableSum | src/encoder.cpp:11 | The table lookups along n clean steps in one direction add up to +n forward or -n backward. |
| Quadrature.RotationCounts | src/encoder.cpp:11-18 | n clean steps move the position by exactly +n forward or -n backward, and end on the phase n steps along. |
| Quadrature.RotationReports | src/encoder.cpp:13-16 | Each of n clean steps passes +1 forward, or -1 backward, to the spin callback. |
| Quadrature.FullCycle | src/encoder.cpp:11-14 | Four clean steps in one direction, from any phase, return to that phase and add exactly +4 forward or -4 backward. |
| Quadrature.CycleSamplesFromZero | src/encoder.cpp:11 | Starting at 00, the forward cycle samples 10, 11, 01, 00 and the backward cycle samples 01, 11, 10, 00. |
| Quadrature.SpinLog | src/encoder.cpp:16 | The spin callback is called at most once. It is called exactly when the delta is nonzero and a callback is bound, and it receives that delta. |
| Quadrature.Encoder.Init | src/encoder.cpp:47-63 | `encoder_init` stores the pins, zeroes the position, clears both callbacks, and seeds `last_state` with `2 * a + b` from the initial read. |
| Quadrature.Encoder.IsrA | src/encoder.cpp:3-20 | The channel-A handler's new position and `last_state` are those of `Decode`. The spin-callback log grows by exactly `SpinLog`. |
| Quadrature.Encoder.IsrB | src/encoder.cpp:22-39 | The channel-B handler has the same contract as the channel-A handler, so both compute identical results from the same state and sample. |
| Quadrature.Encoder.IsrButton | src/encoder.cpp:41-45 | The button handler calls the bound callback, if any, and changes no field. |
| Quadrature.Encoder.SetSpinCallback | src/encoder.cpp:68-70 | Replaces the spin callback only. |
| Quadrature.Encoder.SetButtonCallback | src/encoder.cpp:72-74 | Replaces the button callback only. |
| Quadrature.Encoder.GetPosition | src/encoder.cpp:76-78 | Returns the position and changes nothing. |
| Quadrature.Encoder.SetPosition | src/encoder.cpp:80-82 | Stores the position and leaves `last_state` and everything else unchanged. |
| Debounce.Initial | src/button.cpp:7-11 | After `button_init` no event is pending, the window is unopened, the interval is 20 ms, and the stable state is true exactly when the initial level is HIGH. |
| Debounce.RecordEdge | src/button.cpp:27-33 | The edge interrupt sets `last_raw` to the sample and sets the pending flag. It leaves the window, the interval and the stable state alone, and it keeps the window sentinel consistent. |
| Debounce.Step | src/button.cpp:39-66 | With no event pending, process changes nothing. With the window unopened, it sets the window start to `now` and changes nothing else. While `(now - last_debounce_ms) mod 2^32 < debounce_ms` it changes nothing. On commit it resets the window and the pending flag and sets `stable_state := (last_raw == HIGH)`. The callback fires at most once per call, and fires exactly when the commit is a change to pressed and a callback is bound. Every phase keeps the window sentinel consistent. |
| Debounce.OpenAtZeroRetries | src/button.cpp:47-50 | Opening the window when `millis()` reads 0 leaves the window unopened, so the next call tries to open it again. |
| Debounce.RunAppend | src/button.cpp:27-66 | Running two event sequences one after the other equals running their concatenation: the states chain and the callback counts add. |
| Debounce.RunConsistent | src/button.cpp:27-57 | Over any sequence of interrupts and process calls, a state with no pending event keeps the window unopened. |
| Debounce.EdgesOnlyRecord | src/button.cpp:27-33 | Interrupts alone never change the stable state or the window, and never call the callback. |
| Debounce.NoCommitInOneTick | src/button.cpp:43-65 | While the window is unopened, any sequence of events with at most one process call leaves the stable state unchanged and calls no callback. A commit needs at least two process calls after an edge. |
| Debounce.Edges | src/button.cpp:27-33 | A burst of edges contains no process call. |
| Debounce.BurstKeepsLast | src/button.cpp:31-32 | A burst of bouncing edges leaves only the last sampled level, with an event pending, and calls nothing. |
| Debounce.Settles | src/button.cpp:46-65 | After a burst of edges, one process call at a nonzero time opens the window. A second call at least `debounce_ms` later commits the last sampled level. The callback runs exactly once when that level is a change to pressed and a callback is bound, and not at all otherwise. |
| Debounce.LastSample | src/button.cpp:31 | The level an event sequence leaves in `last_raw`: the level of its last edge, or the old level when it holds no edge. |
| Debounce.WindowHolds | src/button.cpp:53 | Once the window is open, any interleaving of edges and process calls that all fall inside the window leaves the state unchanged apart from the newest sample in `last_raw`, and calls no callback. |
| Debounce.SettlesWhilePolled | src/button.cpp:39-65 | Under periodic polling with bounces interleaved: with an edge pending and the window unopened, a process call at a nonzero time opens the window, and the edges and calls inside it commit nothing. The first call after the interval commits the newest sample, and the callback runs exactly once when that sample is a change to pressed and a callback is bound. |
| Debounce.Button.Init | src/button.cpp:3-11 | `button_init` stores the pin, clears the callback and its context, and sets the debounce fields to `Initial`. |
| Debounce.Button.SetCallback | src/button.cpp:18-21 | Replaces the callback and its context only. |
| Debounce.Button.Read | src/button.cpp:23-25 | Returns `stable_state` and changes nothing. |
| Debounce.Button.Isr | src/button.cpp:27-33 | Ignores a NULL instance. Otherwise the new debounce fields are `RecordEdge` of the old ones, and pin, callback and context are unchanged. |
| Debounce.Button.Process | src/button.cpp:39-66 | Ignores a NULL instance. Otherwise the new debounce fields are those of `Step`, and the press log grows by one `(callback, ctx)` call exactly when `Step` fires. |
| Animator.LitAt | src/neopixel.cpp:67-69 | A tick lights the active pixel. |
| Animator.Advance | src/neopixel.cpp:72-75 | The cursor step keeps `active_pixel < count` and `color_index < 3`. |
| Animator.ModNext | src/neopixel.cpp:72 | For `p < count`, `(p + 1) % count` is `p + 1`, or 0 when `p + 1 == count`. |
| Animator.AdvanceStep | src/neopixel.cpp:72-75 | A tick moves to the next pixel and keeps the colour, or moves from the last pixel to pixel 0 and advances the colour modulo 3. |
| Animator.AdvanceNAdd | src/neopixel.cpp:72-75 | m ticks followed by n ticks are m + n ticks. |
| Animator.RowPrefix | src/neopixel.cpp:72-75 | From pixel 0, p ticks reach pixel p (with p < count) in the same colour. |
| Animator.RowSuffix | src/neopixel.cpp:72-75 | From pixel p, `count - p` ticks reach pixel 0 in the next colour. |
| Animator.FullRow | src/neopixel.cpp:72-75 | After `count` ticks `active_pixel` is back to its value, and `color_index` has advanced by 1 modulo 3. |
| Animator.FullPeriod | src/neopixel.cpp:72-75 | After `3 * count` ticks both `active_pixel` and `color_index` are back to their starting values. |
| Animator.Step | src/neopixel.cpp:56-76 | With no strip, or while `(now - last_update_ms) mod 2^32 < interval_ms`, process changes nothing and shows nothing. Otherwise it stores `last_update_ms := now`, shows the pre-advance pixel in colour `kRgbSequence[color_index]`, and advances the cursor. Validity is preserved. |
| Animator.ClampInterval | src/neopixel.cpp:50-53 | An interval of 0 becomes 1 and any other value is kept, so the stored interval is at least 1. |
| Animator.OncePerMillisecond | src/neopixel.cpp:62-65 | With an interval of at least 1, a second process call at the same `millis()` reading never ticks again. |
| Animator.Run | src/neopixel.cpp:56-76 | Any sequence of process calls keeps the state able to tick. |
| Animator.PacedRun | src/neopixel.cpp:62-75 | When every call comes at least one interval after the previous tick, each call ticks: the cursor advances once per call, and call i shows the cursor after i ticks. |
| Animator.PacedPeriod | src/neopixel.cpp:62-75 | `3 * count` paced process calls bring the animation back to its starting pixel and colour. |
| Animator.NeoPixel.constructor | include/neopixel.h:11-19 | A zero-initialised `neopixel_t` has no strip and all fields 0. |
| Animator.NeoPixel.Shutdown | src/neopixel.cpp:78-88 | Ignores a NULL instance. Otherwise a present strip is cleared (one blank frame) and released, the strip becomes absent, and no other field changes. |
| Animator.NeoPixel.Init | src/neopixel.cpp:20-44 | Refuses a NULL instance or `count == 0`, returning false and changing nothing. Otherwise it shuts the old strip down and resets every field: interval 200, last update 0, pixel 0, colour 0. It returns true exactly when the allocation succeeds, and then shows a cleared strip. |
| Animator.NeoPixel.SetInterval | src/neopixel.cpp:46-54 | Ignores a NULL instance. Otherwise it stores `ClampInterval(ms)` and changes nothing else. |
| Animator.NeoPixel.Process | src/neopixel.cpp:56-76 | Ignores a NULL instance. Otherwise the new fields are those of `Step`, and the frame log grows by the frame `Step` shows. |
| Animator.NeoPixel.GetState | src/neopixel.cpp:90-111 | `initialized` is true exactly when the instance and its strip are both present. For a non-NULL instance it copies `active_pixel`, `color_index` and `interval_ms`, and for a NULL instance it writes nothing else. |

## Left out

- `src/imu.cpp`, `src/main.cpp` and the IMU header: I2C transport, delays,
  serial output and floating-point conversions are not part of this model.
- Pin configuration and interrupt registration (`pinMode`,
  `attachInterruptArg`, `attach_button_interrupt`,
  `attach_encoder_interrupts`, `digitalPinToInterrupt`): these are
  platform calls with no state the model tracks. Sampled levels and
  `millis()` readings are parameters instead.
- The `Adafruit_NeoPixel` calls (`begin`, `clear`, `setPixelColor`, `show`,
  `new (std::nothrow)`, `delete`): the strip is a present/absent flag with a
  ghost log of the frames shown. Whether the allocation succeeds is the
  parameter `allocOk`. The pin cast to `int16_t` is not modelled.
- Concurrency between the interrupts and the main loop, and `volatile`
  semantics: every interrupt and every process call is one atomic step.
- The order of `digitalRead` before `pinMode` in `button_init`: this is a
  hardware-timing matter, and the initial level is a parameter.
- What the callbacks do: each call is recorded, but a callback's side
  effects on the instance (the C callbacks receive a pointer to it) are not
  modelled.
- `neopixel_get_state` out-pointers that are NULL: the model returns every
  value. `None` stands only for a value left unwritten because the instance
  is NULL.
- Animator.NeoPixel.Process: requires a colour index below 3, and a nonzero
  `count` when a strip is present. The C code indexes `kRgbSequence` and
  divides by `count` without a check. Every instance built by `Init` meets
  both conditions.
- Quadrature.Encoder.IsrA: `position += delta` is modelled as an `int32_t`
  wrap-around. The C standard leaves signed overflow undefined.
- The encoder header, which holds the `encoder_t` declaration, is not part
  of this model. The field types follow their use in `src/encoder.cpp`.
