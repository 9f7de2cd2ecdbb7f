/** The NeoPixel round-robin animator: at most once per interval it lights one
    pixel of the strip in the current colour, then moves to the next pixel,
    and moves to the next colour of red, green, blue each time the pixel
    wraps around. The strip itself is a foreign library and appears here only
    as present or absent, together with the frames shown on it. */
module Animator {
  import opened Hw

  /** The interval installed by `neopixel_init`, in milliseconds. */
  const DEFAULT_INTERVAL_MS: u32 := 200

  datatype Rgb = Rgb(r: u8, g: u8, b: u8)

  /** Red, green, blue: the colours a full pass of the strip cycles through. */
  const RgbSequence: seq<Rgb> := [Rgb(255, 0, 0), Rgb(0, 255, 0), Rgb(0, 0, 255)]

  const COLOR_COUNT: nat := |RgbSequence|

  /** What a `show()` puts on the strip: all pixels off, or one pixel lit. */
  datatype Frame = Blank | Lit(pixel: u16, color: Rgb)

  /** Which pixel is lit next, and in which colour. */
  datatype Cursor = Cursor(activePixel: u16, colorIndex: u8)

  predicate CursorOk(count: u16, c: Cursor)
  {
    c.activePixel < count && c.colorIndex < COLOR_COUNT
  }

  /** The frame a tick shows for a cursor: its pixel in its colour. */
  function LitAt(c: Cursor): (f: Frame)
    requires c.colorIndex < COLOR_COUNT
    ensures f.Lit? && f.pixel == c.activePixel
  {
    Lit(c.activePixel, RgbSequence[c.colorIndex])
  }

  /** The cursor step of a tick: the next pixel modulo `count`, and the next
      colour modulo 3 exactly when the pixel wrapped to 0. */
  function Advance(count: u16, c: Cursor): (r: Cursor)
    requires count > 0 && c.colorIndex < COLOR_COUNT
    ensures r.colorIndex < COLOR_COUNT && r.activePixel < count
  {
    var pixel := (c.activePixel + 1) % count;
    if pixel == 0 then Cursor(pixel, (c.colorIndex + 1) % COLOR_COUNT) else Cursor(pixel, c.colorIndex)
  }

  /** On a valid cursor the modulo is a plain increment with one wrap. */
  lemma ModNext(p: int, m: int)
    requires 0 <= p < m
    ensures (p + 1) % m == if p + 1 == m then 0 else p + 1
  {
    if p + 1 < m {
      assert (p + 1) / m == 0;
    } else {
      assert (p + 1) / m == 1;
    }
  }

  /** A tick moves to the next pixel of the row, or from the last pixel to
      pixel 0 in the next colour. */
  lemma AdvanceStep(count: u16, c: Cursor)
    requires CursorOk(count, c)
    ensures c.activePixel + 1 < count ==> Advance(count, c) == Cursor(c.activePixel + 1, c.colorIndex)
    ensures c.activePixel + 1 == count ==> Advance(count, c) == Cursor(0, (c.colorIndex + 1) % COLOR_COUNT)
  {
    ModNext(c.activePixel, count);
  }

  /** The cursor after `n` ticks. */
  function AdvanceN(count: u16, c: Cursor, n: nat): (r: Cursor)
    requires count > 0 && c.colorIndex < COLOR_COUNT
    ensures r.colorIndex < COLOR_COUNT
    decreases n
  {
    if n == 0 then c else AdvanceN(count, Advance(count, c), n - 1)
  }

  /** `m` ticks followed by `n` ticks are `m + n` ticks. */
  lemma {:induction false} AdvanceNAdd(count: u16, c: Cursor, m: nat, n: nat)
    requires count > 0 && c.colorIndex < COLOR_COUNT
    ensures AdvanceN(count, c, m + n) == AdvanceN(count, AdvanceN(count, c, m), n)
    decreases m
  {
    if m > 0 {
      AdvanceNAdd(count, Advance(count, c), m - 1, n);
    }
  }

  /** Moving from pixel 0 to pixel `p` of the same row keeps the colour. */
  lemma {:induction false} RowPrefix(count: u16, k: u8, p: nat)
    requires k < COLOR_COUNT && p < count
    ensures AdvanceN(count, Cursor(0, k), p) == Cursor(p, k)
    decreases p
  {
    if p > 0 {
      RowPrefix(count, k, p - 1);
      AdvanceNAdd(count, Cursor(0, k), p - 1, 1);
      AdvanceStep(count, Cursor(p - 1, k));
    }
  }

  /** From pixel `p`, the remaining `count - p` ticks finish the row and wrap
      to pixel 0 in the next colour. */
  lemma {:induction false} RowSuffix(count: u16, c: Cursor)
    requires CursorOk(count, c)
    ensures AdvanceN(count, c, count - c.activePixel) == Cursor(0, (c.colorIndex + 1) % COLOR_COUNT)
    decreases count - c.activePixel
  {
    AdvanceStep(count, c);
    if c.activePixel + 1 < count {
      RowSuffix(count, Advance(count, c));
    }
  }

  /** After `count` ticks the pixel is back where it was and the colour has
      moved on by one, modulo 3. */
  lemma FullRow(count: u16, c: Cursor)
    requires CursorOk(count, c)
    ensures AdvanceN(count, c, count) == Cursor(c.activePixel, (c.colorIndex + 1) % COLOR_COUNT)
  {
    var rest := count - c.activePixel;
    AdvanceNAdd(count, c, rest, c.activePixel);
    RowSuffix(count, c);
    RowPrefix(count, (c.colorIndex + 1) % COLOR_COUNT, c.activePixel);
  }

  /** After `3 * count` ticks both the pixel and the colour are back. */
  lemma FullPeriod(count: u16, c: Cursor)
    requires CursorOk(count, c)
    ensures AdvanceN(count, c, COLOR_COUNT * count) == c
  {
    var c1 := Cursor(c.activePixel, (c.colorIndex + 1) % COLOR_COUNT);
    var c2 := Cursor(c.activePixel, (c1.colorIndex + 1) % COLOR_COUNT);
    FullRow(count, c);
    FullRow(count, c1);
    FullRow(count, c2);
    AdvanceNAdd(count, c, count, count);
    AdvanceNAdd(count, c, 2 * count, count);
    assert COLOR_COUNT * count == 2 * count + count;
  }

  /** The animator state of a `neopixel_t`, without its pin. `ready` says
      whether a strip is allocated. */
  datatype Animation = Animation(
    ready: bool,
    count: u16,
    intervalMs: u32,
    lastUpdateMs: u32,
    cursor: Cursor)

  /** What a tick needs: the colour index selects a colour, and a strip is
      only ever allocated for at least one pixel. */
  predicate CanTick(s: Animation)
  {
    s.cursor.colorIndex < COLOR_COUNT && (s.ready ==> s.count > 0)
  }

  /** `CanTick`, and the active pixel lies on the strip. */
  predicate Valid(s: Animation)
  {
    CanTick(s) && (s.ready ==> s.cursor.activePixel < s.count)
  }

  /** Whether a call at `now` ticks: a strip is present and at least one
      interval has passed since the last tick, in wrapping `uint32_t` time. */
  predicate Due(s: Animation, now: u32)
  {
    s.ready && Elapsed(now, s.lastUpdateMs) >= s.intervalMs
  }

  datatype StepOut = StepOut(next: Animation, shown: Option<Frame>)

  /** `neopixel_process` at the `millis()` reading `now`: when due, it shows
      the current pixel in the current colour, then advances the cursor. */
  function Step(s: Animation, now: u32): (r: StepOut)
    requires CanTick(s)
    ensures CanTick(r.next) && (Valid(s) ==> Valid(r.next))
    ensures !Due(s, now) ==> r == StepOut(s, None)
    ensures Due(s, now) ==>
              && r.next == s.(lastUpdateMs := now, cursor := Advance(s.count, s.cursor))
              && r.shown == Some(LitAt(s.cursor))
  {
    if !s.ready then StepOut(s, None)
    else if Elapsed(now, s.lastUpdateMs) < s.intervalMs then StepOut(s, None)
    else
      var color := RgbSequence[s.cursor.colorIndex];
      StepOut(s.(lastUpdateMs := now, cursor := Advance(s.count, s.cursor)), Some(Lit(s.cursor.activePixel, color)))
  }

  /** `neopixel_set_interval`'s clamp: with an interval of 0 every call on a
      strip would be due, since a wrapped difference is never negative, so 0
      becomes 1; any other interval is kept. */
  function ClampInterval(ms: u32): (r: u32)
    ensures r >= 1
    ensures ms != 0 ==> r == ms
  {
    if ms == 0 then 1 else ms
  }

  /** With an interval of at least 1, a second call in the same millisecond
      never ticks again. */
  lemma OncePerMillisecond(s: Animation, now: u32)
    requires CanTick(s) && s.intervalMs >= 1
    ensures Step(Step(s, now).next, now).shown == None
  {
    if Due(s, now) {
      assert Step(s, now).next.lastUpdateMs == now;
      assert Elapsed(now, now) == 0;
    }
  }

  /** A sequence of calls at the given `millis()` readings: the final state
      and the frames shown, in order. */
  function Run(s: Animation, times: seq<u32>): (r: (Animation, seq<Frame>))
    requires CanTick(s)
    ensures CanTick(r.0)
    decreases |times|
  {
    if times == [] then (s, [])
    else
      var o := Step(s, times[0]);
      var rest := Run(o.next, times[1..]);
      (rest.0, (if o.shown.Some? then [o.shown.value] else []) + rest.1)
  }

  /** Every call in `times` comes at least `interval` after the previous
      tick, the first one after `last`. */
  predicate Paced(last: u32, interval: u32, times: seq<u32>)
    decreases |times|
  {
    times == [] || (Elapsed(times[0], last) >= interval && Paced(times[0], interval, times[1..]))
  }

  /** When every call is due, each one ticks: the cursor advances once per
      call and call `i` shows the cursor after `i` ticks. */
  lemma {:induction false} PacedRun(s: Animation, times: seq<u32>)
    requires CanTick(s) && s.ready && Paced(s.lastUpdateMs, s.intervalMs, times)
    ensures Run(s, times).0.cursor == AdvanceN(s.count, s.cursor, |times|)
    ensures |Run(s, times).1| == |times|
    ensures forall i :: 0 <= i < |times| ==> Run(s, times).1[i] == LitAt(AdvanceN(s.count, s.cursor, i))
    decreases |times|
  {
    if times != [] {
      var next := Step(s, times[0]).next;
      assert next == s.(lastUpdateMs := times[0], cursor := Advance(s.count, s.cursor));
      PacedRun(next, times[1..]);
      var frames := Run(s, times).1;
      var rest := Run(next, times[1..]).1;
      assert frames == [LitAt(s.cursor)] + rest;
      forall i | 0 <= i < |times|
        ensures frames[i] == LitAt(AdvanceN(s.count, s.cursor, i))
      {
        if i > 0 {
          assert frames[i] == rest[i - 1];
        }
      }
    }
  }

  /** Paced for a full period of `3 * count` calls, the animation returns to
      its starting pixel and colour. */
  lemma PacedPeriod(s: Animation, times: seq<u32>)
    requires Valid(s) && s.ready && Paced(s.lastUpdateMs, s.intervalMs, times)
    requires |times| == COLOR_COUNT * s.count
    ensures Run(s, times).0.cursor == s.cursor
  {
    PacedRun(s, times);
    FullPeriod(s.count, s.cursor);
  }

  /** What `neopixel_get_state` writes through its out-pointers; the fields
      other than `initialized` are left unwritten (None) for a null instance. */
  datatype PixelState = PixelState(
    initialized: bool,
    activePixel: Option<u16>,
    colorIndex: Option<u8>,
    intervalMs: Option<u32>)

  /** A `neopixel_t`. */
  class NeoPixel {
    /** Whether `strip` points to an allocated strip. */
    var strip: bool
    var pin: nat
    var count: u16
    var intervalMs: u32
    var lastUpdateMs: u32
    var activePixel: u16
    var colorIndex: u8
    /** The frames shown on the strip, oldest first. */
    ghost var shown: seq<Frame>

    ghost function State(): Animation
      reads this
    {
      Animation(strip, count, intervalMs, lastUpdateMs, Cursor(activePixel, colorIndex))
    }

    /** A zero-initialised `neopixel_t`, as a static instance starts. */
    constructor ()
      ensures !strip && pin == 0 && count == 0 && intervalMs == 0 && lastUpdateMs == 0
      ensures activePixel == 0 && colorIndex == 0 && shown == []
      ensures Valid(State())
    {
      strip := false;
      pin := 0;
      count := 0;
      intervalMs := 0;
      lastUpdateMs := 0;
      activePixel := 0;
      colorIndex := 0;
      shown := [];
    }

    /** `neopixel_shutdown`: a present strip is cleared and released. */
    static method Shutdown(neo: NeoPixel?)
      modifies neo
      ensures neo != null ==> !neo.strip
      ensures neo != null ==> neo.State() == old(neo.State()).(ready := false) && neo.pin == old(neo.pin)
      ensures neo != null ==> neo.shown == old(neo.shown) + (if old(neo.strip) then [Blank] else [])
    {
      if neo == null {
        return;
      }
      if neo.strip {
        neo.shown := neo.shown + [Blank];
        neo.strip := false;
      }
    }

    /** `neopixel_init`; `allocOk` says whether allocating the strip succeeds.
        A null instance or an empty strip is refused before anything changes;
        otherwise any previous strip is shut down and every field is reset. */
    static method Init(neo: NeoPixel?, pin: nat, count: u16, allocOk: bool) returns (ok: bool)
      modifies neo
      ensures ok <==> neo != null && count > 0 && allocOk
      ensures neo != null && count == 0 ==>
                neo.State() == old(neo.State()) && neo.pin == old(neo.pin) && neo.shown == old(neo.shown)
      ensures neo != null && count > 0 ==>
                && neo.State() == Animation(allocOk, count, DEFAULT_INTERVAL_MS, 0, Cursor(0, 0))
                && neo.pin == pin
                && neo.shown == old(neo.shown) + (if old(neo.strip) then [Blank] else []) + (if allocOk then [Blank] else [])
    {
      if neo == null || count == 0 {
        return false;
      }
      Shutdown(neo);
      neo.pin := pin;
      neo.count := count;
      neo.intervalMs := DEFAULT_INTERVAL_MS;
      neo.lastUpdateMs := 0;
      neo.activePixel := 0;
      neo.colorIndex := 0;
      neo.strip := allocOk;
      if !neo.strip {
        return false;
      }
      neo.shown := neo.shown + [Blank];
      return true;
    }

    /** `neopixel_set_interval`; a null instance is ignored. */
    static method SetInterval(neo: NeoPixel?, ms: u32)
      modifies neo
      ensures neo != null ==> neo.State() == old(neo.State()).(intervalMs := ClampInterval(ms))
      ensures neo != null ==> neo.pin == old(neo.pin) && neo.shown == old(neo.shown)
    {
      if neo == null {
        return;
      }
      var interval := ms;
      if interval == 0 {
        interval := 1;
      }
      neo.intervalMs := interval;
    }

    /** `neopixel_process` at the `millis()` reading `now`; a null instance or
        an absent strip is ignored. */
    static method Process(neo: NeoPixel?, now: u32)
      requires neo != null ==> CanTick(neo.State())
      modifies neo
      ensures neo != null ==> neo.State() == Step(old(neo.State()), now).next && neo.pin == old(neo.pin)
      ensures neo != null ==>
                neo.shown == old(neo.shown) +
                  (if Step(old(neo.State()), now).shown.Some? then [Step(old(neo.State()), now).shown.value] else [])
    {
      if neo == null || !neo.strip {
        return;
      }
      if Elapsed(now, neo.lastUpdateMs) < neo.intervalMs {
        return;
      }
      neo.lastUpdateMs := now;
      var color := RgbSequence[neo.colorIndex];
      neo.shown := neo.shown + [Lit(neo.activePixel, color)];
      neo.activePixel := (neo.activePixel + 1) % neo.count;
      if neo.activePixel == 0 {
        neo.colorIndex := (neo.colorIndex + 1) % COLOR_COUNT;
      }
    }

    /** `neopixel_get_state`: ready when the instance and its strip exist. */
    static method GetState(neo: NeoPixel?) returns (st: PixelState)
      ensures st.initialized <==> neo != null && neo.strip
      ensures neo == null ==> st == PixelState(false, None, None, None)
      ensures neo != null ==>
                st == PixelState(neo.strip, Some(neo.activePixel), Some(neo.colorIndex), Some(neo.intervalMs))
    {
      var ready := neo != null && neo.strip;
      if neo == null {
        return PixelState(ready, None, None, None);
      }
      st := PixelState(ready, Some(neo.activePixel), Some(neo.colorIndex), Some(neo.intervalMs));
    }
  }
}
