/** The debounced push button: an edge interrupt that records the latest raw
    level and raises a pending flag, and a polling step that opens a debounce
    window on the first call after an edge and commits the sampled level once
    the window has elapsed, calling the bound callback on a committed press. */
module Debounce {
  import opened Hw

  /** The debounce interval installed by `button_init`, in milliseconds. */
  const DEFAULT_DEBOUNCE_MS: u32 := 20

  /** The debounce state of a `button_t`, without its pin and callback. */
  datatype Debouncer = Debouncer(
    eventPending: bool,
    lastRaw: Level,
    lastDebounceMs: u32,
    debounceMs: u32,
    stableState: bool)

  /** A window start of 0 is the "not yet opened" sentinel, so a state with no
      pending event never holds an open window. */
  predicate Consistent(d: Debouncer)
  {
    !d.eventPending ==> d.lastDebounceMs == 0
  }

  /** The debounce state right after `button_init`, given the level read from
      the pin: the stable state is true exactly when that level is HIGH. */
  function Initial(level: Level): (d: Debouncer)
    ensures Consistent(d) && !d.eventPending
    ensures d.debounceMs == DEFAULT_DEBOUNCE_MS
    ensures d.stableState <==> level == HIGH
  {
    Debouncer(false, level, 0, DEFAULT_DEBOUNCE_MS, level == HIGH)
  }

  /** The edge interrupt: it keeps only the newest sampled level and marks an
      event pending; the window, the interval and the stable state stay. */
  function RecordEdge(d: Debouncer, level: Level): (r: Debouncer)
    ensures r.eventPending && r.lastRaw == level
    ensures Consistent(d) ==> Consistent(r)
    ensures r.lastDebounceMs == d.lastDebounceMs && r.debounceMs == d.debounceMs
    ensures r.stableState == d.stableState
  {
    d.(lastRaw := level, eventPending := true)
  }

  /** What one polling step does, by the state it finds. */
  datatype Phase = Idle | Opening | Waiting | Committing

  function PhaseOf(d: Debouncer, now: u32): (p: Phase)
  {
    if !d.eventPending then Idle
    else if d.lastDebounceMs == 0 then Opening
    else if Elapsed(now, d.lastDebounceMs) < d.debounceMs then Waiting
    else Committing
  }

  datatype StepOut = StepOut(next: Debouncer, fired: bool)

  /** `button_process` at time `now`; `bound` says whether a callback is set.
      `fired` says whether the callback is called. */
  function Step(d: Debouncer, now: u32, bound: bool): (r: StepOut)
    ensures PhaseOf(d, now) != Committing ==> !r.fired && r.next.stableState == d.stableState
    ensures PhaseOf(d, now) == Idle || PhaseOf(d, now) == Waiting ==> r.next == d
    ensures PhaseOf(d, now) == Opening ==> r.next == d.(lastDebounceMs := now)
    ensures PhaseOf(d, now) == Committing ==>
              && r.next == d.(lastDebounceMs := 0, eventPending := false, stableState := d.lastRaw == HIGH)
              && (r.fired <==> bound && !d.stableState && d.lastRaw == HIGH)
    ensures r.fired ==> bound && !d.stableState && r.next.stableState
    ensures Consistent(d) ==> Consistent(r.next)
  {
    if !d.eventPending then StepOut(d, false)
    else if d.lastDebounceMs == 0 then StepOut(d.(lastDebounceMs := now), false)
    else if Elapsed(now, d.lastDebounceMs) < d.debounceMs then StepOut(d, false)
    else
      var pressed := d.lastRaw == HIGH;
      var next := d.(lastDebounceMs := 0, eventPending := false);
      if pressed != d.stableState then StepOut(next.(stableState := pressed), pressed && bound)
      else StepOut(next, false)
  }

  /** Opening the window at a timestamp of 0 leaves it unopened: the sentinel
      and the timestamp coincide, so the next step tries to open it again. */
  lemma OpenAtZeroRetries(d: Debouncer, bound: bool)
    requires d.eventPending && d.lastDebounceMs == 0
    ensures Step(d, 0, bound).next == d
    ensures PhaseOf(Step(d, 0, bound).next, 0) == Opening
  {
  }

  /** Something that happens to the button: an edge interrupt with the level
      it samples, or a polling step at a `millis()` reading. */
  datatype Event = Edge(level: Level) | Tick(now: u32)

  /** A sequence of events: the final state and the number of callback calls. */
  function Run(d: Debouncer, events: seq<Event>, bound: bool): (r: (Debouncer, nat))
    decreases |events|
  {
    if events == [] then (d, 0)
    else
      match events[0]
      case Edge(level) => Run(RecordEdge(d, level), events[1..], bound)
      case Tick(now) =>
        var o := Step(d, now, bound);
        var rest := Run(o.next, events[1..], bound);
        (rest.0, rest.1 + (if o.fired then 1 else 0))
  }

  /** The number of polling steps in a sequence of events. */
  function Ticks(events: seq<Event>): (n: nat)
  {
    if events == [] then 0 else (if events[0].Tick? then 1 else 0) + Ticks(events[1..])
  }

  /** Running two sequences one after the other is running their concatenation. */
  lemma {:induction false} RunAppend(d: Debouncer, xs: seq<Event>, ys: seq<Event>, bound: bool)
    ensures Run(d, xs + ys, bound) ==
            (Run(Run(d, xs, bound).0, ys, bound).0, Run(d, xs, bound).1 + Run(Run(d, xs, bound).0, ys, bound).1)
    decreases |xs|
  {
    if xs == [] {
      assert xs + ys == ys;
    } else {
      assert (xs + ys)[0] == xs[0];
      assert (xs + ys)[1..] == xs[1..] + ys;
      match xs[0]
      case Edge(level) =>
        RunAppend(RecordEdge(d, level), xs[1..], ys, bound);
      case Tick(now) =>
        RunAppend(Step(d, now, bound).next, xs[1..], ys, bound);
    }
  }

  /** Every event keeps the window sentinel consistent with the pending flag. */
  lemma {:induction false} RunConsistent(d: Debouncer, events: seq<Event>, bound: bool)
    requires Consistent(d)
    ensures Consistent(Run(d, events, bound).0)
    decreases |events|
  {
    if events != [] {
      match events[0]
      case Edge(level) =>
        RunConsistent(RecordEdge(d, level), events[1..], bound);
      case Tick(now) =>
        RunConsistent(Step(d, now, bound).next, events[1..], bound);
    }
  }

  /** Without a polling step nothing is committed and no callback runs. */
  lemma {:induction false} EdgesOnlyRecord(d: Debouncer, events: seq<Event>, bound: bool)
    requires Ticks(events) == 0
    ensures Run(d, events, bound).0.stableState == d.stableState
    ensures Run(d, events, bound).0.lastDebounceMs == d.lastDebounceMs
    ensures Run(d, events, bound).1 == 0
    decreases |events|
  {
    if events != [] {
      EdgesOnlyRecord(RecordEdge(d, events[0].level), events[1..], bound);
    }
  }

  /** While the window is not open, one polling step cannot commit: at least
      two steps are needed, the first of which only opens the window. */
  lemma {:induction false} NoCommitInOneTick(d: Debouncer, events: seq<Event>, bound: bool)
    requires d.lastDebounceMs == 0
    requires Ticks(events) <= 1
    ensures Run(d, events, bound).0.stableState == d.stableState
    ensures Run(d, events, bound).1 == 0
    decreases |events|
  {
    if events != [] {
      match events[0]
      case Edge(level) =>
        NoCommitInOneTick(RecordEdge(d, level), events[1..], bound);
      case Tick(now) =>
        EdgesOnlyRecord(Step(d, now, bound).next, events[1..], bound);
    }
  }

  /** A burst of edge interrupts sampling `levels`, in order. */
  function Edges(levels: seq<Level>): (r: seq<Event>)
    ensures |r| == |levels| && Ticks(r) == 0
  {
    if levels == [] then [] else [Edge(levels[0])] + Edges(levels[1..])
  }

  /** A burst of edges overwrites the sample, so only the last level counts. */
  lemma {:induction false} BurstKeepsLast(d: Debouncer, levels: seq<Level>, bound: bool)
    requires levels != []
    ensures Run(d, Edges(levels), bound) == (d.(lastRaw := levels[|levels| - 1], eventPending := true), 0)
    decreases |levels|
  {
    var es := Edges(levels);
    assert es[0] == Edge(levels[0]);
    assert es[1..] == Edges(levels[1..]);
    if |levels| > 1 {
      BurstKeepsLast(RecordEdge(d, levels[0]), levels[1..], bound);
      assert levels[1..][|levels| - 2] == levels[|levels| - 1];
    }
  }

  /** A bouncing press settles: after a burst of edges ending at `level`, a
      step at `start` (not the sentinel) opens the window, and a step at
      `now`, once the interval has elapsed, commits that last level; the
      callback runs exactly when it is a change to pressed and one is bound. */
  lemma Settles(d: Debouncer, levels: seq<Level>, start: u32, now: u32, bound: bool)
    requires d.lastDebounceMs == 0 && levels != []
    requires start != 0 && Elapsed(now, start) >= d.debounceMs
    ensures var level := levels[|levels| - 1];
            var r := Run(d, Edges(levels) + [Tick(start), Tick(now)], bound);
            && r.0 == d.(lastRaw := level, eventPending := false, stableState := level == HIGH)
            && r.1 == (if bound && !d.stableState && level == HIGH then 1 else 0)
  {
    var level := levels[|levels| - 1];
    var mid := d.(lastRaw := level, eventPending := true);
    BurstKeepsLast(d, levels, bound);
    RunAppend(d, Edges(levels), [Tick(start), Tick(now)], bound);
    var opening := mid.(lastDebounceMs := start);
    assert Step(mid, start, bound).next == opening;
    assert PhaseOf(opening, now) == Committing;
    var done := Step(opening, now, bound);
    assert Run(done.next, [], bound) == (done.next, 0);
    assert [Tick(start), Tick(now)][1..] == [Tick(now)];
    assert Run(opening, [Tick(now)], bound) == (done.next, if done.fired then 1 else 0);
    assert Run(mid, [Tick(start), Tick(now)], bound) == Run(opening, [Tick(now)], bound);
  }

  /** The level recorded by the last edge in `events`, or `raw` when there is
      none. */
  function LastSample(raw: Level, events: seq<Event>): (l: Level)
    ensures (forall i :: 0 <= i < |events| ==> events[i].Tick?) ==> l == raw
    decreases |events|
  {
    if events == [] then raw
    else LastSample(if events[0].Edge? then events[0].level else raw, events[1..])
  }

  /** Every polling step in `events` comes before the window opened at
      `start` has elapsed. */
  predicate InWindow(start: u32, interval: u32, events: seq<Event>)
  {
    forall i :: 0 <= i < |events| && events[i].Tick? ==> Elapsed(events[i].now, start) < interval
  }

  /** Once the window is open, any interleaving of edges and polling steps
      inside it commits nothing and calls nothing: only the newest sample
      changes. */
  lemma {:induction false} WindowHolds(d: Debouncer, events: seq<Event>, bound: bool)
    requires d.eventPending && d.lastDebounceMs != 0
    requires InWindow(d.lastDebounceMs, d.debounceMs, events)
    ensures Run(d, events, bound) == (d.(lastRaw := LastSample(d.lastRaw, events)), 0)
    decreases |events|
  {
    if events != [] {
      forall i | 0 <= i < |events| - 1 && events[1..][i].Tick?
        ensures Elapsed(events[1..][i].now, d.lastDebounceMs) < d.debounceMs
      {
        assert events[1..][i] == events[i + 1];
      }
      match events[0]
      case Edge(level) =>
        WindowHolds(RecordEdge(d, level), events[1..], bound);
      case Tick(now) =>
        assert PhaseOf(d, now) == Waiting;
        WindowHolds(d, events[1..], bound);
    }
  }

  /** A press settles under periodic polling: with an edge pending and the
      window not yet opened, a step at `start` (not the sentinel) opens it;
      any edges and steps `bounces` inside the window commit nothing; and the
      first step at `now` after the interval commits the newest sample. The
      callback runs exactly when that is a change to pressed and one is bound. */
  lemma SettlesWhilePolled(d: Debouncer, start: u32, bounces: seq<Event>, now: u32, bound: bool)
    requires d.eventPending && d.lastDebounceMs == 0 && start != 0
    requires InWindow(start, d.debounceMs, bounces)
    requires Elapsed(now, start) >= d.debounceMs
    ensures var level := LastSample(d.lastRaw, bounces);
            var r := Run(d, [Tick(start)] + bounces + [Tick(now)], bound);
            && r.0 == d.(lastRaw := level, eventPending := false, stableState := level == HIGH)
            && r.1 == (if bound && !d.stableState && level == HIGH then 1 else 0)
  {
    var level := LastSample(d.lastRaw, bounces);
    var opening := d.(lastDebounceMs := start);
    assert Step(d, start, bound) == StepOut(opening, false);
    RunAppend(d, [Tick(start)], bounces, bound);
    assert Run(d, [Tick(start)], bound) == (opening, 0);
    WindowHolds(opening, bounces, bound);
    var held := opening.(lastRaw := level);
    RunAppend(d, [Tick(start)] + bounces, [Tick(now)], bound);
    assert PhaseOf(held, now) == Committing;
    var done := Step(held, now, bound);
    assert Run(held, [Tick(now)], bound) == (done.next, if done.fired then 1 else 0);
  }

  /** One recorded call of the button callback. The C callback receives only
      the instance; `ctx` is the user context readable through it at the
      time of the call, not an argument of the call. */
  datatype Press = Press(callback: Handle, ctx: Option<Handle>)

  /** A `button_t`. */
  class Button {
    var pin: nat
    var callback: Option<Handle>
    var ctx: Option<Handle>
    var eventPending: bool
    var lastRaw: Level
    var lastDebounceMs: u32
    var debounceMs: u32
    var stableState: bool
    /** Calls of the callback, oldest first. */
    ghost var presses: seq<Press>

    ghost function State(): Debouncer
      reads this
    {
      Debouncer(eventPending, lastRaw, lastDebounceMs, debounceMs, stableState)
    }

    /** `button_init`, given the level read from the pin. */
    constructor Init(pin: nat, level: Level)
      ensures this.pin == pin && callback == None && ctx == None
      ensures State() == Initial(level)
      ensures presses == []
    {
      this.pin := pin;
      callback := None;
      ctx := None;
      eventPending := false;
      lastRaw := level;
      lastDebounceMs := 0;
      debounceMs := 20;
      stableState := level == HIGH;
      presses := [];
    }

    /** `button_set_callback`: replaces the callback and its context only. */
    method SetCallback(cb: Option<Handle>, ctx: Option<Handle>)
      modifies this`callback, this`ctx
      ensures callback == cb && this.ctx == ctx
    {
      callback := cb;
      this.ctx := ctx;
    }

    /** `button_read`: the debounced state, true when HIGH was committed. */
    method Read() returns (pressed: bool)
      ensures pressed == State().stableState
    {
      pressed := stableState;
    }

    /** The edge interrupt, given the level sampled from the pin; a null
        instance is ignored. */
    static method Isr(btn: Button?, level: Level)
      modifies btn
      ensures btn != null ==> btn.State() == RecordEdge(old(btn.State()), level)
      ensures btn != null ==> btn.pin == old(btn.pin) && btn.callback == old(btn.callback) && btn.ctx == old(btn.ctx)
      ensures btn != null ==> btn.presses == old(btn.presses)
    {
      if btn == null {
        return;
      }
      btn.lastRaw := level;
      btn.eventPending := true;
    }

    /** `button_process` at the `millis()` reading `now`; a null instance is
        ignored. */
    static method Process(btn: Button?, now: u32)
      modifies btn
      ensures btn != null ==> btn.pin == old(btn.pin) && btn.callback == old(btn.callback) && btn.ctx == old(btn.ctx)
      ensures btn != null ==> btn.State() == Step(old(btn.State()), now, btn.callback.Some?).next
      ensures btn != null ==>
                btn.presses == old(btn.presses) +
                  (if Step(old(btn.State()), now, btn.callback.Some?).fired
                   then [Press(btn.callback.value, btn.ctx)] else [])
    {
      if btn == null {
        return;
      }
      if !btn.eventPending {
        return;
      }
      if btn.lastDebounceMs == 0 {
        btn.lastDebounceMs := now;
        return;
      }
      if Elapsed(now, btn.lastDebounceMs) < btn.debounceMs {
        return;
      }
      btn.lastDebounceMs := 0;
      btn.eventPending := false;
      var pressed := btn.lastRaw == HIGH;
      if pressed != btn.stableState {
        btn.stableState := pressed;
        if pressed && btn.callback.Some? {
          btn.presses := btn.presses + [Press(btn.callback.value, btn.ctx)];
        }
      }
    }
  }
}
