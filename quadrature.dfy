/** The rotary encoder: a quadrature decoder driven by the interrupts of its
    two channels, plus the edge-triggered push button on the same device.
    Each pin sample taken by `digitalRead` inside an interrupt handler is a
    parameter of the handler; callbacks are recorded in ghost logs. */
module Quadrature {
  import opened Hw

  /** The two-channel state `(a << 1) | b`: channel A is the high bit. */
  type Phase = x: int | 0 <= x < 4

  function Channels(a: Level, b: Level): (p: Phase)
  {
    a * 2 + b
  }

  /** The channel levels that make up a phase (the inverse of `Channels`). */
  function LevelsOf(p: Phase): (s: Sample)
  {
    if p == 0 then Sample(0, 0)
    else if p == 1 then Sample(0, 1)
    else if p == 2 then Sample(1, 0)
    else Sample(1, 1)
  }

  lemma ChannelsInverse(a: Level, b: Level)
    ensures LevelsOf(Channels(a, b)) == Sample(a, b)
  {
  }

  lemma LevelsOfInverse(p: Phase)
    ensures Channels(LevelsOf(p).a, LevelsOf(p).b) == p
  {
  }

  /** Two phases that differ in exactly one channel. */
  predicate GrayNeighbours(p: Phase, q: Phase)
  {
    (LevelsOf(p).a == LevelsOf(q).a) != (LevelsOf(p).b == LevelsOf(q).b)
  }

  /** The decoder's signed transition table. */
  const Table: seq<int> := [0, -1, 1, 0, 1, 0, 0, -1, -1, 0, 0, 1, 0, 1, -1, 0]

  /** The table index `(last << 2) | curr`. */
  function Index(last: Phase, curr: Phase): (i: nat)
    ensures i < |Table|
  {
    last * 4 + curr
  }

  /** The Gray-code step the table counts as +1: 00 -> 10 -> 11 -> 01 -> 00. */
  function Forward(p: Phase): (q: Phase)
  {
    if p == 0 then 2 else if p == 2 then 3 else if p == 3 then 1 else 0
  }

  /** The Gray-code step the table counts as -1: 00 -> 01 -> 11 -> 10 -> 00. */
  function Backward(p: Phase): (q: Phase)
  {
    if p == 0 then 1 else if p == 1 then 3 else if p == 3 then 2 else 0
  }

  /** The table entry `tbl[(last << 2) | curr]` for a transition. */
  function Delta(last: Phase, curr: Phase): (d: int)
    ensures -1 <= d <= 1
  {
    Table[Index(last, curr)]
  }

  /** The direction of a transition judged from the Gray code alone: +1 for
      a forward step, -1 for a backward step, and 0 for no change or a
      double skip, whose direction cannot be known. */
  function GrayDirection(last: Phase, curr: Phase): (d: int)
  {
    if curr == Forward(last) then 1 else if curr == Backward(last) then -1 else 0
  }

  /** Forward and backward steps each change exactly one channel; they are
      distinct and undo one another. */
  lemma GrayCycle(p: Phase)
    ensures GrayNeighbours(p, Forward(p)) && GrayNeighbours(p, Backward(p))
    ensures Forward(p) != Backward(p)
    ensures Backward(Forward(p)) == p && Forward(Backward(p)) == p
  {
  }

  /** The table counts exactly the single-channel Gray steps. */
  lemma DeltaIsGrayDirection(last: Phase, curr: Phase)
    ensures Delta(last, curr) == GrayDirection(last, curr)
  {
    if last == 0 {
      assert Table[0] == 0 && Table[1] == -1 && Table[2] == 1 && Table[3] == 0;
    } else if last == 1 {
      assert Table[4] == 1 && Table[5] == 0 && Table[6] == 0 && Table[7] == -1;
    } else if last == 2 {
      assert Table[8] == -1 && Table[9] == 0 && Table[10] == 0 && Table[11] == 1;
    } else {
      assert Table[12] == 0 && Table[13] == 1 && Table[14] == -1 && Table[15] == 0;
    }
  }

  /** No state change (indices 0, 5, 10, 15) and a double skip 00<->11 or
      01<->10 (indices 3, 6, 9, 12) both give delta 0. */
  lemma TableZeros(p: Phase)
    ensures Delta(p, p) == 0
    ensures Delta(p, 3 - p) == 0
  {
    DeltaIsGrayDirection(p, p);
    DeltaIsGrayDirection(p, 3 - p);
  }

  /** Reversing a transition negates its delta. */
  lemma TableAntisymmetric(p: Phase, c: Phase)
    ensures Delta(p, c) == -Delta(c, p)
  {
    DeltaIsGrayDirection(p, c);
    DeltaIsGrayDirection(c, p);
    GrayCycle(p);
    GrayCycle(c);
    assert GrayDirection(p, c) == -GrayDirection(c, p);
  }

  /** One sample of both channels, as read by `digitalRead` in a handler. */
  datatype Sample = Sample(a: Level, b: Level)

  /** The decoder fields the quadrature handlers update. */
  datatype EncState = EncState(position: i32, lastState: Phase)

  /** The new decoder state and the delta looked up in the table; a nonzero
      delta is what a bound spin callback receives. */
  datatype DecodeOut = DecodeOut(next: EncState, delta: int)

  /** One decode step, shared by the handlers of channel A and channel B:
      the direction of the transition is added to the position, and the
      last state always follows the sampled phase. The handlers look the
      direction up in `Table`; `DeltaIsGrayDirection` shows it is the same. */
  function Decode(s: EncState, a: Level, b: Level): (r: DecodeOut)
    ensures r.next.lastState == Channels(a, b)
    ensures r.delta in {-1, 0, 1}
    ensures r.next.position == WrapI32(s.position + r.delta)
  {
    var curr := Channels(a, b);
    var delta := GrayDirection(s.lastState, curr);
    if delta != 0 then
      DecodeOut(EncState(WrapI32(s.position + delta), curr), delta)
    else
      DecodeOut(EncState(s.position, curr), 0)
  }

  /** A decode step moves the position by exactly the table entry
      `tbl[(last_state << 2) | curr]`, and leaves it alone when that is 0. */
  lemma DecodeFollowsTable(s: EncState, a: Level, b: Level)
    ensures Decode(s, a, b).delta == Table[Index(s.lastState, Channels(a, b))]
    ensures Decode(s, a, b).next.position == WrapI32(s.position + Table[Index(s.lastState, Channels(a, b))])
    ensures Table[Index(s.lastState, Channels(a, b))] == 0 ==> Decode(s, a, b).next.position == s.position
  {
    DeltaIsGrayDirection(s.lastState, Channels(a, b));
  }

  /** The delta handed to the spin callback by one decode step, if any. */
  function Reported(delta: int): (r: seq<int>)
  {
    if delta != 0 then [delta] else []
  }

  /** A sequence of handler firings: the final state and the deltas handed
      to the spin callback, in order. */
  function Run(s: EncState, samples: seq<Sample>): (r: (EncState, seq<int>))
    decreases |samples|
  {
    if samples == [] then (s, [])
    else
      var o := Decode(s, samples[0].a, samples[0].b);
      var rest := Run(o.next, samples[1..]);
      (rest.0, Reported(o.delta) + rest.1)
  }

  /** The sum of the table lookups along a sequence of samples. */
  function TableSum(last: Phase, samples: seq<Sample>): (total: int)
    decreases |samples|
  {
    if samples == [] then 0
    else
      var curr := Channels(samples[0].a, samples[0].b);
      Delta(last, curr) + TableSum(curr, samples[1..])
  }

  function Sum(xs: seq<int>): (total: int)
  {
    if xs == [] then 0 else xs[0] + Sum(xs[1..])
  }

  /** Unfolding `Run` over a nonempty sequence of samples. */
  lemma RunHead(s: EncState, samples: seq<Sample>)
    requires samples != []
    ensures Run(s, samples) ==
            (Run(Decode(s, samples[0].a, samples[0].b).next, samples[1..]).0,
             Reported(Decode(s, samples[0].a, samples[0].b).delta) + Run(Decode(s, samples[0].a, samples[0].b).next, samples[1..]).1)
  {
  }

  /** Over any input, the position is the initial one plus the sum of the
      table lookups, in `int32_t` arithmetic. */
  lemma {:induction false} RunPosition(s: EncState, samples: seq<Sample>)
    ensures Run(s, samples).0.position == WrapI32(s.position + TableSum(s.lastState, samples))
    decreases |samples|
  {
    if samples != [] {
      var o := Decode(s, samples[0].a, samples[0].b);
      RunHead(s, samples);
      RunPosition(o.next, samples[1..]);
      TableSumHead(s.lastState, samples);
      DeltaIsGrayDirection(s.lastState, o.next.lastState);
      WrapI32AddTo(s.position, o.delta, TableSum(o.next.lastState, samples[1..]));
    }
  }

  /** Unfolding `TableSum` over a nonempty sequence of samples. */
  lemma TableSumHead(last: Phase, samples: seq<Sample>)
    requires samples != []
    ensures TableSum(last, samples) ==
            Delta(last, Channels(samples[0].a, samples[0].b)) + TableSum(Channels(samples[0].a, samples[0].b), samples[1..])
  {
  }

  lemma WrapI32AddTo(p: i32, d: int, rest: int)
    ensures WrapI32(WrapI32(p + d) + rest) == WrapI32(p + (d + rest))
  {
    WrapI32Add(p + d, rest);
    assert p + d + rest == p + (d + rest);
  }

  /** The deltas handed to the spin callback are each +1 or -1 and add up
      to the sum of the table lookups, so a client that accumulates them
      tracks the position exactly. */
  lemma {:induction false} RunReports(s: EncState, samples: seq<Sample>)
    ensures Sum(Run(s, samples).1) == TableSum(s.lastState, samples)
    ensures forall i :: 0 <= i < |Run(s, samples).1| ==> Run(s, samples).1[i] in {-1, 1}
    decreases |samples|
  {
    if samples != [] {
      var o := Decode(s, samples[0].a, samples[0].b);
      var r := Run(o.next, samples[1..]).1;
      RunHead(s, samples);
      RunReports(o.next, samples[1..]);
      TableSumHead(s.lastState, samples);
      DeltaIsGrayDirection(s.lastState, o.next.lastState);
      SumAppend(Reported(o.delta), r);
      forall i | 0 <= i < |Reported(o.delta) + r|
        ensures (Reported(o.delta) + r)[i] in {-1, 1}
      {
        if i >= |Reported(o.delta)| {
          assert (Reported(o.delta) + r)[i] == r[i - |Reported(o.delta)|];
        }
      }
    }
  }

  /** After any nonempty input the last state is the phase of the last
      sample, whatever the deltas were: the decoder never stalls. */
  lemma {:induction false} RunResynchronises(s: EncState, samples: seq<Sample>)
    requires samples != []
    ensures Run(s, samples).0.lastState == Channels(samples[|samples| - 1].a, samples[|samples| - 1].b)
    decreases |samples|
  {
    var o := Decode(s, samples[0].a, samples[0].b);
    RunHead(s, samples);
    if |samples| > 1 {
      RunResynchronises(o.next, samples[1..]);
      assert samples[|samples| - 1] == samples[1..][|samples| - 2];
    }
  }

  lemma {:induction false} SumAppend(xs: seq<int>, ys: seq<int>)
    ensures Sum(xs + ys) == Sum(xs) + Sum(ys)
    decreases |xs|
  {
    if xs == [] {
      assert xs + ys == ys;
    } else {
      assert (xs + ys)[0] == xs[0];
      assert (xs + ys)[1..] == xs[1..] + ys;
      SumAppend(xs[1..], ys);
    }
  }

  /** One clean step forward or backward. */
  function NextPhase(p: Phase, forward: bool): (q: Phase)
  {
    if forward then Forward(p) else Backward(p)
  }

  /** The samples seen while turning `n` clean steps from phase `start`,
      forward or backward. */
  function Rotation(start: Phase, n: nat, forward: bool): (r: seq<Sample>)
    ensures |r| == n
    decreases n
  {
    if n == 0 then [] else [LevelsOf(NextPhase(start, forward))] + Rotation(NextPhase(start, forward), n - 1, forward)
  }

  function Repeat(x: int, n: nat): (r: seq<int>)
    ensures |r| == n && forall i :: 0 <= i < n ==> r[i] == x
  {
    if n == 0 then [] else [x] + Repeat(x, n - 1)
  }

  /** The phase reached after `n` forward (or backward) steps. */
  function Advanced(start: Phase, n: nat, forward: bool): (p: Phase)
    decreases n
  {
    if n == 0 then start else Advanced(NextPhase(start, forward), n - 1, forward)
  }

  /** The net count of `n` steps in one direction. */
  function Signed(n: nat, forward: bool): (k: int)
  {
    if forward then n as int else -(n as int)
  }

  /** Unfolding `Run` over a first sample. */
  lemma RunCons(s: EncState, x: Sample, xs: seq<Sample>)
    ensures Run(s, [x] + xs) ==
            (Run(Decode(s, x.a, x.b).next, xs).0, Reported(Decode(s, x.a, x.b).delta) + Run(Decode(s, x.a, x.b).next, xs).1)
  {
    assert ([x] + xs)[0] == x;
    assert ([x] + xs)[1..] == xs;
  }

  /** A single clean step is decoded as +1 forward and -1 backward. */
  lemma DecodeCleanStep(s: EncState, forward: bool)
    ensures Decode(s, LevelsOf(NextPhase(s.lastState, forward)).a, LevelsOf(NextPhase(s.lastState, forward)).b)
         == DecodeOut(EncState(WrapI32(s.position + Signed(1, forward)), NextPhase(s.lastState, forward)), Signed(1, forward))
  {
    var next := NextPhase(s.lastState, forward);
    var x := LevelsOf(next);
    LevelsOfInverse(next);
    GrayCycle(s.lastState);
  }

  /** The table lookups along a clean rotation add up to its signed length. */
  lemma {:induction false} RotationTableSum(start: Phase, n: nat, forward: bool)
    ensures TableSum(start, Rotation(start, n, forward)) == Signed(n, forward)
    decreases n
  {
    if n > 0 {
      var next := NextPhase(start, forward);
      var rot := Rotation(start, n, forward);
      assert rot[0] == LevelsOf(next);
      assert rot[1..] == Rotation(next, n - 1, forward);
      TableSumHead(start, rot);
      LevelsOfInverse(next);
      GrayCycle(start);
      DeltaIsGrayDirection(start, next);
      RotationTableSum(next, n - 1, forward);
    }
  }

  /** The last sample of a clean rotation is the phase it arrives at. */
  lemma {:induction false} RotationLast(start: Phase, n: nat, forward: bool)
    requires n > 0
    ensures Rotation(start, n, forward)[n - 1] == LevelsOf(Advanced(start, n, forward))
    decreases n
  {
    var next := NextPhase(start, forward);
    if n > 1 {
      RotationLast(next, n - 1, forward);
      assert Rotation(start, n, forward)[n - 1] == Rotation(next, n - 1, forward)[n - 2];
    }
  }

  /** The first step of a clean rotation hands one signed unit to the spin
      callback. */
  lemma RotationStepReports(s: EncState, n: nat, forward: bool)
    requires n > 0
    ensures var t := EncState(WrapI32(s.position + Signed(1, forward)), NextPhase(s.lastState, forward));
            Run(s, Rotation(s.lastState, n, forward)).1 ==
            [Signed(1, forward)] + Run(t, Rotation(NextPhase(s.lastState, forward), n - 1, forward)).1
  {
    var next := NextPhase(s.lastState, forward);
    DecodeCleanStep(s, forward);
    RunCons(s, LevelsOf(next), Rotation(next, n - 1, forward));
  }

  /** A clean rotation of `n` steps moves the position by exactly +n forward
      or -n backward and arrives at the phase `n` steps on. */
  lemma RotationCounts(s: EncState, n: nat, forward: bool)
    ensures Run(s, Rotation(s.lastState, n, forward)).0 ==
            EncState(WrapI32(s.position + Signed(n, forward)), Advanced(s.lastState, n, forward))
  {
    RunPosition(s, Rotation(s.lastState, n, forward));
    RotationTableSum(s.lastState, n, forward);
    if n > 0 {
      RunResynchronises(s, Rotation(s.lastState, n, forward));
      RotationLast(s.lastState, n, forward);
      LevelsOfInverse(Advanced(s.lastState, n, forward));
    }
  }

  /** Each step of a clean rotation reports +1 (or -1) to the spin callback. */
  lemma {:induction false} RotationReports(s: EncState, n: nat, forward: bool)
    ensures Run(s, Rotation(s.lastState, n, forward)).1 == Repeat(Signed(1, forward), n)
    decreases n
  {
    if n > 0 {
      var t := EncState(WrapI32(s.position + Signed(1, forward)), NextPhase(s.lastState, forward));
      RotationStepReports(s, n, forward);
      RotationReports(t, n - 1, forward);
      assert Repeat(Signed(1, forward), n) == [Signed(1, forward)] + Repeat(Signed(1, forward), n - 1);
    }
  }

  /** Four clean steps in one direction return to the starting phase and
      move the position by exactly +4 forward or -4 backward. */
  lemma FullCycle(s: EncState, forward: bool)
    ensures Run(s, Rotation(s.lastState, 4, forward)).0 == EncState(WrapI32(s.position + Signed(4, forward)), s.lastState)
  {
    assert Advanced(s.lastState, 4, forward) == s.lastState;
    RotationCounts(s, 4, forward);
  }

  /** From 00, the forward cycle is 00 -> 10 -> 11 -> 01 -> 00 and the
      backward cycle is 00 -> 01 -> 11 -> 10 -> 00. */
  lemma CycleSamplesFromZero()
    ensures Rotation(0, 4, true) == [Sample(1, 0), Sample(1, 1), Sample(0, 1), Sample(0, 0)]
    ensures Rotation(0, 4, false) == [Sample(0, 1), Sample(1, 1), Sample(1, 0), Sample(0, 0)]
  {
  }

  /** One recorded invocation of the spin callback. */
  datatype SpinCall = SpinCall(callback: Handle, delta: int)

  /** What a handler hands to the spin callback: the delta, when it is
      nonzero and a callback is bound. */
  function SpinLog(cb: Option<Handle>, delta: int): (log: seq<SpinCall>)
    ensures |log| <= 1
    ensures log != [] <==> cb.Some? && delta != 0
    ensures log != [] ==> log[0] == SpinCall(cb.value, delta)
  {
    if delta != 0 && cb.Some? then [SpinCall(cb.value, delta)] else []
  }

  /** An `encoder_t`. */
  class Encoder {
    var pinA: nat
    var pinB: nat
    var pinBtn: nat
    var position: i32
    var lastState: Phase
    var spinCb: Option<Handle>
    var buttonCb: Option<Handle>
    /** Invocations of the spin callback, oldest first. */
    ghost var spinCalls: seq<SpinCall>
    /** Invocations of the button callback, oldest first. */
    ghost var buttonCalls: seq<Handle>

    ghost function State(): EncState
      reads this
    {
      EncState(position, lastState)
    }

    /** `encoder_init`, given the levels of both channels read once at setup. */
    constructor Init(pinA: nat, pinB: nat, pinBtn: nat, a: Level, b: Level)
      ensures this.pinA == pinA && this.pinB == pinB && this.pinBtn == pinBtn
      ensures position == 0 && lastState == Channels(a, b)
      ensures spinCb == None && buttonCb == None
      ensures spinCalls == [] && buttonCalls == []
    {
      this.pinA := pinA;
      this.pinB := pinB;
      this.pinBtn := pinBtn;
      position := 0;
      lastState := 0;
      spinCb := None;
      buttonCb := None;
      spinCalls := [];
      buttonCalls := [];
      new;
      lastState := Channels(a, b);
    }

    /** The interrupt handler of channel A, given both sampled channels. */
    method IsrA(a: Level, b: Level)
      modifies this`position, this`lastState, this`spinCalls
      ensures State() == Decode(old(State()), a, b).next
      ensures spinCalls == old(spinCalls) + SpinLog(spinCb, Decode(old(State()), a, b).delta)
    {
      var curr := Channels(a, b);
      var idx := Index(lastState, curr);
      var delta := Table[idx];
      DeltaIsGrayDirection(lastState, curr);
      if delta != 0 {
        position := WrapI32(position + delta);
        lastState := curr;
        if spinCb.Some? {
          spinCalls := spinCalls + [SpinCall(spinCb.value, delta)];
        }
      } else {
        lastState := curr;
      }
    }

    /** The interrupt handler of channel B, whose body is identical to the
        handler of channel A. */
    method IsrB(a: Level, b: Level)
      modifies this`position, this`lastState, this`spinCalls
      ensures State() == Decode(old(State()), a, b).next
      ensures spinCalls == old(spinCalls) + SpinLog(spinCb, Decode(old(State()), a, b).delta)
    {
      IsrA(a, b);
    }

    /** The rising-edge handler of the encoder's push button: it calls the
        bound callback, without debounce, and changes no field. */
    method IsrButton()
      modifies this`buttonCalls
      ensures buttonCalls == old(buttonCalls) + (if buttonCb.Some? then [buttonCb.value] else [])
    {
      if buttonCb.Some? {
        buttonCalls := buttonCalls + [buttonCb.value];
      }
    }

    method SetSpinCallback(cb: Option<Handle>)
      modifies this`spinCb
      ensures spinCb == cb
    {
      spinCb := cb;
    }

    method SetButtonCallback(cb: Option<Handle>)
      modifies this`buttonCb
      ensures buttonCb == cb
    {
      buttonCb := cb;
    }

    method GetPosition() returns (pos: i32)
      ensures pos == position
    {
      pos := position;
    }

    /** Overwrites the accumulator; the decode context `lastState` is kept. */
    method SetPosition(pos: i32)
      modifies this`position
      ensures position == pos
    {
      position := pos;
    }
  }
}
