/** Translation of the device's 90 kHz RTP timestamps to the server's output timestamps.
    The device restarts its clock at will; the output clock must never run backwards. */
module VideoClock {
  import opened Bytes

  /** `out` is the last output timestamp, `last + offset` gave it, and `rebase` asks the next
      device timestamp to choose a new offset. */
  datatype Clock = Clock(out: u32, offset: u32, last: Option<u32>, rebase: bool)

  const INITIAL := Clock(0, 0, None, false)

  /** How far `b` lies ahead of `a` on the 32-bit circle. */
  function Ahead(a: int, b: int): u32 { (b - a) % TWO_32 }

  predicate MustRebase(c: Clock, deviceTs: u32)
  {
    c.last.None? || c.rebase || Ahead(c.last.value, deviceTs) > TWO_31
  }

  function Translate(c: Clock, deviceTs: u32): Clock
  {
    var offset := if MustRebase(c, deviceTs) then (c.out + 1 - deviceTs) % TWO_32 else c.offset;
    Clock((deviceTs + offset) % TWO_32, offset, Some(deviceTs), false)
  }

  /** The 8 kHz audio clock in 90 kHz units. */
  function AudioTo90k(audioTs: u32): u32 { (audioTs * 90000 / 8000) % TWO_32 }

  /** The reference: a sample lasts 90000 / 8000 = 45 / 4 ticks. */
  function Ticks(samples: nat): nat { 45 * samples / 4 }

  lemma ConvertsToTicks(audioTs: u32)
    ensures AudioTo90k(audioTs) == Ticks(audioTs) % TWO_32
  {
  }

  /** A reset seeds the output to `x` modulo 2^32, the whole ticks in the samples sent, unless the output is
      ahead of that by plain comparison. */
  lemma SeedsToAudioTime(c: Clock, audioTs: u32, x: nat)
    requires 4 * x <= 45 * audioTs < 4 * x + 4
    ensures Seed(c, audioTs).out == if c.out < x % 0x1_0000_0000 then x % 0x1_0000_0000 else c.out
    ensures Seed(c, audioTs) == c.(out := Seed(c, audioTs).out, rebase := true)
  {
    ConvertsToTicks(audioTs);
    assert x == Ticks(audioTs);
  }

  function Seed(c: Clock, audioTs: u32): Clock
  {
    var audio := AudioTo90k(audioTs);
    c.(out := if c.out < audio then audio else c.out, rebase := true)
  }

  /** The last device timestamp and the offset account for the output, unless a rebase is due. */
  predicate Locked(c: Clock)
  {
    c.last.Some? && !c.rebase ==> c.out == (c.last.value + c.offset) % TWO_32
  }

  /** Repeating a timestamp changes nothing: all fragments of a frame get one output timestamp. */
  lemma Stutter(c: Clock, deviceTs: u32)
    ensures Translate(Translate(c, deviceTs), deviceTs) == Translate(c, deviceTs)
  {
    assert Ahead(deviceTs, deviceTs) == 0;
  }

  /** One translation moves the output by exactly the device's own step when that is at most
      half the circle, and by one tick on a rebase: never backwards in serial order. */
  lemma TranslateAdvance(c: Clock, deviceTs: u32)
    requires Locked(c)
    ensures Locked(Translate(c, deviceTs))
    ensures Ahead(c.out, Translate(c, deviceTs).out)
            == if MustRebase(c, deviceTs) then 1 else Ahead(c.last.value, deviceTs)
    ensures Ahead(c.out, Translate(c, deviceTs).out) <= 0x8000_0000
  {
    if !MustRebase(c, deviceTs) {
      ShiftKeepsDistance(c.last.value, deviceTs, c.offset);
    }
  }

  lemma ShiftKeepsDistance(a: u32, b: u32, offset: u32)
    ensures Ahead((a + offset) % TWO_32, (b + offset) % TWO_32) == Ahead(a, b)
  {
    var wrapA, wrapB := if a + offset < TWO_32 then 0 else TWO_32, if b + offset < TWO_32 then 0 else TWO_32;
    assert (a + offset) % TWO_32 == a + offset - wrapA;
    assert (b + offset) % TWO_32 == b + offset - wrapB;
  }

  /** A reset steps serially forward exactly when the seeding audio clock is at most half the
      circle past the output: the larger value is chosen by plain comparison. */
  lemma SeedForwardExactly(c: Clock, audioTs: u32)
    ensures Ahead(c.out, Seed(c, audioTs).out) <= 0x8000_0000 <==> Ticks(audioTs) % TWO_32 <= c.out + 0x8000_0000
    ensures Locked(Seed(c, audioTs))
  {
  }

  /** A reset that every serial comparison reads as a step back. */
  lemma SeedCanJumpBack()
    ensures Ahead(INITIAL.out, Seed(INITIAL, 0x0C00_0000).out) > 0x8000_0000
  {
    assert AudioTo90k(0x0C00_0000) == 0x8700_0000;
  }

  // ----- Whole runs ---------------------------------------------------------------------

  datatype Event = Device(ts: u32) | Reset(audioTs: u32)

  function Step(c: Clock, e: Event): Clock
  {
    match e
    case Device(ts) => Translate(c, ts)
    case Reset(audioTs) => Seed(c, audioTs)
  }

  function Run(c: Clock, events: seq<Event>): Clock
    decreases |events|
  {
    if events == [] then c else Step(Run(c, events[..|events| - 1]), events[|events| - 1])
  }

  // The reference: a clock without wrap-around, defined from the events alone.

  /** The device timestamp the next one is measured against: none at the start and after a reset. */
  function Anchor(c: Clock, events: seq<Event>): Option<u32>
  {
    if events == [] then (if c.rebase then None else c.last)
    else
      match events[|events| - 1]
      case Device(ts) => Some(ts)
      case Reset(_) => None
  }

  /** What an event adds: the device's own step if it is at most half the circle and one tick otherwise;
      for a reset, what the audio clock is ahead of the 32-bit reading of the clock. */
  function Gain(anchor: Option<u32>, clock: nat, e: Event): (gain: nat)
    ensures gain < TWO_32 && (e.Device? ==> gain <= 0x8000_0000)
  {
    match e
    case Device(ts) =>
      if anchor.None? || Ahead(anchor.value, ts) > 0x8000_0000 then 1 else Ahead(anchor.value, ts)
    case Reset(audioTs) =>
      if clock % TWO_32 < Ticks(audioTs) % TWO_32 then Ticks(audioTs) % TWO_32 - clock % TWO_32 else 0
  }

  function Lifted(c: Clock, events: seq<Event>): nat
    decreases |events|
  {
    if events == [] then c.out
    else
      var before := events[..|events| - 1];
      Lifted(c, before) + Gain(Anchor(c, before), Lifted(c, before), events[|events| - 1])
  }

  lemma AddSerial(clock: int, gain: int, to: u32)
    requires Ahead(clock % TWO_32, to) == gain
    ensures (clock + gain) % TWO_32 == to
  {
  }

  lemma RunLast(c: Clock, events: seq<Event>)
    ensures Anchor(c, events) == if Run(c, events).rebase then None else Run(c, events).last
  {
  }

  /** One event moves the output serially by exactly its gain. */
  lemma GainIsSerialStep(c: Clock, e: Event)
    requires Locked(c)
    ensures Locked(Step(c, e))
    ensures Ahead(c.out, Step(c, e).out) == Gain(if c.rebase then None else c.last, c.out, e)
  {
    hide Translate, Seed, Locked;
    match e
    case Device(ts) => TranslateAdvance(c, ts);
    case Reset(audioTs) => SeedGain(c, audioTs);
  }

  lemma SeedGain(c: Clock, audioTs: u32)
    ensures Locked(Seed(c, audioTs))
    ensures Ahead(c.out, Seed(c, audioTs).out)
            == if c.out < Ticks(audioTs) % TWO_32 then Ticks(audioTs) % TWO_32 - c.out else 0
  {
    ConvertsToTicks(audioTs);
    hide AudioTo90k, Ticks;
  }

  /** In every mix of device restarts and resets the 32-bit output is the reference clock modulo 2^32,
      and every translation keeps the last timestamp and the offset consistent with it. */
  lemma {:induction false} OutputIsLiftedClock(c: Clock, events: seq<Event>)
    requires Locked(c)
    ensures Locked(Run(c, events))
    ensures Run(c, events).out == Lifted(c, events) % TWO_32
    decreases |events|
  {
    if events != [] {
      hide Translate, Seed, Ahead, Step, Gain, Anchor;
      var before, e := events[..|events| - 1], events[|events| - 1];
      OutputIsLiftedClock(c, before);
      RunLast(c, before);
      GainIsSerialStep(Run(c, before), e);
      GainReadsOutput(Anchor(c, before), Lifted(c, before), e);
      AddSerial(Lifted(c, before), Gain(Anchor(c, before), Lifted(c, before), e), Run(c, events).out);
    }
  }

  lemma GainReadsOutput(anchor: Option<u32>, clock: nat, e: Event)
    ensures Gain(anchor, clock % TWO_32, e) == Gain(anchor, clock, e)
  {
    assert clock % TWO_32 % TWO_32 == clock % TWO_32;
  }

  /** The output after the first `i` events. */
  function OutputAt(c: Clock, events: seq<Event>, i: nat): u32
    requires i <= |events|
  {
    Run(c, events[..i]).out
  }

  predicate StepsForward(c: Clock, events: seq<Event>, i: nat)
    requires i < |events|
  {
    Ahead(OutputAt(c, events, i), OutputAt(c, events, i + 1)) <= 0x8000_0000
  }

  /** A reset whose audio clock is at most half the circle past the output. */
  predicate InReach(c: Clock, events: seq<Event>, i: nat)
    requires i < |events|
  {
    events[i].Reset? ==> Ticks(events[i].audioTs) % TWO_32 <= OutputAt(c, events, i) + 0x8000_0000
  }

  lemma StepForwardExactly(c: Clock, events: seq<Event>, i: nat)
    requires Locked(c) && i < |events|
    ensures StepsForward(c, events, i) <==> InReach(c, events, i)
  {
    hide Translate, Ahead;
    var before, e := Run(c, events[..i]), events[i];
    assert events[..i + 1][..i] == events[..i];
    OutputIsLiftedClock(c, events[..i]);
    GainIsSerialStep(before, e);
    if e.Reset? {
      SeedForwardExactly(before, e.audioTs);
    }
  }

  /** Every step of a run is serially forward exactly when every reset is within reach. */
  lemma ForwardExactly(c: Clock, events: seq<Event>)
    requires Locked(c)
    ensures (forall i :: 0 <= i < |events| ==> StepsForward(c, events, i))
            <==> (forall i :: 0 <= i < |events| ==> InReach(c, events, i))
  {
    forall i | 0 <= i < |events|
      ensures StepsForward(c, events, i) <==> InReach(c, events, i)
    {
      StepForwardExactly(c, events, i);
    }
  }

  /** Between any two points of a run the output moves by the sum of the gains between them: a multiple
      of the full circle apart, the two readings are the reference clock's. */
  lemma {:induction false} NeverDecreases(c: Clock, events: seq<Event>, i: nat, j: nat)
    requires Locked(c) && i <= j <= |events|
    ensures Lifted(c, events[..i]) <= Lifted(c, events[..j])
    ensures OutputAt(c, events, j)
            == (OutputAt(c, events, i) + (Lifted(c, events[..j]) - Lifted(c, events[..i]))) % TWO_32
    decreases j
  {
    hide Run, Gain, Anchor;
    OutputIsLiftedClock(c, events[..i]);
    OutputIsLiftedClock(c, events[..j]);
    Difference(Lifted(c, events[..i]), Lifted(c, events[..j]));
    if i < j {
      assert events[..j][..j - 1] == events[..j - 1];
      NeverDecreases(c, events, i, j - 1);
    }
  }

  lemma Difference(a: int, b: int)
    ensures b % TWO_32 == (a % TWO_32 + (b - a)) % TWO_32
  {
  }

  /** The device's own unbounded time, as long as it neither restarts nor stalls for more than
      half the circle. */
  predicate Steady(times: seq<int>)
  {
    forall i :: 0 < i < |times| ==> times[i - 1] <= times[i] <= times[i - 1] + 0x8000_0000
  }

  function Stamps(times: seq<int>): seq<Event>
  {
    seq(|times|, i requires 0 <= i < |times| => Device(times[i] % TWO_32))
  }

  lemma AheadOfSteps(a: int, b: int)
    requires a <= b <= a + 0x8000_0000
    ensures Ahead(a % TWO_32, b % TWO_32) == b - a
  {
  }

  lemma AddSteps(first: int, gone: int, step: int, from: u32, to: u32)
    requires from == (first + gone) % TWO_32 && Ahead(from, to) == step
    ensures to == (first + (gone + step)) % TWO_32
  {
  }

  /** While the device is steady the output clock measures exactly the device's elapsed time, over
      any number of wrap-arounds. */
  lemma {:induction false} TracksSteadyDevice(c: Clock, times: seq<int>)
    requires Locked(c) && 0 < |times| && Steady(times)
    ensures var first := Translate(c, times[0] % TWO_32).out;
            var end := Run(c, Stamps(times));
            && end.out == (first + (times[|times| - 1] - times[0])) % TWO_32
            && Locked(end) && !end.rebase && end.last == Some(times[|times| - 1] % TWO_32)
    decreases |times|
  {
    hide Translate, Ahead, Locked;
    var n := |times| - 1;
    var events := Stamps(times);
    var before := Run(c, events[..n]);
    var ts := times[n] % TWO_32;
    assert events[n] == Device(ts);
    assert events[..n] == Stamps(times[..n]);
    var end := Run(c, events);
    assert end == Translate(before, ts);
    TranslateSettles(before, ts);
    if n == 0 {
      TranslateAdvance(c, ts);
    } else {
      TracksSteadyDevice(c, times[..n]);
      TranslateAdvance(before, ts);
      AheadOfSteps(times[n - 1], times[n]);
      assert !MustRebase(before, ts);
      var first := Translate(c, times[0] % TWO_32).out;
      AddSteps(first, times[n - 1] - times[0], times[n] - times[n - 1], before.out, end.out);
    }
  }

  lemma TranslateSettles(c: Clock, deviceTs: u32)
    ensures Translate(c, deviceTs).last == Some(deviceTs) && !Translate(c, deviceTs).rebase
  {
  }
}
