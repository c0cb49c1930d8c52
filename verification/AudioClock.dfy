/** RTP timestamps of the audio track: a smooth cadence of one tick per payload byte, and after a
    transmission pause a jump by the time that passed (section 5.1 of RFC 3550). */
module AudioClock {
  import opened Bytes

  const CLOCK_RATE := 8000.0
  const DISCONTINUITY := 0.5

  /** The next timestamp, and the instant and timestamp of the last packet sent. */
  datatype Clock = Clock(ts: u32, lastMono: Option<real>, lastTs: u32)

  const INITIAL := Clock(0, None, 0)

  function Paused(c: Clock, now: real): bool
  {
    c.lastMono.Some? && now - c.lastMono.value >= DISCONTINUITY
  }

  /** The timestamp a packet sent at `now` carries; its marker bit is `Paused(c, now)`. */
  function Stamp(c: Clock, now: real): u32
  {
    if Paused(c, now) then (c.lastTs + ((now - c.lastMono.value) * CLOCK_RATE).Floor) % TWO_32 else c.ts
  }

  function Send(c: Clock, length: nat, now: real): Clock
  {
    var ts := Stamp(c, now);
    Clock((ts + length) % TWO_32, Some(now), ts)
  }

  // ----- Whole runs ---------------------------------------------------------------------

  /** A payload of `length` bytes sent at `now`. */
  datatype Frame = Frame(length: nat, now: real)

  function Run(c: Clock, frames: seq<Frame>): Clock
    decreases |frames|
  {
    if frames == [] then c
    else
      var last := frames[|frames| - 1];
      Send(Run(c, frames[..|frames| - 1]), last.length, last.now)
  }

  function StampAt(c: Clock, frames: seq<Frame>, i: nat): u32
    requires i < |frames|
  {
    Stamp(Run(c, frames[..i]), frames[i].now)
  }

  /** How much media time separates two consecutive packets: the first one's samples, or the whole
      pause when there was one. */
  function Gain(a: Frame, b: Frame): int
  {
    if b.now - a.now >= 0.5 then ((b.now - a.now) * 8000.0).Floor else a.length
  }

  /** Consecutive timestamps differ by exactly the media time between the packets, and the marker
      is set exactly after a pause: the state carries nothing else. */
  lemma AdvanceIsMediaTime(c: Clock, frames: seq<Frame>, i: nat)
    requires 0 < i < |frames|
    ensures StampAt(c, frames, i) == (StampAt(c, frames, i - 1) + Gain(frames[i - 1], frames[i])) % TWO_32
    ensures Paused(Run(c, frames[..i]), frames[i].now) <==> frames[i].now - frames[i - 1].now >= 0.5
  {
    assert frames[..i][..i - 1] == frames[..i - 1];
  }

  /** A pause always counts for more than nothing. */
  lemma GainPositive(a: Frame, b: Frame)
    requires 0 < a.length
    ensures 0 < Gain(a, b)
  {
    if b.now - a.now >= 0.5 {
      assert (b.now - a.now) * 8000.0 >= 4000.0;
    }
  }

  /** The timestamp of packet `i` without wrap-around. */
  function Unbounded(c: Clock, frames: seq<Frame>, i: nat): int
    requires i < |frames|
  {
    if i == 0 then StampAt(c, frames, 0) else Unbounded(c, frames, i - 1) + Gain(frames[i - 1], frames[i])
  }

  lemma {:induction false} StampIsUnbounded(c: Clock, frames: seq<Frame>, i: nat)
    requires i < |frames|
    ensures StampAt(c, frames, i) == Unbounded(c, frames, i) % TWO_32
  {
    if i > 0 {
      hide Gain, StampAt;
      StampIsUnbounded(c, frames, i - 1);
      AdvanceIsMediaTime(c, frames, i);
      AddModulo(Unbounded(c, frames, i - 1), Gain(frames[i - 1], frames[i]));
    }
  }

  /** In every run of non-empty payloads the unbounded media clock strictly increases. */
  lemma {:induction false} StrictlyIncreasing(c: Clock, frames: seq<Frame>, i: nat, j: nat)
    requires i < j < |frames|
    requires forall f :: f in frames ==> 0 < f.length
    ensures Unbounded(c, frames, i) < Unbounded(c, frames, j)
    decreases j
  {
    GainPositive(frames[j - 1], frames[j]);
    if i < j - 1 {
      StrictlyIncreasing(c, frames, i, j - 1);
    }
  }

  /** A receiver comparing 32-bit timestamps reads a pause as a step forward when the pause is within
      half the circle (about 74.5 hours), and among pauses shorter than a full turn only then. */
  lemma PauseReadsForward(c: Clock, frames: seq<Frame>, i: nat)
    requires 0 < i < |frames|
    requires frames[i].now - frames[i - 1].now >= 0.5
    ensures var gap := frames[i].now - frames[i - 1].now;
            var step := (StampAt(c, frames, i) - StampAt(c, frames, i - 1)) % TWO_32;
            && (gap * 8000.0 < 0x8000_0000 as real ==> step == (gap * 8000.0).Floor < 0x8000_0000)
            && (gap * 8000.0 < 0x1_0000_0000 as real ==> (step < 0x8000_0000 <==> gap * 8000.0 < 0x8000_0000 as real))
  {
    hide StampAt;
    AdvanceIsMediaTime(c, frames, i);
    var scaled := (frames[i].now - frames[i - 1].now) * 8000.0;
    assert scaled >= 4000.0;
    if scaled < 0x1_0000_0000 as real {
      assert 0 <= scaled.Floor < TWO_32;
      StepBack(StampAt(c, frames, i - 1), scaled.Floor);
    }
  }

  lemma StepBack(from: u32, step: u32)
    ensures ((from + step) % TWO_32 - from) % TWO_32 == step
  {
  }

  /** Between consecutive packets there is no pause. */
  predicate GapFree(frames: seq<Frame>)
  {
    forall i :: 0 < i < |frames| ==> frames[i].now - frames[i - 1].now < 0.5
  }

  function Samples(frames: seq<Frame>): nat
    decreases |frames|
  {
    if frames == [] then 0 else Samples(frames[..|frames| - 1]) + frames[|frames| - 1].length
  }

  /** Without pauses a fresh clock counts the samples sent. */
  lemma {:induction false} CountsSamples(frames: seq<Frame>)
    requires GapFree(frames)
    ensures Run(INITIAL, frames).ts == Samples(frames) % TWO_32
    ensures Run(INITIAL, frames).lastMono == if frames == [] then None else Some(frames[|frames| - 1].now)
    decreases |frames|
  {
    if frames != [] {
      var before, last := frames[..|frames| - 1], frames[|frames| - 1];
      CountsSamples(before);
      assert before != [] ==> before[|before| - 1] == frames[|frames| - 2];
      AddModulo(Samples(before), last.length);
    }
  }
}
