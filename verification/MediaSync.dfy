/** Audio and video clocks against each other: a reset seeds the video output with the time the audio has
    played. */
module MediaSync {
  import opened Bytes
  import AudioClock
  import VideoClock

  /** On a fresh server, after `n` seconds of audio without pauses, a reset seeds the video output with `n`
      seconds of 90 kHz ticks modulo 2^32, exactly when the audio timestamp has wrapped a multiple of four
      times: 2^32 samples are 45 * 2^30 ticks, which is a whole number of video circles only four times
      over. In particular always in the first 149 hours, when it has not wrapped. */
  lemma SeedsToSecondsExactly(frames: seq<AudioClock.Frame>, n: nat)
    requires AudioClock.GapFree(frames) && AudioClock.Samples(frames) == 8000 * n
    ensures var audioTs := AudioClock.Run(AudioClock.INITIAL, frames).ts;
            VideoClock.Seed(VideoClock.INITIAL, audioTs).out == 90000 * n % 0x1_0000_0000
            <==> 8000 * n / 0x1_0000_0000 % 4 == 0
    ensures 8000 * n < 0x1_0000_0000 ==> 8000 * n / 0x1_0000_0000 % 4 == 0
  {
    AudioClock.CountsSamples(frames);
    var audioTs := AudioClock.Run(AudioClock.INITIAL, frames).ts;
    var wraps := 8000 * n / 0x1_0000_0000;
    var samples: int := audioTs;
    assert samples == 8000 * n - 0x1_0000_0000 * wraps;
    var ticks := 90000 * n - 45 * 0x4000_0000 * wraps;
    assert 4 * ticks == 45 * samples;
    VideoClock.SeedsToAudioTime(VideoClock.INITIAL, audioTs, ticks);
    QuarterCircles(90000 * n, wraps);
  }

  /** Stepping back by `45 * wraps` quarter circles closes the circle exactly for multiples of four. */
  lemma QuarterCircles(a: int, wraps: int)
    ensures (a - 45 * 0x4000_0000 * wraps) % 0x1_0000_0000 == a % 0x1_0000_0000 <==> wraps % 4 == 0
  {
    var q, r := wraps / 4, wraps % 4;
    assert a - 45 * 0x4000_0000 * wraps == a - 0x4000_0000 * r - 0x1_0000_0000 * (45 * q + 11 * r);
    DropCircles(a - 0x4000_0000 * r, 45 * q + 11 * r);
  }

  lemma DropCircles(a: int, k: int)
    ensures (a - 0x1_0000_0000 * k) % 0x1_0000_0000 == a % 0x1_0000_0000
  {
  }
}
