/** Packetizing NAL units and reassembling the packets gives the NAL units back. */
module FuaRoundTrip {
  import opened Bytes
  import opened Rtp
  import opened H264

  function Fragment(header: byte, first: bool, last: bool, chunk: bytes, number: u16, ts: u32): packet
  {
    BuildRtp(PT_VIDEO, number, ts, VIDEO_SSRC, FragmentPayload(header, first, last, chunk), last)
  }

  /** What one fragment does to the reassembly state. */
  lemma FragmentStep(st: Reassembly, header: byte, first: bool, last: bool, chunk: bytes, number: u16, ts: u32)
    requires first || (st.nal != [] && st.ts == ts)
    ensures var grown := if first then START_CODE + [header] + chunk else st.nal + chunk;
            StepRtp(st, Fragment(header, first, last, chunk, number, ts))
            == if last then Outcome(Reassembly([], ts), [TimedNal(ts, grown)]) else Outcome(Reassembly(grown, ts), [])
  {
    var f := FragmentPayload(header, first, last, chunk);
    var p := Fragment(header, first, last, chunk, number, ts);
    assert Payload(p) == f && Timestamp(p) == ts && IsVideo(p);
  }

  /** The tail of an oversize NAL completes a buffer that already holds everything before it. */
  lemma {:induction false} TailCompletes(st: Reassembly, nal: bytes, offset: nat, number: u16, ts: u32)
    requires 1 <= |nal| && 0 < offset < |nal| - 1
    requires st == Reassembly(START_CODE + nal[..1 + offset], ts)
    ensures Depacketize(st, FragmentsFrom(nal, offset, number, ts))
            == Outcome(Reassembly([], ts), [TimedNal(ts, START_CODE + nal)])
    decreases |nal| - offset
  {
    hide StepRtp, BuildRtp, FragmentPayload;
    var payload := nal[1..];
    var end := if offset + MAX_CHUNK <= |payload| then offset + MAX_CHUNK else |payload|;
    var chunk := payload[offset..end];
    var first := Fragment(nal[0], false, |payload| <= end, chunk, number, ts);
    var rest := FragmentsFrom(nal, end, NextNumber(number), ts);
    assert FragmentsFrom(nal, offset, number, ts) == [first] + rest;
    FragmentStep(st, nal[0], false, |payload| <= end, chunk, number, ts);
    assert nal[..1 + offset] + chunk == nal[..1 + end];
    assert START_CODE + nal[..1 + offset] + chunk == START_CODE + nal[..1 + end];
    DepacketizeOne(st, first);
    DepacketizeAppend(st, [first], rest);
    if end < |payload| {
      TailCompletes(Reassembly(START_CODE + nal[..1 + end], ts), nal, end, NextNumber(number), ts);
    } else {
      assert nal[..1 + end] == nal;
    }
  }

  lemma OversizeBegins(nal: bytes, number: u16, ts: u32)
    requires 1400 < |nal|
    ensures Packetize(nal, number, ts)
            == [Fragment(nal[0], true, false, nal[1..][0..MAX_CHUNK], number, ts)]
               + FragmentsFrom(nal, MAX_CHUNK, NextNumber(number), ts)
    ensures START_CODE + [nal[0]] + nal[1..][0..MAX_CHUNK] == START_CODE + nal[..1 + MAX_CHUNK]
  {
    hide BuildRtp, FragmentPayload;
  }

  lemma FirstFragmentStep(st: Reassembly, nal: bytes, number: u16, ts: u32)
    requires 1400 < |nal|
    ensures Depacketize(st, [Fragment(nal[0], true, false, nal[1..][0..MAX_CHUNK], number, ts)])
            == Outcome(Reassembly(START_CODE + nal[..1 + MAX_CHUNK], ts), [])
  {
    var first := Fragment(nal[0], true, false, nal[1..][0..MAX_CHUNK], number, ts);
    OversizeBegins(nal, number, ts);
    hide StepRtp, Fragment, Depacketize;
    FragmentStep(st, nal[0], true, false, nal[1..][0..MAX_CHUNK], number, ts);
    DepacketizeOne(st, first);
  }

  /** An oversize NAL of any type comes back whole, whatever partial NAL was left behind. */
  lemma FragmentsComplete(st: Reassembly, nal: bytes, number: u16, ts: u32)
    requires 1400 < |nal|
    ensures Depacketize(st, Packetize(nal, number, ts))
            == Outcome(Reassembly([], ts), [TimedNal(ts, START_CODE + nal)])
  {
    hide FragmentsFrom, Packetize, Fragment, Depacketize;
    var first := Fragment(nal[0], true, false, nal[1..][0..MAX_CHUNK], number, ts);
    var rest := FragmentsFrom(nal, MAX_CHUNK, NextNumber(number), ts);
    OversizeBegins(nal, number, ts);
    FirstFragmentStep(st, nal, number, ts);
    DepacketizeAppend(st, [first], rest);
    TailCompletes(Reassembly(START_CODE + nal[..1 + MAX_CHUNK], ts), nal, MAX_CHUNK, NextNumber(number), ts);
  }

  /** What a NAL must look like to survive: longer than one packet, or of a type the receiver
      accepts in a single packet. */
  predicate Carriable(nal: bytes)
  {
    1400 < |nal| || (nal != [] && 1 <= ByteAt(nal, 0) % 0x20 <= 23)
  }

  lemma CarriedWhole(st: Reassembly, nal: bytes, number: u16, ts: u32)
    requires Carriable(nal)
    ensures Depacketize(st, Packetize(nal, number, ts)).queued == [TimedNal(ts, START_CODE + nal)]
  {
    if 1400 < |nal| {
      FragmentsComplete(st, nal, number, ts);
    } else {
      DepacketizeOne(st, Packetize(nal, number, ts)[0]);
    }
  }

  /** The round trip holds from every stale reassembly state exactly for the carriable NALs. */
  lemma CarriedExactly(nal: bytes, number: u16, ts: u32)
    ensures Carriable(nal) <==>
            (forall st :: Depacketize(st, Packetize(nal, number, ts)).queued == [TimedNal(ts, START_CODE + nal)])
  {
    if Carriable(nal) {
      forall st {
        CarriedWhole(st, nal, number, ts);
      }
    } else {
      var idle := Reassembly([], 0);
      DepacketizeOne(idle, Packetize(nal, number, ts)[0]);
      assert |START_CODE + nal| == |nal| + 4;
    }
  }

  /** Any sequence of carriable NALs is queued again, in order and with its timestamps. */
  lemma {:induction false} RoundTrip(st: Reassembly, nals: seq<TimedNal>, number: u16)
    requires forall n :: n in nals ==> Carriable(n.nal)
    ensures Depacketize(st, PacketizeAll(nals, number)).queued == WithStartCodes(nals)
    decreases nals
  {
    if nals != [] {
      var head := Packetize(nals[0].nal, number, nals[0].ts);
      CarriedWhole(st, nals[0].nal, number, nals[0].ts);
      DepacketizeAppend(st, head, PacketizeAll(nals[1..], Advance(number, |head|)));
      RoundTrip(Depacketize(st, head).st, nals[1..], Advance(number, |head|));
    }
  }
}
