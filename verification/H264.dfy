/** H.264 over RTP (section 5.8 of RFC 6184): what the receiver's reassembly and the server's
    packetization compute, as functions of packets. */
module H264 {
  import opened Bytes
  import opened Rtp

  const START_CODE: bytes := [0, 0, 0, 1]
  const MAX_RTP_PAYLOAD := 1400
  const MAX_CHUNK := MAX_RTP_PAYLOAD - 2
  const FU_A := 28
  const VIDEO_SSRC: u32 := 0xC0DE1234

  /** A NAL unit with the RTP timestamp of the packet (or first fragment) that carried it. */
  datatype TimedNal = TimedNal(ts: u32, nal: bytes)

  function NalType(header: byte): int { header % 0x20 }

  function NalRef(header: byte): byte { header - header % 0x20 }

  // ----- Reassembly ---------------------------------------------------------------------

  /** The partial NAL (empty when none is being rebuilt) and the timestamp of its first fragment. */
  datatype Reassembly = Reassembly(nal: bytes, ts: u32)

  /** The reassembly state after some packets, and the NALs they queued. */
  datatype Outcome = Outcome(st: Reassembly, queued: seq<TimedNal>)

  predicate StartBit(data: bytes) { 2 <= |data| && data[1] >= 0x80 }

  predicate EndBit(data: bytes) { 2 <= |data| && data[1] % 0x80 >= 0x40 }

  function RebuiltHeader(data: bytes): byte
    requires 2 <= |data|
  {
    NalRef(data[0]) + data[1] % 0x20
  }

  function StepFua(st: Reassembly, data: bytes, ts: u32): Outcome
  {
    if |data| < 2 then Outcome(st, [])
    else
      var grown :=
        if StartBit(data) then Reassembly(START_CODE + [RebuiltHeader(data)] + data[2..], ts)
        else if st.nal != [] then st.(nal := st.nal + data[2..])
        else st;
      if EndBit(data) && grown.nal != [] then
        Outcome(grown.(nal := []), [TimedNal(grown.ts, grown.nal)])
      else
        Outcome(grown, [])
  }

  predicate IsVideo(rtp: packet)
  {
    Version(rtp) == 2 && PayloadType(rtp) != PT_PCMU && PayloadType(rtp) != PT_PCMA
  }

  function StepRtp(st: Reassembly, rtp: packet): Outcome
  {
    if IsVideo(rtp) then StepVideo(st, Payload(rtp), Timestamp(rtp)) else Outcome(st, [])
  }

  function StepVideo(st: Reassembly, data: bytes, ts: u32): Outcome
  {
    if data == [] then Outcome(st, [])
    else if NalType(data[0]) == FU_A then StepFua(st, data, ts)
    else if 1 <= NalType(data[0]) <= 23 then Outcome(st, [TimedNal(ts, START_CODE + data)])
    else Outcome(st, [])
  }

  function Depacketize(st: Reassembly, packets: seq<packet>): Outcome
    decreases packets
  {
    if packets == [] then Outcome(st, [])
    else
      var first := StepRtp(st, packets[0]);
      var rest := Depacketize(first.st, packets[1..]);
      Outcome(rest.st, first.queued + rest.queued)
  }

  lemma {:induction false} DepacketizeAppend(st: Reassembly, a: seq<packet>, b: seq<packet>)
    ensures var left := Depacketize(st, a);
            var right := Depacketize(left.st, b);
            Depacketize(st, a + b) == Outcome(right.st, left.queued + right.queued)
    decreases a
  {
    hide StepRtp;
    if a == [] {
      assert a + b == b;
    } else {
      assert (a + b)[1..] == a[1..] + b;
      DepacketizeAppend(StepRtp(st, a[0]).st, a[1..], b);
    }
  }

  lemma DepacketizeOne(st: Reassembly, p: packet)
    ensures Depacketize(st, [p]) == StepRtp(st, p)
  {
    assert [p][1..] == [];
  }

  lemma DepacketizeSnoc(st: Reassembly, a: seq<packet>, p: packet)
    ensures var left := Depacketize(st, a);
            var last := StepRtp(left.st, p);
            Depacketize(st, a + [p]) == Outcome(last.st, left.queued + last.queued)
  {
    hide StepRtp;
    DepacketizeAppend(st, a, [p]);
    DepacketizeOne(Depacketize(st, a).st, p);
  }

  // ----- Packetization ------------------------------------------------------------------

  function NextNumber(number: u16): u16 { (number + 1) % TWO_16 }

  /** One fragment: FU indicator, FU header, chunk. */
  function FragmentPayload(header: byte, first: bool, last: bool, chunk: bytes): (f: bytes)
    ensures |f| == 2 + |chunk| && f[2..] == chunk
    ensures NalType(f[0]) == FU_A && RebuiltHeader(f) == header
    ensures StartBit(f) == first && EndBit(f) == last
  {
    [NalRef(header) + FU_A,
     (if first then 0x80 else 0) + (if last then 0x40 else 0) + NalType(header)] + chunk
  }

  /** The fragments of `nal` whose chunks start at `offset` within the NAL's payload `nal[1..]`. */
  function FragmentsFrom(nal: bytes, offset: nat, number: u16, ts: u32): seq<packet>
    requires 1 <= |nal|
    decreases |nal| - offset
  {
    var payload := nal[1..];
    if |payload| <= offset then []
    else
      var end := if offset + MAX_CHUNK <= |payload| then offset + MAX_CHUNK else |payload|;
      var last := |payload| <= end;
      var f := FragmentPayload(nal[0], offset == 0, last, payload[offset..end]);
      [BuildRtp(PT_VIDEO, number, ts, VIDEO_SSRC, f, last)] + FragmentsFrom(nal, end, NextNumber(number), ts)
  }

  /** Every RTP packet that carries `nal`, numbered from `number`. */
  function Packetize(nal: bytes, number: u16, ts: u32): seq<packet>
  {
    if |nal| <= MAX_RTP_PAYLOAD then [BuildRtp(PT_VIDEO, number, ts, VIDEO_SSRC, nal, true)]
    else FragmentsFrom(nal, 0, number, ts)
  }

  function Advance(number: u16, count: nat): u16 { (number + count) % TWO_16 }

  lemma AdvanceOne(number: u16, count: nat)
    ensures Advance(number, 0) == number
    ensures NextNumber(Advance(number, count)) == Advance(number, count + 1)
  {
  }

  function PacketizeAll(nals: seq<TimedNal>, number: u16): seq<packet>
  {
    if nals == [] then []
    else
      var head := Packetize(nals[0].nal, number, nals[0].ts);
      head + PacketizeAll(nals[1..], Advance(number, |head|))
  }

  /** `nals` as the receiver queues them: each behind a start code. */
  function WithStartCodes(nals: seq<TimedNal>): seq<TimedNal>
  {
    if nals == [] then []
    else [TimedNal(nals[0].ts, START_CODE + nals[0].nal)] + WithStartCodes(nals[1..])
  }
}
