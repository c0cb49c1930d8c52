/** The media packets byte by byte: what the server writes and what the receiver and the microphone path
    make of what they read, in the numbers of section 5.1 of RFC 3550 and section 5.8 of RFC 6184. */
module WireBytes {
  import opened Bytes
  import opened Rtp
  import opened H264
  import opened FuaRoundTrip
  import opened VideoPaths
  import opened RtpReceiver

  /** Number, timestamp and source stand big-endian at bytes 2, 4 and 8; the payload from byte 12. */
  ghost predicate OnWire(p: bytes, number: int, ts: int, ssrc: int, payload: bytes)
  {
    && 12 <= |p| && p[12..] == payload
    && number == 0x100 * ByteAt(p, 2) + ByteAt(p, 3)
    && ts == 0x100_0000 * ByteAt(p, 4) + 0x1_0000 * ByteAt(p, 5) + 0x100 * ByteAt(p, 6) + ByteAt(p, 7)
    && ssrc == 0x100_0000 * ByteAt(p, 8) + 0x1_0000 * ByteAt(p, 9) + 0x100 * ByteAt(p, 10) + ByteAt(p, 11)
  }

  lemma FieldsOnWire(p: packet)
    ensures OnWire(p, SequenceNumber(p), Timestamp(p), Ssrc(p), Payload(p))
  {
  }

  /** A video packet of the server, with version 2 and nothing but a header and a payload. */
  ghost predicate ServerVideo(p: bytes, marker: bool, number: int, ts: int, payload: bytes)
  {
    && 12 <= |p| && ByteAt(p, 0) == 0x80 && ByteAt(p, 1) == (if marker then 0xE0 else 0x60)
    && OnWire(p, number, ts, 0xC0DE1234, payload)
  }

  lemma BuiltVideo(number: u16, ts: u32, payload: bytes, marker: bool)
    ensures ServerVideo(BuildRtp(PT_VIDEO, number, ts, VIDEO_SSRC, payload, marker), marker, number, ts, payload)
  {
    FieldsOnWire(BuildRtp(PT_VIDEO, number, ts, VIDEO_SSRC, payload, marker));
  }

  /** A forwarded packet keeps the device's first byte, marker and payload; its type is 96, and number,
      timestamp and source are the server's. */
  lemma RewrittenBytes(rtp: packet, number: u16, ts: u32)
    ensures var p := Rewrite(rtp, number, ts);
            && ByteAt(p, 0) == ByteAt(rtp, 0)
            && ByteAt(p, 1) == ByteAt(rtp, 1) / 0x80 * 0x80 + 96
            && OnWire(p, number, ts, 0xC0DE1234, rtp[12..])
  {
    FieldsOnWire(Rewrite(rtp, number, ts));
  }

  /** A NAL of at most 1400 bytes is the payload of one packet, with the marker. */
  lemma SinglePacketBytes(nal: bytes, number: u16, ts: u32)
    requires |nal| <= 1400
    ensures var packets := Packetize(nal, number, ts);
            |packets| == 1 && ServerVideo(packets[0], true, number, ts, nal)
  {
    BuiltVideo(number, ts, nal, true);
  }

  /** Where chunk `i` of an oversize NAL ends: 1398 bytes after its start, or with the NAL. */
  function ChunkEnd(nal: bytes, i: nat): nat
  {
    if 1 + 1398 * (i + 1) <= |nal| then 1 + 1398 * (i + 1) else |nal|
  }

  /** FU indicator (the NAL's header with type 28), FU header (start and end bit, the NAL's type), and the
      bytes of chunk `i`. */
  ghost predicate FragmentData(data: bytes, nal: bytes, i: nat)
    requires 1 + 1398 * i < |nal|
  {
    && 2 <= |data|
    && ByteAt(data, 0) == ByteAt(nal, 0) / 0x20 * 0x20 + 28
    && ByteAt(data, 1) == (if i == 0 then 0x80 else 0) + (if ChunkEnd(nal, i) == |nal| then 0x40 else 0)
                          + ByteAt(nal, 0) % 0x20
    && data[2..] == nal[1 + 1398 * i..ChunkEnd(nal, i)]
  }

  ghost predicate FragmentOnWire(p: bytes, nal: bytes, i: nat, number: int, ts: int)
    requires 1 + 1398 * i < |nal|
  {
    && 12 <= |p| && FragmentData(p[12..], nal, i)
    && ServerVideo(p, ChunkEnd(nal, i) == |nal|, (number + i) % 0x1_0000, ts, p[12..])
  }

  lemma FragmentBytes(nal: bytes, i: nat)
    requires 1 + 1398 * i < |nal|
    ensures var payload, last := nal[1..], ChunkEnd(nal, i) == |nal|;
            var first := i == 0;
            FragmentData(FragmentPayload(nal[0], first, last, payload[1398 * i..ChunkEnd(nal, i) - 1]), nal, i)
  {
    assert nal[1..][1398 * i..ChunkEnd(nal, i) - 1] == nal[1 + 1398 * i..ChunkEnd(nal, i)];
  }

  lemma FragmentBuilt(nal: bytes, i: nat, number: u16, ts: u32)
    requires 1 + 1398 * i < |nal|
    ensures var payload, last := nal[1..], ChunkEnd(nal, i) == |nal|;
            var first := i == 0;
            var f := FragmentPayload(nal[0], first, last, payload[1398 * i..ChunkEnd(nal, i) - 1]);
            FragmentOnWire(BuildRtp(PT_VIDEO, Advance(number, i), ts, VIDEO_SSRC, f, last), nal, i, number, ts)
  {
    hide FragmentData, FragmentPayload, ServerVideo;
    var payload, last := nal[1..], ChunkEnd(nal, i) == |nal|;
    var first := i == 0;
    var f := FragmentPayload(nal[0], first, last, payload[1398 * i..ChunkEnd(nal, i) - 1]);
    FragmentBytes(nal, i);
    BuiltVideo(Advance(number, i), ts, f, last);
  }

  /** The first fragment from chunk `i` on, and the rest. */
  lemma FragmentsSplit(nal: bytes, i: nat, number: u16, ts: u32)
    requires 1 + 1398 * i < |nal|
    ensures var packets := FragmentsFrom(nal, 1398 * i, Advance(number, i), ts);
            && packets != [] && FragmentOnWire(packets[0], nal, i, number, ts)
            && packets[1..] == if ChunkEnd(nal, i) == |nal| then []
                               else FragmentsFrom(nal, 1398 * (i + 1), Advance(number, i + 1), ts)
  {
    hide FragmentOnWire, BuildRtp, FragmentPayload, Advance, NextNumber;
    FragmentBuilt(nal, i, number, ts);
    AdvanceOne(number, i);
    assert ChunkEnd(nal, i) - 1 == if 1398 * i + MAX_CHUNK <= |nal[1..]| then 1398 * i + MAX_CHUNK else |nal[1..]|;
    assert (1398 * i == 0) == (i == 0);
  }

  /** The fragments from chunk `i` on, and how many there are. */
  lemma {:induction false} FragmentsOnWire(nal: bytes, i: nat, number: u16, ts: u32)
    requires 1 + 1398 * i < |nal|
    ensures var packets := FragmentsFrom(nal, 1398 * i, Advance(number, i), ts);
            && 1398 * (i + |packets| - 1) < |nal| - 1 <= 1398 * (i + |packets|)
            && forall k :: 0 <= k < |packets| ==> FragmentOnWire(packets[k], nal, i + k, number, ts)
    decreases |nal| - 1398 * i
  {
    hide FragmentOnWire, FragmentsFrom, Advance;
    FragmentsSplit(nal, i, number, ts);
    if ChunkEnd(nal, i) < |nal| {
      FragmentsOnWire(nal, i + 1, number, ts);
    }
  }

  /** An oversize NAL leaves in as many packets as its payload fills chunks of 1398 bytes, and packet `i` holds
      chunk `i`. So there are at least two, no fragment is longer than 1400 bytes, and none both begins and ends. */
  lemma OversizeFragments(nal: bytes, number: u16, ts: u32)
    requires 1400 < |nal|
    ensures var packets := Packetize(nal, number, ts);
            && 1398 * (|packets| - 1) < |nal| - 1 <= 1398 * |packets| && 2 <= |packets|
            && forall i :: 0 <= i < |packets| ==>
                 && FragmentOnWire(packets[i], nal, i, number, ts)
                 && 3 <= |Payload(packets[i])| <= 1400
                 && !(StartBit(Payload(packets[i])) && EndBit(Payload(packets[i])))
  {
    hide FragmentOnWire, FragmentsFrom, Packetize, Advance, StartBit, EndBit, Payload;
    var packets := Packetize(nal, number, ts);
    OversizeIsFragmented(nal, number, ts);
    FragmentsOnWire(nal, 0, number, ts);
    forall i | 0 <= i < |packets|
      ensures FragmentOnWire(packets[i], nal, i, number, ts) && 3 <= |Payload(packets[i])| <= 1400
      ensures !(StartBit(Payload(packets[i])) && EndBit(Payload(packets[i])))
    {
      assert FragmentOnWire(packets[i], nal, 0 + i, number, ts);
      FragmentShape(packets[i], nal, i, number, ts);
    }
  }

  lemma FragmentShape(p: packet, nal: bytes, i: nat, number: u16, ts: u32)
    requires 1400 < |nal| && 1 + 1398 * i < |nal| && FragmentOnWire(p, nal, i, number, ts)
    ensures 3 <= |Payload(p)| <= 1400 && !(StartBit(Payload(p)) && EndBit(Payload(p)))
  {
    hide ServerVideo;
    var data := Payload(p);
    assert |data| == 2 + |data[2..]|;
    if i == 0 {
      assert ByteAt(data, 1) == 0x80 + ByteAt(nal, 0) % 0x20;
    } else {
      assert ByteAt(data, 1) < 0x80;
    }
  }

  lemma OversizeIsFragmented(nal: bytes, number: u16, ts: u32)
    requires 1400 < |nal|
    ensures Packetize(nal, number, ts) == FragmentsFrom(nal, 1398 * 0, Advance(number, 0), ts)
  {
    hide FragmentsFrom;
  }

  // ----- Reading --------------------------------------------------------------------------

  /** What the reassembler makes of a packet: only version 2 and types other than 0 and 8 are video; a payload of
      type 1 to 23 is a NAL behind its start code; one of type 28 and at least two bytes is a fragment; any other
      changes nothing. */
  lemma ReadByReassembler(st: Reassembly, p: packet, ts: u32, data: bytes)
    requires data == p[12..] && ts == Timestamp(p)
    ensures var video := ByteAt(p, 0) / 0x40 == 2 && ByteAt(p, 1) % 0x80 != 0 && ByteAt(p, 1) % 0x80 != 8;
            var kind := if data == [] then 0 else ByteAt(data, 0) % 0x20;
            StepRtp(st, p)
            == if video && 1 <= kind <= 23 then Outcome(st, [TimedNal(ts, [0, 0, 0, 1] + data)])
               else if video && kind == 28 && 2 <= |data| then StepFua(st, data, ts)
               else Outcome(st, [])
  {
  }

  /** What a fragment makes of the reassembly: bit 7 of its second byte begins a NAL, whose header takes the
      upper three bits from the first byte and the type from the second; without it a NAL under way grows;
      bit 6 ends one. */
  lemma ReadFragment(st: Reassembly, data: bytes, ts: u32)
    requires 2 <= |data|
    ensures var header := [ByteAt(data, 0) / 0x20 * 0x20 + ByteAt(data, 1) % 0x20];
            var grown := if 0x80 <= ByteAt(data, 1) then Reassembly([0, 0, 0, 1] + header + data[2..], ts)
                         else if st.nal == [] then st
                         else Reassembly(st.nal + data[2..], st.ts);
            StepFua(st, data, ts)
            == if ByteAt(data, 1) / 0x40 % 2 == 1 && grown.nal != [] then
                 Outcome(Reassembly([], grown.ts), [TimedNal(grown.ts, grown.nal)])
               else Outcome(grown, [])
  {
  }

  /** What is queued for the audio loop: the payload of a packet of version 2 and type 0 or 8, if it has one. */
  lemma ReadAudio(p: packet)
    ensures var audio := ByteAt(p, 0) / 0x40 == 2 && ByteAt(p, 1) % 0x80 in {0, 8};
            AudioOf(p) == if audio && 12 < |p| then [p[12..]] else []
  {
  }

  /** The start code that is taken off a queued NAL: four bytes, or else three, or else none. */
  lemma StartCodeTaken(nal: bytes)
    ensures StripStartCode([0, 0, 0, 1] + nal) == nal
    ensures StripStartCode([0, 0, 1] + nal) == nal
    ensures !([0, 0, 0, 1] <= nal) && !([0, 0, 1] <= nal) ==> StripStartCode(nal) == nal
  {
    var long: bytes, short: bytes := [0, 0, 0, 1] + nal, [0, 0, 1] + nal;
    assert long[4..] == nal && short[3..] == nal && short[2] != START_CODE[2];
  }
}
