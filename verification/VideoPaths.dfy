/** The server's two video paths as functions of what they are fed: header rewriting of raw
    device packets, and re-packetization of the receiver's NAL queue. */
module VideoPaths {
  import opened Bytes
  import opened Rtp
  import opened H264
  import opened VideoClock

  /** The translation state and next sequence number after some input, and the packets broadcast. */
  datatype Sent = Sent(clock: Clock, number: u16, packets: seq<packet>)

  /** A device packet with our sequence number, timestamp and SSRC, and payload type 96. */
  function Rewrite(rtp: packet, number: u16, ts: u32): (p: packet)
    ensures Payload(p) == Payload(rtp) && Version(p) == Version(rtp) && Marker(p) == Marker(rtp)
    ensures PayloadType(p) == PT_VIDEO && SequenceNumber(p) == number && Timestamp(p) == ts
  {
    WithHeader(rtp[0], (if Marker(rtp) then 0x80 else 0) + PT_VIDEO, number, ts, VIDEO_SSRC, Payload(rtp))
  }

  function ForwardOne(c: Clock, number: u16, rtp: bytes): Sent
  {
    if |rtp| < HEADER_LEN || rtp[HEADER_LEN..] == [] then Sent(c, number, [])
    else
      var c' := Translate(c, Timestamp(rtp));
      Sent(c', NextNumber(number), [Rewrite(rtp, number, c'.out)])
  }

  function ForwardAll(c: Clock, number: u16, raw: seq<bytes>): Sent
    decreases raw
  {
    if raw == [] then Sent(c, number, [])
    else
      var first := ForwardOne(c, number, raw[0]);
      var rest := ForwardAll(first.clock, first.number, raw[1..]);
      Sent(rest.clock, rest.number, first.packets + rest.packets)
  }

  /** The NAL without its 4- or 3-byte start code. */
  function StripStartCode(nal: bytes): bytes
  {
    if START_CODE <= nal then nal[4..]
    else if [0, 0, 1] <= nal then nal[3..]
    else nal
  }

  function RepackOne(c: Clock, number: u16, item: TimedNal): Sent
  {
    var nal := StripStartCode(item.nal);
    if nal == [] then Sent(c, number, [])
    else
      var c' := Translate(c, item.ts);
      var packets := Packetize(nal, number, c'.out);
      Sent(c', Advance(number, |packets|), packets)
  }

  function RepackAll(c: Clock, number: u16, items: seq<TimedNal>): Sent
    decreases items
  {
    if items == [] then Sent(c, number, [])
    else
      var first := RepackOne(c, number, items[0]);
      var rest := RepackAll(first.clock, first.number, items[1..]);
      Sent(rest.clock, rest.number, first.packets + rest.packets)
  }

  // ----- The parameter sets that are kept for priming ---------------------------------------

  /** The parameter set of the given type after a raw packet: its payload, if it is one of more than a byte. */
  function KeptOfPacket(kind: int, was: bytes, rtp: bytes): bytes
  {
    if HEADER_LEN + 1 < |rtp| && NalType(rtp[HEADER_LEN]) == kind then rtp[HEADER_LEN..] else was
  }

  function KeptOfPackets(kind: int, was: bytes, raw: seq<bytes>): bytes
    decreases raw
  {
    if raw == [] then was else KeptOfPackets(kind, KeptOfPacket(kind, was, raw[0]), raw[1..])
  }

  /** The parameter set of the given type after an item of the NAL queue. */
  function KeptOfNal(kind: int, was: bytes, item: TimedNal): bytes
  {
    var nal := StripStartCode(item.nal);
    if nal != [] && NalType(nal[0]) == kind then nal else was
  }

  function KeptOfNals(kind: int, was: bytes, items: seq<TimedNal>): bytes
    decreases items
  {
    if items == [] then was else KeptOfNals(kind, KeptOfNal(kind, was, items[0]), items[1..])
  }

  predicate CarriesSet(kind: int, rtp: bytes) { 14 <= |rtp| && ByteAt(rtp, 12) % 0x20 == kind }

  /** It is the payload of the last packet that carries one, or what was kept before. */
  lemma {:induction false} KeepsLastOfPackets(kind: int, was: bytes, raw: seq<bytes>, last: int)
    requires -1 <= last < |raw| && (last >= 0 ==> CarriesSet(kind, raw[last]))
    requires forall i :: last < i < |raw| ==> !CarriesSet(kind, raw[i])
    ensures KeptOfPackets(kind, was, raw) == if last >= 0 then raw[last][12..] else was
    decreases raw
  {
    if raw != [] {
      var next := KeptOfPacket(kind, was, raw[0]);
      if last >= 0 || raw[1..] == [] {
        KeepsLastOfPackets(kind, next, raw[1..], if last >= 1 then last - 1 else -1);
      } else {
        assert !CarriesSet(kind, raw[0]);
        KeepsLastOfPackets(kind, next, raw[1..], -1);
      }
    }
  }

  predicate CarriesNal(kind: int, item: TimedNal)
  {
    var nal := StripStartCode(item.nal);
    nal != [] && ByteAt(nal, 0) % 0x20 == kind
  }

  /** The same for the NAL queue. */
  lemma {:induction false} KeepsLastOfNals(kind: int, was: bytes, items: seq<TimedNal>, last: int)
    requires -1 <= last < |items| && (last >= 0 ==> CarriesNal(kind, items[last]))
    requires forall i :: last < i < |items| ==> !CarriesNal(kind, items[i])
    ensures KeptOfNals(kind, was, items) == if last >= 0 then StripStartCode(items[last].nal) else was
    decreases items
  {
    hide StripStartCode;
    if items != [] {
      var next := KeptOfNal(kind, was, items[0]);
      if last >= 0 || items[1..] == [] {
        KeepsLastOfNals(kind, next, items[1..], if last >= 1 then last - 1 else -1);
      } else {
        assert !CarriesNal(kind, items[0]);
        KeepsLastOfNals(kind, next, items[1..], -1);
      }
    }
  }

  lemma {:induction false} ForwardAppend(c: Clock, number: u16, a: seq<bytes>, b: seq<bytes>)
    ensures var left := ForwardAll(c, number, a);
            var right := ForwardAll(left.clock, left.number, b);
            ForwardAll(c, number, a + b) == Sent(right.clock, right.number, left.packets + right.packets)
    decreases a
  {
    hide ForwardOne;
    if a == [] {
      assert a + b == b;
    } else {
      assert (a + b)[1..] == a[1..] + b;
      var first := ForwardOne(c, number, a[0]);
      ForwardAppend(first.clock, first.number, a[1..], b);
    }
  }

  // ----- Progress of the sending loops --------------------------------------------------

  /** `done` followed by repacking the remaining items makes `all`. */
  ghost predicate RepackRemains(all: Sent, done: seq<packet>, c: Clock, number: u16, items: seq<TimedNal>)
  {
    var rest := RepackAll(c, number, items);
    all == Sent(rest.clock, rest.number, done + rest.packets)
  }

  lemma RepackProgress(all: Sent, done: seq<packet>, c: Clock, number: u16, items: seq<TimedNal>)
    requires items != [] && RepackRemains(all, done, c, number, items)
    ensures var step := RepackOne(c, number, items[0]);
            RepackRemains(all, done + step.packets, step.clock, step.number, items[1..])
  {
    hide RepackOne;
    var step := RepackOne(c, number, items[0]);
    var rest := RepackAll(step.clock, step.number, items[1..]);
    assert done + (step.packets + rest.packets) == done + step.packets + rest.packets;
  }

  /** `done` followed by forwarding the remaining packets makes `all`. */
  ghost predicate ForwardRemains(all: Sent, done: seq<packet>, c: Clock, number: u16, raw: seq<bytes>)
  {
    var rest := ForwardAll(c, number, raw);
    all == Sent(rest.clock, rest.number, done + rest.packets)
  }

  lemma ForwardProgress(all: Sent, done: seq<packet>, c: Clock, number: u16, raw: seq<bytes>)
    requires raw != [] && ForwardRemains(all, done, c, number, raw)
    ensures var step := ForwardOne(c, number, raw[0]);
            ForwardRemains(all, done + step.packets, step.clock, step.number, raw[1..])
  {
    hide ForwardOne;
    var step := ForwardOne(c, number, raw[0]);
    var rest := ForwardAll(step.clock, step.number, raw[1..]);
    assert done + (step.packets + rest.packets) == done + step.packets + rest.packets;
  }

  /** The fragments before `offset` are done; `number` is the next one's number. */
  ghost predicate FragmentsRemain(all: seq<packet>, done: seq<packet>, nal: bytes, offset: nat, number: u16, ts: u32)
    requires 1 <= |nal|
  {
    all == done + FragmentsFrom(nal, offset, number, ts)
  }

  lemma FragmentsBegin(nal: bytes, number: u16, ts: u32)
    requires MAX_RTP_PAYLOAD < |nal|
    ensures FragmentsRemain(Packetize(nal, number, ts), [], nal, 0, number, ts)
  {
  }

  lemma FragmentsEnd(all: seq<packet>, done: seq<packet>, nal: bytes, offset: nat, number: u16, ts: u32)
    requires 1 <= |nal| <= offset + 1 && FragmentsRemain(all, done, nal, offset, number, ts)
    ensures done == all
  {
  }

  lemma FragmentProgress(all: seq<packet>, done: seq<packet>, nal: bytes, offset: nat, number: u16, ts: u32)
    requires 1 <= |nal| && offset < |nal| - 1 && FragmentsRemain(all, done, nal, offset, number, ts)
    ensures var payload := nal[1..];
            var end := if offset + MAX_CHUNK <= |payload| then offset + MAX_CHUNK else |payload|;
            var last := end >= |payload|;
            var first := offset == 0;
            var fragment := FragmentPayload(nal[0], first, last, payload[offset..end]);
            var p := BuildRtp(PT_VIDEO, number, ts, VIDEO_SSRC, fragment, last);
            FragmentsRemain(all, done + [p], nal, end, NextNumber(number), ts)
  {
    hide BuildRtp, FragmentPayload;
  }
}
