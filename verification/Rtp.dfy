/** The 12-byte RTP header (section 5.1 of RFC 3550), as `_build_rtp` writes it and
    `_process_rtp` reads it. */
module Rtp {
  import opened Bytes

  const HEADER_LEN := 12
  const PT_VIDEO := 96
  const PT_PCMU := 0
  const PT_PCMA := 8

  /** A packet long enough to hold an RTP header: all that callers of the receiver guarantee. */
  type packet = p: bytes | HEADER_LEN <= |p| witness [0, 0, 0, 0, 0, 0, 0, 0, 0, 0, 0, 0]

  function Version(p: packet): int { p[0] / 0x40 }

  function PayloadType(p: packet): int { p[1] % 0x80 }

  function Marker(p: packet): bool { p[1] >= 0x80 }

  function SequenceNumber(p: packet): u16 { ReadBe16(p, 2) }

  function Timestamp(p: packet): u32 { ReadBe32(p, 4) }

  function Ssrc(p: packet): u32 { ReadBe32(p, 8) }

  function Payload(p: packet): bytes { p[HEADER_LEN..] }

  /** A header with the given first two bytes, followed by the payload. */
  function WithHeader(byte0: byte, byte1: byte, number: u16, ts: u32, ssrc: u32, payload: bytes): (p: packet)
    ensures |p| == HEADER_LEN + |payload| && p[0] == byte0 && p[1] == byte1
    ensures SequenceNumber(p) == number && Timestamp(p) == ts && Ssrc(p) == ssrc && Payload(p) == payload
  {
    var p := [byte0, byte1] + Be16(number) + Be32(ts) + Be32(ssrc) + payload;
    assert p[2..4] == Be16(number) && p[4..8] == Be32(ts) && p[8..12] == Be32(ssrc);
    assert p[4] == Be32(ts)[0] && p[5] == Be32(ts)[1] && p[6] == Be32(ts)[2] && p[7] == Be32(ts)[3];
    assert p[8] == Be32(ssrc)[0] && p[9] == Be32(ssrc)[1] && p[10] == Be32(ssrc)[2] && p[11] == Be32(ssrc)[3];
    assert p[12..] == payload;
    p
  }

  function BuildRtp(pt: nat, number: u16, ts: u32, ssrc: u32, payload: bytes, marker: bool): (p: packet)
    ensures Version(p) == 2 && PayloadType(p) == pt % 0x80 && Marker(p) == marker
    ensures SequenceNumber(p) == number && Timestamp(p) == ts && Ssrc(p) == ssrc && Payload(p) == payload
    ensures |p| == HEADER_LEN + |payload|
  {
    WithHeader(0x80, (if marker then 0x80 else 0) + pt % 0x80, number, ts, ssrc, payload)
  }
}
