/** What a playing client sends: interleaved frames (section 10.12 of RFC 2326) mixed with RTSP text,
    cut into reads at arbitrary places. */
module InterleavedStream {
  import opened Bytes

  const DOLLAR: byte := 0x24
  const NEWLINE: byte := 0x0A
  const TEARDOWN: bytes := [0x54, 0x45, 0x41, 0x52, 0x44, 0x4F, 0x57, 0x4E]

  /** The position of the first newline, or -1. */
  function FindNewline(buf: bytes): (at: int)
    ensures -1 <= at < |buf|
    ensures at >= 0 ==> buf[at] == NEWLINE && NEWLINE !in buf[..at]
    ensures at < 0 ==> NEWLINE !in buf
  {
    if buf == [] then -1
    else if buf[0] == NEWLINE then 0
    else
      var rest := FindNewline(buf[1..]);
      assert buf == [buf[0]] + buf[1..];
      assert rest >= 0 ==> buf[..rest + 1] == [buf[0]] + buf[1..][..rest];
      if rest < 0 then -1 else rest + 1
  }

  lemma {:induction false} FindNewlineStable(buf: bytes, later: bytes)
    requires FindNewline(buf) >= 0
    ensures FindNewline(buf + later) == FindNewline(buf)
  {
    if buf[0] != NEWLINE {
      FindNewlineStable(buf[1..], later);
      assert (buf + later)[1..] == buf[1..] + later;
    }
  }

  predicate Contains(line: bytes, word: bytes)
    decreases |line|
  {
    word <= line || (line != [] && Contains(line[1..], word))
  }

  /** Some stretch of the line is the word. */
  ghost predicate Occurs(line: bytes, word: bytes)
  {
    exists i :: 0 <= i && i + |word| <= |line| && OccursAt(line, word, i)
  }

  predicate OccursAt(line: bytes, word: bytes, i: nat)
    requires i + |word| <= |line|
  {
    line[i..i + |word|] == word
  }

  /** The infix test is true of exactly the lines in which the word occurs. */
  lemma {:induction false} ContainsExactly(line: bytes, word: bytes)
    ensures Contains(line, word) <==> Occurs(line, word)
    decreases |line|
  {
    hide Occurs;
    OccursFirst(line, word);
    if line != [] {
      ContainsExactly(line[1..], word);
      OccursLater(line, word);
    }
  }

  lemma OccursFirst(line: bytes, word: bytes)
    ensures word <= line ==> Occurs(line, word)
    ensures line == [] && Occurs(line, word) ==> word <= line
  {
    if word <= line {
      assert OccursAt(line, word, 0);
    }
  }

  lemma OccursLater(line: bytes, word: bytes)
    requires line != []
    ensures Occurs(line[1..], word) ==> Occurs(line, word)
    ensures Occurs(line, word) ==> word <= line || Occurs(line[1..], word)
  {
    if i: nat :| i + |word| <= |line[1..]| && OccursAt(line[1..], word, i) {
      assert line[1..][i..i + |word|] == line[i + 1..i + 1 + |word|];
      assert OccursAt(line, word, i + 1);
    }
    if i: nat :| i + |word| <= |line| && OccursAt(line, word, i) {
      if i > 0 {
        assert line[1..][i - 1..i - 1 + |word|] == line[i..i + |word|];
        assert OccursAt(line[1..], word, i - 1);
      }
    }
  }

  /** What the head of a buffer is. */
  datatype Item =
    | NeedMore
    | Frame(channel: byte, packet: bytes, used: nat)
    | Line(text: bytes, used: nat)

  /** The first complete item in `buf`, if there is one. */
  function NextItem(buf: bytes): (item: Item)
    ensures item.Frame? || item.Line? ==> 0 < item.used <= |buf|
  {
    if buf == [] then NeedMore
    else if buf[0] == DOLLAR then
      if |buf| < 4 || |buf| < 4 + ReadBe16(buf, 2) then NeedMore
      else Frame(buf[1], buf[4..4 + ReadBe16(buf, 2)], 4 + ReadBe16(buf, 2))
    else
      var nl := FindNewline(buf);
      if nl < 0 then NeedMore else Line(buf[..nl + 1], nl + 1)
  }

  /** Frames delivered on `channel`, the bytes left over, and whether TEARDOWN ended the session; after
      TEARDOWN nothing is left to read. */
  datatype Parsed = Parsed(frames: seq<bytes>, rest: bytes, done: bool)

  function Deliver(channel: Option<int>, item: Item): seq<bytes>
  {
    if item.Frame? && channel == Some(item.channel as int) then [item.packet] else []
  }

  predicate IsTeardown(item: Item) { item.Line? && Contains(item.text, TEARDOWN) }

  /** `more`, with `frames` delivered before. */
  function After(frames: seq<bytes>, more: Parsed): Parsed
  {
    Parsed(frames + more.frames, more.rest, more.done)
  }

  function Parse(channel: Option<int>, buf: bytes): Parsed
    decreases |buf|
  {
    var item := NextItem(buf);
    if item.NeedMore? then Parsed([], buf, false)
    else if IsTeardown(item) then Parsed([], [], true)
    else After(Deliver(channel, item), Parse(channel, buf[item.used..]))
  }

  lemma AfterAfter(a: seq<bytes>, b: seq<bytes>, more: Parsed)
    ensures After(a + b, more) == After(a, After(b, more))
  {
  }

  /** Later bytes never change the first complete item. */
  lemma NextItemStable(buf: bytes, later: bytes)
    requires !NextItem(buf).NeedMore?
    ensures NextItem(buf + later) == NextItem(buf)
  {
    var all := buf + later;
    assert all[0] == buf[0];
    if buf[0] == DOLLAR {
      assert all[2] == buf[2] && all[3] == buf[3];
      assert all[4..4 + ReadBe16(buf, 2)] == buf[4..4 + ReadBe16(buf, 2)];
    } else {
      var nl := FindNewline(buf);
      FindNewlineStable(buf, later);
      assert all[..nl + 1] == buf[..nl + 1];
    }
  }

  /** Parsing what was left over together with later bytes continues as if everything had been parsed
      at once. */
  lemma {:induction false} ParseResumes(channel: Option<int>, buf: bytes, later: bytes)
    ensures var first := Parse(channel, buf);
            var second := Parse(channel, first.rest + later);
            Parse(channel, buf + later) == if first.done then first else After(first.frames, second)
    decreases |buf|
  {
    hide NextItem, IsTeardown, Deliver;
    var item := NextItem(buf);
    if !item.NeedMore? {
      NextItemStable(buf, later);
      assert (buf + later)[item.used..] == buf[item.used..] + later;
      if !IsTeardown(item) {
        var more := Parse(channel, buf[item.used..]);
        ParseResumes(channel, buf[item.used..], later);
        AfterAfter(Deliver(channel, item), more.frames, Parse(channel, more.rest + later));
      }
    }
  }

  // ----- The reading loop ---------------------------------------------------------------

  /** What one read gives: nothing within the timeout, or bytes (none at end of file). */
  datatype Read = Timeout | Data(bytes: bytes)

  /** The bytes read before end of file. */
  function BytesRead(input: seq<Read>): bytes
    decreases input
  {
    if input == [] || input[0] == Data([]) then []
    else (if input[0].Timeout? then [] else input[0].bytes) + BytesRead(input[1..])
  }

  /** Holds a playing client's connection: parses every read into the buffer and delivers the frames on
      the client's backchannel, until TEARDOWN, end of file or the server stops. Whatever the reads,
      the outcome is that of parsing their concatenation at once. */
  method ReadClientStream(channel: Option<int>, input: seq<Read>) returns (result: Parsed)
    ensures result == Parse(channel, BytesRead(input))
  {
    var buf: bytes := [];
    var frames: seq<bytes> := [];
    var i := 0;
    ghost var all := Parse(channel, BytesRead(input));
    assert input[0..] == input && [] + BytesRead(input) == BytesRead(input);
    assert Continues(channel, all, frames, buf, BytesRead(input[i..]));
    while i < |input|
      invariant 0 <= i <= |input|
      invariant Continues(channel, all, frames, buf, BytesRead(input[i..]))
      invariant Parse(channel, buf) == Parsed([], buf, false)
      decreases |input| - i
    {
      hide Parse, NextItem, Continues;
      var read := input[i];
      assert input[i..][1..] == input[i + 1..];
      i := i + 1;
      if read.Timeout? {
        assert BytesRead(input[i - 1..]) == BytesRead(input[i..]);
        continue;
      }
      if read.bytes == [] {
        Finish(channel, all, frames, buf);
        return Parsed(frames, buf, false);
      }
      Regroup(channel, all, frames, buf, read.bytes, BytesRead(input[i..]));
      buf := buf + read.bytes;
      var done: bool;
      ghost var later := BytesRead(input[i..]);
      frames, buf, done := ConsumeItems(channel, frames, buf, all, later);
      if done {
        return Parsed(frames, buf, true);
      }
    }
    Finish(channel, all, frames, buf);
    result := Parsed(frames, buf, false);
  }

  /** `frames` followed by parsing `buf + later` makes `all`. */
  ghost predicate Continues(channel: Option<int>, all: Parsed, frames: seq<bytes>, buf: bytes, later: bytes)
  {
    all == After(frames, Parse(channel, buf + later))
  }

  lemma Regroup(channel: Option<int>, all: Parsed, frames: seq<bytes>, buf: bytes, chunk: bytes, later: bytes)
    requires Continues(channel, all, frames, buf, chunk + later)
    ensures Continues(channel, all, frames, buf + chunk, later)
  {
    assert buf + (chunk + later) == buf + chunk + later;
  }

  lemma Finish(channel: Option<int>, all: Parsed, frames: seq<bytes>, buf: bytes)
    requires Continues(channel, all, frames, buf, [])
    requires Parse(channel, buf) == Parsed([], buf, false)
    ensures all == Parsed(frames, buf, false)
  {
    hide Parse;
    assert buf + [] == buf;
  }

  /** The inner loop: takes complete items off the front of the buffer. */
  method ConsumeItems(channel: Option<int>, frames0: seq<bytes>, buf0: bytes, ghost all: Parsed, ghost later: bytes)
    returns (frames: seq<bytes>, buf: bytes, done: bool)
    requires Continues(channel, all, frames0, buf0, later)
    ensures done ==> all == Parsed(frames, buf, true)
    ensures !done ==> Continues(channel, all, frames, buf, later) && Parse(channel, buf) == Parsed([], buf, false)
  {
    frames, buf, done := frames0, buf0, false;
    while buf != []
      invariant Continues(channel, all, frames, buf, later)
      decreases |buf|
    {
      var item := NextItem(buf);
      if item.NeedMore? {
        break;
      }
      hide NextItem, Contains, Deliver, Parse, Continues;
      ConsumeOne(channel, all, frames, buf, later);
      if item.Line? && Contains(item.text, TEARDOWN) {
        return frames, [], true;
      }
      frames := frames + Deliver(channel, item);
      buf := buf[item.used..];
    }
  }

  /** What taking one complete item off the buffer does. */
  lemma ConsumeOne(channel: Option<int>, all: Parsed, frames: seq<bytes>, buf: bytes, later: bytes)
    requires Continues(channel, all, frames, buf, later) && !NextItem(buf).NeedMore?
    ensures var item := NextItem(buf);
            if IsTeardown(item) then all == Parsed(frames, [], true)
            else Continues(channel, all, frames + Deliver(channel, item), buf[item.used..], later)
  {
    hide NextItem, Contains, Deliver;
    var item := NextItem(buf);
    NextItemStable(buf, later);
    assert (buf + later)[item.used..] == buf[item.used..] + later;
    AfterAfter(frames, Deliver(channel, item), Parse(channel, buf[item.used..] + later));
  }

  // ----- Framing ------------------------------------------------------------------------

  /** An interleaved frame as the server writes it, and as a client sends it. */
  function Framed(channel: byte, packet: bytes): bytes
    requires |packet| < TWO_16
  {
    [DOLLAR, channel] + Be16(|packet|) + packet
  }

  function FramedAll(channel: byte, packets: seq<bytes>): bytes
    requires forall p :: p in packets ==> |p| < TWO_16
    decreases packets
  {
    if packets == [] then [] else Framed(channel, packets[0]) + FramedAll(channel, packets[1..])
  }

  /** Parsing framed packets gives exactly the packets, with nothing left over, whatever they contain. */
  lemma {:induction false} FramingRoundTrip(channel: byte, packets: seq<bytes>)
    requires forall p :: p in packets ==> |p| < TWO_16
    ensures Parse(Some(channel), FramedAll(channel, packets)) == Parsed(packets, [], false)
    decreases packets
  {
    hide NextItem, Contains;
    if packets != [] {
      var head, tail := Framed(channel, packets[0]), FramedAll(channel, packets[1..]);
      FramingRoundTrip(channel, packets[1..]);
      FrameFirst(channel, packets[0], tail);
      assert (head + tail)[|head|..] == tail;
    }
  }

  lemma FrameFirst(channel: byte, packet: bytes, tail: bytes)
    requires |packet| < TWO_16
    ensures NextItem(Framed(channel, packet) + tail) == Frame(channel, packet, |Framed(channel, packet)|)
  {
    var buf := Framed(channel, packet) + tail;
    assert buf[2..4] == Be16(|packet|);
    assert buf[2] == Be16(|packet|)[0] && buf[3] == Be16(|packet|)[1];
    assert buf[4..4 + |packet|] == packet;
  }

  // ----- What a stream says ---------------------------------------------------------------

  /** What a client sends: packets on any channel, and lines of text. */
  datatype Piece = Packet(channel: byte, packet: bytes) | Text(line: bytes)

  /** A packet whose length fits two bytes, or one line: no `$` at its head, a newline at its end only. */
  predicate Proper(p: Piece)
  {
    match p
    case Packet(_, packet) => |packet| < 0x1_0000
    case Text(line) => line != [] && line[0] != 0x24 && line[|line| - 1] == 0x0A && 0x0A !in line[..|line| - 1]
  }

  function Sent(p: Piece): bytes
    requires Proper(p)
  {
    match p
    case Packet(channel, packet) => [0x24, channel, |packet| / 0x100, |packet| % 0x100] + packet
    case Text(line) => line
  }

  function SentAll(pieces: seq<Piece>): bytes
    requires forall p :: p in pieces ==> Proper(p)
    decreases pieces
  {
    if pieces == [] then [] else Sent(pieces[0]) + SentAll(pieces[1..])
  }

  /** The head of a piece: a frame cut short, or text without a newline. */
  predicate Unfinished(tail: bytes)
  {
    if tail == [] then true
    else if tail[0] == 0x24 then |tail| < 4 || |tail| - 4 < ByteAt(tail, 2) * 0x100 + ByteAt(tail, 3)
    else 0x0A !in tail
  }

  /** A line with TEARDOWN somewhere in it. */
  ghost predicate EndsSession(p: Piece)
  {
    p.Text? && Occurs(p.line, [0x54, 0x45, 0x41, 0x52, 0x44, 0x4F, 0x57, 0x4E])
  }

  /** The first piece that ends the session, or the number of pieces. */
  ghost function SessionEnd(pieces: seq<Piece>): (k: nat)
    ensures k <= |pieces| && (k < |pieces| ==> EndsSession(pieces[k]))
    ensures forall i :: 0 <= i < k ==> !EndsSession(pieces[i])
    decreases pieces
  {
    if pieces == [] || EndsSession(pieces[0]) then 0 else 1 + SessionEnd(pieces[1..])
  }

  function PacketsOn(channel: Option<int>, pieces: seq<Piece>): seq<bytes>
    decreases pieces
  {
    if pieces == [] then [] else Delivered(channel, pieces[0]) + PacketsOn(channel, pieces[1..])
  }

  function Delivered(channel: Option<int>, p: Piece): seq<bytes>
  {
    if p.Packet? && channel == Some(p.channel as int) then [p.packet] else []
  }

  /** The item the parser finds at the head of a stream that begins with the piece. */
  function ItemOf(p: Piece): Item
    requires Proper(p)
  {
    match p
    case Packet(channel, packet) => Frame(channel, packet, 4 + |packet|)
    case Text(line) => Line(line, |line|)
  }

  lemma FirstItem(p: Piece, later: bytes)
    requires Proper(p)
    ensures NextItem(Sent(p) + later) == ItemOf(p) && |Sent(p)| == ItemOf(p).used
    ensures IsTeardown(ItemOf(p)) <==> EndsSession(p)
  {
    match p
    case Packet(channel, packet) => {
      assert Be16(|packet|) == [|packet| / 0x100, |packet| % 0x100];
      assert Sent(p) == Framed(channel, packet);
      FrameFirst(channel, packet, later);
    }
    case Text(line) => {
      assert line == line[..|line| - 1] + [0x0A];
      LineEnds(line, later);
      assert (line + later)[..|line|] == line;
      ContainsExactly(line, TEARDOWN);
    }
  }

  lemma LineEnds(line: bytes, later: bytes)
    requires line != [] && line[|line| - 1] == 0x0A && 0x0A !in line[..|line| - 1]
    ensures FindNewline(line + later) == |line| - 1
  {
    assert (line + later)[..|line| - 1] == line[..|line| - 1];
    FirstNewline(line + later, |line| - 1);
  }

  lemma {:induction false} FirstNewline(buf: bytes, at: nat)
    requires at < |buf| && buf[at] == NEWLINE && NEWLINE !in buf[..at]
    ensures FindNewline(buf) == at
    decreases |buf|
  {
    if at > 0 {
      assert buf[0] == buf[..at][0] && buf[1..][..at - 1] == buf[..at][1..];
      FirstNewline(buf[1..], at - 1);
    }
  }

  lemma NothingFirst(tail: bytes)
    requires Unfinished(tail)
    ensures NextItem(tail) == NeedMore
  {
  }

  /** The end of session, the frames and the rest of a stream, whatever its pieces: the packets on the
      client's channel sent before the first line with TEARDOWN, and after such a line nothing. */
  lemma {:induction false} ParsesPieces(channel: Option<int>, pieces: seq<Piece>, tail: bytes)
    requires (forall p :: p in pieces ==> Proper(p)) && Unfinished(tail)
    ensures var k := SessionEnd(pieces);
            Parse(channel, SentAll(pieces) + tail)
            == Parsed(PacketsOn(channel, pieces[..k]), if k < |pieces| then [] else tail, k < |pieces|)
    decreases pieces
  {
    hide Parse, EndsSession, Proper, Sent, Delivered;
    if pieces == [] {
      ParsesTail(channel, tail);
      assert SentAll(pieces) + tail == tail;
    } else {
      var p, more := pieces[0], SentAll(pieces[1..]) + tail;
      ParsesFirst(channel, p, more);
      Associative(Sent(p), SentAll(pieces[1..]), tail);
      if !EndsSession(p) {
        ParsesPieces(channel, pieces[1..], tail);
        var k := SessionEnd(pieces);
        assert pieces[..k][0] == p && pieces[..k][1..] == pieces[1..][..k - 1];
      }
    }
  }

  lemma ParsesTail(channel: Option<int>, tail: bytes)
    requires Unfinished(tail)
    ensures Parse(channel, tail) == Parsed([], tail, false)
  {
    hide NextItem, IsTeardown;
    NothingFirst(tail);
  }

  lemma ParsesFirst(channel: Option<int>, p: Piece, more: bytes)
    requires Proper(p)
    ensures Parse(channel, Sent(p) + more)
            == if EndsSession(p) then Parsed([], [], true) else After(Delivered(channel, p), Parse(channel, more))
  {
    hide NextItem, IsTeardown, EndsSession, Proper;
    FirstItem(p, more);
    hide Sent;
    assert (Sent(p) + more)[|Sent(p)|..] == more;
  }

  /** Every stream is pieces followed by an unfinished one. */
  lemma {:induction false} StreamIsPieces(buf: bytes) returns (pieces: seq<Piece>, tail: bytes)
    ensures (forall p :: p in pieces ==> Proper(p)) && Unfinished(tail) && buf == SentAll(pieces) + tail
    decreases |buf|
  {
    if Unfinished(buf) {
      return [], buf;
    }
    var p: Piece;
    if buf[0] == 0x24 {
      var length := ByteAt(buf, 2) * 0x100 + ByteAt(buf, 3);
      p := Packet(buf[1], buf[4..4 + length]);
      assert buf == Sent(p) + buf[|Sent(p)|..];
    } else {
      var nl := FindNewline(buf);
      p := Text(buf[..nl + 1]);
      assert p.line[..|p.line| - 1] == buf[..nl];
      assert buf == Sent(p) + buf[|Sent(p)|..];
    }
    var more;
    more, tail := StreamIsPieces(buf[|Sent(p)|..]);
    pieces := [p] + more;
    Associative(Sent(p), SentAll(more), tail);
  }
}
