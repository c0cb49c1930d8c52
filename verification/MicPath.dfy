/** The microphone path: client payloads pass a drop-oldest queue and a smoothing buffer, and leave as
    one 160-byte frame per 20 ms tick, real or silent. */
module MicPath {
  import opened Bytes
  import opened Rtp
  import opened AsyncQueue

  const FRAME := 160
  const QUEUE_LIMIT := 500
  const HIGH_WATER := 6400
  const KEPT_AFTER_TRIM := 3200

  /** One frame of A-law silence. */
  function Silence(): (s: bytes)
    ensures |s| == FRAME && forall i :: 0 <= i < FRAME ==> s[i] == 0xD5
  {
    seq(FRAME, i => 0xD5)
  }

  // ----- Unwrapping a client's RTP packet -----------------------------------------------

  /** Where the payload starts: after the CSRC list and, if present, the header extension. */
  function PayloadOffset(rtp: bytes): Option<nat>
    requires HEADER_LEN <= |rtp|
  {
    var offset := HEADER_LEN + 4 * (rtp[0] % 0x10);
    if rtp[0] / 0x10 % 2 == 0 then Some(offset)
    else if |rtp| < offset + 4 then None
    else Some(offset + 4 + 4 * ReadBe16(rtp, offset + 2))
  }

  /** The G.711 payload of a backchannel packet, or nothing if the packet is to be ignored. */
  function BackchannelPayload(rtp: bytes): Option<bytes>
  {
    if |rtp| < HEADER_LEN || (PayloadType(rtp) != PT_PCMU && PayloadType(rtp) != PT_PCMA) then None
    else
      match PayloadOffset(rtp)
      case None => None
      case Some(offset) => if |rtp| <= offset then None else Some(rtp[offset..])
  }

  /** Any valid RTP packet of type PCMU or PCMA, with any CSRC list and any header extension, gives its
      payload, or nothing if that is empty (section 5.1 of RFC 3550). */
  lemma PayloadRecovered(head: packet, csrcs: bytes, extension: Option<bytes>, payload: bytes, profile: u16)
    requires |head| == 12 && |csrcs| == 4 * (head[0] % 0x10)
    requires ByteAt(head, 1) % 0x80 in {0, 8}
    requires head[0] / 0x10 % 2 == (if extension.Some? then 1 else 0)
    requires extension.Some? ==> |extension.value| % 4 == 0 && |extension.value| / 4 < TWO_16
    ensures var ext := match extension
                       case None => []
                       case Some(words) => Be16(profile) + Be16(|words| / 4) + words;
            BackchannelPayload(head + csrcs + ext + payload) == if payload == [] then None else Some(payload)
  {
    var ext := match extension
      case None => []
      case Some(words) => Be16(profile) + Be16(|words| / 4) + words;
    var rtp := head + csrcs + ext + payload;
    var offset := HEADER_LEN + |csrcs|;
    assert rtp[..HEADER_LEN] == head;
    assert rtp[0] == head[0] && rtp[1] == head[1];
    if extension.Some? {
      assert rtp[offset + 2..offset + 4] == Be16(|extension.value| / 4);
      assert rtp[offset + 2] == Be16(|extension.value| / 4)[0] && rtp[offset + 3] == Be16(|extension.value| / 4)[1];
    }
    assert rtp[offset + |ext|..] == payload;
  }

  /** Ignored are packets shorter than a header or of another type, and those that end within the CSRC list or
      the header extension they announce. */
  lemma OthersIgnored(rtp: bytes)
    ensures |rtp| < 12 ==> BackchannelPayload(rtp) == None
    ensures 12 <= |rtp| && ByteAt(rtp, 1) % 0x80 !in {0, 8} ==> BackchannelPayload(rtp) == None
    ensures 12 <= |rtp| < 12 + 4 * (ByteAt(rtp, 0) % 0x10) ==> BackchannelPayload(rtp) == None
    ensures 12 <= |rtp| && ByteAt(rtp, 0) / 0x10 % 2 == 1 ==>
              var list := 12 + 4 * (ByteAt(rtp, 0) % 0x10);
              |rtp| < list + 4 || |rtp| < list + 4 + 4 * (0x100 * ByteAt(rtp, list + 2) + ByteAt(rtp, list + 3)) ==>
                BackchannelPayload(rtp) == None
  {
  }

  // ----- The path as a state machine ----------------------------------------------------

  /** What became of a stretch of the input: sent as a frame, or trimmed to bound the delay. */
  datatype Fate = Sent(bytes: bytes) | Trimmed(bytes: bytes)

  /** Queue and buffer, the number of ticks, and the history: all bytes taken in, their fate in order,
      and the payloads that arrived since the last tick. */
  datatype Mic = Mic(queue: seq<bytes>, buf: bytes, ticks: nat, input: bytes, fate: seq<Fate>, arrivals: seq<bytes>)

  const START := Mic([], [], 0, [], [], [])

  function DropOldest(queue: seq<bytes>, payload: bytes): seq<bytes>
  {
    if |queue| < QUEUE_LIMIT then queue + [payload] else queue[1..] + [payload]
  }

  function Arrive(m: Mic, payload: bytes): Mic
  {
    m.(queue := DropOldest(m.queue, payload), arrivals := m.arrivals + [payload])
  }

  function Drain(m: Mic): Mic
  {
    var taken := Concat(m.queue);
    m.(queue := [], buf := m.buf + taken, input := m.input + taken, arrivals := [])
  }

  function Trim(m: Mic): Mic
  {
    if |m.buf| <= HIGH_WATER then m
    else
      var cut := |m.buf| - KEPT_AFTER_TRIM;
      m.(buf := m.buf[cut..], fate := m.fate + [Trimmed(m.buf[..cut])])
  }

  function Emit(m: Mic): Mic
  {
    if |m.buf| < FRAME then m.(ticks := m.ticks + 1)
    else m.(ticks := m.ticks + 1, buf := m.buf[FRAME..], fate := m.fate + [Sent(m.buf[..FRAME])])
  }

  function Tick(m: Mic): Mic { Emit(Trim(Drain(m))) }

  /** What the tick sends. */
  function Payload160(m: Mic): bytes
  {
    var ready := Trim(Drain(m));
    if |ready.buf| < FRAME then Silence() else ready.buf[..FRAME]
  }

  function BytesOf(fate: seq<Fate>): bytes
    decreases |fate|
  {
    if fate == [] then [] else BytesOf(fate[..|fate| - 1]) + fate[|fate| - 1].bytes
  }

  lemma BytesOfSnoc(fate: seq<Fate>, f: Fate)
    ensures BytesOf(fate + [f]) == BytesOf(fate) + f.bytes
  {
    assert (fate + [f])[..|fate|] == fate;
  }

  function SentFrames(fate: seq<Fate>): nat
    decreases |fate|
  {
    if fate == [] then 0 else SentFrames(fate[..|fate| - 1]) + if fate[|fate| - 1].Sent? then 1 else 0
  }

  lemma SentFramesSnoc(fate: seq<Fate>, f: Fate)
    ensures SentFrames(fate + [f]) == SentFrames(fate) + if f.Sent? then 1 else 0
  {
    assert (fate + [f])[..|fate|] == fate;
  }

  function TrimmedBytes(fate: seq<Fate>): nat
    decreases |fate|
  {
    if fate == [] then 0
    else TrimmedBytes(fate[..|fate| - 1]) + if fate[|fate| - 1].Trimmed? then |fate[|fate| - 1].bytes| else 0
  }

  function Newest<T>(all: seq<T>, limit: nat): seq<T>
  {
    if |all| <= limit then all else all[|all| - limit..]
  }

  /** Nothing is lost, duplicated or reordered: the input is the bytes sent and trimmed, in order,
      followed by the buffer; sent frames are full frames; the queue holds the newest payloads. */
  ghost predicate Conserved(m: Mic)
  {
    && m.input == BytesOf(m.fate) + m.buf
    && (forall f :: f in m.fate && f.Sent? ==> |f.bytes| == 160)
    && m.queue == Newest(m.arrivals, 500)
    && |m.buf| <= 6400
  }

  lemma ArriveConserves(m: Mic, payload: bytes)
    requires Conserved(m)
    ensures Conserved(Arrive(m, payload))
  {
  }

  lemma TickConserves(m: Mic)
    requires Conserved(m)
    ensures Conserved(Tick(m))
  {
    hide BytesOf, Concat, Drain, Trim, Emit, Accounted, Conserved;
    DrainAccounts(m);
    TrimAccounts(Drain(m));
    EmitAccounts(Trim(Drain(m)));
  }

  /** Conserved, but for the bound on the buffer, which only the trim restores. */
  ghost predicate Accounted(m: Mic)
  {
    && m.input == BytesOf(m.fate) + m.buf
    && (forall f :: f in m.fate && f.Sent? ==> |f.bytes| == 160)
    && m.queue == Newest(m.arrivals, 500)
  }

  lemma DrainAccounts(m: Mic)
    requires Conserved(m)
    ensures Accounted(Drain(m))
  {
    hide BytesOf, Concat;
    Associative(BytesOf(m.fate), m.buf, Concat(m.queue));
  }

  lemma TrimAccounts(m: Mic)
    requires Accounted(m)
    ensures Accounted(Trim(m)) && |Trim(m).buf| <= HIGH_WATER
  {
    if |m.buf| > HIGH_WATER {
      FateAccounts(m, |m.buf| - KEPT_AFTER_TRIM, Trimmed(m.buf[..|m.buf| - KEPT_AFTER_TRIM]));
    }
  }

  lemma EmitAccounts(m: Mic)
    requires Accounted(m) && |m.buf| <= HIGH_WATER
    ensures Conserved(Emit(m))
  {
    if FRAME <= |m.buf| {
      FateAccounts(m, FRAME, Sent(m.buf[..FRAME]));
    }
  }

  /** Moving the front of the buffer to the history of sent and trimmed bytes. */
  lemma FateAccounts(m: Mic, cut: nat, f: Fate)
    requires m.input == BytesOf(m.fate) + m.buf && cut <= |m.buf| && f.bytes == m.buf[..cut]
    ensures m.input == BytesOf(m.fate + [f]) + m.buf[cut..]
  {
    hide BytesOf;
    BytesOfSnoc(m.fate, f);
    Associative(BytesOf(m.fate), m.buf[..cut], m.buf[cut..]);
    assert m.buf[..cut] + m.buf[cut..] == m.buf;
  }

  /** In numbers: bytes in = 160 per real frame + bytes trimmed + bytes buffered. */
  lemma {:induction false} BytesCounted(fate: seq<Fate>)
    requires forall f :: f in fate && f.Sent? ==> |f.bytes| == 160
    ensures |BytesOf(fate)| == 160 * SentFrames(fate) + TrimmedBytes(fate)
    decreases |fate|
  {
    if fate != [] {
      BytesCounted(fate[..|fate| - 1]);
      assert fate[|fate| - 1] in fate;
    }
  }

  // ----- Whole runs ---------------------------------------------------------------------

  datatype Event = Arrival(payload: bytes) | Tock

  function Step(m: Mic, e: Event): Mic
  {
    match e
    case Arrival(payload) => Arrive(m, payload)
    case Tock => Tick(m)
  }

  function Run(m: Mic, events: seq<Event>): Mic
    decreases events
  {
    if events == [] then m else Run(Step(m, events[0]), events[1..])
  }

  /** For every interleaving of arrivals and ticks. */
  lemma {:induction false} RunConserves(m: Mic, events: seq<Event>)
    requires Conserved(m)
    ensures var end := Run(m, events);
            && Conserved(end)
            && |end.input| == 160 * SentFrames(end.fate) + TrimmedBytes(end.fate) + |end.buf|
    decreases events
  {
    hide Conserved, Arrive, Tick;
    if events == [] {
      assert m.input == BytesOf(m.fate) + m.buf && forall f :: f in m.fate && f.Sent? ==> |f.bytes| == 160 by {
        Unconserve(m);
      }
      BytesCounted(m.fate);
    } else {
      match events[0] {
        case Arrival(payload) => ArriveConserves(m, payload);
        case Tock => TickConserves(m);
      }
      RunConserves(Step(m, events[0]), events[1..]);
    }
  }

  lemma Unconserve(m: Mic)
    requires Conserved(m)
    ensures m.input == BytesOf(m.fate) + m.buf
    ensures forall f :: f in m.fate && f.Sent? ==> |f.bytes| == 160
  {
  }

  /** Trimming happens exactly when a tick finds more than the high-water mark; without it the frames
      sent, followed by the buffer, are the input. */
  lemma TrimsExactly(m: Mic)
    ensures TrimmedBytes(Tick(m).fate) == TrimmedBytes(m.fate) <==> |m.buf| + |Concat(m.queue)| <= 6400
  {
    hide BytesOf;
    var trimmed := Trim(Drain(m));
    if |Drain(m).buf| > HIGH_WATER {
      var cut := Drain(m).buf[..|Drain(m).buf| - KEPT_AFTER_TRIM];
      assert (m.fate + [Trimmed(cut)])[..|m.fate|] == m.fate;
      assert TrimmedBytes(trimmed.fate) == TrimmedBytes(m.fate) + |cut|;
    }
    if FRAME <= |trimmed.buf| {
      var after := trimmed.fate + [Sent(trimmed.buf[..FRAME])];
      assert after[..|trimmed.fate|] == trimmed.fate;
    }
  }

  /** What a tick does to the bytes at hand, which are the buffer and what was queued: beyond 6400 only the newest
      3200 are kept; the first 160 of what is kept leave, or silence if there are not so many. */
  lemma TickExactly(m: Mic)
    ensures var all := m.buf + Concat(m.queue);
            var kept := if |all| <= 6400 then all else all[|all| - 3200..];
            && Tick(m).queue == [] && Tick(m).input == m.input + Concat(m.queue)
            && Payload160(m) == (if 160 <= |kept| then kept[..160] else seq(160, _ => 0xD5))
            && Tick(m).buf == if 160 <= |kept| then kept[160..] else kept
  {
  }

  // ----- Delay --------------------------------------------------------------------------

  /** How many input bytes have been sent or trimmed. */
  function Consumed(m: Mic): nat { |BytesOf(m.fate)| }

  /** Input offset `end` has left, or lies within the complete frames of the buffer. */
  predicate InCompleteFrame(m: Mic, end: nat)
  {
    end <= Consumed(m) + |m.buf| / 160 * 160
  }

  /** `end` leaves within `k` ticks. */
  predicate DueWithin(m: Mic, end: nat, k: nat)
  {
    InCompleteFrame(m, end) && end <= Consumed(m) + FRAME * k
  }

  lemma TrimKeepsDue(m: Mic, end: nat)
    requires InCompleteFrame(m, end)
    ensures InCompleteFrame(Trim(m), end)
    ensures forall k: nat :: end <= Consumed(m) + FRAME * k ==> end <= Consumed(Trim(m)) + FRAME * k
    ensures DueWithin(Trim(m), end, 40)
  {
    if |m.buf| > HIGH_WATER {
      BytesOfSnoc(m.fate, Trimmed(m.buf[..|m.buf| - KEPT_AFTER_TRIM]));
    }
  }

  lemma EmitMakesProgress(m: Mic, end: nat, k: nat)
    requires DueWithin(m, end, k + 1)
    ensures DueWithin(Emit(m), end, k)
  {
    if FRAME <= |m.buf| {
      BytesOfSnoc(m.fate, Sent(m.buf[..FRAME]));
      assert (|m.buf| - FRAME) / FRAME == |m.buf| / FRAME - 1;
    }
  }

  function Ticks(events: seq<Event>): nat
    decreases events
  {
    if events == [] then 0 else (if events[0].Tock? then 1 else 0) + Ticks(events[1..])
  }

  lemma {:induction false} DueBytesLeave(m: Mic, end: nat, k: nat, events: seq<Event>)
    requires DueWithin(m, end, k) && k <= Ticks(events)
    ensures end <= Consumed(Run(m, events))
    decreases events
  {
    hide BytesOf, Trim, Emit;
    if events != [] {
      var next := Step(m, events[0]);
      if events[0].Arrival? {
        DueBytesLeave(next, end, k, events[1..]);
      } else {
        var drained := Drain(m);
        assert |m.buf| / FRAME <= |drained.buf| / FRAME;
        TrimKeepsDue(drained, end);
        var j := if k == 0 then 0 else k - 1;
        assert end <= Consumed(Trim(drained)) + FRAME * (j + 1);
        EmitMakesProgress(Trim(drained), end, j);
        DueBytesLeave(next, end, j, events[1..]);
      }
    }
  }

  /** Every complete frame present when a tick has drained the queue has been sent or trimmed by the time
      that tick and 39 more are over, whatever arrives meanwhile. */
  lemma LeavesWithinFortyTicks(m: Mic, end: nat, events: seq<Event>)
    requires InCompleteFrame(Drain(m), end)
    requires 39 <= Ticks(events)
    ensures end <= Consumed(Run(Tick(m), events))
  {
    hide BytesOf, Trim, Emit;
    TrimKeepsDue(Drain(m), end);
    EmitMakesProgress(Trim(Drain(m)), end, 39);
    DueBytesLeave(Tick(m), end, 39, events);
  }

  /** The sequence number and timestamp of the packet of tick `n`, counted from 0. */
  function TickNumber(n: nat): u16 { n % TWO_16 }

  function TickStamp(n: nat): u32 { FRAME * n % TWO_32 }

  /** `bytes.translate`: every byte looked up in a table. */
  function Translated(table: byte -> byte, payload: bytes): (r: bytes)
    ensures |r| == |payload| && forall i :: 0 <= i < |r| ==> r[i] == table(payload[i])
  {
    seq(|payload|, i requires 0 <= i < |payload| => table(payload[i]))
  }

  // ----- The two coroutines -------------------------------------------------------------

  /** The server's backchannel queue and the receiver's sending loop. The loop's locals are fields, so
      that packets can arrive between two ticks. */
  class MicSender {
    const backchannelQueue: Queue<bytes>
    const ulawToAlaw: byte -> byte
    var txBuf: bytes
    var number: nat
    var ts: u32
    var realCount: nat
    var silenceCount: nat
    const ssrc: u32
    ghost var history: Mic

    /** The history describes the queue and the buffer. */
    ghost predicate InStep()
      reads this`history, this`txBuf, backchannelQueue
    {
      history.queue == backchannelQueue.items && history.buf == txBuf
    }

    ghost predicate Valid()
      reads this, backchannelQueue
    {
      && backchannelQueue.maxsize == QUEUE_LIMIT
      && InStep() && Conserved(history)
      && history.ticks == number == realCount + silenceCount
      && ts == TickStamp(number)
      && realCount == SentFrames(history.fate)
    }

    constructor (ssrc: u32, ulawToAlaw: byte -> byte)
      ensures Valid() && history == START && fresh(backchannelQueue)
    {
      backchannelQueue := new Queue<bytes>(QUEUE_LIMIT);
      this.ssrc, this.ulawToAlaw := ssrc, ulawToAlaw;
      txBuf, number, ts, realCount, silenceCount := [], 0, 0, 0, 0;
      history := START;
    }

    /** The payload translated to A-law if it came as mu-law. */
    function Normalized(rtp: bytes): Option<bytes>
    {
      match BackchannelPayload(rtp)
      case None => None
      case Some(payload) =>
        if PayloadType(rtp) == PT_PCMU then Some(Translated(ulawToAlaw, payload)) else Some(payload)
    }

    method OnBackchannelRtp(rtp: bytes)
      requires Valid()
      modifies backchannelQueue, this`history
      ensures Valid()
      ensures history == match Normalized(rtp)
                         case None => old(history)
                         case Some(payload) => Arrive(old(history), payload)
    {
      var payload := Normalized(rtp);
      if payload.None? {
        return;
      }
      hide BytesOf, Normalized;
      ArriveConserves(history, payload.value);
      history := Arrive(history, payload.value);
      var ok := backchannelQueue.PutNowait(payload.value);
      if !ok {
        var oldest := backchannelQueue.GetNowait();
        ok := backchannelQueue.PutNowait(payload.value);
      }
    }

    /** Empties the queue into the smoothing buffer. */
    method DrainQueue()
      requires InStep()
      modifies backchannelQueue, this`txBuf, this`history
      ensures InStep() && history == Drain(old(history))
    {
      ghost var left := Concat(backchannelQueue.items);
      while backchannelQueue.items != []
        invariant history == old(history) && old(txBuf) + left == txBuf + Concat(backchannelQueue.items)
        decreases |backchannelQueue.items|
      {
        var payload := backchannelQueue.GetNowait();
        txBuf := txBuf + payload.value;
      }
      history := Drain(history);
    }

    /** Bounds the delay: beyond the high-water mark only the newest bytes are kept. */
    method TrimBuffer()
      requires InStep()
      modifies this`txBuf, this`history
      ensures InStep() && history == Trim(old(history))
    {
      if |txBuf| > HIGH_WATER {
        txBuf := txBuf[|txBuf| - KEPT_AFTER_TRIM..];
      }
      history := Trim(history);
    }

    /** One frame off the front of the buffer, or silence if there is none. */
    method TakeFrame() returns (payload: bytes)
      requires InStep() && realCount == SentFrames(history.fate)
      modifies this`txBuf, this`history, this`realCount, this`silenceCount
      ensures InStep() && history == Emit(old(history))
      ensures payload == if |old(txBuf)| < FRAME then Silence() else old(txBuf)[..FRAME]
      ensures realCount + silenceCount == old(realCount) + old(silenceCount) + 1
      ensures realCount == SentFrames(history.fate)
    {
      hide SentFrames, Silence;
      if |txBuf| >= FRAME {
        SentFramesSnoc(history.fate, Sent(txBuf[..FRAME]));
        payload := txBuf[..FRAME];
        txBuf := txBuf[FRAME..];
        realCount := realCount + 1;
      } else {
        payload := Silence();
        silenceCount := silenceCount + 1;
      }
      history := Emit(history);
    }

    /** One 20 ms tick: exactly one frame leaves, numbered and stamped by the tick alone. */
    method SendTick() returns (pkt: packet)
      requires Valid()
      modifies this, backchannelQueue
      ensures Valid() && history == Tick(old(history))
      ensures Payload(pkt) == Payload160(old(history)) && |Payload(pkt)| == 160
      ensures SequenceNumber(pkt) == old(history).ticks % 0x1_0000
      ensures Timestamp(pkt) == 160 * old(history).ticks % 0x1_0000_0000
      ensures Ssrc(pkt) == ssrc && Version(pkt) == 2 && PayloadType(pkt) == 8 && !Marker(pkt)
    {
      assert TickNumber(history.ticks) == history.ticks % 0x1_0000;
      assert TickStamp(history.ticks) == 160 * history.ticks % 0x1_0000_0000;
      hide InStep, Conserved, BuildRtp, Tick, Payload160, SentFrames, Payload, SequenceNumber, Timestamp, TickStamp,
           TickNumber;
      SameTicks(history);
      TickConserves(history);
      NextStamp(number);
      var payload := NextFrame();
      pkt := BuildRtp(PT_PCMA, TickNumber(number), ts, ssrc, payload, false);
      number := number + 1;
      ts := (ts + FRAME) % TWO_32;
    }

    /** The tick's work on queue and buffer. */
    method NextFrame() returns (payload: bytes)
      requires InStep() && realCount == SentFrames(history.fate)
      modifies backchannelQueue, this`txBuf, this`history, this`realCount, this`silenceCount
      ensures InStep() && history == Tick(old(history))
      ensures payload == Payload160(old(history)) && |payload| == FRAME
      ensures realCount + silenceCount == old(realCount) + old(silenceCount) + 1
      ensures realCount == SentFrames(history.fate)
    {
      TrimSendsNothing(Drain(history));
      SameTicks(history);
      hide Drain, Trim, Emit, SentFrames;
      DrainQueue();
      TrimBuffer();
      payload := TakeFrame();
    }
  }

  /** What is queued for a client's packet: nothing unless it is of type 0 or 8 and has a payload; that payload
      for type 8, and for type 0 the payload with every byte looked up in the table. */
  lemma NormalizedExactly(mic: MicSender, rtp: bytes)
    ensures mic.Normalized(rtp).Some? <==> BackchannelPayload(rtp).Some?
    ensures mic.Normalized(rtp).Some? ==> 12 <= |rtp| && ByteAt(rtp, 1) % 0x80 in {0, 8}
    ensures mic.Normalized(rtp).Some? && ByteAt(rtp, 1) % 0x80 == 8 ==> mic.Normalized(rtp) == BackchannelPayload(rtp)
    ensures mic.Normalized(rtp).Some? && ByteAt(rtp, 1) % 0x80 == 0 ==>
              var came, queued := BackchannelPayload(rtp).value, mic.Normalized(rtp).value;
              |queued| == |came| && forall i :: 0 <= i < |came| ==> queued[i] == mic.ulawToAlaw(came[i])
  {
  }

  lemma NextStamp(n: nat)
    ensures (TickStamp(n) + FRAME) % TWO_32 == TickStamp(n + 1)
  {
    AddModulo(FRAME * n, FRAME);
  }

  lemma TrimSendsNothing(m: Mic)
    ensures SentFrames(Trim(m).fate) == SentFrames(m.fate)
  {
    if |m.buf| > HIGH_WATER {
      assert Trim(m).fate[..|m.fate|] == m.fate;
    }
  }

  lemma SameTicks(m: Mic)
    ensures Drain(m).fate == m.fate && Tick(m).ticks == m.ticks + 1
  {
  }
}
