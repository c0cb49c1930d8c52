/** The RTSP server's sending side: sequence numbers, timestamps, Sender Report counters and the
    client list, updated in place by the feed loops, by resets and by clients coming and going. */
module RtspServer {
  import opened Bytes
  import opened Rtp
  import opened H264
  import opened AsyncQueue
  import opened VideoPaths
  import VideoClock
  import AudioClock

  const AUDIO_SSRC: u32 := 0xA0D10001
  const DEFAULT_SPS: bytes := [0x67, 0x42, 0x00, 0x1f, 0xe9, 0x02, 0x83, 0xf4, 0x02, 0xc4, 0x08, 0x4a]
  const DEFAULT_PPS: bytes := [0x68, 0xce, 0x38, 0x80]

  /** Who was given a video sequence number: every client of the moment, or one being primed. */
  datatype Handout = ToAll | ToOne(client: TcpClient, delivered: bool)

  /** A write goes through if the interleaved frame's header can hold channel and length and the transport
      does not raise. */
  predicate Accepts(channel: Option<int>, verdicts: seq<bool>, pkt: packet)
  {
    channel.Some? && 0 <= channel.value < 0x100 && |pkt| < TWO_16 && (verdicts == [] || verdicts[0])
  }

  function Later(verdicts: seq<bool>): seq<bool> { if verdicts == [] then [] else verdicts[1..] }

  class TcpClient {
    const videoCh: Option<int>
    const audioCh: Option<int>
    var closing: bool
    /** What the transport will do at the coming writes: raise at a false one, accept at a true one and
        when there are no more. */
    var verdicts: seq<bool>
    /** The packets the transport accepted. */
    var video: seq<packet>
    var audio: seq<packet>

    /** The length of the server's handout log when the client joined, and the positions in that log
        of the video packets it received. */
    ghost var joined: nat
    ghost var seen: seq<nat>

    constructor (videoCh: Option<int>, audioCh: Option<int>, verdicts: seq<bool>)
      ensures this.videoCh == videoCh && this.audioCh == audioCh && this.verdicts == verdicts
      ensures video == [] && audio == []
    {
      this.videoCh, this.audioCh, this.verdicts := videoCh, audioCh, verdicts;
      closing, video, audio, joined, seen := false, [], [], 0, [];
    }

    function Channel(isVideo: bool): Option<int> { if isVideo then videoCh else audioCh }

    /** Whether a broadcast packet reaches the client. */
    predicate Gets(isVideo: bool, pkt: packet)
      reads this`closing, this`verdicts
    {
      Channel(isVideo).Some? && !closing && Accepts(Channel(isVideo), verdicts, pkt)
    }

    /** Whether the client survives the broadcast: it got the packet, or has no such channel. */
    predicate Stays(isVideo: bool, pkt: packet)
      reads this`closing, this`verdicts
    {
      Channel(isVideo).None? || Gets(isVideo, pkt)
    }

    /** Writes one interleaved frame. */
    method Write(isVideo: bool, pkt: packet, ghost position: nat) returns (ok: bool)
      modifies this`video, this`audio, this`seen, this`verdicts
      ensures ok == Accepts(Channel(isVideo), old(verdicts), pkt) && verdicts == Later(old(verdicts))
      ensures video == old(video) + Taken(isVideo && ok, pkt) && audio == old(audio) + Taken(!isVideo && ok, pkt)
      ensures seen == old(seen) + Taken(isVideo && ok, position)
    {
      ok := Accepts(Channel(isVideo), verdicts, pkt);
      verdicts := Later(verdicts);
      if ok {
        if isVideo {
          video := video + [pkt];
          seen := seen + [position];
        } else {
          audio := audio + [pkt];
        }
      }
    }

    /** The client's part of a broadcast. */
    method Offer(isVideo: bool, pkt: packet, ghost position: nat) returns (stays: bool)
      modifies this`video, this`audio, this`seen, this`verdicts
      ensures stays == old(Stays(isVideo, pkt))
      ensures Offered(isVideo, pkt, position, old(Gets(isVideo, pkt)), old(video), old(audio), old(seen))
    {
      if Channel(isVideo).None? {
        return true;
      }
      if closing {
        return false;
      }
      stays := Write(isVideo, pkt, position);
    }

    /** How the client is after a packet was offered to it, given how it was before. */
    ghost predicate Offered(isVideo: bool, pkt: packet, position: nat, gets: bool,
                            video0: seq<packet>, audio0: seq<packet>, seen0: seq<nat>)
      reads this`video, this`audio, this`seen
    {
      && video == video0 + Taken(isVideo && gets, pkt)
      && audio == audio0 + Taken(!isVideo && gets, pkt)
      && seen == seen0 + Taken(isVideo && gets, position)
    }
  }

  function Taken<T>(taken: bool, x: T): seq<T> { if taken then [x] else [] }

  /** Whether `h` reached `c`, a client that was active with a video channel. */
  ghost predicate Reaches(h: Handout, c: TcpClient)
  {
    h == ToAll || h == ToOne(c, true)
  }

  /** The positions from `joined` on that reached `c`. */
  ghost function Received(log: seq<Handout>, c: TcpClient, joined: nat): seq<nat>
    decreases |log|
  {
    if |log| <= joined then []
    else
      Received(log[..|log| - 1], c, joined) + if Reaches(log[|log| - 1], c) then [|log| - 1] else []
  }

  /** One more handout: what it adds to a client's positions. */
  lemma ReceivedSnoc(log: seq<Handout>, h: Handout, c: TcpClient, joined: nat)
    requires joined <= |log|
    ensures Received(log + [h], c, joined)
            == Received(log, c, joined) + if Reaches(h, c) then [|log|] else []
  {
    assert (log + [h])[..|log|] == log;
  }

  // ----- Priming ------------------------------------------------------------------------

  /** What priming does: the writes' outcomes in order, the packets accepted, the verdicts left. */
  datatype Primed = Primed(outcomes: seq<bool>, packets: seq<packet>, verdicts: seq<bool>)

  /** Sends the non-empty NALs one after the other until a write fails. */
  function Prime(channel: Option<int>, nals: seq<bytes>, verdicts: seq<bool>, number: u16, ts: u32): Primed
    decreases nals
  {
    if nals == [] then Primed([], [], verdicts)
    else if nals[0] == [] then Prime(channel, nals[1..], verdicts, number, ts)
    else
      var pkt := BuildRtp(PT_VIDEO, number, ts, VIDEO_SSRC, nals[0], false);
      if !Accepts(channel, verdicts, pkt) then Primed([false], [], Later(verdicts))
      else
        var rest := Prime(channel, nals[1..], Later(verdicts), NextNumber(number), ts);
        Primed([true] + rest.outcomes, [pkt] + rest.packets, rest.verdicts)
  }

  /** A client without a video channel is not primed. */
  function PrimeClient(channel: Option<int>, nals: seq<bytes>, verdicts: seq<bool>, number: u16, ts: u32): Primed
  {
    if channel.None? then Primed([], [], verdicts) else Prime(channel, nals, verdicts, number, ts)
  }

  function Handouts(client: TcpClient, outcomes: seq<bool>): seq<Handout>
  {
    seq(|outcomes|, i requires 0 <= i < |outcomes| => ToOne(client, outcomes[i]))
  }

  /** The handouts of priming stand in the log from `start` on. */
  ghost predicate PrimedIn(log: seq<Handout>, c: TcpClient, p: Primed, start: nat)
  {
    start + |p.outcomes| <= |log| && log[start..start + |p.outcomes|] == Handouts(c, p.outcomes)
  }

  lemma PrimedGrows(log: seq<Handout>, longer: seq<Handout>, c: TcpClient, p: Primed, start: nat)
    requires log <= longer && PrimedIn(log, c, p, start)
    ensures PrimedIn(longer, c, p, start)
  {
    assert longer[..|log|] == log;
    assert longer[start..start + |p.outcomes|] == log[start..start + |p.outcomes|];
  }

  /** All the packets priming would send. */
  function AllPrimes(nals: seq<bytes>, number: u16, ts: u32): seq<packet>
    decreases nals
  {
    if nals == [] then []
    else if nals[0] == [] then AllPrimes(nals[1..], number, ts)
    else [BuildRtp(PT_VIDEO, number, ts, VIDEO_SSRC, nals[0], false)] + AllPrimes(nals[1..], NextNumber(number), ts)
  }

  /** The packets sent are the first of `all`, with a failed write after them unless they are all. */
  predicate StopsAtFailure(p: Primed, all: seq<packet>)
  {
    && p.packets <= all
    && |p.packets| <= |p.outcomes|
    && (forall i :: 0 <= i < |p.packets| ==> p.outcomes[i])
    && (if p.packets == all then |p.outcomes| == |all|
        else |p.outcomes| == |p.packets| + 1 && !p.outcomes[|p.packets|])
  }

  lemma StopsLater(p: Primed, all: seq<packet>, pkt: packet)
    requires StopsAtFailure(p, all)
    ensures StopsAtFailure(Primed([true] + p.outcomes, [pkt] + p.packets, p.verdicts), [pkt] + all)
  {
    assert [pkt] + p.packets == [pkt] + all ==> ([pkt] + p.packets)[1..] == p.packets && ([pkt] + all)[1..] == all;
  }

  lemma StopsNow(verdicts: seq<bool>, all: seq<packet>, pkt: packet)
    ensures StopsAtFailure(Primed([false], [], verdicts), [pkt] + all)
  {
  }

  /** Priming sends each non-empty parameter set at most once and in order; nothing follows a failed write,
      and without one nothing is missing. */
  lemma {:induction false} PrimingStopsAtFailure(channel: Option<int>, nals: seq<bytes>, verdicts: seq<bool>,
                                                 number: u16, ts: u32)
    ensures StopsAtFailure(Prime(channel, nals, verdicts, number, ts), AllPrimes(nals, number, ts))
    decreases nals
  {
    hide BuildRtp, Accepts, NextNumber, Later;
    if nals != [] {
      hide StopsAtFailure;
      if nals[0] == [] {
        PrimingStopsAtFailure(channel, nals[1..], verdicts, number, ts);
      } else {
        var pkt := BuildRtp(PT_VIDEO, number, ts, VIDEO_SSRC, nals[0], false);
        var more := AllPrimes(nals[1..], NextNumber(number), ts);
        PrimingStopsAtFailure(channel, nals[1..], Later(verdicts), NextNumber(number), ts);
        StopsLater(Prime(channel, nals[1..], Later(verdicts), NextNumber(number), ts), more, pkt);
        StopsNow(Later(verdicts), more, pkt);
      }
    }
  }

  /** A parameter set as it is sent: of type 96, without the marker, from the server's video source. */
  predicate IsPrime(p: packet, nal: bytes, number: int, ts: u32)
  {
    && Version(p) == 2 && PayloadType(p) == 96 && !Marker(p) && Ssrc(p) == 0xC0DE_1234
    && SequenceNumber(p) == number && Timestamp(p) == ts && Payload(p) == nal
  }

  function NonEmpty(nals: seq<bytes>): seq<bytes>
  {
    if nals == [] then [] else Taken(nals[0] != [], nals[0]) + NonEmpty(nals[1..])
  }

  predicate ArePrimes(all: seq<packet>, sets: seq<bytes>, number: u16, ts: u32)
  {
    |all| == |sets| && forall i :: 0 <= i < |all| ==> IsPrime(all[i], sets[i], (number + i) % 0x1_0000, ts)
  }

  lemma NumberOf(number: u16, i: nat)
    ensures (NextNumber(number) + i) % 0x1_0000 == (number + (i + 1)) % 0x1_0000
  {
  }

  lemma PrimesGrow(first: packet, rest: seq<packet>, nal: bytes, sets: seq<bytes>, number: u16, ts: u32)
    requires IsPrime(first, nal, number, ts) && ArePrimes(rest, sets, NextNumber(number), ts)
    ensures ArePrimes([first] + rest, [nal] + sets, number, ts)
  {
    hide IsPrime, NextNumber;
    var all, more := [first] + rest, [nal] + sets;
    forall i | 0 <= i < |all|
      ensures IsPrime(all[i], more[i], (number + i) % 0x1_0000, ts)
    {
      if i > 0 {
        NumberOf(number, i - 1);
        assert all[i] == rest[i - 1] && more[i] == sets[i - 1];
      }
    }
  }

  /** All the packets priming would send are the parameter sets there are, in order and numbered in order. */
  lemma {:induction false} PrimesOfSets(nals: seq<bytes>, number: u16, ts: u32)
    ensures ArePrimes(AllPrimes(nals, number, ts), NonEmpty(nals), number, ts)
    decreases nals
  {
    hide BuildRtp, IsPrime, ArePrimes, NextNumber;
    if nals == [] {
      NoPrimes(number, ts);
    } else if nals[0] == [] {
      PrimesOfSets(nals[1..], number, ts);
      assert [] + NonEmpty(nals[1..]) == NonEmpty(nals[1..]);
    } else {
      PrimeLooks(nals[0], number, ts);
      PrimesOfSets(nals[1..], NextNumber(number), ts);
      PrimesGrow(BuildRtp(PT_VIDEO, number, ts, VIDEO_SSRC, nals[0], false),
                 AllPrimes(nals[1..], NextNumber(number), ts), nals[0], NonEmpty(nals[1..]), number, ts);
    }
  }

  lemma NoPrimes(number: u16, ts: u32)
    ensures ArePrimes([], [], number, ts)
  {
  }

  lemma PrimeLooks(nal: bytes, number: u16, ts: u32)
    ensures IsPrime(BuildRtp(PT_VIDEO, number, ts, VIDEO_SSRC, nal, false), nal, number, ts)
  {
  }

  /** Two parameter sets, unfolded. */
  lemma PrimeTwo(channel: Option<int>, sps: bytes, pps: bytes, verdicts: seq<bool>, number: u16, ts: u32)
    ensures var p := Prime(channel, [sps, pps], verdicts, number, ts);
            if sps == [] then p == PrimeOne(channel, pps, verdicts, number, ts)
            else
              var first := BuildRtp(PT_VIDEO, number, ts, VIDEO_SSRC, sps, false);
              if !Accepts(channel, verdicts, first) then p == Primed([false], [], Later(verdicts))
              else
                var rest := PrimeOne(channel, pps, Later(verdicts), NextNumber(number), ts);
                p == Primed([true] + rest.outcomes, [first] + rest.packets, rest.verdicts)
  {
    hide BuildRtp, Accepts;
    assert [sps, pps][1..] == [pps];
    PrimeLast(channel, pps, verdicts, number, ts);
    PrimeLast(channel, pps, Later(verdicts), NextNumber(number), ts);
    hide PrimeOne;
  }

  lemma PrimeLast(channel: Option<int>, nal: bytes, verdicts: seq<bool>, number: u16, ts: u32)
    ensures Prime(channel, [nal], verdicts, number, ts) == PrimeOne(channel, nal, verdicts, number, ts)
  {
    hide BuildRtp, Accepts;
    assert [nal][1..] == [];
    assert [true] + [] == [true];
    assert forall pkt: packet :: [pkt] + [] == [pkt];
  }

  function PrimeOne(channel: Option<int>, nal: bytes, verdicts: seq<bool>, number: u16, ts: u32): Primed
  {
    if nal == [] then Primed([], [], verdicts)
    else
      var pkt := BuildRtp(PT_VIDEO, number, ts, VIDEO_SSRC, nal, false);
      var ok := Accepts(channel, verdicts, pkt);
      Primed([ok], Taken(ok, pkt), Later(verdicts))
  }

  function PayloadOctets(packets: seq<packet>): nat
    decreases |packets|
  {
    if packets == [] then 0
    else PayloadOctets(packets[..|packets| - 1]) + |Payload(packets[|packets| - 1])|
  }

  function Without<T(==)>(list: seq<T>, gone: set<T>): (rest: seq<T>)
    ensures forall i :: 0 <= i < |rest| ==> rest[i] in list && rest[i] !in gone
    ensures forall i :: 0 <= i < |list| && list[i] !in gone ==> list[i] in rest
    ensures Distinct(list) ==> Distinct(rest)
    decreases |list|
  {
    if list == [] then []
    else
      var last := list[|list| - 1];
      var rest := Without(list[..|list| - 1], gone);
      assert list == list[..|list| - 1] + [last];
      if last in gone then rest else rest + [last]
  }

  predicate Distinct<T(==)>(list: seq<T>)
  {
    forall i, j :: 0 <= i < j < |list| ==> list[i] != list[j]
  }

  class LocalRtspServer {
    const nalQueue: Queue<TimedNal>
    const rtpQueue: Queue<bytes>
    const audioQueue: Queue<bytes>
    var activeClients: seq<TcpClient>
    var latestSps: bytes
    var latestPps: bytes
    var videoSeq: u16
    var videoTsOut: u32
    var videoTsOffset: u32
    var lastDeviceTs: Option<u32>
    var videoTsRebasePending: bool
    var videoPktCount: nat
    var videoOctetCount: nat
    var audioPktCount: nat
    var audioOctetCount: nat
    var audioSeq: u16
    var audioTs: u32
    var lastAudioSendMono: Option<real>
    var lastAudioSendTs: u32

    /** Every video sequence number handed out, every video packet broadcast, and how many had been
        broadcast at the last reset; every audio packet broadcast. */
    ghost var log: seq<Handout>
    ghost var sent: seq<packet>
    ghost var mark: nat
    ghost var audioSent: seq<packet>
    ghost var audioMark: nat

    function VideoState(): VideoClock.Clock
      reads this`videoTsOut, this`videoTsOffset, this`lastDeviceTs, this`videoTsRebasePending
    {
      VideoClock.Clock(videoTsOut, videoTsOffset, lastDeviceTs, videoTsRebasePending)
    }

    function AudioState(): AudioClock.Clock
      reads this`audioTs, this`lastAudioSendMono, this`lastAudioSendTs
    {
      AudioClock.Clock(audioTs, lastAudioSendMono, lastAudioSendTs)
    }

    /** A client has exactly the packets handed to it since it joined, numbered by their position. */
    ghost predicate InStep(c: TcpClient)
      reads this`log, c
    {
      && c.joined <= |log|
      && (c.videoCh.Some? ==> c.seen == Received(log, c, c.joined))
      && |c.video| == |c.seen|
      && (forall k :: 0 <= k < |c.seen| ==> SequenceNumber(c.video[k]) == c.seen[k] % TWO_16)
    }

    ghost function Clients(): set<TcpClient>
      reads this`activeClients
    {
      set c | c in activeClients
    }

    ghost predicate ClientsInStep()
      reads this`log, this`activeClients, activeClients
    {
      Distinct(activeClients) && forall c :: c in activeClients ==> InStep(c)
    }

    /** Numbers are consecutive, and the Sender Report counters total what was broadcast since the
        last reset. */
    ghost predicate Accounts()
      reads this`log, this`sent, this`mark, this`videoSeq, this`videoPktCount, this`videoOctetCount
    {
      && videoSeq == |log| % TWO_16
      && mark <= |sent|
      && videoPktCount == |sent| - mark
      && videoOctetCount == PayloadOctets(sent[mark..])
    }

    ghost predicate AudioAccounts()
      reads this`audioMark, this`audioSent, this`audioPktCount, this`audioOctetCount
    {
      && audioMark <= |audioSent|
      && audioPktCount == |audioSent| - audioMark
      && audioOctetCount == PayloadOctets(audioSent[audioMark..])
    }

    ghost predicate Valid()
      reads this, activeClients
    {
      ClientsInStep() && Accounts() && AudioAccounts() && VideoClock.Locked(VideoState()) && rtpQueue != audioQueue
    }

    constructor ()
      ensures Valid() && activeClients == [] && VideoState() == VideoClock.INITIAL && AudioState() == AudioClock.INITIAL
      ensures log == [] && sent == [] && videoSeq == 0 && audioSeq == 0
      ensures fresh(nalQueue) && fresh(rtpQueue) && fresh(audioQueue)
      ensures nalQueue.maxsize == 300 && rtpQueue.maxsize == 500 && audioQueue.maxsize == 500
    {
      nalQueue := new Queue<TimedNal>(300);
      rtpQueue := new Queue<bytes>(500);
      audioQueue := new Queue<bytes>(500);
      activeClients := [];
      latestSps, latestPps := DEFAULT_SPS, DEFAULT_PPS;
      videoSeq, audioSeq := 0, 0;
      videoTsOut, videoTsOffset, lastDeviceTs, videoTsRebasePending := 0, 0, None, false;
      videoPktCount, videoOctetCount, audioPktCount, audioOctetCount := 0, 0, 0, 0;
      audioTs, lastAudioSendMono, lastAudioSendTs := 0, None, 0;
      log, sent, mark, audioSent, audioMark := [], [], 0, [], 0;
    }

    // ----- Broadcasting -----------------------------------------------------------------

    /** Writes one packet to every client with a channel for it. Exactly the clients that got it or have no
        such channel remain. */
    method Broadcast(isVideo: bool, pkt: packet)
      requires ClientsInStep() && (isVideo ==> SequenceNumber(pkt) == |log| % TWO_16)
      modifies this`log, this`sent, this`activeClients, Clients()
      ensures ClientsInStep() && Clients() <= old(Clients())
      ensures log == old(log) + Taken(isVideo, ToAll) && sent == old(sent) + Taken(isVideo, pkt)
      ensures forall c :: c in old(Clients()) ==> (c in Clients() <==> old(c.Stays(isVideo, pkt)))
      ensures forall c :: c in old(Clients()) ==>
                c.Offered(isVideo, pkt, |old(log)|, old(c.Gets(isVideo, pkt)), old(c.video), old(c.audio), old(c.seen))
    {
      hide Accepts, SequenceNumber, TcpClient.Gets, TcpClient.Stays;
      forall c | c in activeClients
        ensures c.Stays(isVideo, pkt) && c.Channel(isVideo).Some? ==> c.Gets(isVideo, pkt)
      {
        StaysIfGets(isVideo, c, pkt);
      }
      var dead := OfferToAll(isVideo, pkt, |log|);
      if isVideo {
        log := log + [ToAll];
        sent := sent + [pkt];
      }
      activeClients := Without(activeClients, dead);
      forall c | c in activeClients
        ensures InStep(c)
      {
        if isVideo {
          ReceivedSnoc(old(log), ToAll, c, c.joined);
        }
      }
    }

    lemma StaysIfGets(isVideo: bool, c: TcpClient, pkt: packet)
      ensures c.Stays(isVideo, pkt) && c.Channel(isVideo).Some? ==> c.Gets(isVideo, pkt)
    {
    }

    /** Offers the packet to every client in turn, and returns those that are to be dropped. */
    method OfferToAll(isVideo: bool, pkt: packet, ghost position: nat) returns (dead: set<TcpClient>)
      requires Distinct(activeClients)
      modifies Clients()
      ensures forall c :: c in Clients() ==> (c in dead <==> !old(c.Stays(isVideo, pkt)))
      ensures forall c :: c in Clients() ==> c.joined == old(c.joined)
      ensures forall c :: c in Clients() ==>
                c.Offered(isVideo, pkt, position, old(c.Gets(isVideo, pkt)), old(c.video), old(c.audio), old(c.seen))
    {
      hide TcpClient.Gets, TcpClient.Stays, TcpClient.Offered;
      dead := {};
      var i := 0;
      while i < |activeClients|
        invariant 0 <= i <= |activeClients|
        invariant forall j :: 0 <= j < |activeClients| ==>
                    (activeClients[j] in dead <==> j < i && !old(activeClients[j].Stays(isVideo, pkt)))
        invariant forall j :: 0 <= j < i ==>
                    activeClients[j].Offered(isVideo, pkt, position, old(activeClients[j].Gets(isVideo, pkt)),
                                             old(activeClients[j].video), old(activeClients[j].audio),
                                             old(activeClients[j].seen))
        invariant forall j :: i <= j < |activeClients| ==> unchanged(activeClients[j])
        invariant forall j :: 0 <= j < |activeClients| ==> activeClients[j].joined == old(activeClients[j].joined)
      {
        var c := activeClients[i];
        var stays := c.Offer(isVideo, pkt, position);
        if !stays {
          dead := dead + {c};
        }
        i := i + 1;
      }
    }

    /** Builds, numbers, broadcasts and counts one video packet. */
    method SendVideo(payload: bytes, marker: bool)
      requires Valid()
      modifies this`videoSeq, this`videoPktCount, this`videoOctetCount
      modifies this`log, this`sent, this`activeClients, Clients()
      ensures Valid() && videoSeq == NextNumber(old(videoSeq)) && log == old(log) + [ToAll]
      ensures sent == old(sent) + [BuildRtp(PT_VIDEO, old(videoSeq), videoTsOut, VIDEO_SSRC, payload, marker)]
      ensures Clients() <= old(Clients())
      ensures var pkt := BuildRtp(PT_VIDEO, old(videoSeq), videoTsOut, VIDEO_SSRC, payload, marker);
              forall c :: c in old(Clients()) ==>
                && (c in Clients() <==> old(c.Stays(true, pkt)))
                && c.video == old(c.video) + Taken(old(c.Gets(true, pkt)), pkt)
    {
      hide BuildRtp, ClientsInStep, PayloadOctets, VideoClock.Locked, SequenceNumber, AudioAccounts, Accepts,
           TcpClient.Gets, TcpClient.Stays;
      var pkt := BuildRtp(PT_VIDEO, videoSeq, videoTsOut, VIDEO_SSRC, payload, marker);
      videoSeq := (videoSeq + 1) % TWO_16;
      CountPacket(pkt);
    }

    /** The rest of sending a packet that carries the number before `videoSeq`. */
    method CountPacket(pkt: packet)
      requires ClientsInStep() && SequenceNumber(pkt) == |log| % TWO_16
      requires mark <= |sent| && videoPktCount == |sent| - mark && videoOctetCount == PayloadOctets(sent[mark..])
      modifies this`videoPktCount, this`videoOctetCount
      modifies this`log, this`sent, this`activeClients, Clients()
      ensures ClientsInStep() && log == old(log) + [ToAll] && sent == old(sent) + [pkt]
      ensures videoPktCount == |sent| - mark && videoOctetCount == PayloadOctets(sent[mark..])
      ensures Clients() <= old(Clients())
      ensures forall c :: c in old(Clients()) ==>
                && (c in Clients() <==> old(c.Stays(true, pkt)))
                && c.video == old(c.video) + Taken(old(c.Gets(true, pkt)), pkt)
    {
      hide ClientsInStep, Payload, SequenceNumber;
      Broadcast(true, pkt);
      videoPktCount := videoPktCount + 1;
      videoOctetCount := videoOctetCount + |Payload(pkt)|;
      assert sent[mark..][..|sent| - mark - 1] == old(sent)[mark..];
    }

    // ----- The NAL-based path -----------------------------------------------------------

    method TranslateVideoTs(deviceTs: u32)
      requires VideoClock.Locked(VideoState())
      modifies this`videoTsOut, this`videoTsOffset, this`lastDeviceTs, this`videoTsRebasePending
      ensures VideoState() == VideoClock.Translate(old(VideoState()), deviceTs)
      ensures VideoClock.Locked(VideoState())
    {
      if lastDeviceTs.None? || videoTsRebasePending {
        videoTsOffset := (videoTsOut + 1 - deviceTs) % TWO_32;
        videoTsRebasePending := false;
      } else {
        var ahead := (deviceTs - lastDeviceTs.value) % TWO_32;
        if ahead > TWO_31 {
          videoTsOffset := (videoTsOut + 1 - deviceTs) % TWO_32;
        }
      }
      lastDeviceTs := Some(deviceTs);
      videoTsOut := (deviceTs + videoTsOffset) % TWO_32;
    }

    /** Packetizes one NAL unit and broadcasts the packets. */
    method SendH264(nal: bytes)
      requires Valid()
      modifies this`videoSeq, this`videoPktCount, this`videoOctetCount
      modifies this`log, this`sent, this`activeClients, Clients()
      ensures Valid()
      ensures sent == old(sent) + Packetize(nal, old(videoSeq), videoTsOut)
      ensures videoSeq == Advance(old(videoSeq), |Packetize(nal, old(videoSeq), videoTsOut)|)
      ensures Clients() <= old(Clients())
    {
      if |nal| <= MAX_RTP_PAYLOAD {
        hide BuildRtp, Valid;
        SendVideo(nal, true);
      } else {
        SendFragments(nal);
      }
    }

    method SendFragments(nal: bytes)
      requires Valid() && MAX_RTP_PAYLOAD < |nal|
      modifies this`videoSeq, this`videoPktCount, this`videoOctetCount
      modifies this`log, this`sent, this`activeClients, Clients()
      ensures Valid()
      ensures sent == old(sent) + Packetize(nal, old(videoSeq), videoTsOut)
      ensures videoSeq == Advance(old(videoSeq), |Packetize(nal, old(videoSeq), videoTsOut)|)
      ensures Clients() <= old(Clients())
    {
      hide BuildRtp, FragmentPayload, Valid, FragmentsFrom, Packetize, FragmentsRemain, Advance, NextNumber;
      var payload := nal[1..];
      var offset := 0;
      var first := true;
      ghost var all := Packetize(nal, videoSeq, videoTsOut);
      ghost var done: seq<packet> := [];
      FragmentsBegin(nal, videoSeq, videoTsOut);
      AdvanceOne(videoSeq, 0);
      while offset < |payload|
        invariant 0 <= offset <= |payload| && first == (offset == 0)
        invariant Valid() && sent == old(sent) + done && videoSeq == Advance(old(videoSeq), |done|)
        invariant FragmentsRemain(all, done, nal, offset, videoSeq, videoTsOut)
        invariant Clients() <= old(Clients())
        decreases |payload| - offset
      {
        FragmentProgress(all, done, nal, offset, videoSeq, videoTsOut);
        AdvanceOne(old(videoSeq), |done|);
        var chunk := payload[offset..if offset + MAX_CHUNK <= |payload| then offset + MAX_CHUNK else |payload|];
        offset := offset + |chunk|;
        var last := offset >= |payload|;
        SendVideo(FragmentPayload(nal[0], first, last, chunk), last);
        done := done + [sent[|sent| - 1]];
        first := false;
      }
      FragmentsEnd(all, done, nal, offset, videoSeq, videoTsOut);
    }

    /** Sends everything in the NAL queue: strip the start code, translate, packetize. */
    method DrainNalQueueFallback()
      requires Valid()
      modifies this, nalQueue, Clients()
      ensures Valid() && nalQueue.items == []
      ensures var repacked := RepackAll(old(VideoState()), old(videoSeq), old(nalQueue.items));
              && sent == old(sent) + repacked.packets
              && VideoState() == repacked.clock && videoSeq == repacked.number
      ensures latestSps == KeptOfNals(7, old(latestSps), old(nalQueue.items))
      ensures latestPps == KeptOfNals(8, old(latestPps), old(nalQueue.items))
    {
      hide Valid, RepackOne, KeptOfNal;
      ghost var all := RepackAll(VideoState(), videoSeq, nalQueue.items);
      ghost var done: seq<packet> := [];
      while nalQueue.items != []
        invariant Valid() && sent == old(sent) + done
        invariant Clients() <= old(Clients())
        invariant RepackRemains(all, done, VideoState(), videoSeq, nalQueue.items)
        invariant KeptOfNals(7, latestSps, nalQueue.items) == KeptOfNals(7, old(latestSps), old(nalQueue.items))
        invariant KeptOfNals(8, latestPps, nalQueue.items) == KeptOfNals(8, old(latestPps), old(nalQueue.items))
        decreases |nalQueue.items|
      {
        hide RepackRemains;
        RepackProgress(all, done, VideoState(), videoSeq, nalQueue.items);
        var item := nalQueue.GetNowait();
        RepackItem(item.value);
        done := done + sent[|old(sent)| + |done|..];
      }
    }

    /** One iteration of the NAL-based path: strip the start code, cache parameter sets, translate and
        packetize. */
    method RepackItem(item: TimedNal)
      requires Valid()
      modifies this, Clients()
      ensures Valid() && Clients() <= old(Clients())
      ensures var repacked := RepackOne(old(VideoState()), old(videoSeq), item);
              && sent == old(sent) + repacked.packets
              && VideoState() == repacked.clock && videoSeq == repacked.number
      ensures latestSps == KeptOfNal(7, old(latestSps), item) && latestPps == KeptOfNal(8, old(latestPps), item)
    {
      hide VideoClock.Translate, VideoClock.Locked, Packetize, ClientsInStep, PayloadOctets;
      var nal := StripStartCode(item.nal);
      if nal == [] {
        return;
      }
      if NalType(nal[0]) == 7 {
        latestSps := nal;
      } else if NalType(nal[0]) == 8 {
        latestPps := nal;
      }
      TranslateVideoTs(item.ts);
      SendH264(nal);
    }

    // ----- The pass-through path --------------------------------------------------------

    /** One iteration of the pass-through loop: forward one raw packet under a rewritten header. */
    method ForwardPacket(rtp: bytes)
      requires Valid()
      modifies this, Clients()
      ensures Valid() && Clients() <= old(Clients())
      ensures var forwarded := ForwardOne(old(VideoState()), old(videoSeq), rtp);
              && sent == old(sent) + forwarded.packets
              && VideoState() == forwarded.clock && videoSeq == forwarded.number
      ensures latestSps == KeptOfPacket(7, old(latestSps), rtp) && latestPps == KeptOfPacket(8, old(latestPps), rtp)
    {
      hide Valid, Rewrite, VideoClock.Translate, Timestamp;
      if |rtp| < HEADER_LEN {
        return;
      }
      var payload := rtp[HEADER_LEN..];
      if payload == [] {
        return;
      }
      CacheParameterSet(payload);
      SendRewritten(rtp);
    }

    /** Keeps the latest SPS and PPS that came in a packet of their own. */
    method CacheParameterSet(payload: bytes)
      requires payload != [] && Valid()
      modifies this`latestSps, this`latestPps
      ensures latestSps == if NalType(payload[0]) == 7 && |payload| > 1 then payload else old(latestSps)
      ensures latestPps == if NalType(payload[0]) == 8 && |payload| > 1 then payload else old(latestPps)
      ensures Valid()
    {
      hide ClientsInStep, PayloadOctets, VideoClock.Locked;
      if NalType(payload[0]) == 7 && |payload| > 1 {
        latestSps := payload;
      } else if NalType(payload[0]) == 8 && |payload| > 1 {
        latestPps := payload;
      }
    }

    /** Translates a device packet's timestamp, rewrites its header and broadcasts it. */
    method SendRewritten(rtp: packet)
      requires Valid()
      modifies this`videoTsOut, this`videoTsOffset, this`lastDeviceTs, this`videoTsRebasePending
      modifies this`videoSeq, this`videoPktCount, this`videoOctetCount
      modifies this`log, this`sent, this`activeClients, Clients()
      ensures Valid() && Clients() <= old(Clients())
      ensures VideoState() == VideoClock.Translate(old(VideoState()), Timestamp(rtp))
      ensures sent == old(sent) + [Rewrite(rtp, old(videoSeq), videoTsOut)] && videoSeq == NextNumber(old(videoSeq))
    {
      hide Rewrite, VideoClock.Translate, VideoClock.Locked, ClientsInStep, PayloadOctets, Timestamp, SequenceNumber,
           Payload, AudioAccounts, Accepts, TcpClient.Gets, TcpClient.Stays;
      TranslateVideoTs(Timestamp(rtp));
      var pkt := Rewrite(rtp, videoSeq, videoTsOut);
      videoSeq := (videoSeq + 1) % TWO_16;
      CountPacket(pkt);
    }

    /** Forwards everything in the raw packet queue. */
    method DrainRtpQueue()
      requires Valid()
      modifies this, rtpQueue, Clients()
      ensures Valid() && rtpQueue.items == []
      ensures var forwarded := ForwardAll(old(VideoState()), old(videoSeq), old(rtpQueue.items));
              && sent == old(sent) + forwarded.packets
              && VideoState() == forwarded.clock && videoSeq == forwarded.number
      ensures latestSps == KeptOfPackets(7, old(latestSps), old(rtpQueue.items))
      ensures latestPps == KeptOfPackets(8, old(latestPps), old(rtpQueue.items))
    {
      hide Valid, ForwardOne, KeptOfPacket;
      ghost var all := ForwardAll(VideoState(), videoSeq, rtpQueue.items);
      ghost var done: seq<packet> := [];
      while rtpQueue.items != []
        invariant Valid() && sent == old(sent) + done
        invariant Clients() <= old(Clients())
        invariant ForwardRemains(all, done, VideoState(), videoSeq, rtpQueue.items)
        invariant KeptOfPackets(7, latestSps, rtpQueue.items) == KeptOfPackets(7, old(latestSps), old(rtpQueue.items))
        invariant KeptOfPackets(8, latestPps, rtpQueue.items) == KeptOfPackets(8, old(latestPps), old(rtpQueue.items))
        decreases |rtpQueue.items|
      {
        hide ForwardRemains;
        ForwardProgress(all, done, VideoState(), videoSeq, rtpQueue.items);
        var rtp := rtpQueue.GetNowait();
        ForwardPacket(rtp.value);
        done := done + sent[|old(sent)| + |done|..];
      }
    }

    // ----- Clients joining, priming and reset -------------------------------------------

    /** Hands one number to `client` alone. */
    method PrimeWith(client: TcpClient, nal: bytes) returns (ok: bool)
      requires Valid() && client in activeClients
      modifies this`videoSeq, this`log, client`video, client`audio, client`seen, client`verdicts
      ensures Valid() && log == old(log) + [ToOne(client, ok)] && videoSeq == NextNumber(old(videoSeq))
      ensures var pkt := BuildRtp(PT_VIDEO, old(videoSeq), videoTsOut, VIDEO_SSRC, nal, false);
              && ok == Accepts(client.videoCh, old(client.verdicts), pkt)
              && client.video == old(client.video) + Taken(ok, pkt)
      ensures client.verdicts == Later(old(client.verdicts)) && client.audio == old(client.audio)
    {
      hide BuildRtp, PayloadOctets, VideoClock.Locked, ClientsInStep, SequenceNumber, Accepts, AudioAccounts, Later;
      var pkt := BuildRtp(PT_VIDEO, videoSeq, videoTsOut, VIDEO_SSRC, nal, false);
      videoSeq := (videoSeq + 1) % TWO_16;
      ok := WritePrime(client, pkt);
    }

    method WritePrime(client: TcpClient, pkt: packet) returns (ok: bool)
      requires ClientsInStep() && client in activeClients && SequenceNumber(pkt) == |log| % TWO_16
      modifies this`log, client`video, client`audio, client`seen, client`verdicts
      ensures ClientsInStep() && log == old(log) + [ToOne(client, ok)]
      ensures ok == Accepts(client.videoCh, old(client.verdicts), pkt) && client.verdicts == Later(old(client.verdicts))
      ensures client.video == old(client.video) + Taken(ok, pkt) && client.audio == old(client.audio)
    {
      hide Distinct, SequenceNumber, Accepts;
      ok := client.Write(true, pkt, |log|);
      log := log + [ToOne(client, ok)];
      forall c | c in activeClients
        ensures InStep(c)
      {
        ReceivedSnoc(old(log), ToOne(client, ok), c, c.joined);
        assert c != client ==> c.seen == old(c.seen) && c.video == old(c.video);
      }
    }

    /** Sends the cached parameter sets to one client, in order; a failed write ends the attempt. */
    method PrimeClientWithParameterSets(client: TcpClient)
      requires Valid() && client in activeClients
      modifies this`videoSeq, this`log, client`video, client`audio, client`seen, client`verdicts
      ensures Valid()
      ensures var p := PrimeClient(client.videoCh, [latestSps, latestPps], old(client.verdicts),
                                   old(videoSeq), videoTsOut);
              && log == old(log) + Handouts(client, p.outcomes)
              && client.video == old(client.video) + p.packets
              && client.verdicts == p.verdicts && client.audio == old(client.audio)
    {
      hide Valid, BuildRtp, Accepts, NextNumber;
      PrimeTwo(client.videoCh, latestSps, latestPps, client.verdicts, videoSeq, videoTsOut);
      hide Prime;
      if client.videoCh.None? {
        return;
      }
      var ok := true;
      if latestSps != [] {
        ok := PrimeWith(client, latestSps);
      }
      if ok && latestPps != [] {
        ok := PrimeWith(client, latestPps);
      }
    }

    /** A client that finished SETUP starts to play: it joins the others and is primed. */
    method Play(client: TcpClient)
      requires Valid() && client !in activeClients && client.video == []
      modifies this`activeClients, this`videoSeq, this`log, client
      ensures Valid() && activeClients == old(activeClients) + [client] && client.joined == |old(log)|
      ensures var p := PrimeClient(client.videoCh, [latestSps, latestPps], old(client.verdicts),
                                   old(videoSeq), videoTsOut);
              log == old(log) + Handouts(client, p.outcomes) && client.video == p.packets
    {
      hide PrimeClient, Handouts;
      client.joined, client.seen := |log|, [];
      activeClients := activeClients + [client];
      assert InStep(client);
      PrimeClientWithParameterSets(client);
    }

    /** A client disconnects, or is disconnected. */
    method Leave(client: TcpClient)
      requires Valid()
      modifies this`activeClients
      ensures Valid() && client !in activeClients
    {
      activeClients := Without(activeClients, {client});
    }

    method DisconnectClients()
      requires Valid()
      modifies this`activeClients
      ensures Valid() && activeClients == []
    {
      activeClients := [];
    }

    /** What priming a client does when the log has length `start`. */
    ghost function Plan(c: TcpClient, verdicts: seq<bool>, start: nat): Primed
      reads this`latestSps, this`latestPps, this`videoTsOut
    {
      PrimeClient(c.videoCh, [latestSps, latestPps], verdicts, start % TWO_16, videoTsOut)
    }

    /** Drops stale media, seeds the output clock from the audio clock, zeroes the report counters and
        primes every connected client again, in turn. `starts` are the lengths of the log before each. */
    method Reset() returns (ghost starts: seq<nat>)
      requires Valid()
      modifies this, nalQueue, rtpQueue, audioQueue, Clients()
      ensures Valid() && activeClients == old(activeClients) && sent == old(sent) && audioSent == old(audioSent)
      ensures nalQueue.items == [] && rtpQueue.items == [] && audioQueue.items == []
      ensures VideoState() == VideoClock.Seed(old(VideoState()), audioTs) && AudioState() == old(AudioState())
      ensures mark == |sent| && videoPktCount == 0 && videoOctetCount == 0
      ensures audioMark == |audioSent| && audioPktCount == 0 && audioOctetCount == 0
      ensures |starts| == |activeClients| && old(log) <= log
      ensures forall i :: 0 <= i < |starts| ==>
                var c := activeClients[i];
                var plan := Plan(c, old(c.verdicts), starts[i]);
                c.video == old(c.video) + plan.packets && PrimedIn(log, c, plan, starts[i])
      ensures forall i :: 0 <= i < |starts| ==> |old(log)| <= starts[i]
      ensures forall i, j :: 0 <= i < j < |starts| ==> starts[i] <= starts[j]
    {
      hide VideoClock.Seed, Plan, PrimedIn, ClientsInStep, PayloadOctets;
      DrainQueues();
      SeedForNextCall();
      starts := PrimeEach();
    }

    method PrimeEach() returns (ghost starts: seq<nat>)
      requires Valid()
      modifies this`videoSeq, this`log, Clients()
      ensures Valid() && |starts| == |activeClients| && old(log) <= log
      ensures forall i :: 0 <= i < |starts| ==>
                var c := activeClients[i];
                var plan := Plan(c, old(c.verdicts), starts[i]);
                c.video == old(c.video) + plan.packets && PrimedIn(log, c, plan, starts[i])
      ensures forall i :: 0 <= i < |starts| ==> |old(log)| <= starts[i]
      ensures forall i, j :: 0 <= i < j < |starts| ==> starts[i] <= starts[j]
    {
      hide Valid, PrimedIn, Plan;
      starts := [];
      var i := 0;
      while i < |activeClients|
        invariant 0 <= i <= |activeClients| && Valid() && |starts| == i && old(log) <= log
        invariant forall j :: 0 <= j < i ==> |old(log)| <= starts[j] <= |log|
        invariant forall j, k :: 0 <= j < k < i ==> starts[j] <= starts[k]
        invariant forall j :: 0 <= j < i ==>
                    var c := activeClients[j];
                    var plan := Plan(c, old(c.verdicts), starts[j]);
                    c.video == old(c.video) + plan.packets && PrimedIn(log, c, plan, starts[j])
        invariant forall j :: i <= j < |activeClients| ==>
                    && activeClients[j].video == old(activeClients[j].video)
                    && activeClients[j].verdicts == old(activeClients[j].verdicts)
      {
        ghost var before := log;
        starts := starts + [|log|];
        PrimeNext(activeClients[i]);
        forall j | 0 <= j < i
          ensures var c := activeClients[j]; PrimedIn(log, c, Plan(c, old(c.verdicts), starts[j]), starts[j])
        {
          var c := activeClients[j];
          PrimedGrows(before, log, c, Plan(c, old(c.verdicts), starts[j]), starts[j]);
        }
        i := i + 1;
      }
    }

    /** Primes one client and leaves the others as they were. */
    method PrimeNext(client: TcpClient)
      requires Valid() && client in activeClients
      modifies this`videoSeq, this`log, client
      ensures Valid() && old(log) <= log && Distinct(activeClients)
      ensures var plan := Plan(client, old(client.verdicts), |old(log)|);
              client.video == old(client.video) + plan.packets && PrimedIn(log, client, plan, |old(log)|)
    {
      assert Distinct(activeClients) && videoSeq == |log| % TWO_16;
      hide Valid, PrimeClient;
      PrimeClientWithParameterSets(client);
    }

    method DrainQueues()
      modifies nalQueue, rtpQueue, audioQueue
      ensures nalQueue.items == [] && rtpQueue.items == [] && audioQueue.items == []
    {
      nalQueue.items := [];
      rtpQueue.items := [];
      audioQueue.items := [];
    }

    method SeedForNextCall()
      requires Valid()
      modifies this`videoTsOut, this`videoTsRebasePending, this`videoPktCount, this`videoOctetCount, this`mark
      modifies this`audioPktCount, this`audioOctetCount, this`audioMark
      ensures Valid()
      ensures VideoState() == VideoClock.Seed(old(VideoState()), audioTs)
      ensures mark == |sent| && videoPktCount == 0 && videoOctetCount == 0
      ensures audioMark == |audioSent| && audioPktCount == 0 && audioOctetCount == 0
    {
      hide ClientsInStep, Accounts, AudioAccounts, VideoClock.Locked, VideoClock.Seed;
      LockedSeed(VideoState(), audioTs);
      SeedClock();
      ZeroReportCounters();
    }

    method ZeroReportCounters()
      requires Accounts()
      modifies this`videoPktCount, this`videoOctetCount, this`mark
      modifies this`audioPktCount, this`audioOctetCount, this`audioMark
      ensures Accounts() && AudioAccounts()
      ensures mark == |sent| && videoPktCount == 0 && videoOctetCount == 0
      ensures audioMark == |audioSent| && audioPktCount == 0 && audioOctetCount == 0
    {
      NoOctets(sent);
      NoOctets(audioSent);
      videoPktCount, videoOctetCount, audioPktCount, audioOctetCount := 0, 0, 0, 0;
      mark, audioMark := |sent|, |audioSent|;
    }

    method SeedClock()
      modifies this`videoTsOut, this`videoTsRebasePending
      ensures VideoState() == VideoClock.Seed(old(VideoState()), audioTs)
    {
      var audioTs90k := (audioTs * 90000 / 8000) % TWO_32;
      videoTsOut := if videoTsOut < audioTs90k then audioTs90k else videoTsOut;
      videoTsRebasePending := true;
    }

    // ----- Audio ------------------------------------------------------------------------

    /** One iteration of the audio feed loop: stamps the payload, broadcasts and counts the packet. */
    method SendAudio(payload: bytes, now: real) returns (pkt: packet)
      requires Valid()
      modifies this`audioSeq, this`audioTs, this`lastAudioSendMono, this`lastAudioSendTs
      modifies this`audioPktCount, this`audioOctetCount
      modifies this`log, this`sent, this`audioSent, this`activeClients, Clients()
      ensures Valid() && log == old(log) && sent == old(sent) && audioSent == old(audioSent) + [pkt]
      ensures AudioState() == AudioClock.Send(old(AudioState()), |payload|, now)
      ensures audioSeq == NextNumber(old(audioSeq))
      ensures Timestamp(pkt) == AudioClock.Stamp(old(AudioState()), now)
      ensures Marker(pkt) == AudioClock.Paused(old(AudioState()), now)
      ensures SequenceNumber(pkt) == old(audioSeq) && Payload(pkt) == payload
      ensures PayloadType(pkt) == 8 && Ssrc(pkt) == 0xA0D1_0001 && Version(pkt) == 2
      ensures Clients() <= old(Clients())
      ensures forall c :: c in old(Clients()) ==> (c in Clients() <==> old(c.Stays(false, pkt)))
      ensures forall c :: c in old(Clients()) ==>
                c.video == old(c.video) && c.audio == old(c.audio) + Taken(old(c.Gets(false, pkt)), pkt)
    {
      hide ClientsInStep, Accounts, AudioAccounts, VideoClock.Locked, Accepts, Payload, PayloadType, Timestamp,
           Marker, SequenceNumber, Ssrc, Version;
      pkt := StampAudio(payload, now);
      BroadcastAudio(pkt);
    }

    method BroadcastAudio(pkt: packet)
      requires ClientsInStep() && AudioAccounts()
      modifies this`audioPktCount, this`audioOctetCount
      modifies this`log, this`sent, this`audioSent, this`activeClients, Clients()
      ensures ClientsInStep() && AudioAccounts()
      ensures log == old(log) && sent == old(sent) && audioSent == old(audioSent) + [pkt]
      ensures Clients() <= old(Clients())
      ensures forall c :: c in old(Clients()) ==> (c in Clients() <==> old(c.Stays(false, pkt)))
      ensures forall c :: c in old(Clients()) ==>
                c.video == old(c.video) && c.audio == old(c.audio) + Taken(old(c.Gets(false, pkt)), pkt)
    {
      hide ClientsInStep, Accepts, Payload;
      Broadcast(false, pkt);
      audioSent := audioSent + [pkt];
      audioPktCount := audioPktCount + 1;
      audioOctetCount := audioOctetCount + |Payload(pkt)|;
      assert audioSent[audioMark..][..|audioSent| - audioMark - 1] == old(audioSent)[audioMark..];
    }

    method StampAudio(payload: bytes, now: real) returns (pkt: packet)
      modifies this`audioSeq, this`audioTs, this`lastAudioSendMono, this`lastAudioSendTs
      ensures AudioState() == AudioClock.Send(old(AudioState()), |payload|, now)
      ensures audioSeq == NextNumber(old(audioSeq))
      ensures Timestamp(pkt) == AudioClock.Stamp(old(AudioState()), now)
      ensures Marker(pkt) == AudioClock.Paused(old(AudioState()), now)
      ensures SequenceNumber(pkt) == old(audioSeq) && Payload(pkt) == payload
      ensures PayloadType(pkt) == 8 && Ssrc(pkt) == 0xA0D1_0001 && Version(pkt) == 2
    {
      var marker := false;
      if lastAudioSendMono.Some? {
        var elapsed := now - lastAudioSendMono.value;
        if elapsed >= AudioClock.DISCONTINUITY {
          audioTs := (lastAudioSendTs + (elapsed * AudioClock.CLOCK_RATE).Floor) % TWO_32;
          marker := true;
        }
      }
      pkt := BuildRtp(PT_PCMA, audioSeq, audioTs, AUDIO_SSRC, payload, marker);
      audioSeq := (audioSeq + 1) % TWO_16;
      lastAudioSendMono := Some(now);
      lastAudioSendTs := audioTs;
      audioTs := (audioTs + |payload|) % TWO_32;
    }

    /** On a server at any moment: the numbers of two packets that a client received one after the other
        differ by one more than the numbers handed out in between, all of which went to another client
        being primed or were lost in a failed write while priming this one. */
    lemma ClientGaps(c: TcpClient, k: nat)
      requires Valid() && c in activeClients && c.videoCh.Some? && k + 1 < |c.video|
      ensures c.joined <= c.seen[k] < c.seen[k + 1] < |log|
      ensures SequenceNumber(c.video[k]) == c.seen[k] % TWO_16
      ensures SequenceNumber(c.video[k + 1]) == c.seen[k + 1] % TWO_16
      ensures forall gap :: c.seen[k] < gap < c.seen[k + 1] ==>
                log[gap].ToOne? && (log[gap].client != c || !log[gap].delivered)
    {
      ReceivedSorted(log, c, c.joined);
      forall gap | c.seen[k] < gap < c.seen[k + 1]
        ensures log[gap].ToOne? && (log[gap].client != c || !log[gap].delivered)
      {
        GapsAreOtherPrimes(log, c, c.joined, k, gap);
      }
    }

    /** And nothing was kept from it: every number handed out to all since it joined, and every delivered
        prime of its own, is the number of a packet it holds. */
    lemma ClientMissesNothing(c: TcpClient, i: nat)
      requires Valid() && c in activeClients && c.videoCh.Some?
      requires c.joined <= i < |log| && (log[i] == ToAll || log[i] == ToOne(c, true))
      ensures exists k :: 0 <= k < |c.video| && c.seen[k] == i && SequenceNumber(c.video[k]) == i % TWO_16
    {
      ReceivedComplete(log, c, c.joined, i);
      var k :| 0 <= k < |c.seen| && c.seen[k] == i;
      assert c.seen[k] == i && SequenceNumber(c.video[k]) == i % TWO_16;
    }
  }

  lemma NoOctets(packets: seq<packet>)
    ensures PayloadOctets(packets[|packets|..]) == 0
  {
  }

  lemma LockedSeed(c: VideoClock.Clock, audioTs: u32)
    ensures VideoClock.Locked(VideoClock.Seed(c, audioTs))
  {
  }

  /** Between two packets a client received one after the other, every number went to another client
      being primed, or was lost in a failed write while priming this one. */
  lemma GapsAreOtherPrimes(log: seq<Handout>, c: TcpClient, joined: nat, k: nat, gap: nat)
    requires k + 1 < |Received(log, c, joined)|
    requires Received(log, c, joined)[k] < gap < Received(log, c, joined)[k + 1]
    ensures gap < |log| && log[gap].ToOne? && (log[gap].client != c || !log[gap].delivered)
  {
    var seen := Received(log, c, joined);
    ReceivedSorted(log, c, joined);
    assert seen[k + 1] < |log|;
    if Reaches(log[gap], c) {
      ReceivedComplete(log, c, joined, gap);
      assert false;
    }
  }

  /** The positions strictly increase, lie between joining and the end of the log, and name only
      packets that reached `c`. */
  ghost predicate Ascending(seen: seq<nat>, log: seq<Handout>, c: TcpClient, joined: nat)
  {
    && (forall i, j :: 0 <= i < j < |seen| ==> seen[i] < seen[j])
    && (forall i :: 0 <= i < |seen| ==> joined <= seen[i] < |log| && Reaches(log[seen[i]], c))
  }

  lemma AscendingSnoc(seen: seq<nat>, log: seq<Handout>, h: Handout, c: TcpClient, joined: nat)
    requires Ascending(seen, log, c, joined) && joined <= |log|
    ensures Ascending(seen + if Reaches(h, c) then [|log|] else [], log + [h], c, joined)
  {
    hide Reaches;
    assert forall i :: 0 <= i < |seen| ==> (log + [h])[seen[i]] == log[seen[i]];
  }

  lemma {:induction false} ReceivedSorted(log: seq<Handout>, c: TcpClient, joined: nat)
    ensures Ascending(Received(log, c, joined), log, c, joined)
    decreases |log|
  {
    if joined < |log| {
      hide Ascending, Reaches;
      var before, h := log[..|log| - 1], log[|log| - 1];
      assert log == before + [h];
      ReceivedSorted(before, c, joined);
      AscendingSnoc(Received(before, c, joined), before, h, c, joined);
    }
  }

  lemma {:induction false} ReceivedComplete(log: seq<Handout>, c: TcpClient, joined: nat, i: nat)
    requires joined <= i < |log| && Reaches(log[i], c)
    ensures i in Received(log, c, joined)
    decreases |log|
  {
    if i < |log| - 1 {
      ReceivedComplete(log[..|log| - 1], c, joined, i);
    }
  }
}
