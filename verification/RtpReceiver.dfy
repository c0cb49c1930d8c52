/** The receiving side of the media path: RTP packets in, NAL units and audio payloads queued. */
module RtpReceiver {
  import opened Bytes
  import opened Rtp
  import opened H264
  import opened AsyncQueue

  predicate IsAudio(rtp: packet)
  {
    Version(rtp) == 2 && (PayloadType(rtp) == PT_PCMU || PayloadType(rtp) == PT_PCMA)
  }

  /** The audio payload to be queued, if there is any. */
  function AudioOf(rtp: packet): seq<bytes>
  {
    if IsAudio(rtp) && Payload(rtp) != [] then [Payload(rtp)] else []
  }

  class RtpReceiver {
    var currentFuaNal: bytes
    var currentFuaTs: u32
    const nalQueue: Queue<TimedNal>
    var rtspNalQueue: Queue?<TimedNal>
    var rtspAudioQueue: Queue?<bytes>
    var rtspRtpQueue: Queue?<bytes>
    var firstVideoNal: bool
    var pyavNalDrops: nat
    var rtspNalDrops: nat
    var rtspAudioDrops: nat

    /** Every NAL handed to QueueNal, whether or not a queue had room for it. */
    ghost var queued: seq<TimedNal>

    /** The queues are different objects. */
    ghost predicate Valid()
      reads this
    {
      && rtspNalQueue != nalQueue
      && (rtspAudioQueue != null ==> rtspAudioQueue != rtspRtpQueue)
    }

    ghost function Queues(): set<object>
      reads this
    {
      var nals: set<object> := if rtspNalQueue == null then {nalQueue} else {nalQueue, rtspNalQueue};
      var audio: set<object> := if rtspAudioQueue == null then {} else {rtspAudioQueue};
      var rtp: set<object> := if rtspRtpQueue == null then {} else {rtspRtpQueue};
      nals + audio + rtp
    }

    function State(): Reassembly
      reads this`currentFuaNal, this`currentFuaTs
    {
      Reassembly(currentFuaNal, currentFuaTs)
    }

    /** Whether NALs also go to the RTSP server: only when raw packets do not. */
    predicate FeedsRtspNals()
      reads this`rtspNalQueue, this`rtspRtpQueue
    {
      rtspNalQueue != null && rtspRtpQueue == null
    }

    constructor ()
      ensures Valid() && State() == Reassembly([], 0) && queued == []
      ensures fresh(nalQueue) && nalQueue.maxsize == 500 && nalQueue.items == [] && Queues() == {nalQueue}
    {
      currentFuaNal, currentFuaTs := [], 0;
      nalQueue := new Queue<TimedNal>(500);
      rtspNalQueue, rtspAudioQueue, rtspRtpQueue := null, null, null;
      firstVideoNal := false;
      pyavNalDrops, rtspNalDrops, rtspAudioDrops := 0, 0, 0;
      queued := [];
    }

    method AttachRtspQueues(nals: Queue<TimedNal>, audio: Queue<bytes>, rtp: Queue?<bytes>)
      requires nals != nalQueue && audio != rtp
      modifies this`rtspNalQueue, this`rtspAudioQueue, this`rtspRtpQueue
      ensures Valid() && rtspNalQueue == nals && rtspAudioQueue == audio && rtspRtpQueue == rtp
    {
      rtspNalQueue, rtspAudioQueue, rtspRtpQueue := nals, audio, rtp;
    }

    method QueueNal(ts: u32, nal: bytes)
      requires Valid()
      modifies this`queued, this`pyavNalDrops, this`rtspNalDrops, this`firstVideoNal, nalQueue
      modifies if FeedsRtspNals() then {rtspNalQueue} else {}
      ensures queued == old(queued) + [TimedNal(ts, nal)] && firstVideoNal
      ensures nalQueue.items == Offer(old(nalQueue.items), nalQueue.maxsize, [TimedNal(ts, nal)])
      ensures FeedsRtspNals() ==>
                rtspNalQueue.items == Offer(old(rtspNalQueue.items), rtspNalQueue.maxsize, [TimedNal(ts, nal)])
    {
      var item := TimedNal(ts, nal);
      queued := queued + [item];
      var ok := nalQueue.PutNowait(item);
      if !ok {
        pyavNalDrops := pyavNalDrops + 1;
      }
      if rtspNalQueue != null && rtspRtpQueue == null {
        ok := rtspNalQueue.PutNowait(item);
        if !ok {
          rtspNalDrops := rtspNalDrops + 1;
        }
      }
      firstVideoNal := true;
    }

    method ProcessFua(data: bytes, ts: u32)
      requires Valid()
      modifies this`currentFuaNal, this`currentFuaTs
      modifies this`queued, this`pyavNalDrops, this`rtspNalDrops, this`firstVideoNal, nalQueue
      modifies if FeedsRtspNals() then {rtspNalQueue} else {}
      ensures State() == StepFua(old(State()), data, ts).st
      ensures queued == old(queued) + StepFua(old(State()), data, ts).queued
      ensures nalQueue.items == Offer(old(nalQueue.items), nalQueue.maxsize, StepFua(old(State()), data, ts).queued)
      ensures FeedsRtspNals() ==>
                rtspNalQueue.items
                == Offer(old(rtspNalQueue.items), rtspNalQueue.maxsize, StepFua(old(State()), data, ts).queued)
    {
      if |data| < 2 {
        return;
      }
      if data[1] >= 0x80 {
        currentFuaNal := START_CODE + [RebuiltHeader(data)] + data[2..];
        currentFuaTs := ts;
      } else if currentFuaNal != [] {
        currentFuaNal := currentFuaNal + data[2..];
      }
      if data[1] % 0x80 >= 0x40 && currentFuaNal != [] {
        QueueNal(currentFuaTs, currentFuaNal);
        currentFuaNal := [];
      }
    }

    method ProcessAudioRtp(rtp: packet)
      requires Valid()
      requires IsAudio(rtp)
      modifies this`rtspAudioDrops
      modifies if rtspAudioQueue == null then {} else {rtspAudioQueue}
      ensures rtspAudioQueue != null ==>
                rtspAudioQueue.items == Offer(old(rtspAudioQueue.items), rtspAudioQueue.maxsize, AudioOf(rtp))
    {
      var payload := Payload(rtp);
      if payload == [] {
        return;
      }
      if rtspAudioQueue != null {
        var ok := rtspAudioQueue.PutNowait(payload);
        if !ok {
          rtspAudioDrops := rtspAudioDrops + 1;
        }
      }
    }

    /** Offers the raw packet to the server's passthrough queue. */
    method ForwardRaw(rtp: packet)
      requires Valid()
      modifies this`rtspNalDrops, this`firstVideoNal
      modifies if rtspRtpQueue == null then {} else {rtspRtpQueue}
      ensures rtspRtpQueue != null ==> rtspRtpQueue.items == Offer(old(rtspRtpQueue.items), rtspRtpQueue.maxsize, [rtp])
    {
      if rtspRtpQueue != null {
        var ok := rtspRtpQueue.PutNowait(rtp);
        if !ok {
          rtspNalDrops := rtspNalDrops + 1;
        }
        firstVideoNal := true;
      }
    }

    method ReassembleVideo(data: bytes, ts: u32)
      requires Valid()
      modifies this`currentFuaNal, this`currentFuaTs
      modifies this`queued, this`pyavNalDrops, this`rtspNalDrops, this`firstVideoNal, nalQueue
      modifies if FeedsRtspNals() then {rtspNalQueue} else {}
      ensures State() == StepVideo(old(State()), data, ts).st
      ensures queued == old(queued) + StepVideo(old(State()), data, ts).queued
      ensures nalQueue.items == Offer(old(nalQueue.items), nalQueue.maxsize, StepVideo(old(State()), data, ts).queued)
      ensures FeedsRtspNals() ==>
                rtspNalQueue.items
                == Offer(old(rtspNalQueue.items), rtspNalQueue.maxsize, StepVideo(old(State()), data, ts).queued)
    {
      hide StepFua;
      if data == [] {
        return;
      }
      var nalType := NalType(data[0]);
      if nalType == 7 || nalType == 8 {
        QueueNal(ts, START_CODE + data);
      } else if nalType == FU_A {
        ProcessFua(data, ts);
      } else if 1 <= nalType <= 23 {
        QueueNal(ts, START_CODE + data);
      }
    }

    /** Routes one packet by version and payload type, and reassembles video as StepRtp says. */
    method ProcessRtp(rtp: packet)
      requires Valid()
      modifies this, Queues()
      ensures Valid() && rtspNalQueue == old(rtspNalQueue)
      ensures rtspAudioQueue == old(rtspAudioQueue) && rtspRtpQueue == old(rtspRtpQueue)
      ensures State() == StepRtp(old(State()), rtp).st
      ensures queued == old(queued) + StepRtp(old(State()), rtp).queued
      ensures nalQueue.items == Offer(old(nalQueue.items), nalQueue.maxsize, StepRtp(old(State()), rtp).queued)
      ensures FeedsRtspNals() ==>
                rtspNalQueue.items
                == Offer(old(rtspNalQueue.items), rtspNalQueue.maxsize, StepRtp(old(State()), rtp).queued)
      ensures rtspRtpQueue != null ==>
                rtspRtpQueue.items
                == Offer(old(rtspRtpQueue.items), rtspRtpQueue.maxsize, if IsVideo(rtp) then [rtp] else [])
      ensures rtspAudioQueue != null ==>
                rtspAudioQueue.items == Offer(old(rtspAudioQueue.items), rtspAudioQueue.maxsize, AudioOf(rtp))
    {
      hide StepVideo, Timestamp;
      if Version(rtp) != 2 {
        return;
      }
      if PayloadType(rtp) == PT_PCMU || PayloadType(rtp) == PT_PCMA {
        ProcessAudioRtp(rtp);
        return;
      }
      ForwardRaw(rtp);
      ReassembleVideo(Payload(rtp), Timestamp(rtp));
    }

    /** The TCP video loop: every body long enough to be an RTP packet is processed in turn. */
    method TcpVideoLoop(bodies: seq<bytes>)
      requires Valid()
      modifies this, Queues()
      ensures Valid() && State() == Depacketize(old(State()), LongEnough(bodies)).st
      ensures queued == old(queued) + Depacketize(old(State()), LongEnough(bodies)).queued
    {
      ghost var start := State();
      var i := 0;
      while i < |bodies|
        invariant 0 <= i <= |bodies| && Valid() && Queues() == old(Queues())
        invariant State() == Depacketize(start, LongEnough(bodies[..i])).st
        invariant queued == old(queued) + Depacketize(start, LongEnough(bodies[..i])).queued
      {
        hide StepRtp, Depacketize, LongEnough, Offer, IsVideo;
        DepacketizeNext(start, bodies, i);
        if HEADER_LEN <= |bodies[i]| {
          Associative(old(queued), Depacketize(start, LongEnough(bodies[..i])).queued,
                      StepRtp(State(), bodies[i]).queued);
          ProcessRtp(bodies[i]);
        }
        i := i + 1;
      }
      assert bodies[..i] == bodies;
    }
  }

  /** The bodies that can hold an RTP header. */
  function LongEnough(bodies: seq<bytes>): seq<packet>
    decreases |bodies|
  {
    if bodies == [] then []
    else
      var last := bodies[|bodies| - 1];
      LongEnough(bodies[..|bodies| - 1]) + if HEADER_LEN <= |last| then [last] else []
  }

  /** Body by body, those of at least twelve bytes are processed, in order. */
  lemma {:induction false} KeepsTwelve(a: seq<bytes>, b: seq<bytes>, body: bytes)
    ensures LongEnough(a + b) == LongEnough(a) + LongEnough(b)
    ensures LongEnough([body]) == if 12 <= |body| then [body] else []
    decreases |b|
  {
    assert [body][..0] == [];
    if b == [] {
      assert a + b == a;
    } else {
      KeepsTwelve(a, b[..|b| - 1], body);
      assert (a + b)[..|a + b| - 1] == a + b[..|b| - 1];
    }
  }

  lemma DepacketizeNext(st: Reassembly, bodies: seq<bytes>, i: nat)
    requires i < |bodies|
    ensures var before, after := Depacketize(st, LongEnough(bodies[..i])), Depacketize(st, LongEnough(bodies[..i + 1]));
            if HEADER_LEN <= |bodies[i]| then
              && after.st == StepRtp(before.st, bodies[i]).st
              && after.queued == before.queued + StepRtp(before.st, bodies[i]).queued
            else after == before
  {
    hide StepRtp, Depacketize, LongEnough;
    LongEnoughSnoc(bodies, i);
    if HEADER_LEN <= |bodies[i]| {
      DepacketizeSnoc(st, LongEnough(bodies[..i]), bodies[i]);
    }
  }

  lemma LongEnoughSnoc(bodies: seq<bytes>, i: nat)
    requires i < |bodies|
    ensures LongEnough(bodies[..i + 1])
            == if HEADER_LEN <= |bodies[i]| then LongEnough(bodies[..i]) + [bodies[i]] else LongEnough(bodies[..i])
  {
    assert bodies[..i + 1][..i] == bodies[..i];
  }
}
