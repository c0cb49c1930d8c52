/** The counter of an outbound video call: what the handshake, its renewals, the answer and the door
    commands add to it, driven by whatever the device replies. */
module CallCounter {
  import opened Bytes

  const BYTE4 := 0x0001_0000
  const BYTE5 := 0x0100_0000
  const BOTH := 0x0101_0000

  /** What waiting for the next packet on the call channel gives. */
  datatype Reply = Timeout | Packet(data: bytes)

  function Next(replies: seq<Reply>): Reply { if replies == [] then Timeout else replies[0] }

  function Rest(replies: seq<Reply>): seq<Reply> { if replies == [] then [] else replies[1..] }

  /** All that the call logic looks at in a packet: its type and action, but not its timestamp. */
  datatype Shape = Silence | Short | Typed(kind: u16, action: u16)

  function ShapeOf(reply: Reply): Shape
  {
    if reply.Timeout? then Silence
    else if |reply.data| < 2 then Short
    else Typed(ReadLe16(reply.data, 0), if 8 <= |reply.data| then ReadBe16(reply.data, 6) else 0)
  }

  /** The call's counter, and the counters sent since its call-init, in order. */
  datatype Progress = Progress(counter: nat, sent: seq<nat>)

  function Send(p: Progress, increment: nat): Progress
  {
    Progress(p.counter + increment, p.sent + [p.counter + increment])
  }

  /** The counters sent, and the replies left unread. */
  datatype Outcome = Outcome(p: Progress, rest: seq<Reply>)

  function CodecExchange(replies: seq<Reply>, budget: nat, p: Progress): Outcome
    decreases budget
  {
    if budget == 0 then Outcome(p, replies)
    else
      match ShapeOf(Next(replies))
      case Typed(kind, action) =>
        if kind != 0x1840 then CodecExchange(Rest(replies), budget - 1, p)
        else if action == 0x0002 then Outcome(Send(p, BYTE5), Rest(replies))
        else CodecExchange(Rest(replies), budget - 1, Send(p, if action == 0x0008 then BOTH else BYTE4))
      case _ => Outcome(p, Rest(replies))
  }

  predicate IsRtpcLink(shape: Shape)
  {
    shape.Typed? && (shape.kind == 0x1840 || shape.kind == 0x1860) && shape.action == 0x000A
  }

  function AckRtpcLink(replies: seq<Reply>, budget: nat, p: Progress): Outcome
    decreases budget
  {
    if budget == 0 then Outcome(p, replies)
    else
      var shape := ShapeOf(Next(replies));
      if IsRtpcLink(shape) then Outcome(Send(p, BYTE5), Rest(replies))
      else if shape.Typed? then AckRtpcLink(Rest(replies), budget - 1, p)
      else Outcome(p, Rest(replies))
  }

  /** From the call-init up to the video configuration. */
  function Negotiate(callTs: nat, replies: seq<Reply>): Outcome
  {
    var o := CodecExchange(Rest(replies), 10, Send(Progress(callTs, []), BYTE4));
    Outcome(Send(Send(o.p, 0), BYTE4), o.rest)
  }

  /** The whole handshake of a start or, with one message more, of a renewal. */
  function Handshake(callTs: nat, replies: seq<Reply>, renewal: bool): Outcome
  {
    var o := Negotiate(callTs, replies);
    var linked := AckRtpcLink(o.rest, 5, o.p);
    var hungUp := Send(linked.p, BYTE4);
    Outcome(if renewal then Send(hungUp, BYTE4) else hungUp, linked.rest)
  }

  function CallTs(initTs: u32): u32 { (initTs + 1) % TWO_32 }

  /** The low half with the top bit of its first byte set. */
  function Marked(low: u16): u16 { if low % 0x100 < 0x80 then low + 0x80 else low }

  /** The device timestamp as its acknowledgement carries it: the low half marked, the upper two bytes
      swapped, and the one that comes last counted up. */
  function TransformDeviceTs(ts: u32): u32
  {
    var low, high: int := ts % 0x1_0000, ts / 0x1_0000;
    Marked(low) + (high / 0x100 + (high % 0x100 + 1) % 0x100 * 0x100) * 0x1_0000
  }

  /** The timestamp acknowledging a call end: the device's, transformed, or else the handshake's counter. */
  function EndAckTs(callEndTs: u32, counter: nat): u32
  {
    if callEndTs != 0 then TransformDeviceTs(callEndTs) else (counter + BYTE5) % TWO_32
  }

  class VideoCallSession {
    var replies: seq<Reply>  // what the device will have sent
    var callTs: nat
    var sent: seq<nat>       // the counters sent since the last call-init
    var callCounter: nat
    var handshakeCounter: nat  // the monitor's copy, which commands do not advance
    var endAcks: seq<u32>
    var active: bool

    constructor (replies: seq<Reply>)
      ensures this.replies == replies && !active
    {
      this.replies, callTs, sent, callCounter, handshakeCounter, endAcks, active := replies, 0, [], 0, 0, [], false;
    }

    method ReadResponse() returns (reply: Reply)
      modifies this`replies
      ensures reply == Next(old(replies)) && replies == Rest(old(replies))
    {
      reply := Next(replies);
      replies := Rest(replies);
    }

    method SendCounter(counter: nat)
      modifies this`sent
      ensures sent == old(sent) + [counter]
    {
      sent := sent + [counter];
    }

    method RunCodecExchange(counter: nat) returns (final: nat)
      modifies this`replies, this`sent
      ensures Outcome(Progress(final, sent), replies) == CodecExchange(old(replies), 10, Progress(counter, old(sent)))
    {
      final := counter;
      for i := 0 to 10
        invariant CodecExchange(old(replies), 10, Progress(counter, old(sent)))
                  == CodecExchange(replies, 10 - i, Progress(final, sent))
      {
        var shape := ShapeOf(Next(replies));
        var reply := ReadResponse();
        if reply.Timeout? || |reply.data| < 2 {
          return;
        }
        var kind := ReadLe16(reply.data, 0);
        var action := if 8 <= |reply.data| then ReadBe16(reply.data, 6) else 0;
        assert shape == Typed(kind, action);
        if kind == 0x1840 {
          if action == 0x0008 {
            final := final + BOTH;
            SendCounter(final);
          } else if action == 0x0002 {
            final := final + BYTE5;
            SendCounter(final);
            return;
          } else {
            final := final + BYTE4;
            SendCounter(final);
          }
        }
      }
    }

    method AckDeviceRtpcLink(counter: nat) returns (final: nat)
      modifies this`replies, this`sent
      ensures Outcome(Progress(final, sent), replies) == AckRtpcLink(old(replies), 5, Progress(counter, old(sent)))
    {
      final := counter;
      for i := 0 to 5
        invariant final == counter && sent == old(sent)
        invariant AckRtpcLink(old(replies), 5, Progress(counter, sent))
                  == AckRtpcLink(replies, 5 - i, Progress(counter, sent))
      {
        var reply := ReadResponse();
        if reply.Timeout? || |reply.data| < 2 {
          return;
        }
        var kind := ReadLe16(reply.data, 0);
        var action := if 8 <= |reply.data| then ReadBe16(reply.data, 6) else 0;
        assert ShapeOf(reply) == Typed(kind, action);
        if (kind == 0x1840 || kind == 0x1860) && action == 0x000A {
          final := final + BYTE5;
          SendCounter(final);
          return;
        }
      }
    }

    /** The counter flow shared by a start and a renewal, up to the wait for the device's own channel. */
    method RunNegotiation(initTs: u32) returns (counter: nat)
      modifies this`replies, this`sent, this`callTs
      ensures callTs == CallTs(initTs)
      ensures Outcome(Progress(counter, sent), replies) == Negotiate(CallTs(initTs), old(replies))
    {
      hide CodecExchange;
      callTs := (initTs + 1) % TWO_32;
      sent := [];
      counter := callTs;
      var _ := ReadResponse();
      counter := counter + BYTE4;
      SendCounter(counter);
      counter := RunCodecExchange(counter);
      SendCounter(counter);  // the RTPC link reuses the counter
      counter := counter + BYTE4;
      SendCounter(counter);
    }

    /** Returns false when the device does not open its channel, which ends the session. */
    method Start(initTs: u32, deviceOpensRtpc: bool) returns (ok: bool)
      modifies this
      ensures ok <==> deviceOpensRtpc
      ensures endAcks == old(endAcks)
      ensures ok ==> active && callTs == CallTs(initTs) && handshakeCounter == callCounter
                     && Outcome(Progress(callCounter, sent), replies) == Handshake(CallTs(initTs), old(replies), false)
      ensures !ok ==> !active && callCounter == old(callCounter)
                      && sent == Negotiate(CallTs(initTs), old(replies)).p.sent
    {
      hide CodecExchange, AckRtpcLink;
      var counter := RunNegotiation(initTs);
      if !deviceOpensRtpc {
        active := false;
        return false;
      }
      counter := AckDeviceRtpcLink(counter);
      counter := counter + BYTE4;
      SendCounter(counter);
      callCounter, handshakeCounter := counter, counter;
      active := true;
      ok := true;
    }

    /** A renewal, under the lock: acknowledges the call end and runs the handshake anew; a missing device
        channel is ignored. */
    method InlineReestablish(initTs: u32, callEndTs: u32)
      modifies this`replies, this`sent, this`callTs, this`callCounter, this`handshakeCounter, this`endAcks
      ensures callTs == CallTs(initTs) && handshakeCounter == callCounter
      ensures endAcks == old(endAcks) + [EndAckTs(callEndTs, old(handshakeCounter))]
      ensures Outcome(Progress(callCounter, sent), replies) == Handshake(CallTs(initTs), old(replies), true)
    {
      hide CodecExchange, AckRtpcLink;
      endAcks := endAcks + [EndAckTs(callEndTs, handshakeCounter)];
      var counter := RunNegotiation(initTs);
      counter := AckDeviceRtpcLink(counter);
      counter := counter + BYTE4;
      SendCounter(counter);
      counter := counter + BYTE4;
      SendCounter(counter);
      callCounter, handshakeCounter := counter, counter;
    }

    /** Under the lock. */
    method SendAnswerSequence()
      modifies this`sent, this`callCounter
      ensures Progress(callCounter, sent) == Send(Progress(old(callCounter), old(sent)), BYTE4)
    {
      callCounter := callCounter + BYTE4;
      SendCounter(callCounter);
    }

    method OpenDoorOnCtpp() returns (ok: bool)
      modifies this`sent, this`callCounter
      ensures ok == active
      ensures Progress(callCounter, sent) == if active then Send(Progress(old(callCounter), old(sent)), BYTE4)
                                             else Progress(old(callCounter), old(sent))
    {
      ok := active;
      if ok {
        callCounter := callCounter + BYTE4;
        SendCounter(callCounter);
      }
    }
  }

  // ----- The counter in closed form -------------------------------------------------------

  /** Where type and action of a packet are: the type in its first two bytes, low byte first, and the action
      in its seventh and eighth, high byte first, or 0 in a shorter packet. */
  lemma ShapeOfBytes(data: bytes)
    ensures |data| < 2 ==> ShapeOf(Packet(data)) == Short
    ensures 2 <= |data| < 8 ==> ShapeOf(Packet(data)) == Typed(ByteAt(data, 0) + 256 * ByteAt(data, 1), 0)
    ensures 8 <= |data| ==>
              ShapeOf(Packet(data))
              == Typed(ByteAt(data, 0) + 256 * ByteAt(data, 1), 256 * ByteAt(data, 6) + ByteAt(data, 7))
  {
  }

  /** How many of the replies have the type 0x1840 and action 8. */
  function Eights(replies: seq<Reply>): nat
  {
    if replies == [] then 0 else (if ShapeOf(replies[0]) == Typed(0x1840, 8) then 1 else 0) + Eights(replies[1..])
  }

  /** How many have the type 0x1840 and another action. */
  function Others(replies: seq<Reply>): nat
  {
    if replies == [] then 0
    else
      var shape := ShapeOf(replies[0]);
      (if shape.Typed? && shape.kind == 0x1840 && shape.action != 8 then 1 else 0) + Others(replies[1..])
  }

  /** Typed packets none of which accepts the call. */
  predicate Undecided(replies: seq<Reply>)
  {
    forall i :: 0 <= i < |replies| ==> ShapeOf(replies[i]).Typed? && ShapeOf(replies[i]) != Typed(0x1840, 2)
  }

  /** Neither a link nor the end of the packets. */
  predicate Unlinked(replies: seq<Reply>)
  {
    forall i :: 0 <= i < |replies| ==>
      && ShapeOf(replies[i]).Typed?
      && ShapeOf(replies[i]) != Typed(0x1840, 0xA) && ShapeOf(replies[i]) != Typed(0x1860, 0xA)
  }

  /** What the undecided replies leave of the budget, the counter and the replies. */
  /** What one undecided reply does. */
  function Answer(reply: Reply, p: Progress): Progress
    requires ShapeOf(reply).Typed?
  {
    var shape := ShapeOf(reply);
    if shape.kind != 0x1840 then p else Send(p, if shape.action == 8 then BOTH else BYTE4)
  }

  lemma UndecidedFirst(waiting: seq<Reply>, later: seq<Reply>, budget: nat, p: Progress)
    requires Undecided(waiting) && waiting != [] && 0 < budget
    ensures CodecExchange(waiting + later, budget, p)
            == CodecExchange(waiting[1..] + later, budget - 1, Answer(waiting[0], p))
  {
    assert (waiting + later)[0] == waiting[0] && (waiting + later)[1..] == waiting[1..] + later;
    hide ShapeOf;
  }

  lemma CountedFirst(p: Progress, r: Progress, waiting: seq<Reply>)
    requires waiting != [] && Undecided(waiting) && Counted(Answer(waiting[0], p), r, waiting[1..])
    ensures Counted(p, r, waiting)
  {
    hide ShapeOf;
  }

  lemma {:induction false} UndecidedPass(waiting: seq<Reply>, later: seq<Reply>, budget: nat, p: Progress)
    requires Undecided(waiting) && |waiting| <= budget
    ensures var o := CodecExchange(waiting + later, budget, p);
            exists q :: o == CodecExchange(later, budget - |waiting|, q) && Counted(p, q, waiting)
    decreases |waiting|
  {
    if waiting == [] {
      assert waiting + later == later;
      assert Counted(p, p, waiting);
    } else {
      UndecidedFirst(waiting, later, budget, p);
      var q := Answer(waiting[0], p);
      hide CodecExchange, Answer, Counted, ShapeOf;
      UndecidedPass(waiting[1..], later, budget - 1, q);
      var r :| CodecExchange(waiting[1..] + later, budget - 1, q) == CodecExchange(later, budget - |waiting|, r)
               && Counted(q, r, waiting[1..]);
      CountedFirst(p, r, waiting);
    }
  }

  /** `q` is `p` after the replies: 0x01010000 for every action 8 and 0x00010000 for every other, each sent. */
  predicate Counted(p: Progress, q: Progress, replies: seq<Reply>)
  {
    && q.counter == p.counter + Eights(replies) * 0x0101_0000 + Others(replies) * 0x0001_0000
    && |q.sent| == |p.sent| + Eights(replies) + Others(replies)
  }

  /** An exchange in which the call is accepted at most at the tenth reply. */
  lemma AcceptedExchange(waiting: seq<Reply>, accept: Reply, later: seq<Reply>, budget: nat, p: Progress)
    requires Undecided(waiting) && |waiting| < budget && ShapeOf(accept) == Typed(0x1840, 2)
    ensures var o := CodecExchange(waiting + [accept] + later, budget, p);
            && o.p.counter == p.counter + Eights(waiting) * 0x0101_0000 + Others(waiting) * 0x0001_0000 + 0x0100_0000
            && |o.p.sent| == |p.sent| + Eights(waiting) + Others(waiting) + 1 && o.rest == later
  {
    hide ShapeOf, Eights, Others;
    var rest := [accept] + later;
    Associative(waiting, [accept], later);
    UndecidedPass(waiting, rest, budget, p);
    hide Undecided;
    assert rest[0] == accept && rest[1..] == later;
  }

  /** An exchange without an accept: the budget is used up, or no further packet comes, or one too short
      to have a type. */
  lemma UnacceptedExchange(waiting: seq<Reply>, later: seq<Reply>, budget: nat, p: Progress)
    requires Undecided(waiting) && |waiting| <= budget
    requires |waiting| == budget || later == [] || !ShapeOf(later[0]).Typed?
    ensures var o := CodecExchange(waiting + later, budget, p);
            && o.p.counter == p.counter + Eights(waiting) * 0x0101_0000 + Others(waiting) * 0x0001_0000
            && |o.p.sent| == |p.sent| + Eights(waiting) + Others(waiting)
            && o.rest == if |waiting| == budget || later == [] then later else later[1..]
  {
    UndecidedPass(waiting, later, budget, p);
    hide Undecided, Eights, Others;
  }

  /** The link among at most `budget` packets is acknowledged with 0x01000000 more. */
  lemma {:induction false} LinkedAck(waiting: seq<Reply>, link: Reply, later: seq<Reply>, budget: nat, p: Progress)
    requires Unlinked(waiting) && |waiting| < budget
    requires ShapeOf(link) == Typed(0x1840, 0xA) || ShapeOf(link) == Typed(0x1860, 0xA)
    ensures AckRtpcLink(waiting + [link] + later, budget, p)
            == Outcome(Progress(p.counter + 0x0100_0000, p.sent + [p.counter + 0x0100_0000]), later)
    decreases |waiting|
  {
    var all := waiting + [link] + later;
    if waiting == [] {
      assert all[0] == link && all[1..] == later;
    } else {
      assert all[0] == waiting[0] && all[1..] == waiting[1..] + [link] + later;
      LinkedAck(waiting[1..], link, later, budget - 1, p);
    }
  }

  /** Without a link nothing is sent. */
  lemma {:induction false} UnlinkedAck(waiting: seq<Reply>, later: seq<Reply>, budget: nat, p: Progress)
    requires Unlinked(waiting) && |waiting| <= budget
    requires |waiting| == budget || later == [] || !ShapeOf(later[0]).Typed?
    ensures AckRtpcLink(waiting + later, budget, p)
            == Outcome(p, if |waiting| == budget || later == [] then later else later[1..])
    decreases |waiting|
  {
    if waiting == [] {
      assert waiting + later == later;
    } else {
      assert (waiting + later)[0] == waiting[0] && (waiting + later)[1..] == waiting[1..] + later;
      UnlinkedAck(waiting[1..], later, budget - 1, p);
    }
  }

  /** A whole handshake that goes through, in numbers: the device replies to the call-init, then with fewer
      than ten undecided packets, an accept, fewer than five packets that are no link, and a link. */
  lemma HandshakeInNumbers(callTs: nat, first: Reply, waiting: seq<Reply>, accept: Reply, more: seq<Reply>,
                           link: Reply, later: seq<Reply>, renewal: bool)
    requires Undecided(waiting) && |waiting| < 10 && ShapeOf(accept) == Typed(0x1840, 2)
    requires Unlinked(more) && |more| < 5
    requires ShapeOf(link) == Typed(0x1840, 0xA) || ShapeOf(link) == Typed(0x1860, 0xA)
    ensures var o := Handshake(callTs, [first] + (waiting + [accept] + (more + [link] + later)), renewal);
            && o.p.counter == callTs + Eights(waiting) * 0x0101_0000 + Others(waiting) * 0x0001_0000
                              + (if renewal then 0x0204_0000 else 0x0203_0000)
            && |o.p.sent| == Eights(waiting) + Others(waiting) + (if renewal then 7 else 6) && o.rest == later
  {
    hide CodecExchange, AckRtpcLink, Eights, Others, Undecided, Unlinked, ShapeOf;
    var replies := [first] + (waiting + [accept] + (more + [link] + later));
    var p := Send(Progress(callTs, []), BYTE4);
    assert Rest(replies) == waiting + [accept] + (more + [link] + later);
    AcceptedExchange(waiting, accept, more + [link] + later, 10, p);
    var o := Negotiate(callTs, replies);
    assert o.rest == more + [link] + later;
    LinkedAck(more, link, later, 5, o.p);
  }

  // ----- What every message of a call keeps -----------------------------------------------

  /** The counters sent all have the call's low half and never decrease, and the last is at most the
      counter, which is within `allowance` of the call's timestamp. */
  predicate Keeps(callTs: nat, p: Progress, allowance: nat)
  {
    && p.counter % 0x1_0000 == callTs % 0x1_0000
    && callTs <= p.counter <= callTs + allowance
    && (forall i :: 0 <= i < |p.sent| ==> p.sent[i] % 0x1_0000 == callTs % 0x1_0000 && callTs <= p.sent[i] <= p.counter)
    && (forall i, j :: 0 <= i < j < |p.sent| ==> p.sent[i] <= p.sent[j])
  }

  lemma SendKeeps(callTs: nat, p: Progress, allowance: nat, units: nat)
    requires Keeps(callTs, p, allowance)
    ensures Keeps(callTs, Send(p, units * 0x1_0000), allowance + units * 0x1_0000)
  {
  }

  lemma KeepsMore(callTs: nat, p: Progress, allowance: nat, more: nat)
    requires Keeps(callTs, p, allowance) && allowance <= more
    ensures Keeps(callTs, p, more)
  {
  }

  lemma {:induction false} CodecExchangeKeeps(callTs: nat, replies: seq<Reply>, budget: nat, p: Progress,
                                              allowance: nat)
    requires Keeps(callTs, p, allowance)
    ensures Keeps(callTs, CodecExchange(replies, budget, p).p, allowance + budget * BOTH)
    decreases budget
  {
    hide Keeps, ShapeOf, Send;
    if budget == 0 {
    } else {
      SendKeeps(callTs, p, allowance, 0x101);
      SendKeeps(callTs, p, allowance, 0x100);
      SendKeeps(callTs, p, allowance, 1);
      var used := allowance + BOTH;
      KeepsMore(callTs, p, allowance, used);
      KeepsMore(callTs, p, allowance, used + (budget - 1) * BOTH);
      KeepsMore(callTs, Send(p, BYTE4), allowance + BYTE4, used);
      KeepsMore(callTs, Send(p, BYTE5), allowance + BYTE5, used + (budget - 1) * BOTH);
      CodecExchangeKeeps(callTs, Rest(replies), budget - 1, p, used);
      CodecExchangeKeeps(callTs, Rest(replies), budget - 1, Send(p, BOTH), used);
      CodecExchangeKeeps(callTs, Rest(replies), budget - 1, Send(p, BYTE4), used);
      assert used + (budget - 1) * BOTH == allowance + budget * BOTH;
    }
  }

  lemma {:induction false} AckRtpcLinkKeeps(callTs: nat, replies: seq<Reply>, budget: nat, p: Progress, allowance: nat)
    requires Keeps(callTs, p, allowance)
    ensures Keeps(callTs, AckRtpcLink(replies, budget, p).p, allowance + BYTE5)
    decreases budget
  {
    hide Keeps;
    KeepsMore(callTs, p, allowance, allowance + BYTE5);
    if budget > 0 {
      SendKeeps(callTs, p, allowance, 0x100);
      AckRtpcLinkKeeps(callTs, Rest(replies), budget - 1, p, allowance);
    }
  }

  const START_ALLOWANCE := 0x0B0D_0000
  const RENEWAL_ALLOWANCE := 0x0B0E_0000

  function Allowance(renewal: bool): nat { if renewal then RENEWAL_ALLOWANCE else START_ALLOWANCE }

  lemma HandshakeKeeps(callTs: nat, replies: seq<Reply>, renewal: bool)
    ensures Keeps(callTs, Handshake(callTs, replies, renewal).p, Allowance(renewal))
  {
    var p0 := Progress(callTs, []);
    assert Keeps(callTs, p0, 0);
    hide Keeps, CodecExchange, AckRtpcLink;
    SendKeeps(callTs, p0, 0, 1);
    CodecExchangeKeeps(callTs, Rest(replies), 10, Send(p0, BYTE4), BYTE4);
    var o := CodecExchange(Rest(replies), 10, Send(p0, BYTE4));
    var spent := BYTE4 + 10 * BOTH;
    SendKeeps(callTs, o.p, spent, 0);
    SendKeeps(callTs, Send(o.p, 0), spent, 1);
    var configured := Send(Send(o.p, 0), BYTE4);
    AckRtpcLinkKeeps(callTs, o.rest, 5, configured, spent + BYTE4);
    var linked := AckRtpcLink(o.rest, 5, configured);
    SendKeeps(callTs, linked.p, spent + BYTE4 + BYTE5, 1);
    SendKeeps(callTs, Send(linked.p, BYTE4), spent + BYTE4 + BYTE5 + BYTE4, 1);
  }

  // ----- Whole runs -----------------------------------------------------------------------

  /** What happens to a started call, each under the lock: a renewal, one that fails before its end and so
      leaves the counter alone, or an answer or door command. */
  datatype Event = Renew(initTs: u32, replies: seq<Reply>) | RenewalFails | Command

  /** A call: the init timestamp it was started from, whether by a renewal, the commands since, and the
      counter at the end of its handshake. */
  datatype Call = Call(initTs: u32, renewal: bool, commands: nat, p: Progress, handshake: nat)

  function AfterHandshake(initTs: u32, replies: seq<Reply>, renewal: bool): Call
  {
    var p := Handshake(CallTs(initTs), replies, renewal).p;
    Call(initTs, renewal, 0, p, p.counter)
  }

  function Started(initTs: u32, replies: seq<Reply>): Call
  {
    AfterHandshake(initTs, replies, false)
  }

  function Step(call: Call, e: Event): Call
  {
    match e
    case Renew(initTs, replies) => AfterHandshake(initTs, replies, true)
    case RenewalFails => call
    case Command => call.(commands := call.commands + 1, p := Send(call.p, BYTE4))
  }

  function Run(call: Call, events: seq<Event>): Call
    decreases events
  {
    if events == [] then call else Run(Step(call, events[0]), events[1..])
  }

  predicate Sound(call: Call)
  {
    && Keeps(CallTs(call.initTs), call.p, Allowance(call.renewal) + call.commands * BYTE4)
    && call.handshake % 0x1_0000 == CallTs(call.initTs) % 0x1_0000
  }

  lemma StepKeepsSound(call: Call, e: Event)
    requires Sound(call)
    ensures Sound(Step(call, e))
  {
    hide Keeps, Handshake;
    match e
    case Renew(initTs, replies) =>
      HandshakeKeeps(CallTs(initTs), replies, true);
      KeepsLowHalf(CallTs(initTs), Handshake(CallTs(initTs), replies, true).p, RENEWAL_ALLOWANCE);
    case RenewalFails =>
    case Command =>
      SendKeeps(CallTs(call.initTs), call.p, Allowance(call.renewal) + call.commands * BYTE4, 1);
      assert call.commands * BYTE4 + BYTE4 == (call.commands + 1) * BYTE4;
  }

  lemma {:induction false} RunKeepsSound(call: Call, events: seq<Event>)
    requires Sound(call)
    ensures Sound(Run(call, events))
    decreases events
  {
    hide Sound, Step;
    if events != [] {
      StepKeepsSound(call, events[0]);
      RunKeepsSound(Step(call, events[0]), events[1..]);
    }
  }

  /** Counter `i` of the call: the low half is that of the init timestamp plus one, never that of the init
      phase; no later counter is smaller; and it fits 32 bits when the call's timestamp leaves room. */
  predicate InStep(call: Call, i: nat)
    requires i < |call.p.sent|
  {
    var counter := call.p.sent[i];
    var most := CallTs(call.initTs) + Allowance(call.renewal) + call.commands * BYTE4;
    && counter % 0x1_0000 == (call.initTs + 1) % 0x1_0000 != call.initTs % 0x1_0000
    && (forall j :: i < j < |call.p.sent| ==> counter <= call.p.sent[j])
    && CallTs(call.initTs) <= counter <= most && (most < TWO_32 ==> counter < TWO_32)
  }

  lemma SoundInStep(call: Call, i: nat)
    requires Sound(call) && i < |call.p.sent|
    ensures InStep(call, i)
  {
    LowHalf(call.initTs);
    hide CallTs, Allowance;
  }

  /** In every run of starts, renewals, answers and door commands every counter sent is in step. */
  lemma CountersOfEveryRun(initTs: u32, replies: seq<Reply>, events: seq<Event>, i: nat)
    requires i < |Run(Started(initTs, replies), events).p.sent|
    ensures InStep(Run(Started(initTs, replies), events), i)
  {
    StartedSound(initTs, replies);
    hide Run, Started, Sound, InStep;
    RunKeepsSound(Started(initTs, replies), events);
    SoundInStep(Run(Started(initTs, replies), events), i);
  }

  lemma StartedSound(initTs: u32, replies: seq<Reply>)
    ensures Sound(Started(initTs, replies))
  {
    hide Keeps, Handshake;
    HandshakeKeeps(CallTs(initTs), replies, false);
    KeepsLowHalf(CallTs(initTs), Handshake(CallTs(initTs), replies, false).p, START_ALLOWANCE);
  }

  lemma KeepsLowHalf(callTs: nat, p: Progress, allowance: nat)
    requires Keeps(callTs, p, allowance)
    ensures p.counter % 0x1_0000 == callTs % 0x1_0000
  {
  }

  /** A handshake that fails after `n` messages, at a start whose device opens no channel or at any other
      wait of a start or renewal, has sent only counters in step. */
  lemma CutShortInStep(initTs: u32, replies: seq<Reply>, renewal: bool, n: nat, i: nat)
    requires i < n <= |Handshake(CallTs(initTs), replies, renewal).p.sent|
    ensures var p := Handshake(CallTs(initTs), replies, renewal).p;
            InStep(Call(initTs, renewal, 0, Progress(p.counter, p.sent[..n]), p.counter), i)
  {
    var p := Handshake(CallTs(initTs), replies, renewal).p;
    HandshakeKeeps(CallTs(initTs), replies, renewal);
    hide Handshake, InStep;
    PrefixKeeps(CallTs(initTs), p, Allowance(renewal), n);
    KeepsLowHalf(CallTs(initTs), p, Allowance(renewal));
    hide Keeps;
    SoundInStep(Call(initTs, renewal, 0, Progress(p.counter, p.sent[..n]), p.counter), i);
  }

  lemma PrefixKeeps(callTs: nat, p: Progress, allowance: nat, n: nat)
    requires Keeps(callTs, p, allowance) && n <= |p.sent|
    ensures Keeps(callTs, Progress(p.counter, p.sent[..n]), allowance)
  {
  }

  /** What a start sends whose device opens no channel is such a beginning. */
  lemma NegotiationIsCutShort(callTs: nat, replies: seq<Reply>)
    ensures Negotiate(callTs, replies).p.sent <= Handshake(callTs, replies, false).p.sent
  {
    var o := Negotiate(callTs, replies);
    hide Negotiate;
    AckAppends(o.rest, 5, o.p);
  }

  lemma {:induction false} AckAppends(replies: seq<Reply>, budget: nat, p: Progress)
    ensures p.sent <= AckRtpcLink(replies, budget, p).p.sent
    decreases budget
  {
    hide ShapeOf;
    if budget > 0 {
      AckAppends(Rest(replies), budget - 1, p);
    }
  }

  /** Whatever the run, the acknowledgement of a call end carries the session of the call that ended, or
      the marked one of the device's own timestamp. */
  lemma EndAckKeepsSession(initTs: u32, replies: seq<Reply>, events: seq<Event>, callEndTs: u32)
    ensures var call := Run(Started(initTs, replies), events);
            EndAckTs(callEndTs, call.handshake) % 0x1_0000
            == if callEndTs == 0 then (call.initTs + 1) % 0x1_0000 else Marked(callEndTs % 0x1_0000)
  {
    var call := Run(Started(initTs, replies), events);
    StartedSound(initTs, replies);
    hide Started, Run, Sound;
    RunKeepsSound(Started(initTs, replies), events);
    LowHalf(call.initTs);
    SoundHandshake(call);
    EndAckLowHalf(callEndTs, call.handshake);
    hide CallTs, EndAckTs;
  }

  lemma SoundHandshake(call: Call)
    requires Sound(call)
    ensures call.handshake % 0x1_0000 == CallTs(call.initTs) % 0x1_0000
  {
    hide CallTs;
  }

  lemma EndAckLowHalf(callEndTs: u32, counter: nat)
    ensures EndAckTs(callEndTs, counter) % 0x1_0000
            == if callEndTs == 0 then counter % 0x1_0000 else Marked(callEndTs % 0x1_0000)
  {
    if callEndTs == 0 {
      var laps, ts := (counter + BYTE5) / TWO_32, (counter + BYTE5) % TWO_32;
      assert ts == counter + (0x100 - 0x1_0000 * laps) * 0x1_0000;
      LowOfSum(counter, 0x100 - 0x1_0000 * laps);
    } else {
      var high: int := callEndTs / 0x1_0000;
      LowOfSum(Marked(callEndTs % 0x1_0000), high / 0x100 + (high % 0x100 + 1) % 0x100 * 0x100);
    }
  }

  lemma LowOfSum(low: int, high: int)
    ensures (low + high * 0x1_0000) % 0x1_0000 == low % 0x1_0000
  {
  }

  lemma LowHalf(initTs: u32)
    ensures CallTs(initTs) % 0x1_0000 == (initTs + 1) % 0x1_0000 != initTs % 0x1_0000
  {
  }

  /** The timestamp of the acknowledgement pair that ends the channel init. */
  function AckPairTs(initTs: u32): u32 { (initTs + BOTH) % TWO_32 }

  /** Whatever the run, no counter sent carries the session id of the call's init phase, whose init and
      acknowledgement pair share one. */
  lemma PhasesStayApart(initTs: u32, replies: seq<Reply>, events: seq<Event>, i: nat)
    requires i < |Run(Started(initTs, replies), events).p.sent|
    ensures var call := Run(Started(initTs, replies), events);
            AckPairTs(call.initTs) % 0x1_0000 == call.initTs % 0x1_0000 != call.p.sent[i] % 0x1_0000
  {
    var call := Run(Started(initTs, replies), events);
    CountersOfEveryRun(initTs, replies, events, i);
    AckPairLowHalf(call.initTs);
    InStepLowHalf(call, i);
    hide Run, Started, InStep, AckPairTs;
  }

  lemma InStepLowHalf(call: Call, i: nat)
    requires i < |call.p.sent| && InStep(call, i)
    ensures call.p.sent[i] % 0x1_0000 != call.initTs % 0x1_0000
  {
  }

  lemma AckPairLowHalf(initTs: u32)
    ensures AckPairTs(initTs) % 0x1_0000 == initTs % 0x1_0000
  {
  }

  /** After any run the counter is that of the last handshake, and 0x00010000 more for every command since. */
  lemma {:induction false} CommandsCount(call: Call, events: seq<Event>)
    requires call.p.counter == call.handshake + call.commands * 0x0001_0000
    ensures var end := Run(call, events); end.p.counter == end.handshake + end.commands * 0x0001_0000
    decreases events
  {
    hide Handshake;
    if events != [] {
      CommandsCount(Step(call, events[0]), events[1..]);
    }
  }

  /** The device's timestamp byte by byte: bit 7 of the first set, the last two swapped, and the new last one
      counted up. */
  lemma TransformedBytes(ts: u32)
    ensures var b, t := Le32(ts), Le32(TransformDeviceTs(ts));
            && t[0] == (if b[0] < 0x80 then ByteAt(b, 0) + 0x80 else b[0]) && t[1] == b[1]
            && t[2] == b[3] && t[3] == (ByteAt(b, 2) + 1) % 0x100
  {
    var low, high: int := ts % 0x1_0000, ts / 0x1_0000;
    var low', high' := Marked(low), high / 0x100 + (high % 0x100 + 1) % 0x100 * 0x100;
    assert TransformDeviceTs(ts) % 0x1_0000 == low' && TransformDeviceTs(ts) / 0x1_0000 == high';
    assert high' % 0x100 == high / 0x100 && high' / 0x100 == (high % 0x100 + 1) % 0x100;
  }

  // ----- Independence of the device's timestamps --------------------------------------------

  function Shapes(replies: seq<Reply>): seq<Shape>
  {
    seq(|replies|, i requires 0 <= i < |replies| => ShapeOf(replies[i]))
  }

  lemma ShapesRest(a: seq<Reply>, b: seq<Reply>)
    requires Shapes(a) == Shapes(b)
    ensures ShapeOf(Next(a)) == ShapeOf(Next(b)) && Shapes(Rest(a)) == Shapes(Rest(b))
  {
    hide ShapeOf;
    assert |a| == |Shapes(a)| == |b|;
    if a != [] {
      assert Shapes(a)[0] == Shapes(b)[0];
      forall i | 0 <= i < |a| - 1
        ensures Shapes(a[1..])[i] == Shapes(b[1..])[i]
      {
        assert Shapes(a)[i + 1] == Shapes(b)[i + 1];
      }
    }
  }

  lemma {:induction false} CodecExchangeByShape(a: seq<Reply>, b: seq<Reply>, budget: nat, p: Progress)
    requires Shapes(a) == Shapes(b)
    ensures CodecExchange(a, budget, p).p == CodecExchange(b, budget, p).p
    ensures Shapes(CodecExchange(a, budget, p).rest) == Shapes(CodecExchange(b, budget, p).rest)
    decreases budget
  {
    hide Shapes, ShapeOf;
    if budget > 0 {
      ShapesRest(a, b);
      var shape := ShapeOf(Next(a));
      if shape.Typed? && shape.kind == 0x1840 && shape.action != 0x0002 {
        CodecExchangeByShape(Rest(a), Rest(b), budget - 1, Send(p, if shape.action == 0x0008 then BOTH else BYTE4));
      } else if shape.Typed? && shape.kind != 0x1840 {
        CodecExchangeByShape(Rest(a), Rest(b), budget - 1, p);
      }
    }
  }

  lemma {:induction false} AckRtpcLinkByShape(a: seq<Reply>, b: seq<Reply>, budget: nat, p: Progress)
    requires Shapes(a) == Shapes(b)
    ensures AckRtpcLink(a, budget, p).p == AckRtpcLink(b, budget, p).p
    decreases budget
  {
    hide Shapes, ShapeOf;
    if budget > 0 {
      ShapesRest(a, b);
      AckRtpcLinkByShape(Rest(a), Rest(b), budget - 1, p);
    }
  }

  /** Devices that reply with the same types and actions, whatever their timestamps, are sent the same
      counters. */
  lemma TimestampsDoNotMatter(callTs: nat, a: seq<Reply>, b: seq<Reply>, renewal: bool)
    requires Shapes(a) == Shapes(b)
    ensures Handshake(callTs, a, renewal).p == Handshake(callTs, b, renewal).p
  {
    hide CodecExchange, AckRtpcLink, Shapes, ShapeOf;
    ShapesRest(a, b);
    var p := Send(Progress(callTs, []), BYTE4);
    CodecExchangeByShape(Rest(a), Rest(b), 10, p);
    AckRtpcLinkByShape(CodecExchange(Rest(a), 10, p).rest, CodecExchange(Rest(b), 10, p).rest, 5,
                       Negotiate(callTs, a).p);
  }

  // ----- The allowance is reached ------------------------------------------------------------

  /** A reply of type 0x1840 with the given action. */
  function Event1840(action: u16): Reply
  {
    Packet([0x40, 0x18, 0, 0, 0, 0] + Be16(action))
  }

  lemma {:induction false} CodecExchangeRepeats(replies: seq<Reply>, budget: nat, p: Progress)
    requires budget <= |replies| && forall i :: 0 <= i < budget ==> ShapeOf(replies[i]) == Typed(0x1840, 0x0008)
    ensures CodecExchange(replies, budget, p).p.counter == p.counter + budget * BOTH
    ensures CodecExchange(replies, budget, p).rest == replies[budget..]
    decreases budget
  {
    hide ShapeOf;
    if budget > 0 {
      CodecExchangeRepeats(Rest(replies), budget - 1, Send(p, BOTH));
    }
  }

  lemma AllowanceIsReached(callTs: nat, renewal: bool)
    ensures var replies := [Timeout] + seq(10, _ => Event1840(0x0008)) + [Event1840(0x000A)];
            Handshake(callTs, replies, renewal).p.counter == callTs + Allowance(renewal)
  {
    var replies := [Timeout] + seq(10, _ => Event1840(0x0008)) + [Event1840(0x000A)];
    var p := Send(Progress(callTs, []), BYTE4);
    assert ShapeOf(Event1840(0x0008)) == Typed(0x1840, 0x0008) && ShapeOf(Event1840(0x000A)) == Typed(0x1840, 0x000A);
    hide ShapeOf, Event1840, CodecExchange;
    assert Rest(replies) == seq(10, _ => Event1840(0x0008)) + [Event1840(0x000A)];
    CodecExchangeRepeats(Rest(replies), 10, p);
    assert Rest(replies)[10..] == [Event1840(0x000A)];
  }
}
