/** Command packets byte by byte: which of them open which channel, and the matching of replies to opens for
    runs of packets as they come off the connection. */
module CommandBytes {
  import opened Bytes
  import opened ChannelOpen
  import opened ChannelRegistry
  import opened Client

  /** What reaches the registry: a reply to an open, the device's own open, any other command packet, or a
      change made on our side. */
  datatype Input =
    | ReplyBody(number: u16, kind: u32, channelId: u16, rest: bytes)
    | DeviceBody(kind: u32, name: bytes, requestId: u16, rest: bytes)
    | OtherBody(body: bytes)
    | Ours(change: Event)

  /** Replies count from 2; a device's open has a terminated name; other packets are too short to have a type
      or are of another type than 0xABCD. Our side makes no replies. */
  predicate Proper(input: Input)
  {
    match input
    case ReplyBody(number, _, _, _) => number != 1
    case DeviceBody(_, name, _, _) => ZeroFree(name)
    case OtherBody(body) => |body| < 4 || [body[0], body[1]] != [0xCD, 0xAB]
    case Ours(change) => !change.Reply? && !change.DeviceOpen?
  }

  function ReplyBytes(number: u16, kind: u32, channelId: u16, rest: bytes): bytes
  {
    [0xCD, 0xAB, number % 0x100, number / 0x100] + Le32(kind) + [channelId % 0x100, channelId / 0x100] + rest
  }

  function DeviceBytes(kind: u32, name: bytes, requestId: u16, rest: bytes): bytes
  {
    [0xCD, 0xAB, 1, 0] + Le32(kind) + name + [0] + [requestId % 0x100, requestId / 0x100] + rest
  }

  /** A reply opens the first pending client open, with the id in its ninth and tenth byte. */
  lemma ReplyOpens(m: Mux, number: u16, kind: u32, channelId: u16, rest: bytes)
    requires number != 1
    ensures Dispatched(m.reg, ReplyBytes(number, kind, channelId, rest))
            == ChannelRegistry.Step(m, Reply(channelId)).reg
  {
    hide FillFirst, Le32;
    var body := ReplyBytes(number, kind, channelId, rest);
    assert body[0] == 0xCD && body[1] == 0xAB && body[2] == number % 0x100 && body[3] == number / 0x100;
    assert body[8] == channelId % 0x100 && body[9] == channelId / 0x100;
    hide ReplyBytes;
    assert ReadLe16(body, 0) == 0xABCD && ReadLe16(body, 2) == number && ReadLe16(body, 8) == channelId;
  }

  /** A command too short for an id opens it with id 0, whatever its number. */
  lemma ShortReplyOpens(m: Mux, body: bytes)
    requires 4 <= |body| < 10 && body[0] == 0xCD && body[1] == 0xAB
    ensures Dispatched(m.reg, body) == ChannelRegistry.Step(m, Reply(0)).reg
  {
    hide FillFirst;
    assert ReadLe16(body, 0) == 0xABCD;
  }

  /** The device's open fills the first placeholder, with the id after its name. */
  lemma DeviceOpens(m: Mux, kind: u32, name: bytes, requestId: u16, rest: bytes)
    requires ZeroFree(name)
    ensures Dispatched(m.reg, DeviceBytes(kind, name, requestId, rest))
            == ChannelRegistry.Step(m, DeviceOpen(requestId)).reg
  {
    hide FillFirst, Le32;
    var head := [0xCD, 0xAB, 1, 0] + Le32(kind);
    var body := DeviceBytes(kind, name, requestId, rest);
    assert Le16(requestId) == [requestId % 0x100, requestId / 0x100];
    assert body == head + name + [0] + Le16(requestId) + rest;
    assert body[0] == 0xCD && body[1] == 0xAB && body[2] == 1 && body[3] == 0;
    TerminatedNameRecovers(head, name, requestId, rest);
    hide DeviceBytes, DeviceRequestId;
    assert ReadLe16(body, 0) == 0xABCD && ReadLe16(body, 2) == 1;
  }

  /** Packets of another type, or too short to have one, change nothing. */
  lemma OthersChangeNothing(reg: seq<Chan>, body: bytes)
    requires |body| < 4 || [body[0], body[1]] != [0xCD, 0xAB]
    ensures Dispatched(reg, body) == reg
  {
    if 4 <= |body| {
      assert [body[0], body[1]][0] == body[0] && [body[0], body[1]][1] == body[1];
    }
  }

  // ----- Whole runs ---------------------------------------------------------------------

  /** The registry as packets and our side change it. */
  function Take(m: Mux, input: Input): Mux
    requires Proper(input)
  {
    match input
    case ReplyBody(number, kind, channelId, rest) =>
      m.(reg := Dispatched(m.reg, ReplyBytes(number, kind, channelId, rest)))
    case DeviceBody(kind, name, requestId, rest) =>
      m.(reg := Dispatched(m.reg, DeviceBytes(kind, name, requestId, rest)))
    case OtherBody(body) => m.(reg := Dispatched(m.reg, body))
    case Ours(change) => ChannelRegistry.Step(m, change)
  }

  function TakeAll(m: Mux, inputs: seq<Input>): Mux
    requires forall i :: i in inputs ==> Proper(i)
    decreases inputs
  {
    if inputs == [] then m else TakeAll(Take(m, inputs[0]), inputs[1..])
  }

  /** The events the inputs stand for. */
  function Meaning(input: Input): seq<Event>
  {
    match input
    case ReplyBody(_, _, channelId, _) => [Reply(channelId)]
    case DeviceBody(_, _, requestId, _) => [DeviceOpen(requestId)]
    case OtherBody(_) => []
    case Ours(change) => [change]
  }

  function MeaningAll(inputs: seq<Input>): seq<Event>
    decreases inputs
  {
    if inputs == [] then [] else Meaning(inputs[0]) + MeaningAll(inputs[1..])
  }

  /** Equal but for the history of replies. */
  predicate SameTables(m: Mux, n: Mux)
  {
    m.reg == n.reg && m.lastRequest == n.lastRequest && m.serials == n.serials
  }

  lemma TakeMeans(m: Mux, n: Mux, input: Input)
    requires SameTables(m, n) && Proper(input)
    ensures SameTables(Take(m, input), ChannelRegistry.Run(n, Meaning(input)))
  {
    hide Dispatched, FillFirst, Put, Remove, Rename, FirstFillable;
    match input
    case ReplyBody(number, kind, channelId, rest) => {
      ReplyOpens(n, number, kind, channelId, rest);
      RunOne(n, Reply(channelId));
    }
    case DeviceBody(kind, name, requestId, rest) => {
      DeviceOpens(n, kind, name, requestId, rest);
      RunOne(n, DeviceOpen(requestId));
    }
    case OtherBody(body) => OthersChangeNothing(m.reg, body);
    case Ours(change) => RunOne(n, change);
  }

  lemma RunOne(n: Mux, e: Event)
    ensures ChannelRegistry.Run(n, [e]) == ChannelRegistry.Step(n, e)
  {
    hide ChannelRegistry.Step;
    assert [e][1..] == [];
  }

  lemma {:induction false} RunAppend(n: Mux, a: seq<Event>, b: seq<Event>)
    ensures ChannelRegistry.Run(n, a + b) == ChannelRegistry.Run(ChannelRegistry.Run(n, a), b)
    decreases a
  {
    hide ChannelRegistry.Step;
    if a == [] {
      assert a + b == b;
    } else {
      assert (a + b)[1..] == a[1..] + b;
      RunAppend(ChannelRegistry.Step(n, a[0]), a[1..], b);
    }
  }

  /** The registry that any packets leave is that of the events they stand for. */
  lemma {:induction false} PacketsAreEvents(m: Mux, n: Mux, inputs: seq<Input>)
    requires SameTables(m, n) && forall i :: i in inputs ==> Proper(i)
    ensures SameTables(TakeAll(m, inputs), ChannelRegistry.Run(n, MeaningAll(inputs)))
    decreases inputs
  {
    hide Take, Meaning, SameTables, Proper;
    if inputs == [] {
    } else {
      TakeMeans(m, n, inputs[0]);
      RunAppend(n, Meaning(inputs[0]), MeaningAll(inputs[1..]));
      PacketsAreEvents(Take(m, inputs[0]), ChannelRegistry.Run(n, Meaning(inputs[0])), inputs[1..]);
    }
  }

  /** For packets as they come off the connection: in every orderly run the `k`-th reply body opens the
      channel of the `k`-th open sent, and what is left in the registry is what the bodies made of it. */
  lemma ReplyBodiesMatchOpens(m: Mux, inputs: seq<Input>)
    requires Matched(m) && DistinctNames(m.reg) && RequestsBelow(m.reg, m.lastRequest)
    requires (forall i :: i in inputs ==> Proper(i)) && OrderlyRun(m, MeaningAll(inputs))
    ensures var end := ChannelRegistry.Run(m, MeaningAll(inputs));
            Matched(end) && TakeAll(m, inputs).reg == end.reg
  {
    hide Matched, OrderlyRun;
    RepliesMatchOpens(m, MeaningAll(inputs));
    PacketsAreEvents(m, m, inputs);
  }
}
