/** The client that multiplexes channels over one connection. Each method is what runs between two awaits;
    packets handed to the transport are returned. */
module Client {
  import opened Bytes
  import opened ChannelOpen
  import opened ChannelRegistry
  import opened Delivery

  class Future {
    var state: FutureState

    constructor ()
      ensures state == Waiting
    {
      state := Waiting;
    }

    method SetResult(body: bytes)
      modifies this
      ensures state == Resolve(old(state), body)
    {
      if state.Waiting? {
        state := Done(body);
      }
    }
  }

  class Channel {
    ghost const serial: nat
    const requestId: nat
    var name: string
    var serverChannelId: int
    var isOpen: bool
    var responseQueue: seq<bytes>

    constructor (ghost serial: nat, name: string, requestId: nat)
      ensures View() == NewChan(serial, name, requestId)
    {
      this.serial, this.name, this.requestId := serial, name, requestId;
      serverChannelId, isOpen, responseQueue := 0, false, [];
    }

    ghost function View(): Chan
      reads this
    {
      Chan(serial, name, requestId, serverChannelId, isOpen, responseQueue)
    }

    predicate Awaits(byDevice: bool)
      reads this
      ensures Awaits(byDevice) == Fillable(View(), byDevice)
    {
      !isOpen && serverChannelId == 0 && (if byDevice then requestId == 0 else requestId != 0)
    }
  }

  function Lookup(channels: seq<Channel>, name: string): (at: nat)
    reads set c | c in channels
    ensures at <= |channels| && (at < |channels| ==> channels[at].name == name)
    ensures forall k :: 0 <= k < at ==> channels[k].name != name
  {
    if channels == [] || channels[0].name == name then 0 else 1 + Lookup(channels[1..], name)
  }

  /** What a command packet asks of the registry: nothing, or to open the first channel waiting for it. */
  datatype Control = Ignored | Opens(byDevice: bool, serverId: int)

  function Classify(body: bytes): Control
  {
    if |body| < 4 then Ignored
    else
      var command := ParseCommandResponse(body);
      if command.kind != COMMAND then Ignored
      else if command.number == 1 && 10 <= |body| then Opens(true, DeviceRequestId(body))
      else Opens(false, command.channelId)
  }

  /** The registry after a command packet. */
  function Dispatched(reg: seq<Chan>, body: bytes): seq<Chan>
  {
    match Classify(body)
    case Ignored => reg
    case Opens(byDevice, serverId) => FillFirst(reg, byDevice, serverId)
  }

  class IconaBridgeClient {
    var channels: seq<Channel>  // an insertion-ordered dictionary keyed by name
    var callbacks: map<int, Future>
    var unsolicited: seq<bytes>
    var lastRequestId: nat
    ghost var serials: nat

    constructor ()
      ensures Valid() && View() == [] && callbacks == map[] && unsolicited == [] && lastRequestId == 0
    {
      channels, callbacks, unsolicited, lastRequestId, serials := [], map[], [], 0, 0;
    }

    ghost function Channels(): set<Channel>
      reads this
    {
      set c | c in channels
    }

    ghost function View(): (reg: seq<Chan>)
      reads this, Channels()
      ensures |reg| == |channels| && forall i :: 0 <= i < |reg| ==> reg[i] == channels[i].View()
    {
      seq(|channels|, i requires 0 <= i < |channels| reads this, Channels() => channels[i].View())
    }

    ghost predicate Valid()
      reads this, Channels()
    {
      && (forall i, j :: 0 <= i < j < |channels| ==> channels[i] != channels[j])
      && DistinctNames(View()) && DistinctSerials(View(), serials)
    }

    // ----- Incoming packets -----------------------------------------------------------

    /** A command packet opens the first channel waiting for it. */
    method DispatchCommandResponse(body: bytes)
      requires Valid()
      modifies Channels()
      ensures Valid()
      ensures View() == Dispatched(old(View()), body)
    {
      hide DistinctNames, DistinctSerials, FillFirst;
      match Classify(body)
      case Ignored => {}
      case Opens(byDevice, serverId) => OpenFirst(byDevice, serverId);
    }

    method OpenFirst(byDevice: bool, serverId: int)
      requires Valid()
      modifies Channels()
      ensures Valid() && View() == FillFirst(old(View()), byDevice, serverId)
    {
      hide DistinctNames, DistinctSerials, FirstFillable;
      var i := 0;
      while i < |channels| && !channels[i].Awaits(byDevice)
        invariant i <= |channels|
        invariant forall k :: 0 <= k < i ==> !Fillable(View()[k], byDevice)
      {
        i := i + 1;
      }
      assert i < |channels| ==> Fillable(View()[i], byDevice);
      FirstFillableAt(View(), byDevice, i);
      FillKeepsNames(View(), byDevice, serverId);
      FillKeepsSerials(View(), byDevice, serverId, serials);
      if i < |channels| {
        channels[i].serverChannelId := serverId;
        channels[i].isOpen := true;
        assert channels[i].View() == old(channels[i].View()).(serverId := serverId, isOpen := true);
      }
      assert View() == FillFirst(old(View()), byDevice, serverId);
    }

    /** A data packet goes to the future registered under its id, else to the first open channel with the
        id, else to the unsolicited path. */
    method Dispatch(requestId: int, body: bytes)
      requires Valid()
      modifies this, Channels(), callbacks.Values
      ensures Valid() && channels == old(channels) && lastRequestId == old(lastRequestId)
      ensures requestId == 0 ==>
                && callbacks == old(callbacks) && unsolicited == old(unsolicited)
                && View() == Dispatched(old(View()), body)
      ensures requestId != 0 && requestId in old(callbacks) ==>
                && callbacks == old(callbacks) - {requestId} && unsolicited == old(unsolicited)
                && View() == old(View())
      ensures forall f :: f in old(callbacks.Values) ==>
                f.state == if requestId != 0 && requestId in old(callbacks) && f == old(callbacks)[requestId]
                           then Resolve(old(f.state), body) else old(f.state)
      ensures requestId != 0 && requestId !in old(callbacks) ==>
                var at := Routed(old(View()), requestId);
                && callbacks == old(callbacks)
                && View() == (if at < |old(View())| then Enqueue(old(View()), at, body) else old(View()))
                && unsolicited == old(unsolicited) + if at < |old(View())| then [] else [body]
    {
      hide DistinctNames, DistinctSerials, Enqueue, Routed, Dispatched;
      if requestId == 0 {
        DispatchCommandResponse(body);
      } else if requestId in callbacks {
        var future := callbacks[requestId];
        callbacks := callbacks - {requestId};
        future.SetResult(body);
        assert View() == old(View());
      } else {
        QueueOrReport(requestId, body);
      }
    }

    method QueueOrReport(requestId: int, body: bytes)
      requires Valid()
      modifies this`unsolicited, Channels()
      ensures Valid()
      ensures var at := Routed(old(View()), requestId);
              && View() == (if at < |old(View())| then Enqueue(old(View()), at, body) else old(View()))
              && unsolicited == old(unsolicited) + if at < |old(View())| then [] else [body]
    {
      hide DistinctNames, DistinctSerials, Routed;
      var i := 0;
      while i < |channels| && !(channels[i].serverChannelId == requestId && channels[i].isOpen)
        invariant i <= |channels|
        invariant forall k :: 0 <= k < i ==> !(View()[k].isOpen && View()[k].serverId == requestId)
      {
        i := i + 1;
      }
      RoutedAt(View(), requestId, i);
      if i < |channels| {
        EnqueueKeepsNames(View(), i, body, serials);
        channels[i].responseQueue := channels[i].responseQueue + [body];
        assert View() == Enqueue(old(View()), i, body);
      } else {
        unsolicited := unsolicited + [body];
        assert View() == old(View());
      }
    }

    // ----- The registry -----------------------------------------------------------------

    /** Dictionary assignment. */
    method Register(channel: Channel)
      requires Valid() && channel !in channels && channel.serial < serials
      requires forall i :: 0 <= i < |View()| ==> View()[i].serial != channel.serial
      modifies this`channels
      ensures Valid() && View() == Put(old(View()), channel.View())
      ensures Channels() <= old(Channels()) + {channel} && channel in channels
    {
      hide DistinctNames, DistinctSerials, IndexOf;
      var at := Find(channel.name);
      SerialsBelow(View(), serials);
      PutKeepsNames(View(), channel.View());
      PutKeepsSerials(View(), channel.View(), serials);
      if at == |channels| {
        channels := channels + [channel];
        assert View() == old(View()) + [channel.View()];
      } else {
        channels := channels[at := channel];
        assert View() == old(View())[at := channel.View()];
      }
      assert channels[at] == channel;
      assert View() == Put(old(View()), channel.View());
      hide Put;
    }

    function Find(name: string): (at: nat)
      reads this, Channels()
      ensures at == IndexOf(View(), name) && at <= |channels|
    {
      var at := Lookup(channels, name);
      assert at < |channels| ==> View()[at].name == name;
      assert forall k :: 0 <= k < at ==> View()[k].name == channels[k].name;
      IndexOfAt(View(), name, at);
      at
    }

    /** `_channels.pop(name, None)`. */
    method Pop(name: string) returns (channel: Option<Channel>)
      requires Valid()
      modifies this`channels
      ensures Valid() && View() == Remove(old(View()), name)
      ensures var at := IndexOf(old(View()), name);
              channel == if at < |old(channels)| then Some(old(channels)[at]) else None
      ensures Channels() <= old(Channels())
      ensures channel.Some? ==> channel.value !in channels && channel.value.serial < serials
      ensures channel.Some? ==> forall i :: 0 <= i < |View()| ==> View()[i].serial != channel.value.serial
    {
      hide DistinctNames, DistinctSerials, IndexOf;
      var at := Find(name);
      RemoveKeepsNames(View(), name);
      RemoveKeepsSerials(View(), name, serials);
      if at == |channels| {
        return None;
      }
      channel := Some(channels[at]);
      CutIndices(channels, at);
      CutIndices(View(), at);
      channels := channels[..at] + channels[at + 1..];
      assert View() == Remove(old(View()), name);
      hide Remove;
    }

    /** The part of `open_channel` before its first await: the channel is registered before the open is
        sent, so a reply cannot find it missing. */
    method OpenChannel(name: string) returns (channel: Channel)
      requires Valid()
      modifies this`channels, this`lastRequestId, this`serials
      ensures Valid() && fresh(channel) && channel in channels
      ensures lastRequestId == old(lastRequestId) + 1 && serials == old(serials) + 1
      ensures channel.View() == NewChan(old(serials), name, lastRequestId)
      ensures View() == Put(old(View()), channel.View())
    {
      hide DistinctNames, DistinctSerials, Put;
      lastRequestId := lastRequestId + 1;
      assert View() == old(View());
      channel := NewlyRegistered(name, lastRequestId);
    }

    method RegisterPlaceholderChannel(name: string) returns (channel: Channel)
      requires Valid()
      modifies this`channels, this`serials
      ensures Valid() && fresh(channel) && channel in channels && serials == old(serials) + 1
      ensures channel.View() == NewChan(old(serials), name, 0)
      ensures View() == Put(old(View()), channel.View())
    {
      channel := NewlyRegistered(name, 0);
    }

    method NewlyRegistered(name: string, requestId: nat) returns (channel: Channel)
      requires Valid()
      modifies this`channels, this`serials
      ensures Valid() && fresh(channel) && channel in channels && serials == old(serials) + 1
      ensures channel.View() == NewChan(old(serials), name, requestId)
      ensures View() == Put(old(View()), channel.View())
    {
      hide DistinctNames, DistinctSerials, Put;
      SerialsBelow(View(), serials);
      channel := new Channel(serials, name, requestId);
      serials := serials + 1;
      assert View() == old(View());
      Register(channel);
    }

    method RemoveChannel(name: string)
      requires Valid()
      modifies this`channels
      ensures Valid() && View() == Remove(old(View()), name)
    {
      var _ := Pop(name);
    }

    method RenameChannel(oldName: string, newName: string)
      requires Valid()
      modifies this`channels, Channels()
      ensures Valid() && View() == Rename(old(View()), oldName, newName)
    {
      hide DistinctNames, DistinctSerials, Put, Remove, IndexOf;
      var at := Find(oldName);
      if at < |channels| {
        ghost var was := channels[at].View();
        var popped := Pop(oldName);
        var channel := popped.value;
        ghost var rest := View();
        channel.name := newName;
        assert View() == rest;
        assert channel.View() == was.(name := newName);
        Register(channel);
      }
    }

    // ----- JSON requests ------------------------------------------------------------------

    /** The part of `send_json` that runs once the channel's lock is held, up to the write. */
    method BeginRequest(channel: Channel) returns (future: Option<Future>)
      modifies this`callbacks
      ensures future.Some? <==> channel.isOpen && channel.serverChannelId != 0
      ensures future.None? ==> callbacks == old(callbacks)
      ensures future.Some? ==> fresh(future.value) && future.value.state == Waiting
                               && callbacks == old(callbacks)[channel.serverChannelId := future.value]
    {
      if !channel.isOpen || channel.serverChannelId == 0 {
        return None;
      }
      var f := new Future();
      callbacks := callbacks[channel.serverChannelId := f];
      future := Some(f);
    }

    /** The handler of the timeout on the reply. */
    method RequestTimedOut(channel: Channel)
      modifies this`callbacks
      ensures callbacks == old(callbacks) - {channel.serverChannelId}
    {
      callbacks := callbacks - {channel.serverChannelId};
    }

    method Disconnect()
      modifies this`channels, this`callbacks, callbacks.Values
      ensures Valid() && View() == [] && callbacks == map[]
      ensures forall f :: f in old(callbacks.Values) ==>
                f.state == if old(f.state).Waiting? then Cancelled else old(f.state)
    {
      channels := [];
      var left := callbacks.Values;
      while left != {}
        invariant left <= old(callbacks.Values) && channels == [] && callbacks == old(callbacks)
        invariant forall f :: f in old(callbacks.Values) ==>
                    f.state == if f !in left && old(f.state).Waiting? then Cancelled else old(f.state)
        modifies callbacks.Values
      {
        var future :| future in left;
        if future.state.Waiting? {
          future.state := Cancelled;
        }
        left := left - {future};
      }
      callbacks := map[];
    }
  }

  lemma FirstFillableAt(reg: seq<Chan>, byDevice: bool, at: nat)
    requires at <= |reg| && (at < |reg| ==> Fillable(reg[at], byDevice))
    requires forall i :: 0 <= i < at ==> !Fillable(reg[i], byDevice)
    ensures FirstFillable(reg, byDevice) == at
  {
    hide Fillable;
  }

  lemma EnqueueKeepsNames(reg: seq<Chan>, at: nat, body: bytes, serials: nat)
    requires at < |reg| && DistinctNames(reg) && DistinctSerials(reg, serials)
    ensures DistinctNames(Enqueue(reg, at, body)) && DistinctSerials(Enqueue(reg, at, body), serials)
  {
  }

  lemma RoutedAt(reg: seq<Chan>, channelId: int, at: nat)
    requires at <= |reg| && (at < |reg| ==> reg[at].isOpen && reg[at].serverId == channelId)
    requires forall i :: 0 <= i < at ==> !(reg[i].isOpen && reg[i].serverId == channelId)
    ensures Routed(reg, channelId) == at
  {
  }

  lemma IndexOfAt(reg: seq<Chan>, name: string, at: nat)
    requires at <= |reg| && (at < |reg| ==> reg[at].name == name)
    requires forall i :: 0 <= i < at ==> reg[i].name != name
    ensures IndexOf(reg, name) == at
  {
  }
}
