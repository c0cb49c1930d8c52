/** The channel registry as a value: an insertion-ordered dictionary, the replies that fill its entries,
    and the whole-run matching of uncorrelated replies to opens. */
module ChannelRegistry {
  import opened Bytes

  /** One channel. `serial` tells channels apart; placeholders for device-initiated opens have request
      id 0. */
  datatype Chan = Chan(serial: nat, name: string, requestId: nat, serverId: int, isOpen: bool, queue: seq<bytes>)

  /** A channel waiting to be opened: by the device's own open (`byDevice`), or by a reply to ours. */
  predicate Fillable(c: Chan, byDevice: bool)
  {
    !c.isOpen && c.serverId == 0 && (c.requestId == 0 <==> byDevice)
  }

  /** The position of the first fillable channel, or the length. */
  function FirstFillable(reg: seq<Chan>, byDevice: bool): (at: nat)
    ensures at <= |reg| && (at < |reg| ==> Fillable(reg[at], byDevice))
    ensures forall i :: 0 <= i < at ==> !Fillable(reg[i], byDevice)
  {
    if reg == [] || Fillable(reg[0], byDevice) then 0 else 1 + FirstFillable(reg[1..], byDevice)
  }

  function FillFirst(reg: seq<Chan>, byDevice: bool, serverId: int): seq<Chan>
  {
    var at := FirstFillable(reg, byDevice);
    if at == |reg| then reg else reg[at := reg[at].(serverId := serverId, isOpen := true)]
  }

  /** The position of the channel registered under `name`, or the length. */
  function IndexOf(reg: seq<Chan>, name: string): (at: nat)
    ensures at <= |reg| && (at < |reg| ==> reg[at].name == name)
    ensures forall i :: 0 <= i < at ==> reg[i].name != name
  {
    if reg == [] || reg[0].name == name then 0 else 1 + IndexOf(reg[1..], name)
  }

  /** Dictionary assignment: a key already present keeps its position. */
  function Put(reg: seq<Chan>, c: Chan): seq<Chan>
  {
    var at := IndexOf(reg, c.name);
    if at == |reg| then reg + [c] else reg[at := c]
  }

  function Remove(reg: seq<Chan>, name: string): seq<Chan>
  {
    var at := IndexOf(reg, name);
    if at == |reg| then reg else reg[..at] + reg[at + 1..]
  }

  function Rename(reg: seq<Chan>, oldName: string, newName: string): seq<Chan>
  {
    var at := IndexOf(reg, oldName);
    if at == |reg| then reg else Put(Remove(reg, oldName), reg[at].(name := newName))
  }

  // ----- The laws of an insertion-ordered dictionary --------------------------------------

  function Names(reg: seq<Chan>): seq<string>
  {
    seq(|reg|, i requires 0 <= i < |reg| => reg[i].name)
  }

  function Without(names: seq<string>, name: string): seq<string>
  {
    if names == [] then [] else (if names[0] == name then [] else [names[0]]) + Without(names[1..], name)
  }

  predicate DistinctNames(reg: seq<Chan>)
  {
    forall i, j :: 0 <= i < j < |reg| ==> reg[i].name != reg[j].name
  }

  /** Assignment replaces what had the key, keeping its place, or adds a key at the end. */
  lemma PutIsAssignment(reg: seq<Chan>, c: Chan, x: Chan)
    requires DistinctNames(reg)
    ensures x in Put(reg, c) <==> x == c || (x in reg && x.name != c.name)
    ensures Names(Put(reg, c)) == if c.name in Names(reg) then Names(reg) else Names(reg) + [c.name]
  {
    hide IndexOf;
    var at := IndexOf(reg, c.name);
    NamesIndex(reg, c.name);
    hide DistinctNames;
    if at < |reg| {
      forall i | 0 <= i < |reg| && i != at
        ensures reg[i].name != c.name
      {
        OtherName(reg, at, i);
      }
      assert Put(reg, c)[at] == c;
      if x in reg && x.name != c.name {
        var i :| 0 <= i < |reg| && reg[i] == x;
        assert Put(reg, c)[i] == x;
      }
    }
  }

  lemma NamesIndex(reg: seq<Chan>, name: string)
    ensures name in Names(reg) <==> IndexOf(reg, name) < |reg|
  {
    hide IndexOf;
    var at := IndexOf(reg, name);
    assert at < |reg| ==> Names(reg)[at] == name;
  }

  lemma OtherName(reg: seq<Chan>, at: nat, i: nat)
    requires DistinctNames(reg) && at < |reg| && i < |reg| && at != i
    ensures reg[i].name != reg[at].name
  {
  }

  /** Deletion removes the key and keeps the order of the others. */
  lemma {:induction false} RemoveIsDeletion(reg: seq<Chan>, name: string, x: Chan)
    requires DistinctNames(reg)
    ensures x in Remove(reg, name) <==> x in reg && x.name != name
    ensures Names(Remove(reg, name)) == Without(Names(reg), name)
  {
    if reg != [] {
      var c, rest := reg[0], reg[1..];
      assert reg == [c] + rest;
      RestOfNames(reg);
      RemoveFromRest(reg, name);
      hide Remove, DistinctNames, Names, Without;
      WithoutFirst(c.name, Names(rest), name);
      NamesFirst(c, rest);
      if c.name == name {
        WithoutAbsent(Names(rest), name);
      } else {
        RemoveIsDeletion(rest, name, x);
        NamesFirst(c, Remove(rest, name));
      }
    }
  }

  lemma NamesFirst(c: Chan, rest: seq<Chan>)
    ensures Names([c] + rest) == [c.name] + Names(rest)
  {
  }

  lemma RestOfNames(reg: seq<Chan>)
    requires DistinctNames(reg) && reg != []
    ensures DistinctNames(reg[1..]) && reg[0].name !in Names(reg[1..])
    ensures forall x :: x in reg[1..] ==> x.name != reg[0].name
  {
  }

  lemma WithoutFirst(first: string, rest: seq<string>, name: string)
    ensures Without([first] + rest, name) == (if first == name then [] else [first]) + Without(rest, name)
  {
    assert ([first] + rest)[1..] == rest;
  }

  lemma RemoveFromRest(reg: seq<Chan>, name: string)
    requires reg != []
    ensures Remove(reg, name) == if reg[0].name == name then reg[1..] else [reg[0]] + Remove(reg[1..], name)
  {
    if reg[0].name == name {
      return;
    }
    var at := IndexOf(reg[1..], name);
    assert IndexOf(reg, name) == 1 + at;
    if at < |reg[1..]| {
      assert reg[..at + 1] == [reg[0]] + reg[1..][..at];
    } else {
      assert reg == [reg[0]] + reg[1..];
    }
  }

  lemma {:induction false} WithoutAbsent(names: seq<string>, name: string)
    requires name !in names
    ensures Without(names, name) == names
  {
    if names != [] {
      WithoutAbsent(names[1..], name);
    }
  }

  /** Renaming deletes the old key and assigns the channel, under its new name, to the new one. */
  lemma RenameIsMove(reg: seq<Chan>, oldName: string, newName: string, c: Chan, x: Chan)
    requires DistinctNames(reg) && c in reg && c.name == oldName
    ensures x in Rename(reg, oldName, newName)
            <==> x == c.(name := newName) || (x in reg && x.name != oldName && x.name != newName)
    ensures var rest := Without(Names(reg), oldName);
            Names(Rename(reg, oldName, newName)) == if newName in rest then rest else rest + [newName]
  {
    hide Put, Remove, IndexOf, Without, Names;
    var at := IndexOf(reg, oldName);
    SameChannel(reg, c, at);
    RemoveKeepsNames(reg, oldName);
    RemoveIsDeletion(reg, oldName, x);
    PutIsAssignment(Remove(reg, oldName), c.(name := newName), x);
  }

  lemma SameChannel(reg: seq<Chan>, c: Chan, at: nat)
    requires DistinctNames(reg) && c in reg && at == IndexOf(reg, c.name)
    ensures at < |reg| && reg[at] == c
  {
    hide IndexOf;
    var i :| 0 <= i < |reg| && reg[i] == c;
    if at != i {
      OtherName(reg, if at < |reg| then at else i, if at < |reg| then i else at);
    }
  }

  // ----- The order of pending opens -----------------------------------------------------

  function PendingId(c: Chan): seq<nat>
  {
    if Fillable(c, false) then [c.requestId] else []
  }

  /** The request ids of the pending client opens, in registry order. */
  function Pending(reg: seq<Chan>): seq<nat>
  {
    if reg == [] then [] else PendingId(reg[0]) + Pending(reg[1..])
  }

  lemma {:induction false} PendingAppend(a: seq<Chan>, b: seq<Chan>)
    ensures Pending(a + b) == Pending(a) + Pending(b)
  {
    hide PendingId;
    if a == [] {
      assert a + b == b;
    } else {
      assert (a + b)[1..] == a[1..] + b;
      PendingAppend(a[1..], b);
    }
  }

  lemma PendingOne(c: Chan)
    ensures Pending([c]) == PendingId(c)
  {
    assert [c][1..] == [];
  }

  lemma Replaced<T>(s: seq<T>, at: nat, x: T)
    requires at < |s|
    ensures s[at := x] == s[..at] + [x] + s[at + 1..]
  {
  }

  /** Replacing one channel changes Pending at that place only. */
  lemma PendingReplaced(reg: seq<Chan>, at: nat, c: Chan)
    requires at < |reg|
    ensures Pending(reg[at := c]) == Pending(reg[..at]) + PendingId(c) + Pending(reg[at + 1..])
  {
    hide Pending, PendingId;
    Replaced(reg, at, c);
    PendingAppend(reg[..at] + [c], reg[at + 1..]);
    PendingAppend(reg[..at], [c]);
    PendingOne(c);
  }

  /** Pending around one position. */
  lemma PendingAt(reg: seq<Chan>, at: nat)
    requires at < |reg|
    ensures Pending(reg) == Pending(reg[..at]) + PendingId(reg[at]) + Pending(reg[at + 1..])
  {
    hide Pending, PendingId;
    assert reg[at := reg[at]] == reg;
    PendingReplaced(reg, at, reg[at]);
  }

  lemma {:induction false} NonePending(reg: seq<Chan>)
    ensures Pending(reg) == [] <==> forall i :: 0 <= i < |reg| ==> !Fillable(reg[i], false)
  {
    if reg != [] {
      NonePending(reg[1..]);
      if forall i :: 0 <= i < |reg| ==> !Fillable(reg[i], false) {
        assert forall i :: 0 <= i < |reg[1..]| ==> reg[1..][i] == reg[i + 1];
      } else if !Fillable(reg[0], false) {
        var i :| 0 <= i < |reg| && Fillable(reg[i], false);
        assert reg[1..][i - 1] == reg[i];
      }
    }
  }

  /** A reply fills the head of the pending order and nothing else. */
  lemma ReplyTakesHead(reg: seq<Chan>, serverId: int)
    ensures var at := FirstFillable(reg, false);
            var after := Pending(FillFirst(reg, false, serverId));
            if at == |reg| then Pending(reg) == [] && after == []
            else Pending(reg) == [reg[at].requestId] + after
  {
    hide Pending, FirstFillable, Fillable;
    var at := FirstFillable(reg, false);
    NonePending(reg[..at]);
    if at < |reg| {
      PendingAt(reg, at);
      PendingReplaced(reg, at, reg[at].(serverId := serverId, isOpen := true));
      FilledId(reg[at], serverId);
    } else {
      assert reg[..at] == reg;
    }
  }

  lemma FilledId(c: Chan, serverId: int)
    requires Fillable(c, false)
    ensures PendingId(c) == [c.requestId] && PendingId(c.(serverId := serverId, isOpen := true)) == []
  {
  }

  /** Replacing the channel at one position by another that is as pending as it was. */
  lemma ReplaceKeepsPending(reg: seq<Chan>, at: nat, c: Chan)
    requires at < |reg| && !Fillable(reg[at], false) && !Fillable(c, false)
    ensures Pending(reg[at := c]) == Pending(reg)
  {
    hide Pending, Fillable;
    PendingAt(reg, at);
    PendingReplaced(reg, at, c);
  }

  /** No pending client open is registered under `name`. */
  predicate Spares(reg: seq<Chan>, name: string)
  {
    var at := IndexOf(reg, name);
    at < |reg| ==> !Fillable(reg[at], false)
  }

  lemma PutKeepsPending(reg: seq<Chan>, c: Chan)
    requires !Fillable(c, false) && Spares(reg, c.name)
    ensures Pending(Put(reg, c)) == Pending(reg)
  {
    hide Pending;
    var at := IndexOf(reg, c.name);
    if at == |reg| {
      PendingAppend(reg, [c]);
      PendingOne(c);
    } else {
      ReplaceKeepsPending(reg, at, c);
    }
  }

  lemma RemoveKeepsPending(reg: seq<Chan>, name: string)
    requires Spares(reg, name)
    ensures Pending(Remove(reg, name)) == Pending(reg)
  {
    hide Pending;
    var at := IndexOf(reg, name);
    if at < |reg| {
      PendingAt(reg, at);
      PendingAppend(reg[..at], reg[at + 1..]);
    }
  }

  /** A client open joins the end of the pending order exactly when no pending open is registered at or
      after the position its name takes; in particular when the name is new. */
  lemma OpenJoinsEndExactly(reg: seq<Chan>, c: Chan)
    requires Fillable(c, false) && forall i :: 0 <= i < |reg| ==> reg[i].requestId != c.requestId
    ensures Pending(Put(reg, c)) == Pending(reg) + [c.requestId]
            <==> JoinsEnd(reg, c.name)
  {
    hide Pending, IndexOf, Fillable;
    var at := IndexOf(reg, c.name);
    if at == |reg| {
      PendingAppend(reg, [c]);
      PendingOne(c);
    } else {
      hide PendingId;
      PendingOfFillable(c);
      PendingAt(reg, at);
      PendingReplaced(reg, at, c);
      NonePendingFrom(reg, at);
      FreshFollows(reg[at + 1..], c.requestId);
      MovedToEnd(Pending(reg[..at]), PendingId(reg[at]), Pending(reg[at + 1..]), c.requestId);
    }
  }

  lemma PendingOfFillable(c: Chan)
    requires Fillable(c, false)
    ensures PendingId(c) == [c.requestId]
  {
  }

  lemma NonePendingFrom(reg: seq<Chan>, at: nat)
    requires at < |reg|
    ensures PendingId(reg[at]) == [] && Pending(reg[at + 1..]) == []
            <==> forall i :: at <= i < |reg| ==> !Fillable(reg[i], false)
  {
    hide Pending, Fillable;
    NonePending(reg[at + 1..]);
    assert forall i :: at < i < |reg| ==> reg[i] == reg[at + 1..][i - at - 1];
  }

  lemma FreshFollows(after: seq<Chan>, id: nat)
    requires forall i :: 0 <= i < |after| ==> after[i].requestId != id
    ensures Pending(after) != [] ==> Pending(after)[0] != id
  {
    hide Pending;
    if Pending(after) != [] {
      PendingFrom(after, 0);
    }
  }

  /** Replacing what is pending at one position by a new id appends that id exactly when nothing pending
      is replaced or follows. */
  lemma MovedToEnd(before: seq<nat>, replaced: seq<nat>, after: seq<nat>, id: nat)
    requires after != [] ==> after[0] != id
    ensures before + [id] + after == before + replaced + after + [id] <==> replaced == [] && after == []
  {
    var lhs, rhs := before + [id] + after, before + replaced + after + [id];
    assert |lhs| == |rhs| ==> replaced == [];
    assert lhs[|before|] == id;
    assert replaced == [] && after != [] ==> rhs[|before|] == after[0];
  }

  /** Every pending id is the id of some registered channel. */
  lemma {:induction false} PendingFrom(reg: seq<Chan>, k: nat)
    requires k < |Pending(reg)|
    ensures exists i :: 0 <= i < |reg| && reg[i].requestId == Pending(reg)[k]
  {
    if k < |PendingId(reg[0])| {
      assert reg[0].requestId == Pending(reg)[0];
    } else {
      var k' := k - |PendingId(reg[0])|;
      PendingFrom(reg[1..], k');
      var i :| 0 <= i < |reg[1..]| && reg[1..][i].requestId == Pending(reg[1..])[k'];
      assert reg[i + 1].requestId == Pending(reg)[k];
    }
  }

  // ----- Whole runs ---------------------------------------------------------------------

  datatype Event =
    | Open(name: string)
    | Reply(serverId: int)
    | DeviceOpen(deviceId: int)
    | Placeholder(name: string)
    | Delete(name: string)
    | Move(oldName: string, newName: string)

  /** What reply `k` did: the request id of the channel it opened and the id it assigned. */
  datatype Opening = Opening(requestId: nat, serverId: int)

  /** The registry with the counters, and the history of opens sent and replies received. */
  datatype Mux = Mux(
    reg: seq<Chan>,
    lastRequest: nat,
    serials: nat,
    sent: seq<nat>,
    replies: seq<int>,
    openings: seq<Opening>)

  function NewChan(serial: nat, name: string, requestId: nat): Chan
  {
    Chan(serial, name, requestId, 0, false, [])
  }

  function Step(m: Mux, e: Event): Mux
  {
    match e
    case Open(name) =>
      var c := NewChan(m.serials, name, m.lastRequest + 1);
      m.(reg := Put(m.reg, c), lastRequest := m.lastRequest + 1, serials := m.serials + 1,
         sent := m.sent + [c.requestId])
    case Reply(serverId) =>
      var at := FirstFillable(m.reg, false);
      m.(reg := FillFirst(m.reg, false, serverId), replies := m.replies + [serverId],
         openings := if at < |m.reg| then m.openings + [Opening(m.reg[at].requestId, serverId)] else m.openings)
    case DeviceOpen(deviceId) => m.(reg := FillFirst(m.reg, true, deviceId))
    case Placeholder(name) => m.(reg := Put(m.reg, NewChan(m.serials, name, 0)), serials := m.serials + 1)
    case Delete(name) => m.(reg := Remove(m.reg, name))
    case Move(oldName, newName) => m.(reg := Rename(m.reg, oldName, newName))
  }

  /** No pending open is registered at or after the place the name takes. */
  predicate JoinsEnd(reg: seq<Chan>, name: string)
  {
    forall i :: IndexOf(reg, name) <= i < |reg| ==> !Fillable(reg[i], false)
  }

  /** Opens join the end of the pending order, the device replies only to opens, and no pending open is
      abandoned or renamed. */
  predicate Orderly(m: Mux, e: Event)
  {
    match e
    case Open(name) => JoinsEnd(m.reg, name)
    case Reply(_) => |m.replies| < |m.sent|
    case DeviceOpen(_) => true
    case Placeholder(name) => Spares(m.reg, name)
    case Delete(name) => Spares(m.reg, name)
    case Move(oldName, newName) => Spares(m.reg, oldName) && Spares(m.reg, newName)
  }

  function Run(m: Mux, events: seq<Event>): Mux
    decreases events
  {
    if events == [] then m else Run(Step(m, events[0]), events[1..])
  }

  predicate OrderlyRun(m: Mux, events: seq<Event>)
    decreases events
  {
    events != [] ==> Orderly(m, events[0]) && OrderlyRun(Step(m, events[0]), events[1..])
  }

  /** Reply `k` opened the channel of open `k`, and the opens not yet answered are pending in the order
      they were sent. */
  ghost predicate Matched(m: Mux)
  {
    && |m.openings| == |m.replies| <= |m.sent|
    && (forall k :: 0 <= k < |m.replies| ==> m.openings[k] == Opening(m.sent[k], m.replies[k]))
    && Pending(m.reg) == m.sent[|m.replies|..]
  }

  /** Removing a name leaves the other channels, each at its place or one before. */
  lemma RemovedIndices(reg: seq<Chan>, name: string)
    ensures var at, rest := IndexOf(reg, name), Remove(reg, name);
            at < |reg| ==>
              && |rest| == |reg| - 1
              && forall i :: 0 <= i < |rest| ==> rest[i] == reg[if i < at then i else i + 1]
  {
    var at := IndexOf(reg, name);
    if at < |reg| {
      CutIndices(reg, at);
    }
  }

  lemma CutIndices<T>(s: seq<T>, at: nat)
    requires at < |s|
    ensures var rest := s[..at] + s[at + 1..];
            |rest| == |s| - 1 && forall i :: 0 <= i < |rest| ==> rest[i] == s[if i < at then i else i + 1]
  {
  }

  lemma SparesAfterRemove(reg: seq<Chan>, oldName: string, newName: string)
    requires DistinctNames(reg) && Spares(reg, newName)
    ensures DistinctNames(Remove(reg, oldName)) && Spares(Remove(reg, oldName), newName)
  {
    hide Fillable;
    RemoveKeepsNames(reg, oldName);
    RemovedIndices(reg, oldName);
    var at := IndexOf(reg, oldName);
    var rest := Remove(reg, oldName);
    hide Remove;
    if at < |reg| {
      var j := IndexOf(rest, newName);
      if j < |rest| {
        var i := if j < at then j else j + 1;
        assert reg[i].name == newName && IndexOf(reg, newName) == i;
      }
    }
  }

  lemma PutKeepsNames(reg: seq<Chan>, c: Chan)
    requires DistinctNames(reg)
    ensures DistinctNames(Put(reg, c))
  {
  }

  lemma RemoveKeepsNames(reg: seq<Chan>, name: string)
    requires DistinctNames(reg)
    ensures DistinctNames(Remove(reg, name))
  {
    RemovedIndices(reg, name);
    if IndexOf(reg, name) < |reg| {
      hide Remove, IndexOf;
      assert DistinctNames(Remove(reg, name));
    }
  }

  lemma StepKeepsNames(m: Mux, e: Event)
    requires DistinctNames(m.reg)
    ensures DistinctNames(Step(m, e).reg)
  {
    hide DistinctNames, Put, Remove, IndexOf;
    match e
    case Open(name) => PutKeepsNames(m.reg, NewChan(m.serials, name, m.lastRequest + 1));
    case Reply(serverId) => FillKeepsNames(m.reg, false, serverId);
    case DeviceOpen(deviceId) => FillKeepsNames(m.reg, true, deviceId);
    case Placeholder(name) => PutKeepsNames(m.reg, NewChan(m.serials, name, 0));
    case Delete(name) => RemoveKeepsNames(m.reg, name);
    case Move(oldName, newName) =>
      var at := IndexOf(m.reg, oldName);
      if at < |m.reg| {
        RemoveKeepsNames(m.reg, oldName);
        PutKeepsNames(Remove(m.reg, oldName), m.reg[at].(name := newName));
      }
  }

  lemma FillKeepsNames(reg: seq<Chan>, byDevice: bool, serverId: int)
    requires DistinctNames(reg)
    ensures DistinctNames(FillFirst(reg, byDevice, serverId))
  {
  }

  /** Request ids count up. */
  predicate RequestsBelow(reg: seq<Chan>, lastRequest: nat)
  {
    forall i :: 0 <= i < |reg| ==> reg[i].requestId <= lastRequest
  }

  lemma StepKeepsRequests(m: Mux, e: Event)
    requires RequestsBelow(m.reg, m.lastRequest)
    ensures RequestsBelow(Step(m, e).reg, Step(m, e).lastRequest)
  {
    hide Step, RequestsBelow;
    forall i | 0 <= i < |Step(m, e).reg|
      ensures Step(m, e).reg[i].requestId <= Step(m, e).lastRequest
    {
      StepRequest(m, e, Step(m, e).reg[i]);
    }
    AllBelow(Step(m, e).reg, Step(m, e).lastRequest);
  }

  lemma AllBelow(reg: seq<Chan>, lastRequest: nat)
    requires forall i :: 0 <= i < |reg| ==> reg[i].requestId <= lastRequest
    ensures RequestsBelow(reg, lastRequest)
  {
  }

  lemma StepRequest(m: Mux, e: Event, c': Chan)
    requires RequestsBelow(m.reg, m.lastRequest) && c' in Step(m, e).reg
    ensures c'.requestId <= Step(m, e).lastRequest && m.lastRequest <= Step(m, e).lastRequest
  {
    hide Fillable, FirstFillable, IndexOf;
    if e.Open? {
      PutMembers(m.reg, NewChan(m.serials, e.name, m.lastRequest + 1), c');
    } else if e.Placeholder? {
      PutMembers(m.reg, NewChan(m.serials, e.name, 0), c');
    } else {
      Descent(m, e, c');
      hide Step;
    }
  }

  lemma OpenMatched(m: Mux, name: string)
    requires Matched(m) && RequestsBelow(m.reg, m.lastRequest)
    ensures Matched(Step(m, Open(name))) <==> JoinsEnd(m.reg, name)
  {
    var c := NewChan(m.serials, name, m.lastRequest + 1);
    OpenJoinsEndExactly(m.reg, c);
    hide Pending, Put, JoinsEnd, Fillable;
    assert (m.sent + [c.requestId])[|m.replies|..] == m.sent[|m.replies|..] + [c.requestId];
  }

  /** Losing a pending open shortens the pending order. */
  lemma PlaceholderMatched(m: Mux, name: string)
    requires Matched(m)
    ensures Matched(Step(m, Placeholder(name))) <==> Spares(m.reg, name)
  {
    hide Pending, Fillable, IndexOf;
    NewPlaceholder(m.serials, name);
    var c := NewChan(m.serials, name, 0);
    var at := IndexOf(m.reg, name);
    if Spares(m.reg, name) {
      PutKeepsPending(m.reg, c);
    } else {
      PendingAt(m.reg, at);
      PendingReplaced(m.reg, at, c);
    }
  }

  lemma DeleteMatched(m: Mux, name: string)
    requires Matched(m)
    ensures Matched(Step(m, Delete(name))) <==> Spares(m.reg, name)
  {
    hide Pending, Fillable, IndexOf;
    var at := IndexOf(m.reg, name);
    if Spares(m.reg, name) {
      RemoveKeepsPending(m.reg, name);
    } else {
      PendingAt(m.reg, at);
      PendingAppend(m.reg[..at], m.reg[at + 1..]);
    }
  }

  lemma ReplyMatched(m: Mux, serverId: int)
    requires Matched(m)
    ensures Matched(Step(m, Reply(serverId))) <==> |m.replies| < |m.sent|
  {
    hide Pending, Fillable, FillFirst;
    ReplyTakesHead(m.reg, serverId);
  }

  /** An event keeps replies and opens matched exactly when it is orderly; a renaming at least then. */
  lemma MatchedExactly(m: Mux, e: Event)
    requires Matched(m) && DistinctNames(m.reg) && RequestsBelow(m.reg, m.lastRequest)
    ensures Orderly(m, e) ==> Matched(Step(m, e))
    ensures !e.Move? && Matched(Step(m, e)) ==> Orderly(m, e)
  {
    match e
    case Open(name) => OpenMatched(m, name);
    case Reply(serverId) => ReplyMatched(m, serverId);
    case DeviceOpen(deviceId) => {
      hide Pending, FillFirst;
      DeviceOpenKeepsPending(m.reg, deviceId);
    }
    case Placeholder(name) => PlaceholderMatched(m, name);
    case Delete(name) => DeleteMatched(m, name);
    case Move(oldName, newName) => {
      hide Pending, Rename, Spares;
      if Orderly(m, e) {
        RenameKeepsPending(m.reg, oldName, newName);
      }
    }
  }

  lemma RenameKeepsPending(reg: seq<Chan>, oldName: string, newName: string)
    requires DistinctNames(reg) && Spares(reg, oldName) && Spares(reg, newName)
    ensures Pending(Rename(reg, oldName, newName)) == Pending(reg)
  {
    hide Fillable, Pending, Put, Remove, DistinctNames;
    var at := IndexOf(reg, oldName);
    if at < |reg| {
      RemoveKeepsPending(reg, oldName);
      SparesAfterRemove(reg, oldName, newName);
      RenamedFillable(reg[at], newName);
      PutKeepsPending(Remove(reg, oldName), reg[at].(name := newName));
    }
  }

  lemma NewPlaceholder(serial: nat, name: string)
    ensures !Fillable(NewChan(serial, name, 0), false)
  {
  }

  lemma RenamedFillable(c: Chan, name: string)
    ensures Fillable(c.(name := name), false) == Fillable(c, false)
  {
  }

  lemma DeviceOpenKeepsPending(reg: seq<Chan>, deviceId: int)
    ensures Pending(FillFirst(reg, true, deviceId)) == Pending(reg)
  {
    var at := FirstFillable(reg, true);
    if at < |reg| {
      ReplaceKeepsPending(reg, at, reg[at].(serverId := deviceId, isOpen := true));
    }
  }

  /** In every orderly run the replies, which name no open, open exactly the channels a correlated
      protocol would: the `k`-th reply opens the `k`-th channel sent. */
  lemma {:induction false} RepliesMatchOpens(m: Mux, events: seq<Event>)
    requires Matched(m) && DistinctNames(m.reg) && RequestsBelow(m.reg, m.lastRequest) && OrderlyRun(m, events)
    ensures Matched(Run(m, events)) && DistinctNames(Run(m, events).reg)
    decreases events
  {
    hide Matched, Step, Orderly, RequestsBelow;
    if events != [] {
      MatchedExactly(m, events[0]);
      StepKeepsRequests(m, events[0]);
      StepKeepsNames(m, events[0]);
      RepliesMatchOpens(Step(m, events[0]), events[1..]);
    }
  }

  /** Replies and opens are matched now and after every event. */
  ghost predicate MatchedThroughout(m: Mux, events: seq<Event>)
    decreases events
  {
    Matched(m) && (events != [] ==> MatchedThroughout(Step(m, events[0]), events[1..]))
  }

  /** And without renamings the orderly runs are the only ones in which they stay matched. */
  lemma {:induction false} OnlyOrderlyRunsMatch(m: Mux, events: seq<Event>)
    requires Matched(m) && DistinctNames(m.reg) && RequestsBelow(m.reg, m.lastRequest)
    requires forall e :: e in events ==> !e.Move?
    ensures MatchedThroughout(m, events) <==> OrderlyRun(m, events)
    decreases events
  {
    hide Matched, Step, Orderly, RequestsBelow;
    if events != [] {
      MatchedExactly(m, events[0]);
      StepKeepsRequests(m, events[0]);
      StepKeepsNames(m, events[0]);
      if Orderly(m, events[0]) {
        OnlyOrderlyRunsMatch(Step(m, events[0]), events[1..]);
      }
    }
  }

  /** Reusing the name of an open channel while another open is pending breaks the matching: the reply
      to the pending open goes to the channel opened after it. */
  lemma ReusedNameIsMismatched()
    ensures var m := Mux([Chan(0, "CTPP", 1, 7, true, []), NewChan(1, "CSPB", 2)], 2, 2, [1, 2], [7], [Opening(1, 7)]);
            && Matched(m)
            && Run(m, [Open("CTPP"), Reply(9)]).openings[1] == Opening(3, 9)
            && Run(m, [Open("CTPP"), Reply(9)]).sent[1] == 2
  {
    var open := Chan(0, "CTPP", 1, 7, true, []);
    var pending := NewChan(1, "CSPB", 2);
    var m := Mux([open, pending], 2, 2, [1, 2], [7], [Opening(1, 7)]);
    PendingAppend([open], [pending]);
    PendingOne(open);
    PendingOne(pending);
    assert [open] + [pending] == [open, pending];
    var m' := Step(m, Open("CTPP"));
    assert IndexOf(m.reg, "CTPP") == 0;
    assert m'.reg == [NewChan(2, "CTPP", 3), pending];
    assert FirstFillable(m'.reg, false) == 0;
    assert [Open("CTPP"), Reply(9)][1..] == [Reply(9)] && [Reply(9)][1..] == [];
    assert Run(m, [Open("CTPP"), Reply(9)]) == Step(m', Reply(9));
  }

  /** How a channel may appear after an event: unchanged but for its name, filled by an event of its own
      kind, or new. */
  predicate Descends(c: Chan, c': Chan, e: Event)
  {
    || c' == c.(name := c'.name)
    || (e.Reply? && Fillable(c, false) && c' == c.(serverId := e.serverId, isOpen := true))
    || (e.DeviceOpen? && Fillable(c, true) && c' == c.(serverId := e.deviceId, isOpen := true))
  }

  lemma Descent(m: Mux, e: Event, c': Chan)
    requires c' in Step(m, e).reg
    ensures c' == NewChan(m.serials, c'.name, c'.requestId) || exists c :: c in m.reg && Descends(c, c', e)
  {
    hide Fillable;
    match e
    case Open(name) => PutMembers(m.reg, NewChan(m.serials, name, m.lastRequest + 1), c');
    case Reply(serverId) => FillMembers(m.reg, false, serverId, c');
    case DeviceOpen(deviceId) => FillMembers(m.reg, true, deviceId, c');
    case Placeholder(name) => PutMembers(m.reg, NewChan(m.serials, name, 0), c');
    case Delete(name) => RemoveMembers(m.reg, name, c');
    case Move(oldName, newName) =>
      var at := IndexOf(m.reg, oldName);
      if at < |m.reg| {
        PutMembers(Remove(m.reg, oldName), m.reg[at].(name := newName), c');
        assert Descends(m.reg[at], m.reg[at].(name := newName), e);
        if c' in Remove(m.reg, oldName) {
          RemoveMembers(m.reg, oldName, c');
        }
      }
  }

  lemma PutMembers(reg: seq<Chan>, c: Chan, x: Chan)
    requires x in Put(reg, c)
    ensures x == c || x in reg
  {
  }

  lemma RemoveMembers(reg: seq<Chan>, name: string, x: Chan)
    requires x in Remove(reg, name)
    ensures x in reg
  {
  }

  lemma FillMembers(reg: seq<Chan>, byDevice: bool, serverId: int, x: Chan)
    requires x in FillFirst(reg, byDevice, serverId)
    ensures x in reg || exists c :: c in reg && Fillable(c, byDevice) && x == c.(serverId := serverId, isOpen := true)
  {
    hide Fillable;
    var at := FirstFillable(reg, byDevice);
    if at < |reg| && x == FillFirst(reg, byDevice, serverId)[at] {
      assert reg[at] in reg;
    }
  }

  /** What a channel registered after an event was before it: the same channel, whose id is kept once
      open, and which is opened only by an event of its own kind. */
  predicate Kept(c: Chan, c': Chan)
  {
    && c'.serial == c.serial && c'.requestId == c.requestId && c'.queue == c.queue
    && (c.isOpen ==> c'.isOpen && c'.serverId == c.serverId)
  }

  predicate OwnKind(c: Chan, c': Chan, e: Event)
  {
    !c.isOpen && c'.isOpen ==>
      if c.requestId != 0 then e.Reply? && c'.serverId == e.serverId
      else e.DeviceOpen? && c'.serverId == e.deviceId
  }

  /** Whatever happens, orderly or not: a channel that was registered before an event was there already,
      keeps its id if it was open, and if it was not is opened by a reply when it is a client open and
      by a device-initiated open when it is a placeholder. */
  lemma OpenedOnceByItsOwnKind(m: Mux, e: Event, c': Chan)
    requires c' in Step(m, e).reg && c'.serial < m.serials
    ensures exists c :: c in m.reg && Kept(c, c') && OwnKind(c, c', e)
  {
    hide Step;
    Descent(m, e, c');
    var c :| c in m.reg && Descends(c, c', e);
    assert Kept(c, c') && OwnKind(c, c', e);
  }

  /** Over any run: no channel ever opened gets another id, and a serial belongs to one channel only. */
  lemma {:induction false} IdsAreNeverReassigned(m: Mux, events: seq<Event>, c': Chan)
    requires c' in Run(m, events).reg && c'.serial < m.serials
    ensures exists c :: c in m.reg && Kept(c, c')
    decreases events
  {
    hide Step;
    if events == [] {
      assert Kept(c', c');
    } else {
      StepCountsSerials(m, events[0]);
      IdsAreNeverReassigned(Step(m, events[0]), events[1..], c');
      var c1 :| c1 in Step(m, events[0]).reg && Kept(c1, c');
      OpenedOnceByItsOwnKind(m, events[0], c1);
      var c :| c in m.reg && Kept(c, c1);
      assert Kept(c, c');
    }
  }

  lemma StepCountsSerials(m: Mux, e: Event)
    ensures m.serials <= Step(m, e).serials
  {
  }

  predicate DistinctSerials(reg: seq<Chan>, serials: nat)
  {
    && (forall i, j :: 0 <= i < j < |reg| ==> reg[i].serial != reg[j].serial)
    && (forall i :: 0 <= i < |reg| ==> reg[i].serial < serials)
  }

  lemma {:induction false} RunKeepsSerials(m: Mux, events: seq<Event>)
    requires DistinctSerials(m.reg, m.serials)
    ensures DistinctSerials(Run(m, events).reg, Run(m, events).serials)
    decreases events
  {
    hide Step, DistinctSerials;
    if events != [] {
      StepKeepsSerials(m, events[0]);
      RunKeepsSerials(Step(m, events[0]), events[1..]);
    }
  }

  lemma StepKeepsSerials(m: Mux, e: Event)
    requires DistinctSerials(m.reg, m.serials)
    ensures DistinctSerials(Step(m, e).reg, Step(m, e).serials)
  {
    hide Put, Remove, IndexOf, Fillable, FirstFillable, FillFirst, DistinctSerials;
    match e
    case Open(name) =>
      SerialsBelow(m.reg, m.serials);
      PutKeepsSerials(m.reg, NewChan(m.serials, name, m.lastRequest + 1), m.serials + 1);
    case Reply(serverId) => FillKeepsSerials(m.reg, false, serverId, m.serials);
    case DeviceOpen(deviceId) => FillKeepsSerials(m.reg, true, deviceId, m.serials);
    case Placeholder(name) =>
      SerialsBelow(m.reg, m.serials);
      PutKeepsSerials(m.reg, NewChan(m.serials, name, 0), m.serials + 1);
    case Delete(name) => RemoveKeepsSerials(m.reg, name, m.serials);
    case Move(oldName, newName) =>
      var at := IndexOf(m.reg, oldName);
      if at < |m.reg| {
        RemoveKeepsSerials(m.reg, oldName, m.serials);
        PutKeepsSerials(Remove(m.reg, oldName), m.reg[at].(name := newName), m.serials);
      }
  }

  lemma FillKeepsSerials(reg: seq<Chan>, byDevice: bool, serverId: int, serials: nat)
    requires DistinctSerials(reg, serials)
    ensures DistinctSerials(FillFirst(reg, byDevice, serverId), serials)
  {
    hide Fillable;
  }

  lemma SerialsBelow(reg: seq<Chan>, serials: nat)
    requires DistinctSerials(reg, serials)
    ensures DistinctSerials(reg, serials + 1) && forall i :: 0 <= i < |reg| ==> reg[i].serial < serials
  {
  }

  lemma RemoveKeepsSerials(reg: seq<Chan>, name: string, serials: nat)
    requires DistinctSerials(reg, serials)
    ensures DistinctSerials(Remove(reg, name), serials)
    ensures var at := IndexOf(reg, name);
            at < |reg| ==> forall i :: 0 <= i < |Remove(reg, name)| ==>
              Remove(reg, name)[i].serial != reg[at].serial && Remove(reg, name)[i].serial < serials
    ensures var at := IndexOf(reg, name); at < |reg| ==> reg[at].serial < serials
  {
    var at, rest := IndexOf(reg, name), Remove(reg, name);
    RemovedIndices(reg, name);
    if at < |reg| {
      hide Remove, IndexOf;
      CutKeepsSerials(reg, rest, at, serials);
    }
  }

  lemma CutKeepsSerials(reg: seq<Chan>, rest: seq<Chan>, at: nat, serials: nat)
    requires DistinctSerials(reg, serials) && at < |reg| && |rest| == |reg| - 1
    requires forall i :: 0 <= i < |rest| ==> rest[i] == reg[if i < at then i else i + 1]
    ensures DistinctSerials(rest, serials) && reg[at].serial < serials
    ensures forall i :: 0 <= i < |rest| ==> rest[i].serial != reg[at].serial && rest[i].serial < serials
  {
    forall i, j | 0 <= i < j < |rest|
      ensures rest[i].serial != rest[j].serial
    {
      assert rest[i] == reg[if i < at then i else i + 1] && rest[j] == reg[if j < at then j else j + 1];
    }
  }

  lemma PutKeepsSerials(reg: seq<Chan>, c: Chan, serials: nat)
    requires c.serial < serials && forall i :: 0 <= i < |reg| ==> reg[i].serial != c.serial && reg[i].serial < serials
    requires DistinctSerials(reg, serials)
    ensures DistinctSerials(Put(reg, c), serials)
  {
  }
}
