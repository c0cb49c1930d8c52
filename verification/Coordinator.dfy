/** The coordinator's ring, missed-call and session fields. What runs between two awaits is a function on
    the value `Coord` and a method of the class. */
module Coordinator {
  import opened Bytes
  import opened RingDedup

  const MISSED_CALL_WINDOW := 45.0

  datatype Push = RingPush(address: string) | MissedCall(address: string)

  /** `session` is the published session, named by the start that negotiated it; `holder` the start that
      holds the lock. */
  datatype Coord = Coord(
    session: Option<nat>,
    ready: bool,
    holder: Option<nat>,
    stoppedByUser: bool,
    recent: map<Key, real>,
    lastRing: Option<real>,
    answered: bool,
    pending: Option<string>,
    pushed: seq<Push>)

  function RingFromListener(c: Coord, key: Key, now: real): Coord
  {
    if Seen(c.recent, key, now) then c
    else c.(recent := Accept(c.recent, Ring(Listener, key, now)), lastRing := Some(now), answered := false)
  }

  function RingFromSession(c: Coord, key: Key, now: real): Coord
  {
    if Seen(c.recent, key, now) then c
    else c.(recent := Accept(c.recent, Ring(Session, key, now)), lastRing := Some(now), answered := false,
            pending := Some(key.entrance), pushed := c.pushed + [RingPush(key.entrance)])
  }

  /** The guard of an idle frame: a recent unanswered ring and no session. */
  predicate IdleFires(c: Coord, now: real)
  {
    c.session.None? && !c.answered && c.lastRing.Some? && now - c.lastRing.value <= MISSED_CALL_WINDOW
  }

  /** A device idle frame. */
  function CallIdle(c: Coord, addresses: seq<string>, now: real): Coord
  {
    if !IdleFires(c, now) then c
    else c.(lastRing := None, pushed := c.pushed + [MissedCall(if addresses == [] then "" else addresses[0])])
  }

  function Unanswered(c: Coord): seq<Push>
  {
    if c.pending.Some? && !c.answered then [MissedCall(c.pending.value)] else []
  }

  /** The part of `async_stop_video` before its first await. */
  function TakeSession(c: Coord): Coord
  {
    if c.session.None? then c
    else c.(session := None, ready := false, pending := None, pushed := c.pushed + Unanswered(c))
  }

  /** A start that found the lock free, up to the first await of its stop. */
  function EnterStart(c: Coord, start: nat): Coord
  {
    TakeSession(c.(holder := Some(start), stoppedByUser := false))
  }

  function Publish(c: Coord, start: nat): Coord
  {
    c.(session := Some(start), ready := true)
  }

  function InboundFailed(c: Coord, entrance: string): Coord
  {
    c.(lastRing := None, pushed := c.pushed + [MissedCall(entrance)])
  }

  function RecordRing(c: Coord, entrance: string): Coord
  {
    c.(pending := Some(entrance), pushed := c.pushed + [RingPush(entrance)])
  }

  /** What a reconnect does once it has stopped the session it found. */
  function DropSession(c: Coord): Coord
  {
    c.(session := None, ready := false)
  }

  function AnswerSent(c: Coord): Coord
  {
    c.(answered := true, pending := None)
  }

  /** How the first segment of a start ended; an entered start has a session to stop, or none. */
  datatype Begun = Refused | NeedsReconnect | Entered(session: Option<nat>)

  class ComelitLocalCoordinator {
    var videoSession: Option<nat>
    var videoReady: bool
    var startLock: Option<nat>
    var videoStoppedByUser: bool
    var recentRings: map<Key, real>
    var lastRingMono: Option<real>
    var inboundAnswered: bool
    var pendingInboundRing: Option<string>
    var pushEvents: seq<Push>

    constructor ()
      ensures View() == Coord(None, false, None, false, map[], None, false, None, [])
    {
      videoSession, videoReady, startLock, videoStoppedByUser := None, false, None, false;
      recentRings, lastRingMono, inboundAnswered, pendingInboundRing, pushEvents := map[], None, false, None, [];
    }

    function View(): Coord
      reads this
    {
      Coord(videoSession, videoReady, startLock, videoStoppedByUser, recentRings, lastRingMono, inboundAnswered,
            pendingInboundRing, pushEvents)
    }

    /** Returns whether an inbound start is to be scheduled. */
    method OnInboundRing(entranceAddr: string, ringTs: u32, now: real) returns (scheduled: bool)
      modifies this
      ensures View() == RingFromListener(old(View()), Key(entranceAddr, ringTs), now)
      ensures scheduled <==> !Seen(old(recentRings), Key(entranceAddr, ringTs), now)
    {
      var key := Key(entranceAddr, ringTs);
      if key in recentRings && now - recentRings[key] < WINDOW {
        return false;
      }
      recentRings := map k | k in recentRings && now - recentRings[k] < WINDOW :: recentRings[k];
      recentRings := recentRings[key := now];
      lastRingMono := Some(now);
      inboundAnswered := false;
      scheduled := true;
    }

    method OnRingDuringVideo(entranceAddr: string, ringTs: u32, now: real)
      modifies this
      ensures View() == RingFromSession(old(View()), Key(entranceAddr, ringTs), now)
    {
      var key := Key(entranceAddr, ringTs);
      if key in recentRings && now - recentRings[key] < WINDOW {
        return;
      }
      recentRings := recentRings[key := now];
      lastRingMono := Some(now);
      inboundAnswered := false;
      pendingInboundRing := Some(entranceAddr);
      pushEvents := pushEvents + [RingPush(entranceAddr)];
    }

    method OnCallIdle(addresses: seq<string>, now: real)
      modifies this
      ensures View() == CallIdle(old(View()), addresses, now)
    {
      if videoSession.Some? || inboundAnswered {
        return;
      }
      if lastRingMono.None? || now - lastRingMono.value > MISSED_CALL_WINDOW {
        return;
      }
      lastRingMono := None;
      pushEvents := pushEvents + [MissedCall(if addresses == [] then "" else addresses[0])];
    }

    /** Returns the session to stop, which no other stop will be given. */
    method BeginStopVideo() returns (session: Option<nat>)
      modifies this
      ensures View() == TakeSession(old(View())) && session == old(videoSession)
    {
      session := videoSession;
      if session.None? {
        return;
      }
      videoSession := None;
      videoReady := false;
      var pending := pendingInboundRing;
      pendingInboundRing := None;
      if pending.Some? && !inboundAnswered {
        pushEvents := pushEvents + [MissedCall(pending.value)];
      }
    }

    /** The first segment of `async_start_inbound_video`: dropped when the lock is held. */
    method BeginInboundVideo(start: nat, clientPresent: bool) returns (entered: bool, session: Option<nat>)
      modifies this
      ensures entered <==> old(startLock).None? && clientPresent
      ensures session == if entered then old(videoSession) else None
      ensures View() == if entered then EnterStart(old(View()), start) else old(View())
    {
      if startLock.Some? || !clientPresent {
        return false, None;
      }
      startLock := Some(start);
      videoStoppedByUser := false;
      session := BeginStopVideo();
      entered := true;
    }

    /** The first segment of `async_start_video`: refused when the lock is held, without a client, and as
        an auto-restart after the user's stop; on a dead connection it goes to reconnect, holding the lock. */
    method BeginVideo(start: nat, byUser: bool, clientPresent: bool, connected: bool) returns (begun: Begun)
      modifies this
      ensures begun.Refused? <==> old(startLock).Some? || !clientPresent || (old(videoStoppedByUser) && !byUser)
      ensures begun.NeedsReconnect? ==> !connected && View() == old(View()).(holder := Some(start))
      ensures begun.Entered? ==>
                connected && begun.session == old(videoSession) && View() == EnterStart(old(View()), start)
      ensures begun.Refused? ==> View() == old(View())
    {
      if startLock.Some? || !clientPresent || (videoStoppedByUser && !byUser) {
        return Refused;
      }
      startLock := Some(start);
      if !connected {
        return NeedsReconnect;
      }
      videoStoppedByUser := false;
      var session := BeginStopVideo();
      begun := Entered(session);
    }

    /** The segment after the reconnect: a failed one ends the start. */
    method ContinueVideo(start: nat, reconnected: bool) returns (session: Option<nat>)
      requires startLock == Some(start)
      modifies this
      ensures View() == if reconnected then EnterStart(old(View()), start) else old(View()).(holder := None)
      ensures session == if reconnected then old(videoSession) else None
    {
      if !reconnected {
        startLock := None;
        return None;
      }
      videoStoppedByUser := false;
      session := BeginStopVideo();
    }

    method PublishSession(start: nat)
      modifies this
      ensures View() == Publish(old(View()), start)
    {
      videoSession := Some(start);
      videoReady := true;
    }

    method FailInbound(entranceAddr: string)
      modifies this
      ensures View() == InboundFailed(old(View()), entranceAddr)
    {
      lastRingMono := None;
      pushEvents := pushEvents + [MissedCall(entranceAddr)];
    }

    /** The last segment of an inbound start: the ring is fired after the video, and the lock released. */
    method FireInboundRing(entranceAddr: string)
      modifies this
      ensures View() == RecordRing(old(View()), entranceAddr).(holder := None)
    {
      pendingInboundRing := Some(entranceAddr);
      pushEvents := pushEvents + [RingPush(entranceAddr)];
      startLock := None;
    }

    method FinishReconnectStop()
      modifies this
      ensures View() == DropSession(old(View()))
    {
      videoSession := None;
      videoReady := false;
    }

    method FinishAnswer()
      modifies this
      ensures View() == AnswerSent(old(View()))
    {
      inboundAnswered := true;
      pendingInboundRing := None;
    }
  }
}
