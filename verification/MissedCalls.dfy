/** Which ring each missed call is for. A run is followed together with who set the last ring time, whose
    ring is pending, and which ring each inbound start is for; rings are numbered as they are accepted. */
module MissedCalls {
  import opened Bytes
  import opened RingDedup
  import opened Coordinator
  import opened CoordinatorRuns

  datatype Traced = Traced(w: World, lastOwner: nat, pendingOwner: nat, rings: map<nat, nat>)

  /** A missed call of a ring: by an idle frame, or by the end of the ring's own passive session or start. */
  datatype Miss = Miss(ring: nat, byIdle: bool)

  /** The segment takes the published session, if there is one. */
  predicate Stops(w: World, t: nat, outcome: Outcome)
    requires t in w.tasks
  {
    match w.tasks[t].job
    case Inbound(_) => w.tasks[t].at.Entry? && w.c.holder.None? && !outcome.Fail?
    case Outbound(byUser) =>
      if w.tasks[t].at.Entry? then w.c.holder.None? && outcome.Proceed? && (byUser || !w.c.stoppedByUser)
      else w.tasks[t].at.Reconnecting? && !outcome.Fail?
    case Stop => w.tasks[t].at.Entry?
    case _ => false
  }

  /** Stopping fires a missed call: the session's ring is pending and was not answered. */
  predicate Unheard(c: Coord) { c.session.Some? && c.pending.Some? && !c.answered }

  predicate StartFails(w: World, t: nat, outcome: Outcome)
    requires t in w.tasks
  {
    w.tasks[t].job.Inbound? && w.tasks[t].at.Negotiating? && outcome.Fail?
  }

  predicate Records(w: World, t: nat)
    requires t in w.tasks
  {
    w.tasks[t].job.Inbound? && w.tasks[t].at.Announcing?
  }

  /** The missed call an event fires. */
  function Missed(tr: Traced, e: Event): Option<Miss>
  {
    match e
    case Idle(_, now) => if IdleFires(tr.w.c, now) then Some(Miss(tr.lastOwner, true)) else None
    case Resume(t, outcome) =>
      if t !in tr.w.tasks then None
      else if Stops(tr.w, t, outcome) && Unheard(tr.w.c) then Some(Miss(tr.pendingOwner, false))
      else if StartFails(tr.w, t, outcome) && t in tr.rings then Some(Miss(tr.rings[t], false))
      else None
    case _ => None
  }

  function Trace(tr: Traced, e: Event): Traced
  {
    var w, next := tr.w, tr.(w := Step(tr.w, e));
    match e
    case ListenerRing(key, now) =>
      if Seen(w.c.recent, key, now) then next
      else next.(lastOwner := w.accepted, rings := tr.rings[w.born := w.accepted])
    case SessionRing(key, now) =>
      if Seen(w.c.recent, key, now) then next else next.(lastOwner := w.accepted, pendingOwner := w.accepted)
    case Resume(t, _) =>
      if t in w.tasks && Records(w, t) && t in tr.rings then next.(pendingOwner := tr.rings[t]) else next
    case _ => next
  }

  function TraceRun(tr: Traced, events: seq<Event>): Traced
    decreases events
  {
    if events == [] then tr else TraceRun(Trace(tr, events[0]), events[1..])
  }

  function FiredBy(tr: Traced, e: Event): seq<Miss>
  {
    if Missed(tr, e).Some? then [Missed(tr, e).value] else []
  }

  function Fired(tr: Traced, events: seq<Event>): seq<Miss>
    decreases events
  {
    if events == [] then [] else FiredBy(tr, events[0]) + Fired(Trace(tr, events[0]), events[1..])
  }

  // ----- What a segment does to the fields that matter ----------------------------------------

  /** Ring time and pending ring are kept or dropped. */
  predicate Drops(c: Coord, c': Coord)
  {
    && (c'.lastRing == c.lastRing || c'.lastRing.None?)
    && (c'.pending == c.pending || c'.pending.None?)
  }

  /** No task is new, and none becomes an undecided start. */
  predicate Settles(tasks: map<nat, Task>, tasks': map<nat, Task>)
  {
    forall u :: u in tasks' ==> u in tasks && tasks'[u].job == tasks[u].job && (Open(tasks'[u]) ==> Open(tasks[u]))
  }

  /** The fields after a segment that stops a session, fails a start or records a ring, or none of these. */
  predicate CoordEffect(c: Coord, c': Coord, stops: bool, fails: bool, records: bool)
  {
    && (if records then c'.lastRing == c.lastRing && c'.pending.Some? else Drops(c, c'))
    && (stops && c.session.Some? ==> c'.pending.None?)
    && Misses(c'.pushed) == Misses(c.pushed) + Bit((stops && Unheard(c)) || fails)
  }

  lemma StopEffect(c: Coord, t: nat)
    ensures CoordEffect(c, TakeSession(c), true, false, false) && CoordEffect(c, EnterStart(c, t), true, false, false)
    ensures c.session.None? ==> CoordEffect(c, c, true, false, false)
  {
    hide Misses;
    assert c.pushed + [] == c.pushed;
    if Unheard(c) {
      MissesSnoc(c.pushed, MissedCall(c.pending.value));
    }
  }

  lemma OtherEffects(c: Coord, t: nat, entrance: string)
    ensures CoordEffect(c, c, false, false, false) && CoordEffect(c, Publish(c, t), false, false, false)
    ensures CoordEffect(c, DropSession(c), false, false, false) && CoordEffect(c, AnswerSent(c), false, false, false)
    ensures CoordEffect(c, c.(holder := Some(t)), false, false, false)
    ensures CoordEffect(c, InboundFailed(c, entrance), false, true, false)
    ensures CoordEffect(c, RecordRing(c, entrance), false, false, true)
  {
    hide Misses;
    MissesSnoc(c.pushed, MissedCall(entrance));
    MissesSnoc(c.pushed, RingPush(entrance));
  }

  lemma MoveEffect(w: World, v: World, t: nat, at: Point, stops: bool, fails: bool)
    requires v.tasks == w.tasks && t in w.tasks && !w.tasks[t].at.Recovering?
    requires CoordEffect(w.c, v.c, stops, fails, false)
    ensures Settles(w.tasks, Move(v, t, at).tasks) && CoordEffect(w.c, Move(v, t, at).c, stops, fails, false)
    ensures at.Recovering? ==> !Open(Move(v, t, at).tasks[t])
  {
    hide CoordEffect;
  }

  lemma FinishEffect(w: World, v: World, t: nat, stops: bool, records: bool)
    requires v.tasks == w.tasks && CoordEffect(w.c, v.c, stops, false, records)
    ensures var v' := Finish(v, t);
            Settles(w.tasks, v'.tasks) && t !in v'.tasks && CoordEffect(w.c, v'.c, stops, false, records)
  {
    hide Misses;
  }

  /** Everything the attribution needs to know about one segment. */
  predicate Effect(w: World, w': World, t: nat, outcome: Outcome)
    requires t in w.tasks
  {
    && Settles(w.tasks, w'.tasks)
    && CoordEffect(w.c, w'.c, Stops(w, t, outcome), StartFails(w, t, outcome), Records(w, t))
    && (Records(w, t) ==> t !in w'.tasks)
    && (StartFails(w, t, outcome) && t in w'.tasks ==> !Open(w'.tasks[t]))
  }

  lemma InboundEffect(w: World, t: nat, outcome: Outcome)
    requires t in w.tasks && w.tasks[t].job.Inbound?
    ensures Effect(w, ResumeInbound(w, t, outcome), t, outcome)
  {
    var entrance := w.tasks[t].job.entrance;
    StopEffect(w.c, t);
    OtherEffects(w.c, t, entrance);
    hide CoordEffect, Move, Finish, EnterStart, InboundFailed, RecordRing, Publish, Settles, Open, Taking;
    FinishEffect(w, w, t, false, false);
    match w.tasks[t].at
    case Entry => MoveEffect(w, w.(c := EnterStart(w.c, t), taken := w.taken + Taking(w.c)), t, Stopping, true, false);
    case Stopping => MoveEffect(w, w, t, Silencing, false, false);
    case Silencing => MoveEffect(w, w, t, Negotiating, false, false);
    case Negotiating => {
      MoveEffect(w, w.(c := InboundFailed(w.c, entrance)), t, Recovering, false, true);
      MoveEffect(w, w.(c := Publish(w.c, t), published := w.published + [t]), t, Announcing, false, false);
    }
    case Announcing => FinishEffect(w, w.(c := RecordRing(w.c, entrance)), t, false, true);
    case _ =>
  }

  lemma OutboundEffect(w: World, t: nat, outcome: Outcome)
    requires t in w.tasks && w.tasks[t].job.Outbound?
    ensures Effect(w, ResumeOutbound(w, t, outcome), t, outcome)
  {
    StopEffect(w.c, t);
    OtherEffects(w.c, t, "");
    hide CoordEffect, Move, Finish, EnterStart, DropSession, Publish, Settles, Open, Taking;
    FinishEffect(w, w, t, false, false);
    var entered := w.(c := EnterStart(w.c, t), taken := w.taken + Taking(w.c));
    match w.tasks[t].at
    case Entry => {
      MoveEffect(w, entered, t, Stopping, true, false);
      MoveEffect(w, w.(c := w.c.(holder := Some(t))), t, Dropping, false, false);
      MoveEffect(w, w.(c := w.c.(holder := Some(t))), t, Reconnecting, false, false);
    }
    case Dropping => MoveEffect(w, w.(c := DropSession(w.c)), t, Reconnecting, false, false);
    case Reconnecting => MoveEffect(w, entered, t, Stopping, true, false);
    case Stopping => MoveEffect(w, w, t, Silencing, false, false);
    case Silencing => MoveEffect(w, w, t, Negotiating, false, false);
    case Negotiating => {
      MoveEffect(w, w, t, Recovering, false, false);
      MoveEffect(w, w.(c := Publish(w.c, t), published := w.published + [t]), t, Announcing, false, false);
    }
    case _ =>
  }

  lemma OtherEffect(w: World, t: nat, outcome: Outcome)
    requires t in w.tasks && !w.tasks[t].job.Inbound? && !w.tasks[t].job.Outbound? && !w.tasks[t].at.Recovering?
    ensures Effect(w, ResumeOther(w, t, outcome), t, outcome)
  {
    StopEffect(w.c, t);
    OtherEffects(w.c, t, "");
    hide CoordEffect, Move, Finish, TakeSession, DropSession, AnswerSent, Settles, Open, Taking;
    FinishEffect(w, w, t, false, false);
    match w.tasks[t].job
    case Stop => {
      if w.c.session.None? { FinishEffect(w, w, t, true, false); }
      MoveEffect(w, w.(c := TakeSession(w.c), taken := w.taken + Taking(w.c)), t, Stopping, true, false);
    }
    case Reconnect => {
      MoveEffect(w, w, t, Dropping, false, false);
      MoveEffect(w, w, t, Reconnecting, false, false);
      MoveEffect(w, w.(c := DropSession(w.c)), t, Reconnecting, false, false);
    }
    case Answer => {
      MoveEffect(w, w, t, Answering, false, false);
      FinishEffect(w, w.(c := AnswerSent(w.c)), t, false, false);
    }
    case _ =>
  }

  lemma ResumeEffect(w: World, t: nat, outcome: Outcome)
    requires Formed(w) && t in w.tasks
    ensures Effect(w, ResumeTask(w, t, outcome), t, outcome)
  {
    assert w.tasks[t].at.Recovering? ==> w.tasks[t].job.Inbound? || w.tasks[t].job.Outbound?;
    hide Effect, ResumeInbound, ResumeOutbound, ResumeOther;
    if w.tasks[t].job.Inbound? {
      InboundEffect(w, t, outcome);
    } else if w.tasks[t].job.Outbound? {
      OutboundEffect(w, t, outcome);
    } else {
      OtherEffect(w, t, outcome);
    }
  }

  // ----- Every missed call has a ring and a cause of its own ------------------------------------

  predicate NoRepeats(fired: seq<Miss>)
  {
    forall i, j :: 0 <= i < j < |fired| ==> fired[i] != fired[j]
  }

  /** Every undecided start is for a ring of its own, not the pending one, that has not missed by its own
      end; nor has the pending ring; and the ring whose time is set has not missed by an idle frame. */
  predicate Attributed(tr: Traced, fired: seq<Miss>)
  {
    var w := tr.w;
    && (forall t :: t in w.tasks && w.tasks[t].job.Inbound? ==> t in tr.rings && tr.rings[t] < w.accepted)
    && (forall t, u :: t in w.tasks && u in w.tasks && t != u && Open(w.tasks[t]) && Open(w.tasks[u]) ==>
          tr.rings[t] != tr.rings[u])
    && (forall t :: t in w.tasks && Open(w.tasks[t]) ==> Miss(tr.rings[t], false) !in fired)
    && (w.c.pending.Some? ==>
          && tr.pendingOwner < w.accepted && Miss(tr.pendingOwner, false) !in fired
          && forall t :: t in w.tasks && Open(w.tasks[t]) ==> tr.rings[t] != tr.pendingOwner)
    && (w.c.lastRing.Some? ==> tr.lastOwner < w.accepted && Miss(tr.lastOwner, true) !in fired)
    && (forall m :: m in fired ==> m.ring < w.accepted)
    && NoRepeats(fired) && Misses(w.c.pushed) == |fired|
  }

  lemma AttributedResume(tr: Traced, fired: seq<Miss>, t: nat, outcome: Outcome)
    requires Attributed(tr, fired) && Formed(tr.w) && t in tr.w.tasks
    ensures Attributed(Trace(tr, Resume(t, outcome)), fired + FiredBy(tr, Resume(t, outcome)))
  {
    var w, w' := tr.w, ResumeTask(tr.w, t, outcome);
    ResumeEffect(w, t, outcome);
    ResumeAcceptsNothing(w, t, outcome);
    assert w.tasks[t].job.Inbound? ==> t in tr.rings;
    assert fired + [] == fired;
    hide ResumeTask, Attributed, Stops;
    if Records(w, t) {
      AttributedRecord(tr, fired, t, w');
    } else if Stops(w, t, outcome) && Unheard(w.c) {
      AttributedStop(tr, fired, w');
    } else if StartFails(w, t, outcome) {
      AttributedFail(tr, fired, t, w');
    } else {
      AttributedDrops(tr, fired, w');
    }
  }

  /** A segment that fires nothing. */
  lemma AttributedDrops(tr: Traced, fired: seq<Miss>, w': World)
    requires Attributed(tr, fired) && w'.accepted == tr.w.accepted && Settles(tr.w.tasks, w'.tasks)
    requires CoordEffect(tr.w.c, w'.c, false, false, false)
             || (CoordEffect(tr.w.c, w'.c, true, false, false) && !Unheard(tr.w.c))
    ensures Attributed(tr.(w := w'), fired)
  {
    hide Misses, Open;
  }

  /** A segment that stops the session of the pending ring. */
  lemma AttributedStop(tr: Traced, fired: seq<Miss>, w': World)
    requires Attributed(tr, fired) && w'.accepted == tr.w.accepted && Settles(tr.w.tasks, w'.tasks)
    requires CoordEffect(tr.w.c, w'.c, true, false, false) && Unheard(tr.w.c)
    ensures Attributed(tr.(w := w'), fired + [Miss(tr.pendingOwner, false)])
  {
    hide Misses, Open;
  }

  /** A segment in which the start of task `t` fails. */
  lemma AttributedFail(tr: Traced, fired: seq<Miss>, t: nat, w': World)
    requires Attributed(tr, fired) && w'.accepted == tr.w.accepted && Settles(tr.w.tasks, w'.tasks)
    requires t in tr.w.tasks && Open(tr.w.tasks[t]) && t in tr.rings && (t in w'.tasks ==> !Open(w'.tasks[t]))
    requires CoordEffect(tr.w.c, w'.c, false, true, false)
    ensures Attributed(tr.(w := w'), fired + [Miss(tr.rings[t], false)])
  {
    hide Misses;
  }

  /** A segment in which task `t` records its ring and ends. */
  lemma AttributedRecord(tr: Traced, fired: seq<Miss>, t: nat, w': World)
    requires Attributed(tr, fired) && w'.accepted == tr.w.accepted && Settles(tr.w.tasks, w'.tasks)
    requires t in tr.w.tasks && Open(tr.w.tasks[t]) && t in tr.rings && t !in w'.tasks
    requires CoordEffect(tr.w.c, w'.c, false, false, true)
    ensures Attributed(tr.(w := w', pendingOwner := tr.rings[t]), fired)
  {
    hide Misses;
  }

  lemma AttributedListenerRing(tr: Traced, fired: seq<Miss>, key: Key, now: real)
    requires Attributed(tr, fired) && Formed(tr.w)
    ensures Attributed(Trace(tr, ListenerRing(key, now)), fired)
  {
    hide Misses, Accept, Seen;
  }

  lemma AttributedSessionRing(tr: Traced, fired: seq<Miss>, key: Key, now: real)
    requires Attributed(tr, fired)
    ensures Attributed(Trace(tr, SessionRing(key, now)), fired)
  {
    hide Misses, Accept, Seen;
    MissesSnoc(tr.w.c.pushed, RingPush(key.entrance));
  }

  lemma AttributedIdle(tr: Traced, fired: seq<Miss>, addresses: seq<string>, now: real)
    requires Attributed(tr, fired)
    ensures Attributed(Trace(tr, Idle(addresses, now)), fired + FiredBy(tr, Idle(addresses, now)))
  {
    hide Misses;
    assert fired + [] == fired;
    MissesSnoc(tr.w.c.pushed, MissedCall(if addresses == [] then "" else addresses[0]));
  }

  /** What fires nothing, leaves the fields that matter and settles tasks. */
  lemma AttributedSettled(tr: Traced, fired: seq<Miss>, w': World)
    requires Attributed(tr, fired) && w'.accepted == tr.w.accepted
    requires w'.c.pushed == tr.w.c.pushed && w'.c.pending == tr.w.c.pending && w'.c.lastRing == tr.w.c.lastRing
    requires forall u :: u in w'.tasks && w'.tasks[u].job.Inbound? ==> u in tr.w.tasks && w'.tasks[u] == tr.w.tasks[u]
    ensures Attributed(tr.(w := w'), fired)
  {
    hide Misses;
  }

  lemma AttributedStep(tr: Traced, fired: seq<Miss>, e: Event)
    requires Attributed(tr, fired) && Formed(tr.w)
    ensures Attributed(Trace(tr, e), fired + FiredBy(tr, e)) && Formed(Trace(tr, e).w)
  {
    hide Attributed, Formed, ResumeTask, Seen, Accept;
    StepKeepsFormed(tr.w, e);
    assert fired + [] == fired;
    match e
    case ListenerRing(key, now) => AttributedListenerRing(tr, fired, key, now);
    case SessionRing(key, now) => AttributedSessionRing(tr, fired, key, now);
    case Idle(addresses, now) => AttributedIdle(tr, fired, addresses, now);
    case Spawn(job) => AttributedSettled(tr, fired, Step(tr.w, e));
    case UserStops => AttributedSettled(tr, fired, Step(tr.w, e));
    case Resume(t, outcome) => {
      if t in tr.w.tasks {
        AttributedResume(tr, fired, t, outcome);
      } else {
        AttributedSettled(tr, fired, tr.w);
      }
    }
    case Cancel(t) => AttributedSettled(tr, fired, Step(tr.w, e));
  }

  // ----- Whole runs -----------------------------------------------------------------------------

  lemma {:induction false} RunAttributes(tr: Traced, fired: seq<Miss>, events: seq<Event>)
    requires Attributed(tr, fired) && Formed(tr.w)
    ensures Attributed(TraceRun(tr, events), fired + Fired(tr, events))
    ensures TraceRun(tr, events).w == Run(tr.w, events)
    decreases events
  {
    hide Attributed, Formed, FiredBy, Step;
    if events == [] {
      assert fired + [] == fired;
    } else {
      AttributedStep(tr, fired, events[0]);
      TraceSteps(tr, events[0]);
      RunAttributes(Trace(tr, events[0]), fired + FiredBy(tr, events[0]), events[1..]);
      Associative(fired, FiredBy(tr, events[0]), Fired(Trace(tr, events[0]), events[1..]));
    }
  }

  lemma TraceSteps(tr: Traced, e: Event)
    ensures Trace(tr, e).w == Step(tr.w, e)
  {
    hide Step;
  }

  const ORIGIN := Traced(START, 0, 0, map[])

  /** The run with its owners just before event `i`. */
  function Before(events: seq<Event>, i: nat): Traced
    requires i <= |events|
  {
    TraceRun(ORIGIN, events[..i])
  }

  function Count(fired: seq<Miss>, ring: nat): nat
  {
    if fired == [] then 0 else Bit(fired[0].ring == ring) + Count(fired[1..], ring)
  }

  lemma {:induction false} CountByCause(fired: seq<Miss>, ring: nat)
    requires NoRepeats(fired)
    ensures Count(fired, ring) == Bit(Miss(ring, true) in fired) + Bit(Miss(ring, false) in fired)
  {
    if fired != [] {
      var rest := fired[1..];
      CountByCause(rest, ring);
      assert fired == [fired[0]] + rest;
      assert fired[0] !in rest;
      assert forall m :: m in fired <==> m == fired[0] || m in rest;
    }
  }

  /** The missed calls of a run are those its events fire, each at its own moment. */
  lemma {:induction false} FiredWhen(tr: Traced, events: seq<Event>, m: Miss)
    ensures m in Fired(tr, events) <==> exists i :: 0 <= i < |events| && FiresAt(tr, events, i, m)
    decreases events
  {
    hide Missed, Trace;
    if events != [] {
      var first, rest := Trace(tr, events[0]), events[1..];
      FiredWhen(first, rest, m);
      assert events[..0] == [];
      forall i | 0 < i < |events|
        ensures FiresAt(tr, events, i, m) == FiresAt(first, rest, i - 1, m)
      {
        assert events[..i][1..] == rest[..i - 1] && events[..i][0] == events[0];
      }
      if m in FiredBy(tr, events[0]) {
        assert FiresAt(tr, events, 0, m);
      } else if m in Fired(first, rest) {
        var i :| 0 <= i < |rest| && FiresAt(first, rest, i, m);
        assert FiresAt(tr, events, i + 1, m);
      }
      if i :| 0 <= i < |events| && FiresAt(tr, events, i, m) {
        if i > 0 {
          assert FiresAt(first, rest, i - 1, m);
        }
      }
    }
  }

  /** Event `i` of the run fires `m`. */
  predicate FiresAt(tr: Traced, events: seq<Event>, i: nat, m: Miss)
    requires i < |events|
  {
    Missed(TraceRun(tr, events[..i]), events[i]) == Some(m)
  }

  /** Event `i` is an idle frame that passes its guard while the last ring time is `ring`'s. */
  predicate IdleTakes(events: seq<Event>, i: nat, ring: nat)
    requires i < |events|
  {
    PassesIdle(Before(events, i).w, events[i]) && Before(events, i).lastOwner == ring
  }

  /** Event `i` ends `ring` unheard: it stops a published session while the ring is pending and
      unanswered, or fails the ring's own start. */
  predicate EndsUnheard(events: seq<Event>, i: nat, ring: nat)
    requires i < |events|
  {
    var tr, e := Before(events, i), events[i];
    && e.Resume? && e.task in tr.w.tasks
    && (if Stops(tr.w, e.task, e.outcome) && Unheard(tr.w.c) then tr.pendingOwner == ring
        else StartFails(tr.w, e.task, e.outcome) && e.task in tr.rings && tr.rings[e.task] == ring)
  }

  lemma CausesOf(events: seq<Event>, i: nat, ring: nat)
    requires i < |events|
    ensures FiresAt(ORIGIN, events, i, Miss(ring, true)) <==> IdleTakes(events, i, ring)
    ensures FiresAt(ORIGIN, events, i, Miss(ring, false)) <==> EndsUnheard(events, i, ring)
  {
    hide TraceRun, IdleFires, Stops, Unheard, StartFails;
  }

  /** For every run from a fresh coordinator and every ring: its missed calls are one if some idle frame
      passes its guard while the last ring time is its own, and one if it is ended unheard; so the ring
      fires two exactly when both happen, and once or never otherwise. All missed calls are some
      accepted ring's. */
  lemma MissesOfEveryRing(events: seq<Event>, ring: nat)
    ensures var byIdle := exists i :: 0 <= i < |events| && IdleTakes(events, i, ring);
            var byEnd := exists i :: 0 <= i < |events| && EndsUnheard(events, i, ring);
            Count(Fired(ORIGIN, events), ring) == Bit(byIdle) + Bit(byEnd)
    ensures |Fired(ORIGIN, events)| == Misses(Run(START, events).c.pushed)
    ensures forall m :: m in Fired(ORIGIN, events) ==> m.ring < Run(START, events).accepted
  {
    hide Run, TraceRun, Fired, IdleTakes, EndsUnheard, FiresAt, Misses;
    NothingFired();
    assert [] + Fired(ORIGIN, events) == Fired(ORIGIN, events);
    RunAttributes(ORIGIN, [], events);
    CountByCause(Fired(ORIGIN, events), ring);
    FiredWhen(ORIGIN, events, Miss(ring, true));
    FiredWhen(ORIGIN, events, Miss(ring, false));
    forall i | 0 <= i < |events|
      ensures FiresAt(ORIGIN, events, i, Miss(ring, true)) <==> IdleTakes(events, i, ring)
      ensures FiresAt(ORIGIN, events, i, Miss(ring, false)) <==> EndsUnheard(events, i, ring)
    {
      CausesOf(events, i, ring);
    }
  }

  lemma NothingFired()
    ensures Attributed(ORIGIN, []) && Formed(START)
  {
  }
}
