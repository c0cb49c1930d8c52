/** What a stop by the user holds against: automatic restarts that were scheduled before it. */
module UserStop {
  import opened Bytes
  import opened RingDedup
  import opened Coordinator
  import opened CoordinatorRuns

  /** A start past its checks that has not published its session. */
  predicate UnderWay(task: Task)
  {
    match task.job
    case Inbound(_) => task.at.Stopping? || task.at.Silencing? || task.at.Negotiating?
    case Outbound(_) =>
      task.at.Dropping? || task.at.Reconnecting? || task.at.Stopping? || task.at.Silencing? || task.at.Negotiating?
    case _ => false
  }

  predicate NoneUnderWay(w: World)
  {
    forall t :: t in w.tasks ==> !UnderWay(w.tasks[t])
  }

  /** The event begins a start that is no automatic restart: the user's own, or one for a ring. */
  predicate Begins(w: World, e: Event)
  {
    && e.Resume? && e.task in w.tasks && w.tasks[e.task].at.Entry?
    && (w.tasks[e.task].job.Inbound? || w.tasks[e.task].job == Outbound(true))
  }

  predicate NoneBegins(w: World, events: seq<Event>)
    decreases events
  {
    events != [] ==> !Begins(w, events[0]) && NoneBegins(Step(w, events[0]), events[1..])
  }

  /** Stopped, with no start under way: what every event keeps that begins no other start. */
  predicate Halted(w: World)
  {
    w.c.stoppedByUser && NoneUnderWay(w)
  }

  /** The flag stays, and nothing is published. */
  predicate Holds(w: World, w': World)
  {
    Halted(w') && w'.published == w.published && (w'.c.session == w.c.session || w'.c.session.None?)
  }

  lemma FlagKept(c: Coord, key: Key, addresses: seq<string>, now: real, entrance: string)
    ensures forall d: Coord ::
              d in {TakeSession(c), RingFromListener(c, key, now), RingFromSession(c, key, now),
                    CallIdle(c, addresses, now), RecordRing(c, entrance), DropSession(c), AnswerSent(c)} ==>
                d.stoppedByUser == c.stoppedByUser && (d.session == c.session || d.session.None?)
  {
    hide Seen, Accept;
  }

  lemma MoveHolds(w: World, v: World, t: nat, at: Point)
    requires Halted(w) && t in w.tasks && v.tasks == w.tasks && v.published == w.published
    requires v.c.stoppedByUser && (v.c.session == w.c.session || v.c.session.None?)
    ensures !UnderWay(w.tasks[t].(at := at)) ==> Holds(w, Move(v, t, at))
    ensures Holds(w, Finish(v, t))
  {
    hide UnderWay;
  }

  /** A start that is neither begun nor under way just ends. */
  lemma StartEnds(w: World, t: nat, outcome: Outcome)
    requires Halted(w) && t in w.tasks && !Begins(w, Resume(t, outcome))
    requires w.tasks[t].job.Inbound? || w.tasks[t].job.Outbound?
    ensures var c := if w.tasks[t].job.Inbound? && w.tasks[t].at.Announcing? then
                       RecordRing(w.c, w.tasks[t].job.entrance)
                     else w.c;
            ResumeTask(w, t, outcome) == Finish(w.(c := c), t)
  {
    assert !UnderWay(w.tasks[t]);
    hide Finish, Enter, RecordRing;
  }

  lemma OtherHolds(w: World, t: nat, outcome: Outcome)
    requires Halted(w) && t in w.tasks && !w.tasks[t].job.Inbound? && !w.tasks[t].job.Outbound?
    ensures Holds(w, ResumeOther(w, t, outcome))
  {
    assert w.c.stoppedByUser;
    assert forall at :: !UnderWay(w.tasks[t].(at := at));
    FlagKept(w.c, Key("", 0), [], 0.0, "");
    MoveHolds(w, w, t, Reconnecting);
    MoveHolds(w, w, t, Dropping);
    MoveHolds(w, w, t, Answering);
    MoveHolds(w, w.(c := TakeSession(w.c), taken := w.taken + Taking(w.c)), t, Stopping);
    MoveHolds(w, w.(c := DropSession(w.c)), t, Reconnecting);
    MoveHolds(w, w.(c := AnswerSent(w.c)), t, Answering);
    hide Halted, Holds, Move, Finish, TakeSession, DropSession, AnswerSent, Taking, UnderWay;
  }

  lemma ResumeHolds(w: World, t: nat, outcome: Outcome)
    requires Halted(w) && t in w.tasks && !Begins(w, Resume(t, outcome))
    ensures Holds(w, ResumeTask(w, t, outcome))
  {
    hide Holds, Finish, TakeSession, RecordRing, ResumeInbound, ResumeOutbound, ResumeOther, Begins;
    var job := w.tasks[t].job;
    if job.Inbound? || job.Outbound? {
      StartEnds(w, t, outcome);
      FlagKept(w.c, Key("", 0), [], 0.0, if job.Inbound? then job.entrance else "");
      MoveHolds(w, w, t, Entry);
      if job.Inbound? {
        MoveHolds(w, w.(c := RecordRing(w.c, job.entrance)), t, Entry);
      }
    } else {
      OtherHolds(w, t, outcome);
    }
  }

  lemma StepHolds(w: World, e: Event)
    requires Halted(w) && !Begins(w, e)
    ensures Holds(w, Step(w, e))
  {
    match e
    case Resume(t, outcome) => {
      hide Halted, Holds, ResumeTask;
      if t in w.tasks {
        ResumeHolds(w, t, outcome);
      }
    }
    case ListenerRing(key, now) => FlagKept(w.c, key, [], now, ""); hide Seen, RingFromListener;
    case SessionRing(key, now) => FlagKept(w.c, key, [], now, ""); hide Seen, RingFromSession;
    case Idle(addresses, now) => FlagKept(w.c, Key("", 0), addresses, now, ""); hide CallIdle;
    case _ =>
  }

  /** Once the user has stopped and no start is under way, no session is published in any run before the user
      starts again or a ring does: automatic restarts end at their check. */
  lemma {:induction false} StopHolds(w: World, events: seq<Event>)
    requires Halted(w) && NoneBegins(w, events)
    ensures Holds(w, Run(w, events))
    decreases events
  {
    hide Halted, Step, Begins;
    if events != [] {
      StepHolds(w, events[0]);
      StopHolds(Step(w, events[0]), events[1..]);
    }
  }

  /** A start under way, restarts included, publishes if nothing fails. */
  lemma {:induction false} UnderWayPublishes(w: World, t: nat, left: nat) returns (events: seq<Event>)
    requires t in w.tasks && UnderWay(w.tasks[t]) && Distance(w.tasks[t].at) == left
    ensures NoneBegins(w, events) && Run(w, events).published == w.published + [t]
    decreases left
  {
    var go := Resume(t, Proceed);
    var w' := Step(w, go);
    if w.tasks[t].at.Negotiating? {
      events := [go];
    } else {
      var rest := UnderWayPublishes(w', t, left - 1);
      events := [go] + rest;
    }
  }

  function Distance(at: Point): nat
  {
    match at
    case Dropping => 4
    case Reconnecting => 3
    case Stopping => 2
    case Silencing => 1
    case _ => 0
  }

  /** The stop holds against restarts exactly when no start is under way as it comes: one that already passed
      its checks clears the flag, or goes on without looking at it, and publishes. */
  lemma StopHoldsExactly(w: World)
    requires w.c.stoppedByUser
    ensures NoneUnderWay(w)
            <==> forall events :: NoneBegins(w, events) ==> Run(w, events).published == w.published
  {
    hide UnderWay, NoneBegins, Run;
    if NoneUnderWay(w) {
      forall events | NoneBegins(w, events) ensures Run(w, events).published == w.published {
        StopHolds(w, events);
      }
    } else {
      var t :| t in w.tasks && UnderWay(w.tasks[t]);
      var events := UnderWayPublishes(w, t, Distance(w.tasks[t].at));
      assert |w.published + [t]| != |w.published|;
    }
  }

  /** The event lets a start past its checks: the lock is free, the client is there and, unless the user has stopped
      and the start is automatic, the connection is up; or the reconnect it waited for succeeded. */
  predicate Passes(w: World, e: Event)
  {
    && e.Resume? && e.task in w.tasks && !e.outcome.Fail?
    && var task := w.tasks[e.task];
    if task.at.Entry? then
      w.c.holder.None?
      && (task.job.Inbound? || (task.job.Outbound? && e.outcome.Proceed? && (task.job.byUser || !w.c.stoppedByUser)))
    else task.job.Outbound? && task.at.Reconnecting?
  }

  predicate FlagAfter(w: World, e: Event, w': World)
  {
    w'.c.stoppedByUser <==> e.UserStops? || (w.c.stoppedByUser && !Passes(w, e))
  }

  lemma EnterClears(w: World, t: nat)
    requires t in w.tasks
    ensures !Enter(w, t).c.stoppedByUser
  {
  }

  lemma MoveKeepsFlag(v: World, t: nat, at: Point)
    ensures Finish(v, t).c.stoppedByUser == v.c.stoppedByUser
    ensures t in v.tasks ==> Move(v, t, at).c.stoppedByUser == v.c.stoppedByUser
  {
  }

  lemma InboundFlag(w: World, t: nat, outcome: Outcome)
    requires t in w.tasks && w.tasks[t].job.Inbound?
    ensures FlagAfter(w, Resume(t, outcome), ResumeInbound(w, t, outcome))
  {
    EnterClears(w, t);
    hide Enter;
  }

  lemma OutboundFlag(w: World, t: nat, outcome: Outcome)
    requires t in w.tasks && w.tasks[t].job.Outbound?
    ensures FlagAfter(w, Resume(t, outcome), ResumeOutbound(w, t, outcome))
  {
    EnterClears(w, t);
    hide Enter;
  }

  lemma OtherFlag(w: World, t: nat, outcome: Outcome)
    requires t in w.tasks && !w.tasks[t].job.Inbound? && !w.tasks[t].job.Outbound?
    ensures FlagAfter(w, Resume(t, outcome), ResumeOther(w, t, outcome))
  {
    FlagKept(w.c, Key("", 0), [], 0.0, "");
    forall v: World, at: Point
      ensures Finish(v, t).c.stoppedByUser == v.c.stoppedByUser
      ensures t in v.tasks ==> Move(v, t, at).c.stoppedByUser == v.c.stoppedByUser
    {
      MoveKeepsFlag(v, t, at);
    }
    hide TakeSession, Taking, DropSession, AnswerSent, Finish, Move;
  }

  /** The flag is set by the user's stop, and cleared by exactly the starts that pass. */
  lemma FlagExactly(w: World, e: Event)
    ensures Step(w, e).c.stoppedByUser <==> e.UserStops? || (w.c.stoppedByUser && !Passes(w, e))
  {
    if e.Resume? && e.task in w.tasks {
      hide ResumeInbound, ResumeOutbound, ResumeOther, Passes;
      match w.tasks[e.task].job {
        case Inbound(_) => InboundFlag(w, e.task, e.outcome);
        case Outbound(_) => OutboundFlag(w, e.task, e.outcome);
        case _ => OtherFlag(w, e.task, e.outcome);
      }
    } else {
      hide Seen, Accept, ResumeTask;
    }
  }

  /** So a restart that was reconnecting as the user stopped can publish after all. */
  lemma StopDuringReconnect()
    ensures var w := Run(START, [Spawn(Outbound(false)), Resume(0, Detour), UserStops]);
            w.c.stoppedByUser && !NoneUnderWay(w)
  {
    var w1 := Step(START, Spawn(Outbound(false)));
    assert w1.tasks[0] == Task(Outbound(false), Entry);
    var w2 := Step(w1, Resume(0, Detour));
    assert w2.tasks[0] == Task(Outbound(false), Reconnecting);
    var w3 := Step(w2, UserStops);
    assert UnderWay(w3.tasks[0]);
    hide Step, NoneUnderWay;
    RunThree(START, Spawn(Outbound(false)), Resume(0, Detour), [UserStops]);
    assert [Spawn(Outbound(false)), Resume(0, Detour)] + [UserStops]
        == [Spawn(Outbound(false)), Resume(0, Detour), UserStops];
    RunSteps(w2, UserStops, []);
    assert [UserStops] + [] == [UserStops];
    RunEmpty(w3);
  }
}
