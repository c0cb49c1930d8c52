/** Every interleaving of the coordinator's tasks at their awaits. A task is resumed one segment at a time,
    may be cancelled at any await, and rings and idle frames arrive at any time. */
module CoordinatorRuns {
  import opened Bytes
  import opened RingDedup
  import opened Coordinator

  datatype Job = Inbound(entrance: string) | Outbound(byUser: bool) | Stop | Reconnect | Answer

  /** Where a task is suspended: not yet started, or at the await named. */
  datatype Point =
    | Entry | Dropping | Reconnecting | Stopping | Silencing | Negotiating | Recovering | Announcing | Answering

  datatype Task = Task(job: Job, at: Point)

  /** How the await ended: as hoped, with the connection found dead, or with a failure. */
  datatype Outcome = Proceed | Detour | Fail

  /** `published` and `taken` record the sessions published and those handed to a stop. */
  datatype World = World(c: Coord, tasks: map<nat, Task>, born: nat, accepted: nat, published: seq<nat>,
                         taken: seq<nat>)

  datatype Event =
    | ListenerRing(key: Key, now: real)
    | SessionRing(key: Key, now: real)
    | Idle(addresses: seq<string>, now: real)
    | Spawn(job: Job)
    | UserStops
    | Resume(task: nat, outcome: Outcome)
    | Cancel(task: nat)

  // ----- The steps ----------------------------------------------------------------------

  function Taking(c: Coord): seq<nat>
  {
    if c.session.Some? then [c.session.value] else []
  }

  function Move(w: World, t: nat, at: Point): World
    requires t in w.tasks
  {
    w.(tasks := w.tasks[t := w.tasks[t].(at := at)])
  }

  /** The task ends, releasing the lock if it holds it. */
  function Finish(w: World, t: nat): World
  {
    w.(tasks := w.tasks - {t}, c := if w.c.holder == Some(t) then w.c.(holder := None) else w.c)
  }

  function Enter(w: World, t: nat): World
    requires t in w.tasks
  {
    Move(w.(c := EnterStart(w.c, t), taken := w.taken + Taking(w.c)), t, Stopping)
  }

  function FindSession(w: World, t: nat): World
    requires t in w.tasks
  {
    Move(w, t, if w.c.session.Some? then Dropping else Reconnecting)
  }

  function ResumeInbound(w: World, t: nat, outcome: Outcome): World
    requires t in w.tasks && w.tasks[t].job.Inbound?
  {
    var entrance := w.tasks[t].job.entrance;
    match w.tasks[t].at
    case Entry => if w.c.holder.Some? || outcome.Fail? then Finish(w, t) else Enter(w, t)
    case Stopping => Move(w, t, Silencing)
    case Silencing => Move(w, t, Negotiating)
    case Negotiating =>
      if outcome.Fail? then Move(w.(c := InboundFailed(w.c, entrance)), t, Recovering)
      else Move(w.(c := Publish(w.c, t), published := w.published + [t]), t, Announcing)
    case Announcing => Finish(w.(c := RecordRing(w.c, entrance)), t)
    case _ => Finish(w, t)
  }

  function ResumeOutbound(w: World, t: nat, outcome: Outcome): World
    requires t in w.tasks && w.tasks[t].job.Outbound?
  {
    match w.tasks[t].at
    case Entry =>
      if w.c.holder.Some? || outcome.Fail? || (w.c.stoppedByUser && !w.tasks[t].job.byUser) then Finish(w, t)
      else if outcome.Detour? then FindSession(w.(c := w.c.(holder := Some(t))), t)
      else Enter(w, t)
    case Dropping => Move(w.(c := DropSession(w.c)), t, Reconnecting)
    case Reconnecting => if outcome.Fail? then Finish(w, t) else Enter(w, t)
    case Stopping => Move(w, t, Silencing)
    case Silencing => Move(w, t, Negotiating)
    case Negotiating =>
      if outcome.Fail? then Move(w, t, Recovering)
      else Move(w.(c := Publish(w.c, t), published := w.published + [t]), t, Announcing)
    case _ => Finish(w, t)
  }

  function ResumeOther(w: World, t: nat, outcome: Outcome): World
    requires t in w.tasks && !w.tasks[t].job.Inbound? && !w.tasks[t].job.Outbound?
  {
    match w.tasks[t].job
    case Stop =>
      if w.tasks[t].at.Entry? && w.c.session.Some? then
        Move(w.(c := TakeSession(w.c), taken := w.taken + Taking(w.c)), t, Stopping)
      else Finish(w, t)
    case Reconnect =>
      if w.tasks[t].at.Entry? then FindSession(w, t)
      else if w.tasks[t].at.Dropping? then Move(w.(c := DropSession(w.c)), t, Reconnecting)
      else Finish(w, t)
    case Answer =>
      if w.tasks[t].at.Entry? && w.c.session.Some? && !outcome.Fail? then Move(w, t, Answering)
      else if w.tasks[t].at.Answering? && !outcome.Fail? then Finish(w.(c := AnswerSent(w.c)), t)
      else Finish(w, t)
    case _ => w
  }

  function ResumeTask(w: World, t: nat, outcome: Outcome): World
    requires t in w.tasks
  {
    if w.tasks[t].job.Inbound? then ResumeInbound(w, t, outcome)
    else if w.tasks[t].job.Outbound? then ResumeOutbound(w, t, outcome)
    else ResumeOther(w, t, outcome)
  }

  function AddTask(w: World, job: Job): World
  {
    w.(tasks := w.tasks[w.born := Task(job, Entry)], born := w.born + 1)
  }

  function Step(w: World, e: Event): World
  {
    match e
    case ListenerRing(key, now) =>
      if Seen(w.c.recent, key, now) then w
      else AddTask(w.(c := RingFromListener(w.c, key, now), accepted := w.accepted + 1), Inbound(key.entrance))
    case SessionRing(key, now) =>
      if Seen(w.c.recent, key, now) then w
      else w.(c := RingFromSession(w.c, key, now), accepted := w.accepted + 1)
    case Idle(addresses, now) => w.(c := CallIdle(w.c, addresses, now))
    case Spawn(job) => if job.Inbound? then w else AddTask(w, job)
    case UserStops => w.(c := w.c.(stoppedByUser := true))
    case Resume(t, outcome) => if t in w.tasks then ResumeTask(w, t, outcome) else w
    case Cancel(t) => if t in w.tasks then Finish(w, t) else w
  }

  function Run(w: World, events: seq<Event>): World
    decreases events
  {
    if events == [] then w else Run(Step(w, events[0]), events[1..])
  }

  /** The coordinator as constructed, with no task. */
  const START := World(Coord(None, false, None, false, map[], None, false, None, []), map[], 0, 0, [], [])

  // ----- Missed calls ---------------------------------------------------------------------

  function Misses(pushed: seq<Push>): nat
  {
    if pushed == [] then 0 else Misses(pushed[1..]) + if pushed[0].MissedCall? then 1 else 0
  }

  lemma {:induction false} MissesAppend(a: seq<Push>, b: seq<Push>)
    ensures Misses(a + b) == Misses(a) + Misses(b)
  {
    if a == [] {
      assert a + b == b;
    } else {
      assert (a + b)[1..] == a[1..] + b;
      MissesAppend(a[1..], b);
    }
  }

  lemma MissesSnoc(a: seq<Push>, p: Push)
    ensures Misses(a + [p]) == Misses(a) + if p.MissedCall? then 1 else 0
  {
    MissesAppend(a, [p]);
    assert [p][1..] == [];
  }

  function Bit(b: bool): nat { if b then 1 else 0 }

  /** Missed calls fired, and those the fields may still cause; with `idle` also those an idle frame may. */
  function CoordCredit(c: Coord, idle: bool): nat
  {
    Misses(c.pushed) + Bit(idle && c.lastRing.Some?) + Bit(c.pending.Some?)
  }

  predicate Open(task: Task) { task.job.Inbound? && !task.at.Recovering? }

  /** Inbound starts that have neither failed nor recorded their ring. */
  function Undecided(tasks: map<nat, Task>): set<nat>
  {
    set t | t in tasks && Open(tasks[t])
  }

  function Credit(w: World, idle: bool): nat
  {
    CoordCredit(w.c, idle) + |Undecided(w.tasks)|
  }

  lemma TakeSessionCredit(c: Coord, idle: bool)
    ensures CoordCredit(TakeSession(c), idle) <= CoordCredit(c, idle)
  {
    if c.pending.Some? {
      MissesSnoc(c.pushed, MissedCall(c.pending.value));
    }
    assert c.pushed + [] == c.pushed;
  }

  lemma CoordSteps(c: Coord, key: Key, addresses: seq<string>, now: real, entrance: string, idle: bool)
    ensures CoordCredit(RingFromListener(c, key, now), idle) <= CoordCredit(c, idle) + Bit(idle)
    ensures CoordCredit(RingFromSession(c, key, now), idle) <= CoordCredit(c, idle) + 1 + Bit(idle)
    ensures idle || !IdleFires(c, now) ==> CoordCredit(CallIdle(c, addresses, now), idle) <= CoordCredit(c, idle)
    ensures CoordCredit(InboundFailed(c, entrance), idle) <= CoordCredit(c, idle) + 1
    ensures CoordCredit(RecordRing(c, entrance), idle) <= CoordCredit(c, idle) + 1
  {
    hide Misses, Seen, Accept;
    MissesSnoc(c.pushed, RingPush(key.entrance));
    MissesSnoc(c.pushed, RingPush(entrance));
    MissesSnoc(c.pushed, MissedCall(entrance));
    MissesSnoc(c.pushed, MissedCall(if addresses == [] then "" else addresses[0]));
  }

  lemma UndecidedUpdate(tasks: map<nat, Task>, t: nat, task: Task)
    ensures var others := Undecided(tasks) - {t};
            Undecided(tasks[t := task]) == if Open(task) then others + {t} else others
  {
    hide Open;
  }

  lemma UndecidedRemove(tasks: map<nat, Task>, t: nat)
    ensures Undecided(tasks - {t}) == Undecided(tasks) - {t}
  {
    hide Open;
  }

  /** How a task's own move changes the number of undecided starts. */
  lemma MoveCredit(w: World, t: nat, at: Point, idle: bool)
    requires t in w.tasks
    ensures Credit(Move(w, t, at), idle) <= Credit(w, idle) + Bit(w.tasks[t].at.Recovering?)
    ensures Open(w.tasks[t]) && at.Recovering? ==> Credit(Move(w, t, at), idle) == Credit(w, idle) - 1
  {
    hide Undecided, CoordCredit;
    UndecidedUpdate(w.tasks, t, w.tasks[t].(at := at));
    UndecidedMember(w.tasks, t);
  }

  lemma UndecidedMember(tasks: map<nat, Task>, t: nat)
    requires t in tasks
    ensures t in Undecided(tasks) <==> Open(tasks[t])
  {
    hide Open;
  }

  lemma FinishCredit(w: World, t: nat, idle: bool)
    requires t in w.tasks
    ensures Credit(Finish(w, t), idle) == Credit(w, idle) - Bit(Open(w.tasks[t]))
  {
    hide Undecided, Misses;
    UndecidedRemove(w.tasks, t);
    UndecidedMember(w.tasks, t);
  }

  /** A change of fields alone. */
  lemma FieldsCredit(w: World, c: Coord, published: seq<nat>, taken: seq<nat>, idle: bool)
    ensures Credit(w.(c := c, published := published, taken := taken), idle)
            == Credit(w, idle) - CoordCredit(w.c, idle) + CoordCredit(c, idle)
  {
  }

  lemma PublishCredit(c: Coord, t: nat, idle: bool)
    ensures CoordCredit(Publish(c, t), idle) == CoordCredit(c, idle)
    ensures CoordCredit(DropSession(c), idle) == CoordCredit(c, idle)
    ensures CoordCredit(AnswerSent(c), idle) <= CoordCredit(c, idle)
    ensures CoordCredit(c.(holder := Some(t)), idle) == CoordCredit(c, idle)
    ensures CoordCredit(c.(stoppedByUser := true), idle) == CoordCredit(c, idle)
  {
    hide Misses;
  }

  lemma EnterCredit(w: World, t: nat, idle: bool)
    requires t in w.tasks && !w.tasks[t].at.Recovering?
    ensures Credit(Enter(w, t), idle) <= Credit(w, idle)
  {
    hide Credit, TakeSession, Move;
    TakeSessionCredit(w.c.(holder := Some(t), stoppedByUser := false), idle);
    var v := w.(c := EnterStart(w.c, t), taken := w.taken + Taking(w.c));
    FieldsCredit(w, EnterStart(w.c, t), w.published, w.taken + Taking(w.c), idle);
    MoveCredit(v, t, Stopping, idle);
    hide EnterStart;
  }

  lemma InboundCredit(w: World, t: nat, outcome: Outcome, idle: bool)
    requires t in w.tasks && w.tasks[t].job.Inbound?
    ensures Credit(ResumeInbound(w, t, outcome), idle) <= Credit(w, idle)
  {
    hide Credit, CoordCredit, Enter, Finish, Move, InboundFailed, RecordRing, Publish;
    var entrance := w.tasks[t].job.entrance;
    CoordSteps(w.c, Key("", 0), [], 0.0, entrance, idle);
    FinishCredit(w, t, idle);
    match w.tasks[t].at
    case Entry => EnterCredit(w, t, idle);
    case Stopping => MoveCredit(w, t, Silencing, idle);
    case Silencing => MoveCredit(w, t, Negotiating, idle);
    case Negotiating => {
      FieldsCredit(w, InboundFailed(w.c, entrance), w.published, w.taken, idle);
      MoveCredit(w.(c := InboundFailed(w.c, entrance)), t, Recovering, idle);
      PublishCredit(w.c, t, idle);
      FieldsCredit(w, Publish(w.c, t), w.published + [t], w.taken, idle);
      MoveCredit(w.(c := Publish(w.c, t), published := w.published + [t]), t, Announcing, idle);
    }
    case Announcing => {
      FieldsCredit(w, RecordRing(w.c, entrance), w.published, w.taken, idle);
      FinishCredit(w.(c := RecordRing(w.c, entrance)), t, idle);
    }
    case _ =>
  }

  lemma FindSessionCredit(w: World, t: nat, idle: bool)
    requires t in w.tasks && !w.tasks[t].at.Recovering?
    ensures Credit(FindSession(w, t), idle) <= Credit(w, idle)
  {
    hide Credit, Move;
    MoveCredit(w, t, Dropping, idle);
    MoveCredit(w, t, Reconnecting, idle);
  }

  lemma OutboundCredit(w: World, t: nat, outcome: Outcome, idle: bool)
    requires t in w.tasks && w.tasks[t].job.Outbound?
    ensures Credit(ResumeOutbound(w, t, outcome), idle) <= Credit(w, idle)
  {
    hide Credit, CoordCredit, Enter, Finish, Move, Publish, DropSession, FindSession;
    FinishCredit(w, t, idle);
    PublishCredit(w.c, t, idle);
    match w.tasks[t].at
    case Entry => {
      EnterCredit(w, t, idle);
      FieldsCredit(w, w.c.(holder := Some(t)), w.published, w.taken, idle);
      FindSessionCredit(w.(c := w.c.(holder := Some(t))), t, idle);
    }
    case Dropping => {
      FieldsCredit(w, DropSession(w.c), w.published, w.taken, idle);
      MoveCredit(w.(c := DropSession(w.c)), t, Reconnecting, idle);
    }
    case Reconnecting => EnterCredit(w, t, idle);
    case Stopping => MoveCredit(w, t, Silencing, idle);
    case Silencing => MoveCredit(w, t, Negotiating, idle);
    case Negotiating => {
      MoveCredit(w, t, Recovering, idle);
      FieldsCredit(w, Publish(w.c, t), w.published + [t], w.taken, idle);
      MoveCredit(w.(c := Publish(w.c, t), published := w.published + [t]), t, Announcing, idle);
    }
    case _ =>
  }

  lemma OtherCredit(w: World, t: nat, outcome: Outcome, idle: bool)
    requires t in w.tasks && !w.tasks[t].job.Inbound? && !w.tasks[t].job.Outbound? && !w.tasks[t].at.Recovering?
    ensures Credit(ResumeOther(w, t, outcome), idle) <= Credit(w, idle)
  {
    hide Credit, CoordCredit, Finish, Move, DropSession, FindSession, TakeSession, AnswerSent;
    FinishCredit(w, t, idle);
    PublishCredit(w.c, t, idle);
    match w.tasks[t].job
    case Stop => {
      TakeSessionCredit(w.c, idle);
      FieldsCredit(w, TakeSession(w.c), w.published, w.taken + Taking(w.c), idle);
      MoveCredit(w.(c := TakeSession(w.c), taken := w.taken + Taking(w.c)), t, Stopping, idle);
    }
    case Reconnect => {
      FindSessionCredit(w, t, idle);
      FieldsCredit(w, DropSession(w.c), w.published, w.taken, idle);
      MoveCredit(w.(c := DropSession(w.c)), t, Reconnecting, idle);
    }
    case Answer => {
      MoveCredit(w, t, Answering, idle);
      FieldsCredit(w, AnswerSent(w.c), w.published, w.taken, idle);
      FinishCredit(w.(c := AnswerSent(w.c)), t, idle);
    }
    case _ =>
  }

  /** Only starts wait for a recovery, and tasks are numbered below the next. */
  predicate Formed(w: World)
  {
    forall t :: t in w.tasks ==>
      && t < w.born
      && (w.tasks[t].at.Recovering? || w.tasks[t].at.Announcing? ==>
            w.tasks[t].job.Inbound? || w.tasks[t].job.Outbound?)
  }

  lemma AddTaskCredit(w: World, job: Job, idle: bool)
    requires Formed(w)
    ensures Credit(AddTask(w, job), idle) == Credit(w, idle) + Bit(job.Inbound?)
  {
    hide CoordCredit, Undecided;
    UndecidedUpdate(w.tasks, w.born, Task(job, Entry));
    UndecidedBelow(w);
  }

  lemma UndecidedBelow(w: World)
    requires Formed(w)
    ensures w.born !in Undecided(w.tasks)
  {
  }

  /** The missed calls that `accepted` rings may fire: one each, and with `idle` one more. */
  function Allowed(accepted: nat, idle: bool): nat { if idle then 2 * accepted else accepted }

  /** An idle frame that passes its guard. */
  predicate PassesIdle(w: World, e: Event) { e.Idle? && IdleFires(w.c, e.now) }

  /** No step adds more missed-call credit than the ring it accepts allows; an idle frame counts as one of
      the two causes only where it passes its guard. */
  lemma CreditStep(w: World, e: Event, idle: bool)
    requires Formed(w) && (idle || !PassesIdle(w, e))
    ensures Credit(Step(w, e), idle) - Credit(w, idle) <= Allowed(Step(w, e).accepted, idle) - Allowed(w.accepted, idle)
  {
    hide Credit, CoordCredit, Finish, ResumeInbound, ResumeOutbound, ResumeOther, RingFromListener, RingFromSession,
         CallIdle, AddTask;
    match e
    case ListenerRing(key, now) => {
      CoordSteps(w.c, key, [], now, "", idle);
      AcceptCredit(w, RingFromListener(w.c, key, now), idle);
      AddTaskCredit(w.(c := RingFromListener(w.c, key, now), accepted := w.accepted + 1), Inbound(key.entrance), idle);
      AddTaskFields(w.(c := RingFromListener(w.c, key, now), accepted := w.accepted + 1), Inbound(key.entrance));
    }
    case SessionRing(key, now) => {
      CoordSteps(w.c, key, [], now, "", idle);
      AcceptCredit(w, RingFromSession(w.c, key, now), idle);
    }
    case Idle(addresses, now) => {
      CoordSteps(w.c, Key("", 0), addresses, now, "", idle);
      FieldsCredit(w, CallIdle(w.c, addresses, now), w.published, w.taken, idle);
    }
    case Spawn(job) => {
      AddTaskCredit(w, job, idle);
      AddTaskFields(w, job);
    }
    case UserStops => {
      PublishCredit(w.c, 0, idle);
      FieldsCredit(w, w.c.(stoppedByUser := true), w.published, w.taken, idle);
    }
    case Resume(t, outcome) => {
      if t in w.tasks {
        if w.tasks[t].job.Inbound? { InboundCredit(w, t, outcome, idle); }
        else if w.tasks[t].job.Outbound? { OutboundCredit(w, t, outcome, idle); }
        else { OtherCredit(w, t, outcome, idle); }
        ResumeAcceptsNothing(w, t, outcome);
      }
    }
    case Cancel(t) => {
      if t in w.tasks {
        FinishCredit(w, t, idle);
        FinishFields(w, t);
      }
    }
  }

  lemma AcceptCredit(w: World, c: Coord, idle: bool)
    ensures Credit(w.(c := c, accepted := w.accepted + 1), idle)
            == Credit(w, idle) - CoordCredit(w.c, idle) + CoordCredit(c, idle)
  {
  }

  lemma AddTaskFields(w: World, job: Job)
    ensures AddTask(w, job).accepted == w.accepted
  {
  }

  lemma FinishFields(w: World, t: nat)
    ensures Finish(w, t).accepted == w.accepted
  {
  }

  lemma ResumeAcceptsNothing(w: World, t: nat, outcome: Outcome)
    requires t in w.tasks
    ensures ResumeTask(w, t, outcome).accepted == w.accepted
  {
  }

  lemma FormedMove(w: World, v: World, t: nat, at: Point)
    requires Formed(w) && v.tasks == w.tasks && v.born == w.born && t in w.tasks
    requires at.Recovering? || at.Announcing? ==> w.tasks[t].job.Inbound? || w.tasks[t].job.Outbound?
    ensures Formed(Move(v, t, at))
  {
  }

  lemma FormedFinish(w: World, v: World, t: nat)
    requires Formed(w) && v.tasks == w.tasks && v.born == w.born
    ensures Formed(Finish(v, t))
  {
  }

  lemma FormedResume(w: World, t: nat, outcome: Outcome)
    requires Formed(w) && t in w.tasks
    ensures Formed(ResumeTask(w, t, outcome))
  {
    hide Formed, Move, Finish, EnterStart, TakeSession, DropSession, InboundFailed, RecordRing, Publish, AnswerSent;
    var job, at := w.tasks[t].job, w.tasks[t].at;
    forall v: World | v.tasks == w.tasks && v.born == w.born
      ensures Formed(Finish(v, t))
    {
      FormedFinish(w, v, t);
    }
    forall v: World, to: Point |
      && v.tasks == w.tasks && v.born == w.born
      && (to.Recovering? || to.Announcing? ==> job.Inbound? || job.Outbound?)
      ensures Formed(Move(v, t, to))
    {
      FormedMove(w, v, t, to);
    }
  }

  lemma StepKeepsFormed(w: World, e: Event)
    requires Formed(w)
    ensures Formed(Step(w, e))
  {
    hide RingFromListener, RingFromSession, CallIdle, ResumeTask, Finish;
    if e.Resume? && e.task in w.tasks {
      FormedResume(w, e.task, e.outcome);
    } else if e.Cancel? && e.task in w.tasks {
      FormedFinish(w, w, e.task);
    }
  }

  predicate NoIdlePasses(w: World, events: seq<Event>)
    decreases events
  {
    events != [] ==> !PassesIdle(w, events[0]) && NoIdlePasses(Step(w, events[0]), events[1..])
  }

  /** Over every interleaving: missed calls fired, plus the last ring time if set, the pending ring if
      set, and the inbound starts still undecided, never exceed twice the rings accepted. Where no idle
      frame passes its guard, missed calls, pending ring and undecided starts never exceed the rings. */
  lemma {:induction false} MissedCallCredit(w: World, events: seq<Event>, idle: bool)
    requires Formed(w) && Credit(w, idle) <= Allowed(w.accepted, idle) && (idle || NoIdlePasses(w, events))
    ensures Formed(Run(w, events)) && Credit(Run(w, events), idle) <= Allowed(Run(w, events).accepted, idle)
    decreases events
  {
    hide Formed, Credit, Step, PassesIdle, Allowed;
    if events != [] {
      CreditStep(w, events[0], idle);
      StepKeepsFormed(w, events[0]);
      MissedCallCredit(Step(w, events[0]), events[1..], idle);
    }
  }

  /** So no run fires more than two missed calls per ring, and none in which no idle frame passes its guard
      fires more than one. */
  lemma AtMostTwoMissesPerRing(events: seq<Event>)
    ensures Misses(Run(START, events).c.pushed) <= 2 * Run(START, events).accepted
    ensures NoIdlePasses(START, events) ==> Misses(Run(START, events).c.pushed) <= Run(START, events).accepted
  {
    assert Undecided(START.tasks) == {};
    MissedCallCredit(START, events, true);
    if NoIdlePasses(START, events) {
      MissedCallCredit(START, events, false);
    }
  }

  /** The steps of an undisturbed inbound start, and of the stop and idle frame that follow it. */
  function PassiveStart(): seq<Event>
  {
    [Resume(0, Proceed), Resume(0, Proceed), Resume(0, Proceed), Resume(0, Proceed), Resume(0, Proceed)]
  }

  function StopAndIdle(): seq<Event>
  {
    [Spawn(Stop), Resume(1, Proceed), Idle([], 30.0)]
  }

  /** Two are reached: the ring's passive session is stopped unanswered, and an idle frame follows. */
  lemma TwoMissesForOneRing(key: Key)
    ensures var w := Run(START, [ListenerRing(key, 0.0)] + PassiveStart() + StopAndIdle());
            Misses(w.c.pushed) == 2 && w.accepted == 1
  {
    var e := key.entrance;
    var w1 := Step(START, ListenerRing(key, 0.0));
    assert w1.tasks == map[0 := Task(Inbound(e), Entry)] && w1.c.lastRing == Some(0.0) && w1.c.pushed == [];
    RunAppend(START, [ListenerRing(key, 0.0)] + PassiveStart(), StopAndIdle());
    RunSteps(START, ListenerRing(key, 0.0), PassiveStart());
    hide Run, Step, PassiveStart, StopAndIdle, Misses;
    PassiveStartRun(w1, e);
    StopAndIdleRun(Run(w1, PassiveStart()), e);
    TwoMisses([RingPush(e), MissedCall(e), MissedCall("")]);
  }

  lemma TwoMisses(pushed: seq<Push>)
    requires |pushed| == 3 && pushed[0].RingPush? && pushed[1].MissedCall? && pushed[2].MissedCall?
    ensures Misses(pushed) == 2
  {
    MissesSnoc(pushed[..2], pushed[2]);
    MissesSnoc(pushed[..1], pushed[1]);
    MissesSnoc([], pushed[0]);
    assert pushed == pushed[..2] + [pushed[2]];
    assert pushed[..2] == pushed[..1] + [pushed[1]] && pushed[..1] == [] + [pushed[0]];
  }

  lemma PassiveStartRun(w: World, e: string)
    requires w.tasks == map[0 := Task(Inbound(e), Entry)] && w.born == 1 && w.c.holder.None? && w.c.session.None?
    requires !w.c.answered && w.c.pushed == []
    ensures var v := Run(w, PassiveStart());
            && v.c.session == Some(0) && v.c.pending == Some(e) && !v.c.answered && v.c.lastRing == w.c.lastRing
            && v.c.pushed == [RingPush(e)] && v.tasks == map[] && v.born == 1 && v.accepted == w.accepted
  {
    hide Run;
    var go := Resume(0, Proceed);
    var w2 := Step(w, go);
    assert w2.tasks[0] == Task(Inbound(e), Stopping) && w2.tasks.Keys == {0};
    var w3 := Step(w2, go);
    var w4 := Step(w3, go);
    assert w4.tasks[0] == Task(Inbound(e), Negotiating) && w4.tasks.Keys == {0} && w4.c == w2.c;
    var w5 := Step(w4, go);
    assert w5.tasks[0] == Task(Inbound(e), Announcing) && w5.tasks.Keys == {0} && w5.c.session == Some(0);
    var w6 := Step(w5, go);
    assert w6.tasks.Keys == {};
    assert w6.tasks == map[];
    hide Step;
    RunFive(w, go);
    RunFour(w2, go);
  }

  lemma StopAndIdleRun(w: World, e: string)
    requires w.c.session == Some(0) && w.c.pending == Some(e) && !w.c.answered && w.c.lastRing == Some(0.0)
    requires w.c.pushed == [RingPush(e)] && w.tasks == map[] && w.born == 1
    ensures Run(w, StopAndIdle()).c.pushed == [RingPush(e), MissedCall(e), MissedCall("")]
    ensures Run(w, StopAndIdle()).accepted == w.accepted
  {
    hide Run;
    var w1 := Step(w, Spawn(Stop));
    var w2 := Step(w1, Resume(1, Proceed));
    assert w2.c.pushed == [RingPush(e), MissedCall(e)] && w2.c.session.None?;
    var w3 := Step(w2, Idle([], 30.0));
    assert w3.c.pushed == [RingPush(e), MissedCall(e)] + [MissedCall("")];
    hide Step;
    RunThree(w, Spawn(Stop), Resume(1, Proceed), [Idle([], 30.0)]);
    assert StopAndIdle() == [Spawn(Stop), Resume(1, Proceed)] + [Idle([], 30.0)];
    RunSteps(w2, Idle([], 30.0), []);
    assert [Idle([], 30.0)] + [] == [Idle([], 30.0)];
    RunEmpty(w3);
  }

  lemma RunFive(w: World, e: Event)
    ensures Run(w, [e, e, e, e, e]) == Run(Step(w, e), [e, e, e, e])
  {
    assert [e, e, e, e, e][1..] == [e, e, e, e];
  }

  lemma RunFour(w: World, e: Event)
    ensures Run(w, [e, e, e, e]) == Step(Step(Step(Step(w, e), e), e), e)
  {
    hide Step;
    RunThree(w, e, e, [e, e]);
    assert [e, e] + [e, e] == [e, e, e, e];
    RunThree(Step(Step(w, e), e), e, e, []);
    assert [e, e] + [] == [e, e];
    RunEmpty(Step(Step(Step(Step(w, e), e), e), e));
  }

  lemma RunThree(w: World, d: Event, e: Event, rest: seq<Event>)
    ensures Run(w, [d, e] + rest) == Run(Step(Step(w, d), e), rest)
  {
    hide Step;
    RunSteps(w, d, [e] + rest);
    RunSteps(Step(w, d), e, rest);
    assert [d] + ([e] + rest) == [d, e] + rest;
  }

  lemma {:induction false} RunAppend(w: World, a: seq<Event>, b: seq<Event>)
    ensures Run(w, a + b) == Run(Run(w, a), b)
    decreases a
  {
    hide Step;
    if a == [] {
      assert a + b == b;
    } else {
      assert (a + b)[1..] == a[1..] + b;
      RunAppend(Step(w, a[0]), a[1..], b);
    }
  }

  lemma RunEmpty(w: World)
    ensures Run(w, []) == w
  {
  }

  lemma RunSteps(w: World, e: Event, rest: seq<Event>)
    ensures Run(w, [e] + rest) == Run(Step(w, e), rest)
  {
    assert ([e] + rest)[1..] == rest;
  }

  // ----- After an answer --------------------------------------------------------------------

  /** Answered, with no ring pending and no inbound start undecided. */
  predicate Quiet(w: World)
  {
    w.c.answered && w.c.pending.None? && forall t :: t in w.tasks ==> !Open(w.tasks[t])
  }

  /** The last segment of an answer leaves things quiet when no inbound start is undecided. */
  lemma AnswerQuiets(w: World, t: nat)
    requires t in w.tasks && w.tasks[t] == Task(Answer, Answering)
    requires forall u :: u in w.tasks ==> !Open(w.tasks[u])
    ensures Quiet(Step(w, Resume(t, Proceed)))
  {
  }

  /** Fields that leave things quiet and fire nothing. */
  predicate Silent(c: Coord, c': Coord)
  {
    c'.answered && c'.pending.None? && c'.pushed == c.pushed
  }

  lemma SilentSteps(c: Coord, t: nat, addresses: seq<string>, now: real)
    requires c.answered && c.pending.None?
    ensures Silent(c, TakeSession(c)) && Silent(c, EnterStart(c, t)) && Silent(c, CallIdle(c, addresses, now))
    ensures Silent(c, Publish(c, t)) && Silent(c, DropSession(c)) && Silent(c, AnswerSent(c))
  {
    assert c.pushed + [] == c.pushed;
  }

  /** The tasks of `w'` are those of `w`, except that `t` may have moved. */
  predicate OnlyMoves(w: World, w': World, t: nat)
  {
    forall u :: u in w'.tasks ==>
      u in w.tasks && (w'.tasks[u] == w.tasks[u] || (u == t && w'.tasks[u].job == w.tasks[u].job))
  }

  /** A task that is no undecided inbound start changes no field that matters. */
  lemma QuietResume(w: World, t: nat, outcome: Outcome)
    requires Quiet(w) && t in w.tasks
    ensures var w' := ResumeTask(w, t, outcome);
            Silent(w.c, w'.c) && OnlyMoves(w, w', t) && (w.tasks[t].job.Inbound? ==> t !in w'.tasks)
  {
    SilentSteps(w.c, t, [], 0.0);
    assert !Open(w.tasks[t]);
    hide TakeSession, EnterStart, CallIdle, Publish, DropSession, AnswerSent, Quiet, ResumeOutbound, ResumeOther;
    if w.tasks[t].job.Inbound? {
      assert w.tasks[t].at.Recovering?;
    } else if w.tasks[t].job.Outbound? {
      QuietOutbound(w, t, outcome);
    } else {
      QuietOther(w, t, outcome);
    }
  }

  lemma QuietMove(w: World, v: World, t: nat, at: Point)
    requires v.tasks == w.tasks && t in w.tasks && Silent(w.c, v.c)
    ensures OnlyMoves(w, Move(v, t, at), t) && Silent(w.c, Move(v, t, at).c)
    ensures OnlyMoves(w, Finish(v, t), t) && Silent(w.c, Finish(v, t).c)
  {
  }

  lemma QuietOther(w: World, t: nat, outcome: Outcome)
    requires w.c.answered && w.c.pending.None? && t in w.tasks && !w.tasks[t].job.Inbound? && !w.tasks[t].job.Outbound?
    ensures var w' := ResumeOther(w, t, outcome);
            Silent(w.c, w'.c) && OnlyMoves(w, w', t)
  {
    SilentSteps(w.c, t, [], 0.0);
    assert Silent(w.c, w.c);
    hide TakeSession, DropSession, AnswerSent, Move, Finish, Silent, OnlyMoves, Taking;
    forall v: World, at: Point | v.tasks == w.tasks && Silent(w.c, v.c)
      ensures OnlyMoves(w, Move(v, t, at), t) && Silent(w.c, Move(v, t, at).c)
      ensures OnlyMoves(w, Finish(v, t), t) && Silent(w.c, Finish(v, t).c)
    {
      QuietMove(w, v, t, at);
    }
  }

  lemma QuietOutbound(w: World, t: nat, outcome: Outcome)
    requires w.c.answered && w.c.pending.None? && t in w.tasks && w.tasks[t].job.Outbound?
    ensures var w' := ResumeOutbound(w, t, outcome);
            Silent(w.c, w'.c) && OnlyMoves(w, w', t)
  {
    SilentSteps(w.c, t, [], 0.0);
    assert Silent(w.c, w.c) && Silent(w.c, w.c.(holder := Some(t)));
    hide EnterStart, Publish, DropSession, Move, Finish, Silent, OnlyMoves, Taking;
    forall v: World, at: Point | v.tasks == w.tasks && Silent(w.c, v.c)
      ensures OnlyMoves(w, Move(v, t, at), t) && Silent(w.c, Move(v, t, at).c)
      ensures OnlyMoves(w, Finish(v, t), t) && Silent(w.c, Finish(v, t).c)
    {
      QuietMove(w, v, t, at);
    }
  }

  lemma QuietStep(w: World, e: Event)
    requires Quiet(w) && Step(w, e).accepted == w.accepted
    ensures Quiet(Step(w, e)) && Misses(Step(w, e).c.pushed) == Misses(w.c.pushed)
  {
    hide Misses, Seen, ResumeTask, CallIdle;
    if e.Resume? && e.task in w.tasks {
      QuietResume(w, e.task, e.outcome);
    } else if e.Idle? {
      SilentSteps(w.c, 0, e.addresses, e.now);
    }
  }

  lemma AcceptedGrows(w: World, e: Event)
    ensures w.accepted <= Step(w, e).accepted
  {
    if e.Resume? && e.task in w.tasks {
      hide ResumeTask;
      ResumeAcceptsNothing(w, e.task, e.outcome);
    }
  }

  /** Once quiet, no missed call fires before another ring is accepted. */
  lemma {:induction false} NoMissAfterAnswer(w: World, events: seq<Event>)
    requires Quiet(w)
    ensures w.accepted <= Run(w, events).accepted
    ensures Run(w, events).accepted == w.accepted ==> Misses(Run(w, events).c.pushed) == Misses(w.c.pushed)
    decreases events
  {
    hide Quiet, Step, Misses;
    if events != [] {
      AcceptedGrows(w, events[0]);
      RunAcceptedGrows(Step(w, events[0]), events[1..]);
      if Step(w, events[0]).accepted == w.accepted {
        QuietStep(w, events[0]);
        NoMissAfterAnswer(Step(w, events[0]), events[1..]);
      }
    }
  }

  lemma {:induction false} RunAcceptedGrows(w: World, events: seq<Event>)
    ensures w.accepted <= Run(w, events).accepted
    decreases events
  {
    hide Step;
    if events != [] {
      AcceptedGrows(w, events[0]);
      RunAcceptedGrows(Step(w, events[0]), events[1..]);
    }
  }

  // ----- Single flight ----------------------------------------------------------------------

  /** Past its entry a start holds the lock. */
  predicate Critical(task: Task)
  {
    (task.job.Inbound? || task.job.Outbound?) && !task.at.Entry?
  }

  predicate Distinct(s: seq<nat>)
  {
    forall i, j :: 0 <= i < j < |s| ==> s[i] != s[j]
  }

  /** The lock is held exactly by the one start under way. */
  predicate Locked(w: World)
  {
    && (forall t :: t in w.tasks ==> t < w.born && (Critical(w.tasks[t]) <==> w.c.holder == Some(t)))
    && (w.c.holder.Some? ==> w.c.holder.value in w.tasks)
  }

  /** The ready event is set exactly when a session is published, only sessions whose start completed are
      published, each once, and each is taken by at most one stop. */
  predicate Sessions(w: World)
  {
    && (w.c.ready <==> w.c.session.Some?)
    && (w.c.session.Some? ==> w.c.session.value in w.published && w.c.session.value !in w.taken)
    && Distinct(w.published) && Distinct(w.taken)
    && (forall s :: s in w.taken ==> s in w.published)
    && (forall s :: s in w.published ==> s < w.born && (s in w.tasks ==> w.tasks[s].at.Announcing?))
  }

  lemma LockedFields(w: World, c: Coord, published: seq<nat>, taken: seq<nat>, accepted: nat)
    requires Locked(w) && c.holder == w.c.holder
    ensures Locked(w.(c := c, published := published, taken := taken, accepted := accepted))
  {
  }

  lemma LockedMove(w: World, t: nat, at: Point)
    requires Locked(w) && t in w.tasks
    requires w.tasks[t].job.Inbound? || w.tasks[t].job.Outbound? ==> !w.tasks[t].at.Entry? && !at.Entry?
    ensures Locked(Move(w, t, at))
  {
  }

  lemma LockedFinish(w: World, t: nat)
    requires Locked(w) && t in w.tasks
    ensures Locked(Finish(w, t))
  {
  }

  /** A start seizes a free lock, or goes on holding it. */
  lemma LockedSeize(w: World, t: nat, c: Coord, taken: seq<nat>, at: Point)
    requires Locked(w) && t in w.tasks && (w.tasks[t].job.Inbound? || w.tasks[t].job.Outbound?)
    requires w.c.holder.None? || w.c.holder == Some(t)
    requires c.holder == Some(t) && !at.Entry?
    ensures Locked(Move(w.(c := c, taken := taken), t, at))
  {
  }

  lemma HolderKept(c: Coord, t: nat, key: Key, addresses: seq<string>, now: real, entrance: string)
    ensures TakeSession(c).holder == c.holder && EnterStart(c, t).holder == Some(t)
    ensures RingFromListener(c, key, now).holder == c.holder && RingFromSession(c, key, now).holder == c.holder
    ensures CallIdle(c, addresses, now).holder == c.holder && InboundFailed(c, entrance).holder == c.holder
    ensures RecordRing(c, entrance).holder == c.holder && Publish(c, t).holder == c.holder
    ensures DropSession(c).holder == c.holder && AnswerSent(c).holder == c.holder
  {
  }

  lemma LockedAdd(w: World, job: Job)
    requires Locked(w)
    ensures Locked(AddTask(w, job))
  {
  }

  lemma LockedInbound(w: World, t: nat, outcome: Outcome)
    requires Locked(w) && t in w.tasks && w.tasks[t].job.Inbound?
    ensures Locked(ResumeInbound(w, t, outcome))
  {
    var entrance := w.tasks[t].job.entrance;
    HolderKept(w.c, t, Key("", 0), [], 0.0, entrance);
    LockedFinish(w, t);
    hide Locked, Move, Finish, EnterStart, InboundFailed, RecordRing, Publish;
    match w.tasks[t].at
    case Entry => {
      if w.c.holder.None? { LockedSeize(w, t, EnterStart(w.c, t), w.taken + Taking(w.c), Stopping); }
    }
    case Stopping => LockedMove(w, t, Silencing);
    case Silencing => LockedMove(w, t, Negotiating);
    case Negotiating => {
      LockedFields(w, InboundFailed(w.c, entrance), w.published, w.taken, w.accepted);
      LockedMove(w.(c := InboundFailed(w.c, entrance)), t, Recovering);
      LockedFields(w, Publish(w.c, t), w.published + [t], w.taken, w.accepted);
      LockedMove(w.(c := Publish(w.c, t), published := w.published + [t]), t, Announcing);
    }
    case Announcing => {
      LockedFields(w, RecordRing(w.c, entrance), w.published, w.taken, w.accepted);
      LockedFinish(w.(c := RecordRing(w.c, entrance)), t);
    }
    case _ =>
  }

  lemma LockedOutbound(w: World, t: nat, outcome: Outcome)
    requires Locked(w) && t in w.tasks && w.tasks[t].job.Outbound?
    ensures Locked(ResumeOutbound(w, t, outcome))
  {
    HolderKept(w.c, t, Key("", 0), [], 0.0, "");
    LockedFinish(w, t);
    assert !w.tasks[t].at.Entry? ==> w.c.holder == Some(t);
    hide Locked, Move, Finish, EnterStart, DropSession, Publish;
    match w.tasks[t].at
    case Entry => {
      if w.c.holder.None? {
        LockedSeize(w, t, EnterStart(w.c, t), w.taken + Taking(w.c), Stopping);
        LockedSeize(w, t, w.c.(holder := Some(t)), w.taken, Dropping);
        LockedSeize(w, t, w.c.(holder := Some(t)), w.taken, Reconnecting);
      }
    }
    case Dropping => {
      LockedFields(w, DropSession(w.c), w.published, w.taken, w.accepted);
      LockedMove(w.(c := DropSession(w.c)), t, Reconnecting);
    }
    case Reconnecting => LockedSeize(w, t, EnterStart(w.c, t), w.taken + Taking(w.c), Stopping);
    case Stopping => LockedMove(w, t, Silencing);
    case Silencing => LockedMove(w, t, Negotiating);
    case Negotiating => {
      LockedMove(w, t, Recovering);
      LockedFields(w, Publish(w.c, t), w.published + [t], w.taken, w.accepted);
      LockedMove(w.(c := Publish(w.c, t), published := w.published + [t]), t, Announcing);
    }
    case _ =>
  }

  lemma LockedOther(w: World, t: nat, outcome: Outcome)
    requires Locked(w) && t in w.tasks && !w.tasks[t].job.Inbound? && !w.tasks[t].job.Outbound?
    ensures Locked(ResumeOther(w, t, outcome))
  {
    HolderKept(w.c, t, Key("", 0), [], 0.0, "");
    LockedFinish(w, t);
    hide Locked, Move, Finish, TakeSession, DropSession, AnswerSent;
    match w.tasks[t].job
    case Stop => {
      LockedFields(w, TakeSession(w.c), w.published, w.taken + Taking(w.c), w.accepted);
      LockedMove(w.(c := TakeSession(w.c), taken := w.taken + Taking(w.c)), t, Stopping);
    }
    case Reconnect => {
      LockedMove(w, t, Dropping);
      LockedMove(w, t, Reconnecting);
      LockedFields(w, DropSession(w.c), w.published, w.taken, w.accepted);
      LockedMove(w.(c := DropSession(w.c)), t, Reconnecting);
    }
    case Answer => {
      LockedMove(w, t, Answering);
      LockedFields(w, AnswerSent(w.c), w.published, w.taken, w.accepted);
      LockedFinish(w.(c := AnswerSent(w.c)), t);
    }
    case _ =>
  }

  lemma LockedStep(w: World, e: Event)
    requires Locked(w)
    ensures Locked(Step(w, e))
  {
    hide Locked, ResumeInbound, ResumeOutbound, ResumeOther, Finish, AddTask, RingFromListener, RingFromSession,
         CallIdle, Seen;
    match e
    case ListenerRing(key, now) => {
      HolderKept(w.c, 0, key, [], now, "");
      LockedFields(w, RingFromListener(w.c, key, now), w.published, w.taken, w.accepted + 1);
      LockedAdd(w.(c := RingFromListener(w.c, key, now), accepted := w.accepted + 1), Inbound(key.entrance));
    }
    case SessionRing(key, now) => {
      HolderKept(w.c, 0, key, [], now, "");
      LockedFields(w, RingFromSession(w.c, key, now), w.published, w.taken, w.accepted + 1);
    }
    case Idle(addresses, now) => {
      HolderKept(w.c, 0, Key("", 0), addresses, now, "");
      LockedFields(w, CallIdle(w.c, addresses, now), w.published, w.taken, w.accepted);
    }
    case Spawn(job) => LockedAdd(w, job);
    case UserStops => LockedFields(w, w.c.(stoppedByUser := true), w.published, w.taken, w.accepted);
    case Resume(t, outcome) => {
      if t in w.tasks {
        if w.tasks[t].job.Inbound? { LockedInbound(w, t, outcome); }
        else if w.tasks[t].job.Outbound? { LockedOutbound(w, t, outcome); }
        else { LockedOther(w, t, outcome); }
      }
    }
    case Cancel(t) => { if t in w.tasks { LockedFinish(w, t); } }
  }

  lemma SessionsFields(w: World, c: Coord, accepted: nat)
    requires Sessions(w) && c.session == w.c.session && c.ready == w.c.ready
    ensures Sessions(w.(c := c, accepted := accepted))
  {
  }

  lemma SessionsMove(w: World, t: nat, at: Point)
    requires Sessions(w) && t in w.tasks && (w.tasks[t].at.Announcing? ==> at.Announcing?)
    ensures Sessions(Move(w, t, at))
  {
  }

  lemma SessionsFinish(w: World, t: nat)
    requires Sessions(w)
    ensures Sessions(Finish(w, t))
  {
  }

  lemma SessionsAdd(w: World, job: Job)
    requires Sessions(w)
    ensures Sessions(AddTask(w, job))
  {
  }

  /** A stop takes the session: it was not taken before, and will not be again. */
  lemma SessionsTake(w: World, c: Coord)
    requires Sessions(w) && c.session.None? && !c.ready
    ensures Sessions(w.(c := c, taken := w.taken + Taking(w.c)))
  {
  }

  lemma SessionsDrop(w: World, c: Coord)
    requires Sessions(w) && c.session.None? && !c.ready
    ensures Sessions(w.(c := c))
  {
  }

  lemma SessionsPublish(w: World, t: nat)
    requires Sessions(w) && t in w.tasks && t < w.born && !w.tasks[t].at.Announcing?
    ensures Sessions(Move(w.(c := Publish(w.c, t), published := w.published + [t]), t, Announcing))
  {
  }

  lemma SessionKept(c: Coord, key: Key, addresses: seq<string>, now: real, entrance: string)
    ensures var d := RingFromListener(c, key, now); d.session == c.session && d.ready == c.ready
    ensures var d := RingFromSession(c, key, now); d.session == c.session && d.ready == c.ready
    ensures var d := CallIdle(c, addresses, now); d.session == c.session && d.ready == c.ready
    ensures var d := InboundFailed(c, entrance); d.session == c.session && d.ready == c.ready
    ensures var d := RecordRing(c, entrance); d.session == c.session && d.ready == c.ready
    ensures var d := AnswerSent(c); d.session == c.session && d.ready == c.ready
  {
  }

  lemma SessionGone(w: World, t: nat)
    requires Sessions(w)
    ensures EnterStart(w.c, t).session.None? && !EnterStart(w.c, t).ready
    ensures TakeSession(w.c).session.None? && !TakeSession(w.c).ready
    ensures DropSession(w.c).session.None? && !DropSession(w.c).ready
  {
  }

  lemma SessionsEnter(w: World, t: nat)
    requires Sessions(w) && t in w.tasks && !w.tasks[t].at.Announcing?
    ensures Sessions(Enter(w, t))
  {
    SessionGone(w, t);
    hide Sessions, Move, EnterStart;
    SessionsTake(w, EnterStart(w.c, t));
    SessionsMove(w.(c := EnterStart(w.c, t), taken := w.taken + Taking(w.c)), t, Stopping);
  }

  lemma SessionsInbound(w: World, t: nat, outcome: Outcome)
    requires Locked(w) && Sessions(w) && t in w.tasks && w.tasks[t].job.Inbound?
    ensures Sessions(ResumeInbound(w, t, outcome))
  {
    assert t < w.born;
    var entrance := w.tasks[t].job.entrance;
    SessionsFinish(w, t);
    SessionKept(w.c, Key("", 0), [], 0.0, entrance);
    hide Sessions, Locked, Move, Finish, Enter, InboundFailed, RecordRing, Publish;
    match w.tasks[t].at
    case Entry => SessionsEnter(w, t);
    case Stopping => SessionsMove(w, t, Silencing);
    case Silencing => SessionsMove(w, t, Negotiating);
    case Negotiating => {
      SessionsPublish(w, t);
      SessionsFields(w, InboundFailed(w.c, entrance), w.accepted);
      SessionsMove(w.(c := InboundFailed(w.c, entrance)), t, Recovering);
    }
    case Announcing => {
      SessionsFields(w, RecordRing(w.c, entrance), w.accepted);
      SessionsFinish(w.(c := RecordRing(w.c, entrance)), t);
    }
    case _ =>
  }

  lemma SessionsOutbound(w: World, t: nat, outcome: Outcome)
    requires Locked(w) && Sessions(w) && t in w.tasks && w.tasks[t].job.Outbound?
    ensures Sessions(ResumeOutbound(w, t, outcome))
  {
    assert t < w.born;
    SessionsFinish(w, t);
    SessionGone(w, t);
    hide Sessions, Locked, Move, Finish, Enter, EnterStart, DropSession, Publish;
    match w.tasks[t].at
    case Entry => {
      SessionsEnter(w, t);
      SessionsFields(w, w.c.(holder := Some(t)), w.accepted);
      SessionsMove(w.(c := w.c.(holder := Some(t))), t, Dropping);
      SessionsMove(w.(c := w.c.(holder := Some(t))), t, Reconnecting);
    }
    case Dropping => {
      SessionsDrop(w, DropSession(w.c));
      SessionsMove(w.(c := DropSession(w.c)), t, Reconnecting);
    }
    case Reconnecting => SessionsEnter(w, t);
    case Stopping => SessionsMove(w, t, Silencing);
    case Silencing => SessionsMove(w, t, Negotiating);
    case Negotiating => {
      SessionsPublish(w, t);
      SessionsMove(w, t, Recovering);
    }
    case _ =>
  }

  lemma SessionsOther(w: World, t: nat, outcome: Outcome)
    requires Sessions(w) && t in w.tasks && !w.tasks[t].at.Announcing?
    requires !w.tasks[t].job.Inbound? && !w.tasks[t].job.Outbound?
    ensures Sessions(ResumeOther(w, t, outcome))
  {
    SessionsFinish(w, t);
    SessionGone(w, t);
    SessionKept(w.c, Key("", 0), [], 0.0, "");
    hide Sessions, Move, Finish, TakeSession, DropSession, AnswerSent;
    match w.tasks[t].job
    case Stop => {
      SessionsTake(w, TakeSession(w.c));
      SessionsMove(w.(c := TakeSession(w.c), taken := w.taken + Taking(w.c)), t, Stopping);
    }
    case Reconnect => {
      SessionsMove(w, t, Dropping);
      SessionsMove(w, t, Reconnecting);
      SessionsDrop(w, DropSession(w.c));
      SessionsMove(w.(c := DropSession(w.c)), t, Reconnecting);
    }
    case Answer => {
      SessionsMove(w, t, Answering);
      SessionsFields(w, AnswerSent(w.c), w.accepted);
      SessionsFinish(w.(c := AnswerSent(w.c)), t);
    }
    case _ =>
  }

  lemma SessionsStep(w: World, e: Event)
    requires Locked(w) && Sessions(w) && Formed(w)
    ensures Sessions(Step(w, e))
  {
    hide Locked, Sessions, Formed, ResumeInbound, ResumeOutbound, ResumeOther, Finish, AddTask, RingFromListener,
         RingFromSession, CallIdle, Seen;
    match e
    case ListenerRing(key, now) => {
      SessionKept(w.c, key, [], now, "");
      SessionsFields(w, RingFromListener(w.c, key, now), w.accepted + 1);
      SessionsAdd(w.(c := RingFromListener(w.c, key, now), accepted := w.accepted + 1), Inbound(key.entrance));
    }
    case SessionRing(key, now) => {
      SessionKept(w.c, key, [], now, "");
      SessionsFields(w, RingFromSession(w.c, key, now), w.accepted + 1);
    }
    case Idle(addresses, now) => {
      SessionKept(w.c, Key("", 0), addresses, now, "");
      SessionsFields(w, CallIdle(w.c, addresses, now), w.accepted);
    }
    case Spawn(job) => SessionsAdd(w, job);
    case UserStops => SessionsFields(w, w.c.(stoppedByUser := true), w.accepted);
    case Resume(t, outcome) => {
      if t in w.tasks {
        NotAnnouncing(w, t);
        if w.tasks[t].job.Inbound? { SessionsInbound(w, t, outcome); }
        else if w.tasks[t].job.Outbound? { SessionsOutbound(w, t, outcome); }
        else { SessionsOther(w, t, outcome); }
      }
    }
    case Cancel(t) => SessionsFinish(w, t);
  }

  lemma NotAnnouncing(w: World, t: nat)
    requires Formed(w) && t in w.tasks
    ensures w.tasks[t].at.Announcing? ==> w.tasks[t].job.Inbound? || w.tasks[t].job.Outbound?
  {
  }

  /** A start that finds the lock held ends there: it neither waits nor changes a field. */
  lemma StartNeverWaits(w: World, t: nat, outcome: Outcome)
    requires Locked(w) && t in w.tasks && (w.tasks[t].job.Inbound? || w.tasks[t].job.Outbound?) && w.tasks[t].at.Entry?
    requires w.c.holder.Some?
    ensures Step(w, Resume(t, outcome)) == w.(tasks := w.tasks - {t})
  {
  }

  /** Over every interleaving, at every await. */
  lemma {:induction false} SingleFlight(w: World, events: seq<Event>)
    requires Locked(w) && Sessions(w) && Formed(w)
    ensures var v := Run(w, events);
            && (forall t, u :: t in v.tasks && u in v.tasks && Critical(v.tasks[t]) && Critical(v.tasks[u]) ==> t == u)
            && (v.c.ready <==> v.c.session.Some?)
            && (v.c.session.Some? ==> v.c.session.value in v.published)
            && Distinct(v.taken) && Locked(v) && Sessions(v) && Formed(v)
    decreases events
  {
    if events == [] {
    } else {
      hide Step, Locked, Sessions, Formed, Critical, Distinct;
      StepKeepsFormed(w, events[0]);
      LockedStep(w, events[0]);
      SessionsStep(w, events[0]);
      SingleFlight(Step(w, events[0]), events[1..]);
    }
  }

  /** In particular from the coordinator as constructed: no two starts are ever under way together, and
      no session is stopped twice. */
  lemma SingleFlightFromStart(events: seq<Event>, t: nat, u: nat)
    requires t in Run(START, events).tasks && u in Run(START, events).tasks
    requires Critical(Run(START, events).tasks[t]) && Critical(Run(START, events).tasks[u])
    ensures t == u && Distinct(Run(START, events).taken)
  {
    SingleFlight(START, events);
  }

  // ----- The class's segments are the steps ---------------------------------------------------

  /** What the events do to the fields is what the handlers of the class do. */
  lemma HandlersAreSteps(w: World, key: Key, addresses: seq<string>, now: real)
    ensures Step(w, ListenerRing(key, now)).c == RingFromListener(w.c, key, now)
    ensures Step(w, ListenerRing(key, now)).born == w.born + Bit(!Seen(w.c.recent, key, now))
    ensures Step(w, SessionRing(key, now)).c == RingFromSession(w.c, key, now)
    ensures Step(w, Idle(addresses, now)).c == CallIdle(w.c, addresses, now)
  {
    hide Seen, Accept;
  }

  /** What the segments of a task do to the fields is what the methods of the class do, given that the
      lock is held by the start that believes to hold it. */
  lemma InboundSegmentsAreSteps(w: World, t: nat, entrance: string, outcome: Outcome)
    requires Locked(w) && t in w.tasks && w.tasks[t].job == Inbound(entrance)
    ensures var c, c' := w.c, Step(w, Resume(t, outcome)).c;
            match w.tasks[t].at
            case Entry => c' == if c.holder.Some? || outcome.Fail? then c else EnterStart(c, t)
            case Negotiating => c' == if outcome.Fail? then InboundFailed(c, entrance) else Publish(c, t)
            case Announcing => c' == RecordRing(c, entrance).(holder := None)
            case Stopping => c' == c
            case Silencing => c' == c
            case _ => c' == c.(holder := None)
  {
    assert Critical(w.tasks[t]) <==> w.c.holder == Some(t);
    hide EnterStart;
  }

  lemma OutboundSegmentsAreSteps(w: World, t: nat, byUser: bool, outcome: Outcome)
    requires Locked(w) && t in w.tasks && w.tasks[t].job == Outbound(byUser)
    ensures var c, c' := w.c, Step(w, Resume(t, outcome)).c;
            match w.tasks[t].at
            case Entry =>
              c' == if c.holder.Some? || outcome.Fail? || (c.stoppedByUser && !byUser) then c
                    else if outcome.Detour? then c.(holder := Some(t)) else EnterStart(c, t)
            case Dropping => c' == DropSession(c)
            case Reconnecting => c' == if outcome.Fail? then c.(holder := None) else EnterStart(c, t)
            case Negotiating => c' == if outcome.Fail? then c else Publish(c, t)
            case Stopping => c' == c
            case Silencing => c' == c
            case _ => c' == c.(holder := None)
  {
    assert Critical(w.tasks[t]) <==> w.c.holder == Some(t);
    hide EnterStart;
  }

  lemma OtherSegmentsAreSteps(w: World, t: nat, outcome: Outcome)
    requires Locked(w) && t in w.tasks && !w.tasks[t].job.Inbound? && !w.tasks[t].job.Outbound?
    ensures var c, c' := w.c, Step(w, Resume(t, outcome)).c;
            match w.tasks[t]
            case Task(Stop, Entry) => c' == TakeSession(c)
            case Task(Reconnect, Dropping) => c' == DropSession(c)
            case Task(Answer, Answering) => c' == if outcome.Fail? then c else AnswerSent(c)
            case _ => c' == c
  {
    assert Critical(w.tasks[t]) <==> w.c.holder == Some(t);
    hide TakeSession, DropSession, AnswerSent;
    if w.tasks[t] == Task(Stop, Entry) && w.c.session.None? {
      NothingToTake(w.c);
    }
  }

  lemma NothingToTake(c: Coord)
    requires c.session.None?
    ensures TakeSession(c) == c
  {
  }
}
