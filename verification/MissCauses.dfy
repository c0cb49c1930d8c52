/** Why each missed call fires, told from the events of a run alone: which rings were accepted and announced,
    which sessions were taken, which starts failed and which answers completed. */
module MissCauses {
  import opened Bytes
  import opened RingDedup
  import opened Coordinator
  import opened CoordinatorRuns
  import opened MissedCalls
  import opened IdleFrames
  import opened RingPushes

  // ----- The events -----------------------------------------------------------------------------

  /** Event `j` is the ring with this number, counting accepted rings from 0. */
  predicate RingAt(events: seq<Event>, j: nat, ring: nat)
    requires j < |events|
  {
    AcceptedAt(events, j) && After(events, j).accepted == ring
  }

  /** Task `t` is the start that the ring scheduled. */
  predicate StartedFor(events: seq<Event>, t: nat, ring: nat, i: nat)
    requires i <= |events|
  {
    exists j :: 0 <= j < i && RingAt(events, j, ring) && events[j].ListenerRing? && After(events, j).born == t
  }

  /** Event `k` announces the ring: it came during a session, or its own start ends well. */
  predicate AnnouncedAt(events: seq<Event>, k: nat, ring: nat)
    requires k < |events|
  {
    var e, tasks := events[k], After(events, k).tasks;
    || (e.SessionRing? && RingAt(events, k, ring))
    || (e.Resume? && e.task in tasks && tasks[e.task].job.Inbound? && tasks[e.task].at.Announcing?
        && StartedFor(events, e.task, ring, k))
  }

  /** Event `k` takes the published session to stop it. */
  predicate TakenAt(events: seq<Event>, k: nat)
    requires k < |events|
  {
    After(events, k + 1).taken != After(events, k).taken
  }

  /** The ring announced by event `j` waits: nothing else was announced since, no session taken, no answer sent. */
  ghost predicate Waits(events: seq<Event>, j: nat, ring: nat, i: nat)
    requires i <= |events|
  {
    && j < i && AnnouncedAt(events, j, ring)
    && forall k :: j < k < i ==> Undisturbed(events, k)
  }

  ghost predicate Undisturbed(events: seq<Event>, k: nat)
    requires k < |events|
  {
    !TakenAt(events, k) && !AnswersAt(events, k) && forall r: nat :: !AnnouncedAt(events, k, r)
  }

  /** An answer completed, and no ring was accepted since. */
  predicate AnsweredLast(events: seq<Event>, i: nat)
    requires i <= |events|
  {
    exists k :: 0 <= k < i && AnswersAt(events, k) && forall m :: k < m < i ==> !AcceptedAt(events, m)
  }

  /** Event `i` ends the ring unheard: it takes a session while the ring waits, with no answer since the last
      ring, or it is the failure of the ring's own start. */
  ghost predicate UnheardAt(events: seq<Event>, i: nat, ring: nat)
    requires i < |events|
  {
    || (TakenAt(events, i) && !AnsweredLast(events, i) && exists j :: 0 <= j < i && Waits(events, j, ring, i))
    || (FailsAt(events, i) && StartedFor(events, events[i].task, ring, i))
  }

  /** Event `i` is an idle frame that comes at most 45 seconds after the ring, which nothing cleared or
      followed since, with no session published and no answer. */
  predicate IdleMisses(events: seq<Event>, i: nat, ring: nat)
    requires i < |events|
  {
    events[i].Idle? && exists j :: 0 <= j < i && RingAt(events, j, ring) && MissedBy(events, j, i)
  }

  // ----- The traced run agrees --------------------------------------------------------------------

  lemma {:induction false} SameWorlds(events: seq<Event>, i: nat)
    requires i <= |events|
    ensures Before(events, i).w == After(events, i)
    decreases i
  {
    if i == 0 {
      assert events[..0] == [];
    } else {
      SameWorlds(events, i - 1);
      BeforeNext(events, i - 1);
      AfterNext(events, i - 1);
    }
  }

  ghost predicate StartsMatch(events: seq<Event>, i: nat)
    requires i <= |events|
  {
    var tr := Before(events, i);
    && (forall t: nat, r: nat :: StartedFor(events, t, r, i) <==> t in tr.rings && tr.rings[t] == r)
    && (forall t: nat :: t in tr.rings ==> t < tr.w.born)
  }

  predicate LastMatches(events: seq<Event>, i: nat)
    requires i <= |events|
  {
    forall j: nat :: j < i && Stands(events, j, i) ==> Before(events, i).lastOwner == After(events, j).accepted
  }

  ghost predicate SomethingWaits(events: seq<Event>, i: nat)
    requires i <= |events|
  {
    exists j: nat, r: nat :: j < i && Waits(events, j, r, i)
  }

  ghost predicate PendingMatches(events: seq<Event>, i: nat)
    requires i <= |events|
  {
    && (forall j: nat, r: nat :: j < i && Waits(events, j, r, i) ==> Before(events, i).pendingOwner == r)
    && (Before(events, i).w.c.pending.Some? <==> SomethingWaits(events, i))
  }

  lemma BornGrows(w: World, e: Event)
    ensures e.ListenerRing? && Step(w, e).accepted > w.accepted ==> Step(w, e).born == w.born + 1
    ensures w.born <= Step(w, e).born
  {
    hide Seen, RingFromListener, RingFromSession, CallIdle, EnterStart, TakeSession;
  }

  lemma TraceOwners(tr: Traced, e: Event)
    ensures var accepted := Step(tr.w, e).accepted > tr.w.accepted;
            && Trace(tr, e).rings
               == (if e.ListenerRing? && accepted then tr.rings[tr.w.born := tr.w.accepted] else tr.rings)
            && Trace(tr, e).lastOwner
               == (if (e.ListenerRing? || e.SessionRing?) && accepted then tr.w.accepted else tr.lastOwner)
            && Trace(tr, e).pendingOwner
               == if e.SessionRing? && accepted then tr.w.accepted
                  else if e.Resume? && e.task in tr.w.tasks && Records(tr.w, e.task) && e.task in tr.rings then
                    tr.rings[e.task]
                  else tr.pendingOwner
  {
    hide Seen, RingFromListener, RingFromSession, ResumeTask;
  }

  lemma OwnersAt(events: seq<Event>, i: nat)
    requires i < |events|
    ensures var tr, e := Before(events, i), events[i];
            && Before(events, i + 1) == Trace(tr, e) && tr.w == After(events, i)
            && (AcceptedAt(events, i)
                <==> (e.ListenerRing? || e.SessionRing?) && Step(tr.w, e).accepted > tr.w.accepted)
            && Step(tr.w, e) == After(events, i + 1)
  {
    hide Before, After, Trace, Step;
    BeforeNext(events, i);
    SameWorlds(events, i);
    AfterNext(events, i);
  }

  lemma {:induction false} StartsAt(events: seq<Event>, i: nat)
    requires i <= |events|
    ensures StartsMatch(events, i)
    decreases i
  {
    if i == 0 {
      assert events[..0] == [];
    } else {
      StartsAt(events, i - 1);
      StartsNext(events, i - 1);
    }
  }

  lemma StartsNext(events: seq<Event>, i: nat)
    requires i < |events| && StartsMatch(events, i)
    ensures StartsMatch(events, i + 1)
  {
    var tr, e := Before(events, i), events[i];
    OwnersAt(events, i);
    TraceOwners(tr, e);
    BornGrows(tr.w, e);
    hide Before, After, Trace, Step, AcceptedAt;
    var next := i + 1;
    var rings := Before(events, next).rings;
    forall t: nat, r: nat
      ensures StartedFor(events, t, r, next) <==> t in rings && rings[t] == r
    {
      StartedNext(events, t, r, i);
      hide StartedFor;
    }
    hide StartedFor;
  }

  lemma StartedNext(events: seq<Event>, t: nat, ring: nat, i: nat)
    requires i < |events|
    ensures StartedFor(events, t, ring, i + 1)
            <==> StartedFor(events, t, ring, i)
                 || (RingAt(events, i, ring) && events[i].ListenerRing? && After(events, i).born == t)
  {
    hide RingAt, After;
  }

  lemma {:induction false} LastAt(events: seq<Event>, i: nat)
    requires i <= |events|
    ensures LastMatches(events, i)
    decreases i
  {
    if i > 0 {
      LastAt(events, i - 1);
      LastNext(events, i - 1);
    }
  }

  lemma LastNext(events: seq<Event>, i: nat)
    requires i < |events| && LastMatches(events, i)
    ensures LastMatches(events, i + 1)
  {
    OwnersAt(events, i);
    TraceOwners(Before(events, i), events[i]);
    hide Before, After, Trace, Step, AcceptedAt, Stands;
    var next := i + 1;
    forall j: nat | j < next && Stands(events, j, next)
      ensures Before(events, next).lastOwner == After(events, j).accepted
    {
      StandsNext(events, j, i);
    }
  }

  // ----- The pending ring -----------------------------------------------------------------------

  predicate AnnouncesNow(w: World, e: Event)
  {
    || (e.SessionRing? && Step(w, e).accepted > w.accepted)
    || (e.Resume? && e.task in w.tasks && Records(w, e.task))
  }

  predicate Takes(w: World, e: Event)
  {
    e.Resume? && e.task in w.tasks && Stops(w, e.task, e.outcome) && w.c.session.Some?
  }

  /** The pending ring after a segment of task `t`. */
  predicate PendingAfter(w: World, t: nat, outcome: Outcome, c': Coord)
    requires t in w.tasks
  {
    var e := Resume(t, outcome);
    c'.pending.Some? <==> Records(w, t) || (w.c.pending.Some? && !Takes(w, e) && !AnswersNow(w, e))
  }

  lemma InboundPending(w: World, t: nat, entrance: string, outcome: Outcome)
    requires Locked(w) && t in w.tasks && w.tasks[t].job == Inbound(entrance)
    ensures PendingAfter(w, t, outcome, Step(w, Resume(t, outcome)).c)
  {
    FieldsPushed(w.c, t);
    InboundSegmentsAreSteps(w, t, entrance, outcome);
    hide Step, EnterStart, Locked;
  }

  lemma OutboundPending(w: World, t: nat, byUser: bool, outcome: Outcome)
    requires Locked(w) && t in w.tasks && w.tasks[t].job == Outbound(byUser)
    ensures PendingAfter(w, t, outcome, Step(w, Resume(t, outcome)).c)
  {
    FieldsPushed(w.c, t);
    OutboundSegmentsAreSteps(w, t, byUser, outcome);
    hide Step, EnterStart, Locked;
  }

  lemma OtherPending(w: World, t: nat, outcome: Outcome)
    requires Locked(w) && t in w.tasks && !w.tasks[t].job.Inbound? && !w.tasks[t].job.Outbound?
    ensures PendingAfter(w, t, outcome, Step(w, Resume(t, outcome)).c)
  {
    FieldsPushed(w.c, t);
    OtherSegmentsAreSteps(w, t, outcome);
    hide Step, TakeSession, Locked;
  }

  lemma ResumePending(w: World, t: nat, outcome: Outcome)
    requires Locked(w) && t in w.tasks
    ensures PendingAfter(w, t, outcome, Step(w, Resume(t, outcome)).c)
  {
    hide Step, Locked, PendingAfter;
    match w.tasks[t].job
    case Inbound(entrance) => InboundPending(w, t, entrance, outcome);
    case Outbound(byUser) => OutboundPending(w, t, byUser, outcome);
    case _ => OtherPending(w, t, outcome);
  }

  lemma StepPending(w: World, e: Event)
    requires Locked(w)
    ensures Step(w, e).c.pending.Some?
            <==> AnnouncesNow(w, e) || (w.c.pending.Some? && !Takes(w, e) && !AnswersNow(w, e))
  {
    if e.Resume? && e.task in w.tasks {
      ResumePending(w, e.task, e.outcome);
    } else {
      hide Seen, Accept;
    }
  }

  lemma ResumeTaken(w: World, t: nat, outcome: Outcome)
    requires t in w.tasks
    ensures ResumeTask(w, t, outcome).taken == w.taken + if Takes(w, Resume(t, outcome)) then Taking(w.c) else []
  {
    hide EnterStart, TakeSession, InboundFailed, RecordRing, DropSession, AnswerSent, Publish;
    assert w.taken + [] == w.taken;
  }

  lemma StepTaken(w: World, e: Event)
    ensures Step(w, e).taken != w.taken <==> Takes(w, e)
  {
    hide Seen, RingFromListener, RingFromSession, CallIdle, ResumeTask, Stops;
    if e.Resume? && e.task in w.tasks {
      ResumeTaken(w, e.task, e.outcome);
      assert |w.taken + Taking(w.c)| == |w.taken| + |Taking(w.c)|;
    }
  }

  /** What event `i` is to the pending ring, by the events and by the fields. */
  lemma DisturbsAt(events: seq<Event>, i: nat)
    requires i < |events|
    ensures var tr, e := Before(events, i), events[i];
            && (TakenAt(events, i) <==> Takes(tr.w, e))
            && (AnswersAt(events, i) <==> AnswersNow(tr.w, e))
            && (AnnouncesNow(tr.w, e) <==> exists r: nat :: AnnouncedAt(events, i, r))
            && (forall r: nat :: AnnouncedAt(events, i, r) ==> Before(events, i + 1).pendingOwner == r)
            && Locked(tr.w)
  {
    var tr, e := Before(events, i), events[i];
    OwnersAt(events, i);
    StepTaken(tr.w, e);
    TraceOwners(tr, e);
    StartsAt(events, i);
    NamedAt(events, i);
    hide Before, After, Trace, Step, Takes, Locked, Formed, StartedFor;
    if e.SessionRing? && AnnouncesNow(tr.w, e) {
      assert AnnouncedAt(events, i, tr.w.accepted);
    }
    if e.Resume? && e.task in tr.w.tasks && Records(tr.w, e.task) {
      assert NamedStart(tr, Entrances(events, i), e.task);
      assert AnnouncedAt(events, i, tr.rings[e.task]);
    }
  }

  lemma WaitsNext(events: seq<Event>, j: nat, ring: nat, i: nat)
    requires i < |events|
    ensures Waits(events, j, ring, i + 1)
            <==> if j == i then AnnouncedAt(events, i, ring) else Waits(events, j, ring, i) && Undisturbed(events, i)
  {
    hide AnnouncedAt, Undisturbed;
  }

  lemma {:induction false} PendingAt(events: seq<Event>, i: nat)
    requires i <= |events|
    ensures PendingMatches(events, i)
    decreases i
  {
    if i == 0 {
      assert events[..0] == [];
    } else {
      var n := i - 1;
      var tr, e := Before(events, n), events[n];
      PendingAt(events, n);
      OwnersAt(events, n);
      TraceOwners(tr, e);
      DisturbsAt(events, n);
      StepPending(tr.w, e);
      hide Before, After, Trace, Step, Locked, AnnouncedAt, TakenAt, AnswersAt, Waits, Takes, AnnouncesNow, AnswersNow;
      forall j: nat, r: nat
        ensures j < i && Waits(events, j, r, i)
                <==> (j == n && AnnouncedAt(events, n, r))
                     || (j < n && Waits(events, j, r, n) && Undisturbed(events, n))
      {
        if j < i { WaitsNext(events, j, r, n); }
      }
      if AnnouncesNow(tr.w, e) {
        var r: nat :| AnnouncedAt(events, n, r);
        assert Waits(events, n, r, i);
      } else if SomethingWaits(events, n) && Undisturbed(events, n) {
        var j: nat, r: nat :| j < n && Waits(events, j, r, n);
        assert Waits(events, j, r, i);
      }
    }
  }

  lemma {:induction false} AnswerAt(events: seq<Event>, i: nat)
    requires i <= |events|
    ensures After(events, i).c.answered <==> AnsweredLast(events, i)
    decreases i
  {
    if i == 0 {
      assert events[..0] == [];
    } else {
      AnswerAt(events, i - 1);
      FieldsAt(events, i - 1);
      hide After, IdleFrames.FiresAt, FailsAt;
      assert AcceptedAt(events, i - 1) ==> !AnswersAt(events, i - 1);
      hide AcceptedAt, AnswersAt;
      AnsweredNext(events, i - 1);
    }
  }

  lemma AnsweredNext(events: seq<Event>, i: nat)
    requires i < |events|
    ensures AnsweredLast(events, i + 1) <==> AnswersAt(events, i) || (AnsweredLast(events, i) && !AcceptedAt(events, i))
  {
    hide AcceptedAt, AnswersAt;
    if AnswersAt(events, i) {
      assert i < i + 1;
    }
  }

  // ----- The causes -------------------------------------------------------------------------------

  lemma UnheardFromEvents(events: seq<Event>, i: nat, ring: nat)
    requires i < |events|
    ensures EndsUnheard(events, i, ring) <==> UnheardAt(events, i, ring)
  {
    var tr, e := Before(events, i), events[i];
    OwnersAt(events, i);
    StartsAt(events, i);
    PendingAt(events, i);
    AnswerAt(events, i);
    DisturbsAt(events, i);
    hide Before, After, Trace, Step, Locked, TakenAt, AnsweredLast, Waits, StartedFor, AnnouncedAt;
    assert FailsAt(events, i) ==> !Stops(tr.w, e.task, e.outcome);
    hide Stops;
    if TakenAt(events, i) && SomethingWaits(events, i) {
      var j: nat, r: nat :| j < i && Waits(events, j, r, i);
      assert r == tr.pendingOwner;
    }
  }

  lemma IdleFromEvents(events: seq<Event>, i: nat, ring: nat)
    requires i < |events|
    ensures IdleTakes(events, i, ring) <==> IdleMisses(events, i, ring)
  {
    OwnersAt(events, i);
    LastAt(events, i);
    FieldsFromEvents(events, i);
    hide Before, After, Trace, Step, Stands, AnsweredBetween, TimeAt;
    if IdleTakes(events, i, ring) {
      var j :| 0 <= j < i && Stands(events, j, i);
      assert Reads(events, j, i);
      assert MissedBy(events, j, i) && RingAt(events, j, ring) by {
        StandsAccepted(events, j, i);
      }
    }
    if IdleMisses(events, i, ring) {
      var j :| 0 <= j < i && RingAt(events, j, ring) && MissedBy(events, j, i);
      assert Reads(events, j, i);
    }
  }

  lemma StandsAccepted(events: seq<Event>, j: nat, i: nat)
    requires i <= |events| && Stands(events, j, i)
    ensures AcceptedAt(events, j)
  {
  }

  lemma AnnouncesFromEvents(events: seq<Event>, i: nat, ring: nat)
    requires i < |events|
    ensures Announces(events, i, ring) <==> AnnouncedAt(events, i, ring)
  {
    OwnersAt(events, i);
    StartsAt(events, i);
    hide Before, After, Trace, Step, StartedFor;
  }

  /** For every run from a fresh coordinator, event `i` pushes: for a ring it ends unheard, one missed call with
      that ring's entrance; for a ring it announces, one ring push with that ring's entrance; as an idle frame that
      misses a ring, one missed call with the frame's first address; and nothing otherwise. */
  lemma PushesFromEvents(events: seq<Event>, i: nat)
    requires i < |events|
    ensures var before, after := After(events, i).c.pushed, After(events, i + 1).c.pushed;
            var names := Entrances(events, i + 1);
            && (forall ring: nat :: UnheardAt(events, i, ring) ==>
                  ring < |names| && after == before + [MissedCall(names[ring])])
            && (forall ring: nat :: AnnouncedAt(events, i, ring) ==>
                  ring < |names| && after == before + [RingPush(names[ring])])
            && (forall ring: nat :: IdleMisses(events, i, ring) ==>
                  var addresses := events[i].addresses;
                  after == before + [MissedCall(if addresses == [] then "" else addresses[0])])
            && (after == before
                || exists ring: nat ::
                     UnheardAt(events, i, ring) || AnnouncedAt(events, i, ring) || IdleMisses(events, i, ring))
  {
    SameWorlds(events, i);
    SameWorlds(events, i + 1);
    forall ring: nat
      ensures Announces(events, i, ring) <==> AnnouncedAt(events, i, ring)
      ensures EndsUnheard(events, i, ring) <==> UnheardAt(events, i, ring)
      ensures events[i].Idle? ==> !UnheardAt(events, i, ring) && !AnnouncedAt(events, i, ring)
    {
      AnnouncesFromEvents(events, i, ring);
      UnheardFromEvents(events, i, ring);
    }
    if events[i].Idle? {
      IdleFiresExactly(events, i);
      hide Before, After, UnheardAt, AnnouncedAt, Announces, EndsUnheard, Stands, AnsweredBetween, TimeAt, AcceptedAt;
      if j: nat :| j < i && MissedBy(events, j, i) {
        MissedRing(events, j, i);
        assert IdleMisses(events, i, After(events, j).accepted);
      }
    } else {
      PushesExactly(events, i);
      hide Before, After, UnheardAt, AnnouncedAt, Announces, EndsUnheard, Entrances;
    }
  }

  lemma MissedRing(events: seq<Event>, j: nat, i: nat)
    requires i < |events| && events[i].Idle? && j < i && MissedBy(events, j, i)
    ensures RingAt(events, j, After(events, j).accepted)
  {
  }

  /** For every run from a fresh coordinator and every ring, told from the events: the ring's missed calls are one
      if an idle frame misses it, and one if it ends unheard; all missed calls pushed are some accepted ring's. */
  lemma MissesFromEvents(events: seq<Event>, ring: nat)
    ensures var byIdle := exists i :: 0 <= i < |events| && IdleMisses(events, i, ring);
            var byEnd := exists i :: 0 <= i < |events| && UnheardAt(events, i, ring);
            Count(Fired(ORIGIN, events), ring) == Bit(byIdle) + Bit(byEnd)
  {
    hide IdleTakes, EndsUnheard, IdleMisses, UnheardAt, Fired, Count;
    MissesOfEveryRing(events, ring);
    forall i | 0 <= i < |events|
      ensures IdleTakes(events, i, ring) <==> IdleMisses(events, i, ring)
      ensures EndsUnheard(events, i, ring) <==> UnheardAt(events, i, ring)
    {
      IdleFromEvents(events, i, ring);
      UnheardFromEvents(events, i, ring);
    }
  }

  /** And the ring ends unheard at one event at most, and is missed by one idle frame at most. */
  lemma MissedOnce(events: seq<Event>, i: nat, k: nat, ring: nat)
    requires i < k < |events|
    ensures !(UnheardAt(events, i, ring) && UnheardAt(events, k, ring))
    ensures !(IdleMisses(events, i, ring) && IdleMisses(events, k, ring))
  {
    hide UnheardAt, IdleMisses, EndsUnheard, IdleTakes, MissedCalls.FiresAt;
    UnheardFromEvents(events, i, ring);
    UnheardFromEvents(events, k, ring);
    IdleFromEvents(events, i, ring);
    IdleFromEvents(events, k, ring);
    CausesOf(events, i, ring);
    CausesOf(events, k, ring);
    FiresOnce(events, i, k, Miss(ring, true));
    FiresOnce(events, i, k, Miss(ring, false));
  }

  lemma FiresOnce(events: seq<Event>, i: nat, k: nat, m: Miss)
    requires i < k < |events|
    ensures !(MissedCalls.FiresAt(ORIGIN, events, i, m) && MissedCalls.FiresAt(ORIGIN, events, k, m))
  {
    hide Attributed, Missed, Trace, TraceRun, Fired;
    var early := events[..k];
    var fired := Fired(ORIGIN, early);
    NothingFired();
    assert [] + fired == fired;
    assert Attributed(ORIGIN, []) && Formed(ORIGIN.w);
    RunAttributes(ORIGIN, [], early);
    RunKeepsFormed(START, early);
    AttributedStep(TraceRun(ORIGIN, early), fired, events[k]);
    if MissedCalls.FiresAt(ORIGIN, events, i, m) && MissedCalls.FiresAt(ORIGIN, events, k, m) {
      assert early[..i] == events[..i];
      assert MissedCalls.FiresAt(ORIGIN, early, i, m);
      FiredWhen(ORIGIN, early, m);
      NotTwice(Trace(TraceRun(ORIGIN, early), events[k]), fired, m);
    }
  }

  lemma NotTwice(tr: Traced, fired: seq<Miss>, m: Miss)
    requires Attributed(tr, fired + [m])
    ensures m !in fired
  {
    var all := fired + [m];
    forall i | 0 <= i < |fired|
      ensures fired[i] != m
    {
      assert all[i] != all[|fired|];
    }
  }

  lemma {:induction false} RunKeepsFormed(w: World, events: seq<Event>)
    requires Formed(w)
    ensures Formed(Run(w, events))
    decreases events
  {
    hide Formed, Step;
    if events != [] {
      StepKeepsFormed(w, events[0]);
      RunKeepsFormed(Step(w, events[0]), events[1..]);
    }
  }
}
