/** When an idle frame fires a missed call, told from the events of a run: which rings came and were accepted,
    what became of their starts, and which answers completed. */
module IdleFrames {
  import opened Bytes
  import opened RingDedup
  import opened Coordinator
  import opened CoordinatorRuns

  /** The coordinator after the first `i` events of a run from the start. */
  function After(events: seq<Event>, i: nat): World
    requires i <= |events|
  {
    Run(START, events[..i])
  }

  /** Event `i` is a ring that is accepted. */
  predicate AcceptedAt(events: seq<Event>, i: nat)
    requires i < |events|
  {
    (events[i].ListenerRing? || events[i].SessionRing?) && After(events, i + 1).accepted > After(events, i).accepted
  }

  /** Event `i` is an idle frame that fires something. */
  predicate FiresAt(events: seq<Event>, i: nat)
    requires i < |events|
  {
    events[i].Idle? && After(events, i + 1).c.pushed != After(events, i).c.pushed
  }

  /** Event `i` is the failure of an inbound start that was negotiating. */
  predicate FailsAt(events: seq<Event>, i: nat)
    requires i < |events|
  {
    var e, tasks := events[i], After(events, i).tasks;
    e.Resume? && e.outcome.Fail? && e.task in tasks && tasks[e.task].job.Inbound? && tasks[e.task].at.Negotiating?
  }

  /** Event `i` completes an answer. */
  predicate AnswersAt(events: seq<Event>, i: nat)
    requires i < |events|
  {
    var e, tasks := events[i], After(events, i).tasks;
    e.Resume? && !e.outcome.Fail? && e.task in tasks && tasks[e.task] == Task(Answer, Answering)
  }

  function TimeAt(events: seq<Event>, i: nat): real
    requires i < |events| && (events[i].ListenerRing? || events[i].SessionRing?)
  {
    events[i].now
  }

  // ----- What one event does to ring time and answer ------------------------------------------

  predicate StartFailsNow(w: World, e: Event)
  {
    e.Resume? && e.outcome.Fail? && e.task in w.tasks && w.tasks[e.task].job.Inbound? && w.tasks[e.task].at.Negotiating?
  }

  predicate AnswersNow(w: World, e: Event)
  {
    e.Resume? && !e.outcome.Fail? && e.task in w.tasks && w.tasks[e.task] == Task(Answer, Answering)
  }

  lemma CoordFields(c: Coord, t: nat, entrance: string)
    ensures TakeSession(c).lastRing == c.lastRing && TakeSession(c).answered == c.answered
    ensures EnterStart(c, t).lastRing == c.lastRing && EnterStart(c, t).answered == c.answered
    ensures InboundFailed(c, entrance).lastRing.None? && InboundFailed(c, entrance).answered == c.answered
    ensures RecordRing(c, entrance).lastRing == c.lastRing && RecordRing(c, entrance).answered == c.answered
    ensures AnswerSent(c).lastRing == c.lastRing && AnswerSent(c).answered
  {
  }

  lemma ResumeFields(w: World, e: Event)
    requires Locked(w) && e.Resume?
    ensures Step(w, e).c.lastRing == if StartFailsNow(w, e) then None else w.c.lastRing
    ensures Step(w, e).c.answered == (w.c.answered || AnswersNow(w, e))
  {
    var t := e.task;
    if t in w.tasks {
      match w.tasks[t].job {
        case Inbound(entrance) =>
          CoordFields(w.c, t, entrance);
          InboundSegmentsAreSteps(w, t, entrance, e.outcome);
          hide Step, EnterStart, InboundFailed, RecordRing;
        case Outbound(byUser) =>
          CoordFields(w.c, t, "");
          OutboundSegmentsAreSteps(w, t, byUser, e.outcome);
          hide Step, EnterStart;
        case _ =>
          CoordFields(w.c, t, "");
          OtherSegmentsAreSteps(w, t, e.outcome);
          hide Step, TakeSession, AnswerSent;
      }
    }
  }

  lemma StepFields(w: World, e: Event)
    requires Locked(w)
    ensures var accepted := Step(w, e).accepted > w.accepted;
            var fired := e.Idle? && Step(w, e).c.pushed != w.c.pushed;
            && (accepted ==>
                  && (e.ListenerRing? || e.SessionRing?)
                  && Step(w, e).c.lastRing == Some(e.now) && !Step(w, e).c.answered)
            && (!accepted ==> Step(w, e).c.lastRing == if fired || StartFailsNow(w, e) then None else w.c.lastRing)
            && (!accepted ==> Step(w, e).c.answered == (w.c.answered || AnswersNow(w, e)))
  {
    if e.Resume? {
      ResumeFields(w, e);
      if e.task in w.tasks {
        ResumeAcceptsNothing(w, e.task, e.outcome);
      }
      hide Step, ResumeTask;
      ResumeTaskStep(w, e);
    } else {
      hide Accept, Seen;
    }
  }

  lemma ResumeTaskStep(w: World, e: Event)
    requires e.Resume?
    ensures Step(w, e) == if e.task in w.tasks then ResumeTask(w, e.task, e.outcome) else w
  {
    hide ResumeTask;
  }

  // ----- Whole runs -----------------------------------------------------------------------------

  lemma AfterNext(events: seq<Event>, i: nat)
    requires i < |events|
    ensures After(events, i + 1) == Step(After(events, i), events[i])
  {
    hide Step;
    assert events[..i + 1] == events[..i] + [events[i]];
    RunAppend(START, events[..i], [events[i]]);
    assert [events[i]][1..] == [];
  }

  lemma AfterLocked(events: seq<Event>, i: nat)
    requires i <= |events|
    ensures Locked(After(events, i))
  {
    hide Run, Locked, Sessions, Formed;
    StartLocked();
    SingleFlight(START, events[..i]);
  }

  lemma StartLocked()
    ensures Locked(START) && Sessions(START) && Formed(START)
  {
  }

  /** The ring of event `j` is the last one accepted before event `i`, and since then its time was neither
      used by an idle frame nor cleared by a failed inbound start. */
  predicate Stands(events: seq<Event>, j: nat, i: nat)
    requires i <= |events|
  {
    && j < i && AcceptedAt(events, j)
    && forall k :: j < k < i ==> !AcceptedAt(events, k) && !FiresAt(events, k) && !FailsAt(events, k)
  }

  predicate AnsweredBetween(events: seq<Event>, j: nat, i: nat)
    requires i <= |events|
  {
    exists k :: j < k < i && AnswersAt(events, k)
  }

  lemma FieldsAt(events: seq<Event>, i: nat)
    requires i < |events|
    ensures var c, c' := After(events, i).c, After(events, i + 1).c;
            && (AcceptedAt(events, i) ==> c'.lastRing == Some(TimeAt(events, i)) && !c'.answered)
            && (!AcceptedAt(events, i) ==>
                  && c'.lastRing == (if FiresAt(events, i) || FailsAt(events, i) then None else c.lastRing)
                  && c'.answered == (c.answered || AnswersAt(events, i)))
  {
    hide After, Step, Locked;
    AfterNext(events, i);
    AfterLocked(events, i);
    StepFields(After(events, i), events[i]);
  }

  lemma StandsNext(events: seq<Event>, j: nat, i: nat)
    requires i < |events|
    ensures Stands(events, j, i + 1)
            <==> if j == i then AcceptedAt(events, i)
                 else Stands(events, j, i) && !AcceptedAt(events, i) && !FiresAt(events, i) && !FailsAt(events, i)
    ensures AnsweredBetween(events, j, i + 1) <==> AnsweredBetween(events, j, i) || (j < i && AnswersAt(events, i))
  {
    hide AcceptedAt, FiresAt, FailsAt, AnswersAt;
  }

  /** What the fields hold about the ring that stands. */
  predicate Reads(events: seq<Event>, j: nat, i: nat)
    requires i <= |events| && Stands(events, j, i)
  {
    && After(events, i).c.lastRing == Some(TimeAt(events, j))
    && After(events, i).c.answered == AnsweredBetween(events, j, i)
  }

  /** Ring time and answer, read off the events. */
  lemma {:induction false} FieldsFromEvents(events: seq<Event>, i: nat)
    requires i <= |events|
    ensures forall j :: 0 <= j < i && Stands(events, j, i) ==> Reads(events, j, i)
    ensures After(events, i).c.lastRing.Some? ==> exists j :: 0 <= j < i && Stands(events, j, i)
    decreases i
  {
    if i == 0 {
      StartFields(events);
    } else {
      var n := i - 1;
      FieldsFromEvents(events, n);
      FieldsAt(events, n);
      hide After, AcceptedAt, FiresAt, FailsAt, AnswersAt;
      forall j | 0 <= j < i && Stands(events, j, i)
        ensures Reads(events, j, i)
      {
        StandsNext(events, j, n);
        NothingBetween(events, j);
      }
      if After(events, i).c.lastRing.Some? {
        if AcceptedAt(events, n) {
          StandsNext(events, n, n);
          assert Stands(events, n, i);
        } else {
          var j :| 0 <= j < n && Stands(events, j, n);
          StandsNext(events, j, n);
          assert Stands(events, j, i);
        }
      }
    }
  }

  lemma NothingBetween(events: seq<Event>, j: nat)
    requires j < |events|
    ensures !AnsweredBetween(events, j, j + 1)
  {
  }

  lemma StartFields(events: seq<Event>)
    ensures After(events, 0).c.lastRing.None?
  {
    assert events[..0] == [];
  }

  /** The ring of event `j` is missed by an idle frame that is event `i`: it stands, came at most 45 seconds
      before, no session is published, and no answer completed since. */
  predicate MissedBy(events: seq<Event>, j: nat, i: nat)
    requires i < |events| && events[i].Idle?
  {
    && j < i && Stands(events, j, i) && events[i].now - TimeAt(events, j) <= 45.0
    && After(events, i).c.session.None? && !AnsweredBetween(events, j, i)
  }

  /** For every run from a fresh coordinator: an idle frame fires exactly when it misses a ring, and then
      one missed call with the frame's first address; otherwise it fires nothing. */
  lemma IdleFiresExactly(events: seq<Event>, i: nat)
    requires i < |events| && events[i].Idle?
    ensures var addresses := events[i].addresses;
            After(events, i + 1).c.pushed
            == After(events, i).c.pushed
               + if exists j :: 0 <= j < i && MissedBy(events, j, i)
                 then [MissedCall(if addresses == [] then "" else addresses[0])] else []
  {
    var c, e := After(events, i).c, events[i];
    AfterNext(events, i);
    FieldsFromEvents(events, i);
    hide After, Stands, AnsweredBetween, TimeAt;
    assert c.pushed + [] == c.pushed;
    if IdleFires(c, e.now) {
      var j :| 0 <= j < i && Stands(events, j, i);
      assert Reads(events, j, i);
      assert MissedBy(events, j, i);
    }
    if j :| 0 <= j < i && MissedBy(events, j, i) {
      assert Reads(events, j, i);
    }
  }

  // ----- Which rings are accepted -----------------------------------------------------------------

  predicate IsRing(e: Event) { e.ListenerRing? || e.SessionRing? }

  /** The rings of a run never go back in time. */
  predicate Clocked(events: seq<Event>)
  {
    forall i, j :: 0 <= i < j < |events| && IsRing(events[i]) && IsRing(events[j]) ==> events[i].now <= events[j].now
  }

  /** An accepted ring of the same entrance and ring timestamp came less than 120 seconds before. */
  predicate HeardAt(events: seq<Event>, i: nat)
    requires i < |events| && IsRing(events[i])
  {
    exists j ::
      0 <= j < i && AcceptedAt(events, j) && events[j].key == events[i].key && events[i].now - events[j].now < 120.0
  }

  function AsRing(e: Event): Ring
    requires IsRing(e)
  {
    Ring(if e.ListenerRing? then Listener else Session, e.key, e.now)
  }

  function AcceptedRings(events: seq<Event>, i: nat): seq<Ring>
    requires i <= |events|
    decreases i
  {
    if i == 0 then []
    else AcceptedRings(events, i - 1) + if AcceptedAt(events, i - 1) then [AsRing(events[i - 1])] else []
  }

  lemma RingStep(w: World, e: Event)
    requires IsRing(e)
    ensures Step(w, e).c.recent == AfterRing(w.c.recent, AsRing(e))
    ensures Step(w, e).accepted > w.accepted <==> !Seen(w.c.recent, e.key, e.now)
  {
    hide Seen, Accept;
  }

  lemma OtherStep(w: World, e: Event)
    requires !IsRing(e)
    ensures Step(w, e).c.recent == w.c.recent
  {
    if e.Resume? && e.task in w.tasks {
      hide ResumeInbound, ResumeOutbound, ResumeOther;
      InboundRecent(w, e.task, e.outcome);
      OutboundRecent(w, e.task, e.outcome);
      OtherRecent(w, e.task, e.outcome);
    }
  }

  lemma InboundRecent(w: World, t: nat, outcome: Outcome)
    requires t in w.tasks
    ensures w.tasks[t].job.Inbound? ==> ResumeInbound(w, t, outcome).c.recent == w.c.recent
  {
    hide Taking, Unanswered;
  }

  lemma OutboundRecent(w: World, t: nat, outcome: Outcome)
    requires t in w.tasks
    ensures w.tasks[t].job.Outbound? ==> ResumeOutbound(w, t, outcome).c.recent == w.c.recent
  {
    hide Taking, Unanswered;
  }

  lemma OtherRecent(w: World, t: nat, outcome: Outcome)
    requires t in w.tasks
    ensures !w.tasks[t].job.Inbound? && !w.tasks[t].job.Outbound? ==> ResumeOther(w, t, outcome).c.recent == w.c.recent
  {
    hide Taking, Unanswered;
  }

  lemma TracksLater(recent: map<Key, real>, accepted: seq<Ring>, clock: real, later: real)
    requires Tracks(recent, accepted, clock) && clock <= later
    ensures Tracks(recent, accepted, later)
  {
  }

  /** At any time not before the rings so far, the coordinator's map tracks the rings accepted. */
  lemma {:induction false} TracksAt(events: seq<Event>, i: nat, now: real)
    requires i <= |events| && Clocked(events) && forall j :: 0 <= j < i && IsRing(events[j]) ==> events[j].now <= now
    ensures Tracks(After(events, i).c.recent, AcceptedRings(events, i), now)
    decreases i
  {
    hide Tracks, Step;
    if i == 0 {
      TracksStart(events, now);
    } else {
      var e, before := events[i - 1], After(events, i - 1);
      AfterNext(events, i - 1);
      assert After(events, i) == Step(before, e);
      hide After;
      var accepted := AcceptedRings(events, i - 1);
      assert accepted + [] == accepted;
      if IsRing(e) {
        TracksAt(events, i - 1, e.now);
        RingStep(before, e);
        SameVerdict(before.c.recent, AcceptedRings(events, i - 1), e.now, e.key, e.now);
        TracksRing(before.c.recent, AcceptedRings(events, i - 1), e.now, AsRing(e));
        assert AcceptedAt(events, i - 1) <==> !Seen(before.c.recent, e.key, e.now);
        assert AcceptedRings(events, i) == AfterHeard(accepted, AsRing(e));
        TracksLater(After(events, i).c.recent, AcceptedRings(events, i), e.now, now);
      } else {
        TracksAt(events, i - 1, now);
        OtherStep(before, e);
      }
    }
  }

  lemma TracksStart(events: seq<Event>, now: real)
    ensures Tracks(After(events, 0).c.recent, [], now)
  {
    assert events[..0] == [];
  }

  lemma {:induction false} AcceptedMembers(events: seq<Event>, i: nat, r: Ring)
    requires i <= |events|
    ensures r in AcceptedRings(events, i) <==> exists j :: 0 <= j < i && AcceptedAt(events, j) && AsRing(events[j]) == r
    decreases i
  {
    hide After;
    if i > 0 {
      AcceptedMembers(events, i - 1, r);
    }
  }

  /** For every run from a fresh coordinator whose rings do not go back in time: a ring, from either source,
      is accepted exactly when no accepted ring of its entrance and ring timestamp came less than 120
      seconds before. */
  lemma RingsAcceptedExactly(events: seq<Event>, i: nat)
    requires i < |events| && IsRing(events[i]) && Clocked(events)
    ensures AcceptedAt(events, i) <==> !HeardAt(events, i)
  {
    var e, accepted := events[i], AcceptedRings(events, i);
    TracksAt(events, i, e.now);
    AfterNext(events, i);
    RingStep(After(events, i), e);
    SameVerdict(After(events, i).c.recent, accepted, e.now, e.key, e.now);
    hide After, Tracks, AcceptedRings, Step, Seen;
    if HeardAt(events, i) {
      var j :| 0 <= j < i && AcceptedAt(events, j) && events[j].key == e.key && e.now - events[j].now < 120.0;
      AcceptedMembers(events, i, AsRing(events[j]));
    }
    if HeardBefore(accepted, e.key, e.now) {
      var k :| 0 <= k < |accepted| && accepted[k].key == e.key && e.now - accepted[k].now < 120.0;
      AcceptedMembers(events, i, accepted[k]);
    }
  }
}
