/** Which entrance every ring and missed call that is pushed names. */
module RingPushes {
  import opened Bytes
  import opened RingDedup
  import opened Coordinator
  import opened CoordinatorRuns
  import opened MissedCalls

  function EntranceOf(w: World, e: Event): seq<string>
  {
    if (e.ListenerRing? || e.SessionRing?) && Step(w, e).accepted > w.accepted then [e.key.entrance] else []
  }

  /** The entrances of the rings that the first `i` events of a run brought and that were accepted, in order. */
  function Entrances(events: seq<Event>, i: nat): seq<string>
    requires i <= |events|
    decreases i
  {
    if i == 0 then [] else Entrances(events, i - 1) + EntranceOf(Before(events, i - 1).w, events[i - 1])
  }

  /** Event `i` announces the ring: it comes during a session, or its own start ends well. */
  predicate Announces(events: seq<Event>, i: nat, ring: nat)
    requires i < |events|
  {
    var tr, e := Before(events, i), events[i];
    || (e.SessionRing? && EntranceOf(tr.w, e) != [] && ring == tr.w.accepted)
    || (e.Resume? && e.task in tr.w.tasks && Records(tr.w, e.task) && e.task in tr.rings && tr.rings[e.task] == ring)
  }

  // ----- Pending ring and starts carry the entrances of their rings ---------------------------------

  predicate NamedStart(tr: Traced, names: seq<string>, t: nat)
    requires t in tr.w.tasks && tr.w.tasks[t].job.Inbound?
  {
    t in tr.rings && tr.rings[t] < |names| && names[tr.rings[t]] == tr.w.tasks[t].job.entrance
  }

  predicate NamedPending(tr: Traced, names: seq<string>)
  {
    tr.w.c.pending.Some? ==> tr.pendingOwner < |names| && names[tr.pendingOwner] == tr.w.c.pending.value
  }

  predicate Named(tr: Traced, names: seq<string>)
  {
    && |names| == tr.w.accepted && NamedPending(tr, names)
    && forall t :: t in tr.w.tasks && tr.w.tasks[t].job.Inbound? ==> NamedStart(tr, names, t)
  }

  /** What a segment pushes. */
  function Pushes(w: World, t: nat, outcome: Outcome): seq<Push>
    requires t in w.tasks
  {
    if Stops(w, t, outcome) && Unheard(w.c) then [MissedCall(w.c.pending.value)]
    else if StartFails(w, t, outcome) then [MissedCall(w.tasks[t].job.entrance)]
    else if Records(w, t) then [RingPush(w.tasks[t].job.entrance)]
    else []
  }

  lemma FieldsPushed(c: Coord, t: nat)
    ensures var missed := if Unheard(c) then [MissedCall(c.pending.value)] else [];
            TakeSession(c).pushed == c.pushed + missed && EnterStart(c, t).pushed == c.pushed + missed
    ensures TakeSession(c).pending == if c.session.Some? then None else c.pending
    ensures EnterStart(c, t).pending == TakeSession(c).pending
  {
    assert c.pushed + [] == c.pushed;
  }

  /** The fields after a segment of task `t`, as far as pushes and the pending ring go. */
  predicate Pushed(w: World, t: nat, outcome: Outcome, c': Coord)
    requires t in w.tasks
  {
    && c'.pushed == w.c.pushed + Pushes(w, t, outcome)
    && if Records(w, t) then c'.pending == Some(w.tasks[t].job.entrance)
       else c'.pending == w.c.pending || c'.pending.None?
  }

  lemma InboundPushes(w: World, t: nat, entrance: string, outcome: Outcome)
    requires Locked(w) && t in w.tasks && w.tasks[t].job == Inbound(entrance)
    ensures Pushed(w, t, outcome, Step(w, Resume(t, outcome)).c)
  {
    FieldsPushed(w.c, t);
    InboundSegmentsAreSteps(w, t, entrance, outcome);
    hide Step, EnterStart, Locked, Unheard;
    assert w.c.pushed + [] == w.c.pushed;
  }

  lemma OutboundPushes(w: World, t: nat, byUser: bool, outcome: Outcome)
    requires Locked(w) && t in w.tasks && w.tasks[t].job == Outbound(byUser)
    ensures Pushed(w, t, outcome, Step(w, Resume(t, outcome)).c)
  {
    FieldsPushed(w.c, t);
    OutboundSegmentsAreSteps(w, t, byUser, outcome);
    hide Step, EnterStart, Locked, Unheard;
    assert w.c.pushed + [] == w.c.pushed;
  }

  lemma OtherPushes(w: World, t: nat, outcome: Outcome)
    requires Locked(w) && t in w.tasks && !w.tasks[t].job.Inbound? && !w.tasks[t].job.Outbound?
    ensures Pushed(w, t, outcome, Step(w, Resume(t, outcome)).c)
  {
    FieldsPushed(w.c, t);
    OtherSegmentsAreSteps(w, t, outcome);
    hide Step, TakeSession, Locked, Unheard;
    assert w.c.pushed + [] == w.c.pushed;
  }

  lemma SegmentPushes(w: World, t: nat, outcome: Outcome)
    requires Locked(w) && t in w.tasks
    ensures Pushed(w, t, outcome, Step(w, Resume(t, outcome)).c)
  {
    hide Step, Locked, Pushed;
    match w.tasks[t].job
    case Inbound(entrance) => InboundPushes(w, t, entrance, outcome);
    case Outbound(byUser) => OutboundPushes(w, t, byUser, outcome);
    case _ => OtherPushes(w, t, outcome);
  }

  lemma NamedResume(tr: Traced, names: seq<string>, t: nat, outcome: Outcome)
    requires Named(tr, names) && Locked(tr.w) && Formed(tr.w) && t in tr.w.tasks
    ensures Named(Trace(tr, Resume(t, outcome)), names)
  {
    var w' := ResumeTask(tr.w, t, outcome);
    ResumeEffect(tr.w, t, outcome);
    ResumeAcceptsNothing(tr.w, t, outcome);
    SegmentPushes(tr.w, t, outcome);
    assert Step(tr.w, Resume(t, outcome)) == w';
    hide ResumeTask, Locked, Formed, Stops, CoordEffect, Pushes;
    assert Records(tr.w, t) ==> NamedStart(tr, names, t);
    assert forall u :: u in w'.tasks ==> u in tr.w.tasks && w'.tasks[u].job == tr.w.tasks[u].job;
  }

  lemma NamedRing(tr: Traced, names: seq<string>, e: Event)
    requires Named(tr, names) && Formed(tr.w) && (e.ListenerRing? || e.SessionRing?)
    ensures Named(Trace(tr, e), names + EntranceOf(tr.w, e))
  {
    hide Accept, Seen;
    assert names + [] == names;
  }

  lemma NamedStep(tr: Traced, names: seq<string>, e: Event)
    requires Named(tr, names) && Locked(tr.w) && Formed(tr.w)
    ensures Named(Trace(tr, e), names + EntranceOf(tr.w, e))
  {
    if e.ListenerRing? || e.SessionRing? {
      NamedRing(tr, names, e);
    } else {
      assert names + [] == names;
      if e.Resume? && e.task in tr.w.tasks {
        NamedResume(tr, names, e.task, e.outcome);
      }
      hide ResumeTask;
    }
  }

  lemma BeforeNext(events: seq<Event>, i: nat)
    requires i < |events|
    ensures Before(events, i + 1) == Trace(Before(events, i), events[i])
    ensures Before(events, i + 1).w == Step(Before(events, i).w, events[i])
  {
    hide Trace;
    assert events[..i + 1] == events[..i] + [events[i]];
    TraceAppend(ORIGIN, events[..i], [events[i]]);
    assert [events[i]][1..] == [];
    TraceSteps(Before(events, i), events[i]);
  }

  lemma {:induction false} TraceAppend(tr: Traced, a: seq<Event>, b: seq<Event>)
    ensures TraceRun(tr, a + b) == TraceRun(TraceRun(tr, a), b)
    decreases a
  {
    hide Trace;
    if a == [] {
      assert a + b == b;
    } else {
      assert (a + b)[1..] == a[1..] + b;
      TraceAppend(Trace(tr, a[0]), a[1..], b);
    }
  }

  lemma {:induction false} NamedAt(events: seq<Event>, i: nat)
    requires i <= |events|
    ensures var tr := Before(events, i);
            Named(tr, Entrances(events, i)) && Locked(tr.w) && Formed(tr.w)
    decreases i
  {
    if i == 0 {
      assert events[..0] == [];
    } else {
      var tr, e := Before(events, i - 1), events[i - 1];
      NamedAt(events, i - 1);
      BeforeNext(events, i - 1);
      hide Named, Locked, Formed, Before, Trace, Step, EntranceOf;
      NamedStep(tr, Entrances(events, i - 1), e);
      LockedStep(tr.w, e);
      StepKeepsFormed(tr.w, e);
    }
  }

  /** The rings a segment pushes for are the pending one and the task's own. */
  lemma OwnersNamed(tr: Traced, names: seq<string>, t: nat, outcome: Outcome)
    requires Named(tr, names) && t in tr.w.tasks
    ensures Stops(tr.w, t, outcome) && Unheard(tr.w.c) ==>
              && !StartFails(tr.w, t, outcome) && !Records(tr.w, t) && tr.pendingOwner < |names|
              && Pushes(tr.w, t, outcome) == [MissedCall(names[tr.pendingOwner])]
    ensures !(Stops(tr.w, t, outcome) && Unheard(tr.w.c)) && (StartFails(tr.w, t, outcome) || Records(tr.w, t)) ==>
              && NamedStart(tr, names, t) && (StartFails(tr.w, t, outcome) <==> !Records(tr.w, t))
              && Pushes(tr.w, t, outcome)
                 == [if StartFails(tr.w, t, outcome) then MissedCall(names[tr.rings[t]])
                     else RingPush(names[tr.rings[t]])]
    ensures !(Stops(tr.w, t, outcome) && Unheard(tr.w.c)) && !StartFails(tr.w, t, outcome) && !Records(tr.w, t) ==>
              Pushes(tr.w, t, outcome) == []
  {
  }

  /** For every run from a fresh coordinator: an event other than an idle frame pushes one missed call with the
      entrance of the ring it ends unheard, or one ring push with the entrance of the ring it announces, or
      nothing if it does neither. */
  lemma PushesExactly(events: seq<Event>, i: nat)
    requires i < |events| && !events[i].Idle?
    ensures var before, after, names := Before(events, i).w, Before(events, i + 1).w, Entrances(events, i + 1);
            && (forall ring: nat :: EndsUnheard(events, i, ring) ==>
                  ring < |names| && after.c.pushed == before.c.pushed + [MissedCall(names[ring])])
            && (forall ring: nat :: Announces(events, i, ring) ==>
                  ring < |names| && after.c.pushed == before.c.pushed + [RingPush(names[ring])])
            && (after.c.pushed == before.c.pushed
                || exists ring: nat :: EndsUnheard(events, i, ring) || Announces(events, i, ring))
  {
    var tr, e, names := Before(events, i), events[i], Entrances(events, i);
    NamedAt(events, i);
    BeforeNext(events, i);
    if e.Resume? && e.task in tr.w.tasks {
      assert names + [] == names == Entrances(events, i + 1);
      SegmentPushes(tr.w, e.task, e.outcome);
      hide Step, Locked, Formed, Before, Trace, Stops, Unheard;
      OwnersNamed(tr, names, e.task, e.outcome);
      if Stops(tr.w, e.task, e.outcome) && Unheard(tr.w.c) {
        assert EndsUnheard(events, i, tr.pendingOwner);
      } else if StartFails(tr.w, e.task, e.outcome) {
        assert EndsUnheard(events, i, tr.rings[e.task]);
      } else if Records(tr.w, e.task) {
        assert Announces(events, i, tr.rings[e.task]);
      }
    } else {
      hide Locked, Formed, Before, Trace, Accept, Seen, TakeSession, ResumeTask;
      assert tr.w.c.pushed + [] == tr.w.c.pushed;
      assert e.SessionRing? && EntranceOf(tr.w, e) != [] ==> Announces(events, i, tr.w.accepted);
    }
  }
}
