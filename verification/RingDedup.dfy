/** Suppression of retransmitted rings. Rings reach the coordinator from the listener and from a running
    video session; both consult one map from (entrance, ring timestamp) to the time last accepted, which
    the listener's entry point also prunes. */
module RingDedup {
  import opened Bytes

  const WINDOW := 120.0

  datatype Key = Key(entrance: string, stamp: u32)

  datatype Source = Listener | Session

  datatype Ring = Ring(source: Source, key: Key, now: real)

  predicate Seen(recent: map<Key, real>, key: Key, now: real)
  {
    key in recent && now - recent[key] < WINDOW
  }

  function Prune(recent: map<Key, real>, now: real): map<Key, real>
  {
    map k | k in recent && now - recent[k] < WINDOW :: recent[k]
  }

  /** The map after an accepted ring. */
  function Accept(recent: map<Key, real>, r: Ring): map<Key, real>
  {
    (if r.source.Listener? then Prune(recent, r.now) else recent)[r.key := r.now]
  }

  function AfterRing(recent: map<Key, real>, r: Ring): map<Key, real>
  {
    if Seen(recent, r.key, r.now) then recent else Accept(recent, r)
  }

  // ----- The unpruned history -------------------------------------------------------------

  /** An accepted ring of the same key within the window before `now`. */
  predicate HeardBefore(accepted: seq<Ring>, key: Key, now: real)
  {
    exists i :: 0 <= i < |accepted| && accepted[i].key == key && now - accepted[i].now < 120.0
  }

  function AfterHeard(accepted: seq<Ring>, r: Ring): seq<Ring>
  {
    if HeardBefore(accepted, r.key, r.now) then accepted else accepted + [r]
  }

  /** Accepted rings of the same key are at least the window apart. */
  predicate Apart(accepted: seq<Ring>)
  {
    forall i, j :: 0 <= i < j < |accepted| && accepted[i].key == accepted[j].key ==>
      accepted[j].now - accepted[i].now >= 120.0
  }

  /** The map holds exactly what matters of the history at time `clock`. */
  predicate Tracks(recent: map<Key, real>, accepted: seq<Ring>, clock: real)
  {
    && Apart(accepted)
    && (forall i :: 0 <= i < |accepted| ==> accepted[i].now <= clock)
    && (forall k :: k in recent ==> Remembered(accepted, k, recent[k]))
    && (forall i :: 0 <= i < |accepted| && clock - accepted[i].now < WINDOW ==>
          accepted[i].key in recent && recent[accepted[i].key] == accepted[i].now)
  }

  predicate Remembered(accepted: seq<Ring>, key: Key, at: real)
  {
    exists i :: 0 <= i < |accepted| && accepted[i].key == key && accepted[i].now == at
  }

  lemma SameVerdict(recent: map<Key, real>, accepted: seq<Ring>, clock: real, key: Key, now: real)
    requires Tracks(recent, accepted, clock) && clock <= now
    ensures Seen(recent, key, now) <==> HeardBefore(accepted, key, now)
  {
    if Seen(recent, key, now) {
      assert Remembered(accepted, key, recent[key]);
    }
  }

  lemma TracksRing(recent: map<Key, real>, accepted: seq<Ring>, clock: real, r: Ring)
    requires Tracks(recent, accepted, clock) && clock <= r.now
    ensures Tracks(AfterRing(recent, r), AfterHeard(accepted, r), r.now)
  {
    SameVerdict(recent, accepted, clock, r.key, r.now);
    if !Seen(recent, r.key, r.now) {
      var recent', accepted' := Accept(recent, r), accepted + [r];
      assert accepted'[|accepted|] == r;
      forall k | k in recent'
        ensures Remembered(accepted', k, recent'[k])
      {
        if k != r.key {
          assert Remembered(accepted, k, recent[k]);
          var i :| 0 <= i < |accepted| && accepted[i].key == k && accepted[i].now == recent[k];
          assert accepted'[i] == accepted[i];
        }
      }
    }
  }

  // ----- Whole runs -----------------------------------------------------------------------

  predicate Clocked(rings: seq<Ring>, clock: real)
    decreases rings
  {
    rings != [] ==> clock <= rings[0].now && Clocked(rings[1..], rings[0].now)
  }

  function Verdicts(recent: map<Key, real>, rings: seq<Ring>): seq<bool>
    decreases rings
  {
    if rings == [] then []
    else [!Seen(recent, rings[0].key, rings[0].now)] + Verdicts(AfterRing(recent, rings[0]), rings[1..])
  }

  function HistoryVerdicts(accepted: seq<Ring>, rings: seq<Ring>): seq<bool>
    decreases rings
  {
    if rings == [] then []
    else
      [!HeardBefore(accepted, rings[0].key, rings[0].now)]
      + HistoryVerdicts(AfterHeard(accepted, rings[0]), rings[1..])
  }

  function AcceptedIn(accepted: seq<Ring>, rings: seq<Ring>): seq<Ring>
    decreases rings
  {
    if rings == [] then accepted else AcceptedIn(AfterHeard(accepted, rings[0]), rings[1..])
  }

  /** In every run with a non-decreasing clock, over both entry points, the pruned map decides as an
      unpruned history would, and rings accepted with the same key are at least the window apart. */
  lemma {:induction false} PruningIsInvisible(recent: map<Key, real>, accepted: seq<Ring>, clock: real,
                                              rings: seq<Ring>)
    requires Tracks(recent, accepted, clock) && Clocked(rings, clock)
    ensures Verdicts(recent, rings) == HistoryVerdicts(accepted, rings)
    ensures Apart(AcceptedIn(accepted, rings))
    decreases rings
  {
    hide Seen, HeardBefore, AfterRing, AfterHeard;
    if rings != [] {
      SameVerdict(recent, accepted, clock, rings[0].key, rings[0].now);
      TracksRing(recent, accepted, clock, rings[0]);
      PruningIsInvisible(AfterRing(recent, rings[0]), AfterHeard(accepted, rings[0]), rings[0].now, rings[1..]);
    } else {
      assert Apart(accepted);
    }
  }

  /** After an accepted listener ring every entry kept is younger than the window. */
  lemma ListenerLeavesYoung(recent: map<Key, real>, r: Ring, k: Key)
    requires r.source.Listener? && !Seen(recent, r.key, r.now) && k in AfterRing(recent, r)
    ensures r.now - AfterRing(recent, r)[k] < 120.0
    ensures k != r.key ==> Seen(recent, k, r.now)
  {
  }
}
