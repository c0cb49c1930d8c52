/** The reassembler against a description of its history: for any packets whatever, lost,
    duplicated or reordered, its buffer and the NALs it queues are functions of the last
    start fragment and the fragments received since. */
module ReassemblyTrace {
  import opened Bytes
  import opened Rtp
  import opened H264

  const IDLE := Reassembly([], 0)

  predicate IsFragment(p: packet)
  {
    IsVideo(p) && 2 <= |Payload(p)| && NalType(Payload(p)[0]) == FU_A
  }

  predicate IsStart(p: packet) { IsFragment(p) && StartBit(Payload(p)) }

  predicate IsEnd(p: packet) { IsFragment(p) && EndBit(Payload(p)) }

  /** The NAL bytes a fragment carries: its payload after FU indicator and FU header. */
  function Chunk(p: packet): bytes
  {
    if IsFragment(p) then Payload(p)[2..] else []
  }

  /** The payload bytes of every fragment among `packets`, in order of arrival. */
  function FragmentBytes(packets: seq<packet>): bytes
  {
    if packets == [] then []
    else
      FragmentBytes(packets[..|packets| - 1]) + Chunk(packets[|packets| - 1])
  }

  /** Start fragment `s` is the last one in `h` and no end fragment has arrived since. */
  ghost predicate OpenStart(h: seq<packet>, s: nat)
  {
    && s < |h| && IsStart(h[s])
    && (forall i :: s < i < |h| ==> !IsStart(h[i]))
    && (forall i :: s <= i < |h| ==> !IsEnd(h[i]))
  }

  /** The NAL header a fragment names. */
  function HeaderOf(p: packet): byte
    requires IsFragment(p)
  {
    RebuiltHeader(Payload(p))
  }

  /** The NAL that `run`, which begins with a start fragment, carries. */
  function Rebuilt(run: seq<packet>): TimedNal
    requires run != [] && IsStart(run[0])
  {
    TimedNal(Timestamp(run[0]), START_CODE + [HeaderOf(run[0])] + FragmentBytes(run))
  }

  /** The buffer is what the history says it should be. */
  ghost predicate Explains(h: seq<packet>, st: Reassembly)
  {
    && (forall s: nat :: OpenStart(h, s) ==> TimedNal(st.ts, st.nal) == Rebuilt(h[s..]))
    && (st.nal != [] ==> exists s: nat :: OpenStart(h, s))
  }

  lemma {:induction false} RebuiltGrows(run: seq<packet>, p: packet)
    requires run != [] && IsStart(run[0])
    ensures (run + [p])[0] == run[0]
    ensures Rebuilt(run + [p]).ts == Rebuilt(run).ts
    ensures Rebuilt(run + [p]).nal == Rebuilt(run).nal + Chunk(p)
  {
    hide StepRtp, IsFragment, Chunk;
    var all := run + [p];
    assert all[..|all| - 1] == run && all[|all| - 1] == p;
    var more := Chunk(p);
    assert FragmentBytes(all) == FragmentBytes(run) + more;
    var front := START_CODE + [HeaderOf(run[0])];
    assert front + (FragmentBytes(run) + more) == (front + FragmentBytes(run)) + more;
  }

  lemma RebuiltOne(p: packet)
    requires IsStart(p)
    ensures Rebuilt([p]) == TimedNal(Timestamp(p), START_CODE + [HeaderOf(p)] + Chunk(p))
  {
    assert [p][..0] == [];
    assert FragmentBytes([p]) == Chunk(p);
  }

  /** What one packet does, in the vocabulary of fragments. */
  lemma StepByKind(st: Reassembly, p: packet)
    ensures !IsFragment(p) ==> StepRtp(st, p).st == st
    ensures IsFragment(p) ==>
              var more := Chunk(p);
              var grown :=
                if IsStart(p) then Reassembly(START_CODE + [HeaderOf(p)] + more, Timestamp(p))
                else if st.nal != [] then Reassembly(st.nal + more, st.ts)
                else st;
              StepRtp(st, p) ==
              if IsEnd(p) && grown.nal != [] then
                Outcome(Reassembly([], grown.ts), [TimedNal(grown.ts, grown.nal)])
              else Outcome(grown, [])
  {
  }

  /** Either the history has an open start, or the buffer is empty. */
  lemma OpenOrEmpty(h: seq<packet>, st: Reassembly)
    requires Explains(h, st)
    ensures st.nal == [] <==> !exists s: nat :: OpenStart(h, s)
  {
    if s: nat :| OpenStart(h, s) {
      assert Rebuilt(h[s..]).nal != [];
    }
  }

  /** Extending the history by one packet keeps the explanation. */
  lemma ExplainsStep(h: seq<packet>, st: Reassembly, p: packet)
    requires Explains(h, st)
    ensures Explains(h + [p], StepRtp(st, p).st)
  {
    hide StepRtp, IsFragment, StartBit, EndBit, Rebuilt, FragmentBytes, Payload, HeaderOf;
    StepByKind(st, p);
    OpenOrEmpty(h, st);
    var h' := h + [p];
    var st' := StepRtp(st, p).st;
    forall s: nat | OpenStart(h', s)
      ensures TimedNal(st'.ts, st'.nal) == Rebuilt(h'[s..])
    {
      assert h'[|h|] == p;
      if s == |h| {
        assert h'[s..] == [p];
        RebuiltOne(p);
      } else {
        assert h'[s..] == h[s..] + [p];
        assert OpenStart(h, s) by {
          forall i | s <= i < |h| ensures h[i] == h'[i] {}
        }
        RebuiltGrows(h[s..], p);
        assert h'[|h|] == p && !IsStart(p) && !IsEnd(p);
        assert st.nal != [];
        assert st'.nal == st.nal + Chunk(p);
      }
    }
    if st'.nal != [] {
      if IsStart(p) {
        assert OpenStart(h', |h|);
      } else {
        var s: nat :| OpenStart(h, s);
        assert OpenStart(h', s);
      }
    }
  }

  /** For every packet sequence the buffer is empty, or start code, rebuilt header and the payloads
      of all fragments since the last start fragment, with that fragment's timestamp. */
  lemma {:induction false} BufferIsTrace(h: seq<packet>)
    ensures Explains(h, Depacketize(IDLE, h).st)
    decreases |h|
  {
    if h != [] {
      hide StepRtp, Explains, IsFragment;
      var before, p := h[..|h| - 1], h[|h| - 1];
      assert h == before + [p];
      BufferIsTrace(before);
      DepacketizeAppend(IDLE, before, [p]);
      DepacketizeOne(Depacketize(IDLE, before).st, p);
      ExplainsStep(before, Depacketize(IDLE, before).st, p);
    } else {
      assert Explains(h, IDLE);
    }
  }

  /** Fragments `s..=k` of `h` are one begun and ended NAL: `s` starts it, `k` ends it. */
  ghost predicate Complete(h: seq<packet>, s: nat, k: nat)
  {
    && s <= k < |h| && IsStart(h[s]) && IsEnd(h[k])
    && (forall i :: s < i <= k ==> !IsStart(h[i]))
    && (forall i :: s <= i < k ==> !IsEnd(h[i]))
  }

  /** A fragment queues a NAL exactly when it completes one, and then that NAL is made of the
      fragments since its own start and nothing received earlier. */
  lemma QueuedIsTrace(h: seq<packet>, k: nat)
    requires k < |h| && IsFragment(h[k])
    ensures var queued := StepRtp(Depacketize(IDLE, h[..k]).st, h[k]).queued;
            && (queued != [] <==> exists s: nat :: Complete(h, s, k))
            && (forall s: nat :: Complete(h, s, k) ==> queued == [Rebuilt(h[s..k + 1])])
  {
    hide StepRtp, IsFragment, StartBit, EndBit, Rebuilt, FragmentBytes, Payload, HeaderOf, Chunk, Depacketize;
    var before, p := h[..k], h[k];
    var st := Depacketize(IDLE, before).st;
    BufferIsTrace(before);
    OpenOrEmpty(before, st);
    StepByKind(st, p);
    var queued := StepRtp(st, p).queued;
    forall s: nat | Complete(h, s, k)
      ensures queued == [Rebuilt(h[s..k + 1])]
    {
      if s == k {
        assert h[s..k + 1] == [p];
        RebuiltOne(p);
      } else {
        assert h[s..k + 1] == before[s..] + [p];
        assert OpenStart(before, s);
        RebuiltGrows(before[s..], p);
      }
    }
    if queued != [] {
      if IsStart(p) {
        assert Complete(h, k, k);
      } else {
        var s: nat :| OpenStart(before, s);
        assert Complete(h, s, k);
      }
    }
  }
}
