/** Both video paths deliver the same timed NAL units for every well-formed device stream. */
module PathEquivalence {
  import opened Bytes
  import opened Rtp
  import opened H264
  import opened VideoClock
  import opened VideoPaths
  import opened ReassemblyTrace
  import FuaRoundTrip

  /** One NAL unit sent by the device in a packet of its own. */
  predicate SingleUnit(u: seq<packet>)
  {
    |u| == 1 && IsVideo(u[0]) && Payload(u[0]) != [] && 1 <= NalType(Payload(u[0])[0]) <= 23
  }

  predicate AllFragments(u: seq<packet>)
  {
    && (forall i :: 0 <= i < |u| ==> IsFragment(u[i]))
    && (forall i :: 0 <= i < |u| ==> (StartBit(Payload(u[i])) <==> i == 0))
    && (forall i :: 0 <= i < |u| ==> Timestamp(u[i]) == Timestamp(u[0]))
  }

  /** One NAL unit sent as a contiguous run of fragments sharing one timestamp. */
  predicate RunUnit(u: seq<packet>)
  {
    && u != [] && AllFragments(u)
    && (forall i :: 0 <= i < |u| ==> (EndBit(Payload(u[i])) <==> i == |u| - 1))
    && 1 <= NalType(HeaderOf(u[0])) <= 23
  }

  predicate Unit(u: seq<packet>) { SingleUnit(u) || RunUnit(u) }

  /** The NAL unit `u` carries, behind a start code, with the device's timestamp. */
  function UnitNal(u: seq<packet>): TimedNal
    requires Unit(u)
  {
    if SingleUnit(u) then TimedNal(Timestamp(u[0]), START_CODE + Payload(u[0])) else Rebuilt(u)
  }

  function Stream(units: seq<seq<packet>>): seq<packet>
  {
    if units == [] then [] else units[0] + Stream(units[1..])
  }

  // ----- Reassembling one unit ----------------------------------------------------------

  /** A run without its end fragment is being rebuilt, whatever was in the buffer before. */
  lemma {:induction false} RunInProgress(st: Reassembly, run: seq<packet>)
    requires run != [] && AllFragments(run)
    requires forall i :: 0 <= i < |run| ==> !EndBit(Payload(run[i]))
    ensures Depacketize(st, run) == Outcome(Reassembly(Rebuilt(run).nal, Timestamp(run[0])), [])
    decreases |run|
  {
    hide StepRtp, IsFragment, StartBit, EndBit, Payload, HeaderOf;
    var before, p := run[..|run| - 1], run[|run| - 1];
    assert run == before + [p];
    var st1 := Depacketize(st, before);
    DepacketizeAppend(st, before, [p]);
    DepacketizeOne(st1.st, p);
    StepByKind(st1.st, p);
    if before == [] {
      RebuiltOne(p);
    } else {
      RunInProgress(st, before);
      RebuiltGrows(before, p);
    }
  }

  lemma UnitReassembles(st: Reassembly, u: seq<packet>)
    requires Unit(u)
    ensures Depacketize(st, u).queued == [UnitNal(u)]
  {
    if SingleUnit(u) {
      assert u == [u[0]];
      DepacketizeOne(st, u[0]);
    } else {
      hide StepRtp, IsFragment, StartBit, EndBit, Payload, HeaderOf, NalType;
      var before, p := u[..|u| - 1], u[|u| - 1];
      assert u == before + [p];
      var st1 := Depacketize(st, before);
      DepacketizeAppend(st, before, [p]);
      DepacketizeOne(st1.st, p);
      StepByKind(st1.st, p);
      if before == [] {
        RebuiltOne(p);
      } else {
        RunInProgress(st, before);
        RebuiltGrows(before, p);
      }
    }
  }

  // ----- Forwarding one unit ------------------------------------------------------------

  /** `v` is `u` with other sequence numbers and the timestamp `ts`. */
  predicate Restamped(u: seq<packet>, v: seq<packet>, ts: u32)
  {
    |u| == |v| && forall i :: 0 <= i < |v| ==>
                         Payload(v[i]) == Payload(u[i]) && Version(v[i]) == Version(u[i])
                         && PayloadType(v[i]) == PT_VIDEO && Timestamp(v[i]) == ts
  }

  /** Forwarding packets that share the timestamp the clock already translated. */
  lemma {:induction false} ForwardSameTime(c: Clock, number: u16, u: seq<packet>, deviceTs: u32)
    requires Translate(c, deviceTs) == c
    requires forall i :: 0 <= i < |u| ==> Timestamp(u[i]) == deviceTs && Payload(u[i]) != []
    ensures ForwardAll(c, number, u).clock == c
    ensures Restamped(u, ForwardAll(c, number, u).packets, c.out)
    decreases |u|
  {
    hide Translate, Version, PayloadType, Timestamp, Rewrite;
    if u != [] {
      ForwardSameTime(c, NextNumber(number), u[1..], deviceTs);
      var rest := ForwardAll(c, NextNumber(number), u[1..]);
      assert ForwardAll(c, number, u).packets == [Rewrite(u[0], number, c.out)] + rest.packets;
    }
  }

  lemma ForwardUnit(c: Clock, number: u16, u: seq<packet>, deviceTs: u32)
    requires u != []
    requires forall i :: 0 <= i < |u| ==> Timestamp(u[i]) == deviceTs && Payload(u[i]) != []
    ensures ForwardAll(c, number, u).clock == Translate(c, deviceTs)
    ensures Restamped(u, ForwardAll(c, number, u).packets, Translate(c, deviceTs).out)
  {
    hide Translate, Version, PayloadType, Timestamp, Rewrite;
    var c' := Translate(c, deviceTs);
    Stutter(c, deviceTs);
    ForwardSameTime(c', NextNumber(number), u[1..], deviceTs);
    var rest := ForwardAll(c', NextNumber(number), u[1..]);
    assert ForwardAll(c, number, u).packets == [Rewrite(u[0], number, c'.out)] + rest.packets;
  }

  /** Restamping keeps a packet's part in reassembly. */
  lemma RestampedPacket(p: packet, q: packet)
    requires Payload(q) == Payload(p) && Version(q) == Version(p) && PayloadType(q) == PT_VIDEO && IsVideo(p)
    ensures IsVideo(q) && IsFragment(q) == IsFragment(p) && Chunk(q) == Chunk(p)
    ensures IsFragment(p) ==> HeaderOf(q) == HeaderOf(p)
  {
  }

  lemma {:induction false} RestampedBytes(u: seq<packet>, v: seq<packet>, ts: u32)
    requires Restamped(u, v, ts) && forall i :: 0 <= i < |u| ==> IsVideo(u[i])
    ensures FragmentBytes(v) == FragmentBytes(u)
    decreases |u|
  {
    hide Payload, Version, PayloadType, Timestamp, IsVideo, Chunk;
    if u != [] {
      RestampedBytes(u[..|u| - 1], v[..|u| - 1], ts);
      RestampedPacket(u[|u| - 1], v[|u| - 1]);
    }
  }

  lemma UnitTimes(u: seq<packet>)
    requires Unit(u)
    ensures u != []
    ensures forall i :: 0 <= i < |u| ==> Timestamp(u[i]) == UnitNal(u).ts && Payload(u[i]) != [] && IsVideo(u[i])
  {
    hide Timestamp, Payload, FragmentBytes, HeaderOf;
    if RunUnit(u) {
      assert forall i :: 0 <= i < |u| ==> IsFragment(u[i]);
    }
  }

  lemma RestampedUnit(u: seq<packet>, v: seq<packet>, ts: u32)
    requires Unit(u) && Restamped(u, v, ts)
    ensures Unit(v) && UnitNal(v) == TimedNal(ts, UnitNal(u).nal)
  {
    UnitTimes(u);
    RestampedBytes(u, v, ts);
    RestampedPacket(u[0], v[0]);
    hide Timestamp, Version, PayloadType, IsVideo, FragmentBytes, HeaderOf, Chunk, NalType, IsFragment;
    if RunUnit(u) && !SingleUnit(u) {
      forall i | 0 <= i < |v|
        ensures IsFragment(v[i]) && StartBit(Payload(v[i])) == StartBit(Payload(u[i]))
                && EndBit(Payload(v[i])) == EndBit(Payload(u[i]))
      {
        RestampedPacket(u[i], v[i]);
      }
      assert RunUnit(v);
    }
  }

  // ----- Whole streams ------------------------------------------------------------------

  lemma UnitIsCarriable(u: seq<packet>)
    requires Unit(u)
    ensures START_CODE <= UnitNal(u).nal && FuaRoundTrip.Carriable(UnitNal(u).nal[4..])
    ensures UnitNal(u).nal[4..] != []
  {
    if !SingleUnit(u) {
      assert UnitNal(u).nal[4] == HeaderOf(u[0]);
    }
  }

  /** What both paths deliver for one unit: its NAL at the translated timestamp. */
  lemma OneUnit(c: Clock, n1: u16, n2: u16, st1: Reassembly, st2: Reassembly, u: seq<packet>)
    requires Unit(u)
    ensures var nal := UnitNal(u);
            var c' := Translate(c, nal.ts);
            && ForwardAll(c, n1, u).clock == c' && RepackOne(c, n2, nal).clock == c'
            && Depacketize(st1, ForwardAll(c, n1, u).packets).queued == [TimedNal(c'.out, nal.nal)]
            && Depacketize(st2, RepackOne(c, n2, nal).packets).queued == [TimedNal(c'.out, nal.nal)]
  {
    hide Translate, Unit, UnitNal, ForwardAll, Depacketize, Packetize, FuaRoundTrip.Carriable;
    var nal := UnitNal(u);
    var c' := Translate(c, nal.ts);
    UnitTimes(u);
    ForwardUnit(c, n1, u, nal.ts);
    var v := ForwardAll(c, n1, u).packets;
    RestampedUnit(u, v, c'.out);
    UnitReassembles(st1, v);
    UnitIsCarriable(u);
    FuaRoundTrip.CarriedWhole(st2, nal.nal[4..], n2, c'.out);
    assert START_CODE + nal.nal[4..] == nal.nal;
  }

  /** From equal translation states and any numbering and stale buffers, depacketizing what the
      pass-through path broadcasts for a well-formed device stream gives the same timed NALs as
      reassembling, stripping, translating, re-packetizing and depacketizing; and both paths end in
      the same translation state. */
  lemma {:induction false} PathsAgree(units: seq<seq<packet>>, c: Clock, n1: u16, n2: u16,
                                      st0: Reassembly, st1: Reassembly, st2: Reassembly)
    requires forall u :: u in units ==> Unit(u)
    ensures var device := Stream(units);
            var forwarded := ForwardAll(c, n1, device);
            var repacked := RepackAll(c, n2, Depacketize(st0, device).queued);
            && Depacketize(st1, forwarded.packets).queued == Depacketize(st2, repacked.packets).queued
            && forwarded.clock == repacked.clock
    decreases |units|
  {
    if units != [] {
      hide Unit, UnitNal, StepRtp, ForwardOne, RepackOne, Translate;
      var u, more := units[0], Stream(units[1..]);
      UnitReassembles(st0, u);
      DepacketizeAppend(st0, u, more);
      ForwardAppend(c, n1, u, more);
      OneUnit(c, n1, n2, st1, st2, u);
      var first, other := ForwardAll(c, n1, u), RepackOne(c, n2, UnitNal(u));
      var st0', st1' := Depacketize(st0, u).st, Depacketize(st1, first.packets).st;
      var st2' := Depacketize(st2, other.packets).st;
      PathsAgree(units[1..], first.clock, first.number, other.number, st0', st1', st2');
      var items := Depacketize(st0', more).queued;
      assert ([UnitNal(u)] + items)[1..] == items;
      DepacketizeAppend(st1, first.packets, ForwardAll(first.clock, first.number, more).packets);
      DepacketizeAppend(st2, other.packets, RepackAll(other.clock, other.number, items).packets);
    }
  }
}
