/** CTPP messages: the encoders of an acknowledgement and of the channel init, the parser that scans a
    message for null-terminated addresses, and what a renewal acknowledgement makes of them. */
module CtppMessage {
  import opened Bytes

  const S: byte := 0x53
  const B: byte := 0x42

  predicate IsHex(b: byte)
  {
    0x30 <= b <= 0x39 || 0x41 <= b <= 0x46 || 0x61 <= b <= 0x66
  }

  predicate AllHex(s: bytes) { forall i :: 0 <= i < |s| ==> IsHex(s[i]) }

  /** The digits of an address: what follows an `SB` prefix, or all of it. */
  function Digits(a: bytes): bytes
  {
    if 2 <= |a| && a[0] == S && a[1] == B then a[2..] else a
  }

  /** The shape the parser accepts: six to nine hexadecimal digits, perhaps after `SB`. */
  predicate IsAddress(a: bytes)
  {
    6 <= |Digits(a)| <= 9 && AllHex(Digits(a))
  }

  predicate AreDigits(digits: bytes)
  {
    6 <= |digits| <= 9 && forall i :: 0 <= i < |digits| ==> digits[i] as char in "0123456789ABCDEFabcdef"
  }

  lemma HexDigits(b: byte)
    ensures IsHex(b) <==> b as char in "0123456789ABCDEFabcdef"
  {
    var all := "0123456789ABCDEFabcdef";
    if IsHex(b) {
      var i := if b <= 0x39 then b - 0x30 else if b <= 0x46 then b - 0x41 + 10 else b - 0x61 + 16;
      assert all[i] == b as char;
    }
  }

  lemma SameDigits(digits: bytes)
    ensures AreDigits(digits) <==> 6 <= |digits| <= 9 && AllHex(digits)
  {
    forall i | 0 <= i < |digits|
      ensures IsHex(digits[i]) <==> digits[i] as char in "0123456789ABCDEFabcdef"
    {
      HexDigits(digits[i]);
    }
    hide IsHex;
  }

  /** An address is six to nine of those digits, with or without the two letters `SB` before them. */
  lemma AddressExactly(a: bytes)
    ensures IsAddress(a) <==> AreDigits(a) || (2 <= |a| && a[..2] == [0x53, 0x42] && AreDigits(a[2..]))
  {
    SameDigits(a);
    if 2 <= |a| {
      SameDigits(a[2..]);
      assert a[..2] == [a[0], a[1]];
      assert a[0] == 0x53 ==> !AllHex(a);
    }
    hide AreDigits, AllHex;
  }

  // ----- Encoders -----------------------------------------------------------------------

  function Wildcard(): bytes { [0xFF, 0xFF, 0xFF, 0xFF] }

  function Terminated(s: bytes): bytes { s + [0] }

  function CallResponseAck(caller: bytes, callee: bytes, timestamp: u32, prefix: u16): bytes
  {
    Le16(prefix) + Le32(timestamp) + Be16(0) + Wildcard() + Terminated(caller) + Terminated(callee) + [0]
  }

  method EncodeCallResponseAck(caller: bytes, callee: bytes, timestamp: u32, prefix: u16) returns (buf: bytes)
    ensures buf == CallResponseAck(caller, callee, timestamp, prefix)
  {
    buf := [];
    buf := buf + Le16(prefix);
    buf := buf + Le32(timestamp);
    buf := buf + Be16(0);
    buf := buf + Wildcard();
    buf := buf + Terminated(caller);
    buf := buf + callee + [0, 0];
    assert callee + [0, 0] == Terminated(callee) + [0];
  }

  function InitFlags(): bytes { [0x00, 0x11, 0x00, 0x40, 0x18, 0xC2] }
  function InitSeparator(): bytes { [0x10, 0x0E, 0x00, 0x00, 0x00, 0x00, 0xFF, 0xFF, 0xFF, 0xFF] }

  /** `full` is the apartment address with its subaddress appended. */
  function CtppInit(full: bytes, base: bytes, timestamp: u32): bytes
  {
    Le16(0x18C0) + Le32(timestamp) + InitFlags() + Terminated(full) + InitSeparator()
    + Terminated(full) + Terminated(base) + [0]
  }

  method EncodeCtppInit(aptAddress: bytes, subaddress: bytes, timestamp: u32) returns (buf: bytes)
    ensures buf == CtppInit(aptAddress + subaddress, aptAddress, timestamp)
  {
    var full := aptAddress + subaddress;
    buf := [];
    buf := buf + Le16(0x18C0);
    buf := buf + Le32(timestamp);
    buf := buf + InitFlags();
    buf := buf + Terminated(full);
    buf := buf + InitSeparator();
    buf := buf + Terminated(full);
    buf := buf + Terminated(aptAddress);
    buf := buf + [0];
  }

  // ----- The parser -----------------------------------------------------------------------

  datatype Message = Message(
    prefix: u16,
    timestamp: u32,
    action: u16,
    flags: Option<u16>,
    addresses: seq<bytes>,
    callTag: Option<bytes>)

  /** How many hexadecimal digits stand at `from`. */
  function HexRun(data: bytes, from: nat): (k: nat)
    requires from <= |data|
    ensures from + k <= |data| && (forall i :: from <= i < from + k ==> IsHex(data[i]))
    ensures from + k < |data| ==> !IsHex(data[from + k])
    decreases |data| - from
  {
    if from < |data| && IsHex(data[from]) then 1 + HexRun(data, from + 1) else 0
  }

  /** The length of the terminated address at `from`, or 0. */
  function MatchAt(data: bytes, from: nat): (n: nat)
    requires from <= |data|
    ensures from + n < |data| || n == 0
  {
    var skip := if from + 2 <= |data| && data[from] == S && data[from + 1] == B then 2 else 0;
    var k := HexRun(data, from + skip);
    if 6 <= k <= 9 && from + skip + k < |data| && data[from + skip + k] == 0 then skip + k else 0
  }

  /** All terminated addresses from `from` on, leftmost first and not overlapping. */
  function Addresses(data: bytes, from: nat): seq<bytes>
    requires from <= |data|
    decreases |data| - from
  {
    if from == |data| then []
    else
      var n := MatchAt(data, from);
      if n == 0 then Addresses(data, from + 1) else [data[from..from + n]] + Addresses(data, from + n + 1)
  }

  function FindWildcard(data: bytes, from: nat): Option<nat>
    requires from <= |data|
    decreases |data| - from
  {
    if from + 4 > |data| then None
    else if data[from..from + 4] == Wildcard() then Some(from)
    else FindWildcard(data, from + 1)
  }

  function CallTag(data: bytes): Option<bytes>
  {
    match FindWildcard(data, 0)
    case Some(marker) => if 2 <= marker <= |data| then Some(data[marker - 2..marker]) else None
    case None => None
  }

  function ParseCtpp(data: bytes): Option<Message>
  {
    if |data| < 8 then None
    else Some(Message(ReadLe16(data, 0), ReadLe32(data, 2), ReadBe16(data, 6),
                      if 10 <= |data| then Some(ReadBe16(data, 8)) else None, Addresses(data, 0), CallTag(data)))
  }

  // ----- The scan is exact ------------------------------------------------------------------

  predicate AddressAt(data: bytes, from: nat, n: nat)
  {
    from + n < |data| && IsAddress(data[from..from + n]) && data[from + n] == 0
  }

  /** The scanner finds a terminated address at a position exactly when one stands there, and no other
      length would do. */
  lemma MatchIsExact(data: bytes, from: nat, n: nat)
    requires from <= |data| && 0 < n
    ensures MatchAt(data, from) == n <==> AddressAt(data, from, n)
  {
    if MatchAt(data, from) == n {
      MatchIsAddress(data, from);
    }
    if AddressAt(data, from, n) {
      AddressMatches(data, from, n);
    }
  }

  lemma RunIsHex(data: bytes, from: nat)
    requires from <= |data|
    ensures AllHex(data[from..from + HexRun(data, from)])
  {
    hide HexRun;
  }

  lemma MatchIsAddress(data: bytes, from: nat)
    requires from <= |data| && MatchAt(data, from) > 0
    ensures AddressAt(data, from, MatchAt(data, from))
  {
    hide HexRun, AllHex;
    var n := MatchAt(data, from);
    var a := data[from..from + n];
    RunIsHex(data, from);
    assert a[0] == data[from] && a[1] == data[from + 1];
    if data[from] == S && data[from + 1] == B {
      RunIsHex(data, from + 2);
      assert a[2..] == data[from + 2..from + n];
    }
  }

  lemma HexSlice(data: bytes, from: nat, to: nat)
    requires from <= to <= |data| && AllHex(data[from..to])
    ensures forall i :: from <= i < to ==> IsHex(data[i])
  {
    hide IsHex;
    forall i | from <= i < to ensures IsHex(data[i]) {
      assert data[i] == data[from..to][i - from];
    }
  }

  lemma AddressMatches(data: bytes, from: nat, n: nat)
    requires AddressAt(data, from, n)
    ensures MatchAt(data, from) == n
  {
    hide IsHex, AllHex, HexRun;
    var a := data[from..from + n];
    var skip := if a[0] == S && a[1] == B then 2 else 0;
    assert Digits(a) == data[from + skip..from + n];
    assert a[0] == data[from] && a[1] == data[from + 1];
    HexSlice(data, from + skip, from + n);
    RunEndsAt(data, from + skip, from + n);
  }

  lemma {:induction false} RunEndsAt(data: bytes, from: nat, end: nat)
    requires from <= end < |data| && data[end] == 0 && forall i :: from <= i < end ==> IsHex(data[i])
    ensures HexRun(data, from) == end - from
  {
  }

  /** A byte that occurs in no address, within six of a position, rules out a match there. */
  predicate Foreign(b: byte) { !IsHex(b) && b != S }

  lemma NoMatchNear(data: bytes, from: nat, at: nat)
    requires from <= at < from + 6 && at < |data| && Foreign(data[at])
    ensures MatchAt(data, from) == 0
  {
    hide MatchAt, AddressAt, Foreign;
    if MatchAt(data, from) > 0 {
      MatchIsAddress(data, from);
      AddressIsOwn(data, from, MatchAt(data, from), at);
    }
  }

  lemma AddressIsOwn(data: bytes, from: nat, n: nat, at: nat)
    requires AddressAt(data, from, n) && from <= at < from + 6
    ensures at < |data| && !Foreign(data[at])
  {
    hide IsAddress, Foreign;
    var a := data[from..from + n];
    AddressNotEmpty(a);
    AddressBytes(a, at - from);
  }

  lemma AddressBytes(a: bytes, i: nat)
    requires IsAddress(a) && i < |a|
    ensures !Foreign(a[i])
  {
    if Digits(a) != a {
      assert i >= 2 ==> Digits(a)[i - 2] == a[i];
    }
  }

  lemma {:induction false} ScanSkips(data: bytes, from: nat, to: nat)
    requires from <= to <= |data| && forall i :: from <= i < to ==> MatchAt(data, i) == 0
    ensures Addresses(data, from) == Addresses(data, to)
    decreases |data| - from
  {
    hide MatchAt;
    if from < to {
      ScanSkips(data, from + 1, to);
    }
  }

  lemma ScanTakes(data: bytes, from: nat, a: bytes)
    requires from + |a| < |data| && IsAddress(a) && data[from..from + |a|] == a && data[from + |a|] == 0
    ensures Addresses(data, from) == [a] + Addresses(data, from + |a| + 1)
  {
    hide IsAddress, MatchAt;
    AddressNotEmpty(a);
    AddressMatches(data, from, |a|);
  }

  lemma AddressNotEmpty(a: bytes)
    requires IsAddress(a)
    ensures 6 <= |a|
  {
  }

  /** A single terminated address, and what precedes it free of matches. */
  lemma ScanPast(head: bytes, a: bytes, tail: bytes)
    requires IsAddress(a)
    requires forall i :: 0 <= i < |head| ==> MatchAt(head + Terminated(a) + tail, i) == 0
    ensures Addresses(head + Terminated(a) + tail, 0) == [a] + Addresses(tail, 0)
  {
    hide IsAddress, MatchAt, Addresses;
    var data := head + Terminated(a) + tail;
    PartSlices(head, a, tail);
    hide Terminated;
    ScanSkips(data, 0, |head|);
    ScanTakes(data, |head|, a);
    ScanSuffix(data, |head| + |a| + 1);
  }

  lemma PartSlices(head: bytes, a: bytes, tail: bytes)
    ensures var data := head + Terminated(a) + tail;
            && |data| == |head| + |a| + 1 + |tail|
            && data[|head|..|head| + |a|] == a && data[|head| + |a|] == 0 && data[|head| + |a| + 1..] == tail
  {
  }

  /** Scanning looks only ahead. */
  lemma {:induction false} ScanSuffix(data: bytes, from: nat)
    requires from <= |data|
    ensures Addresses(data, from) == Addresses(data[from..], 0)
  {
    ScanShifted(data, from, 0);
  }

  lemma {:induction false} ScanShifted(data: bytes, base: nat, from: nat)
    requires base + from <= |data|
    ensures Addresses(data, base + from) == Addresses(data[base..], from)
    decreases |data| - base - from
  {
    hide MatchAt;
    if base + from < |data| {
      MatchShifted(data, base, from);
      var n := MatchAt(data, base + from);
      if n == 0 {
        ScanShifted(data, base, from + 1);
      } else {
        ScanShifted(data, base, from + n + 1);
        assert data[base..][from..from + n] == data[base + from..base + from + n];
      }
    }
  }

  lemma MatchShifted(data: bytes, base: nat, from: nat)
    requires base + from <= |data|
    ensures MatchAt(data, base + from) == MatchAt(data[base..], from)
  {
    hide HexRun, IsHex;
    var s := data[base..];
    assert forall i :: from <= i < |s| ==> s[i] == data[base + i];
    HexShifted(data, base, from);
    if from + 2 <= |s| {
      HexShifted(data, base, from + 2);
      assert base + (from + 2) == base + from + 2;
    }
  }

  lemma {:induction false} HexShifted(data: bytes, base: nat, from: nat)
    requires base + from <= |data|
    ensures HexRun(data, base + from) == HexRun(data[base..], from)
    decreases |data| - base - from
  {
    if base + from < |data| {
      assert data[base..][from] == data[base + from];
      HexShifted(data, base, from + 1);
    }
  }

  lemma ScanForeign(s: bytes)
    requires forall i :: 0 <= i < |s| ==> Foreign(s[i])
    ensures Addresses(s, 0) == []
  {
    forall i | 0 <= i < |s| ensures MatchAt(s, i) == 0 {
      NoMatchNear(s, i, i);
    }
    ScanSkips(s, 0, |s|);
  }

  // ----- Round trips --------------------------------------------------------------------------

  /** What follows the twelve bytes before an acknowledgement's addresses. */
  lemma ScanPair(first: bytes, second: bytes)
    requires IsAddress(first) && IsAddress(second)
    ensures Addresses(Terminated(first) + Terminated(second) + [0], 0) == [first, second]
  {
    hide IsAddress, MatchAt, Addresses;
    var rest := Terminated(second) + [0];
    assert [] + Terminated(first) + rest == Terminated(first) + Terminated(second) + [0];
    ScanPast([], first, rest);
    assert [] + Terminated(second) + [0] == rest;
    ScanPast([], second, [0]);
    ScanForeign([0]);
  }

  lemma Assoc3(h: bytes, a: bytes, b: bytes)
    ensures h + a + b + [0] == h + (a + b + [0])
  {
  }

  lemma AckFields(caller: bytes, callee: bytes, timestamp: u32, prefix: u16)
    ensures var data := CallResponseAck(caller, callee, timestamp, prefix);
            && |data| == 12 + |caller| + |callee| + 3
            && data[0..2] == Le16(prefix) && data[2..6] == Le32(timestamp)
            && data[6..8] == Be16(0) && data[8..12] == Wildcard()
            && data[12..] == Terminated(caller) + Terminated(callee) + [0]
  {
    hide Le16, Le32, Be16;
    var data := CallResponseAck(caller, callee, timestamp, prefix);
    var head := Le16(prefix) + Le32(timestamp) + Be16(0) + Wildcard();
    Assoc3(head, Terminated(caller), Terminated(callee));
    assert data == head + (Terminated(caller) + Terminated(callee) + [0]);
  }

  lemma ReadPrefix(data: bytes, prefix: u16, timestamp: u32)
    requires 8 <= |data| && data[0..2] == Le16(prefix) && data[2..6] == Le32(timestamp)
    ensures ReadLe16(data, 0) == prefix && ReadLe32(data, 2) == timestamp
  {
    var p, t := Le16(prefix), Le32(timestamp);
    assert data[0] == p[0] && data[1] == p[1];
    assert data[2] == t[0] && data[3] == t[1] && data[4] == t[2] && data[5] == t[3];
  }

  /** An acknowledgement parses back to its prefix, timestamp, action and exactly its two addresses, as
      long as its first six bytes are not all hexadecimal digits; otherwise they are taken for one. */
  lemma AckRoundTripsExactly(caller: bytes, callee: bytes, timestamp: u32, prefix: u16)
    requires IsAddress(caller) && IsAddress(callee)
    ensures var data := CallResponseAck(caller, callee, timestamp, prefix);
            var parsed := ParseCtpp(data);
            && parsed.Some? && parsed.value.prefix == prefix && parsed.value.timestamp == timestamp
            && parsed.value.action == 0
            && (parsed.value.addresses == [caller, callee] <==> !AllHex(data[0..6]))
            && (AllHex(data[0..6]) ==> parsed.value.addresses == [data[0..6], caller, callee])
  {
    var data := CallResponseAck(caller, callee, timestamp, prefix);
    AckFields(caller, callee, timestamp, prefix);
    ReadPrefix(data, prefix, timestamp);
    AckAction(data);
    hide CallResponseAck, MatchAt, Addresses, IsAddress, Terminated, Le16, Le32, Be16, ReadLe16, ReadLe32, ReadBe16,
         Wildcard, AllHex, CallTag;
    ScanPair(caller, callee);
    AckHeader(data);
  }

  lemma AckAction(data: bytes)
    requires 12 <= |data| && data[6..8] == Be16(0) && data[8..12] == Wildcard()
    ensures data[6] == 0 && ReadBe16(data, 6) == 0
    ensures forall i :: 6 <= i < 12 ==> Foreign(data[i])
  {
    assert data[6] == data[6..8][0] == 0 && data[7] == data[6..8][1] == 0;
    assert forall i :: 8 <= i < 12 ==> data[i] == data[8..12][i - 8];
  }

  /** The header of an acknowledgement is passed over, unless its first six bytes are all digits. */
  lemma AckHeader(data: bytes)
    requires 12 <= |data| && data[6] == 0 && forall i :: 6 <= i < 12 ==> Foreign(data[i])
    ensures Addresses(data, 0) == (if AllHex(data[0..6]) then [data[0..6]] else []) + Addresses(data[12..], 0)
  {
    hide MatchAt, Addresses, AllHex, Foreign;
    ScanSuffix(data, 12);
    HeaderMatches(data);
    if AllHex(data[0..6]) {
      ScanDigits(data);
      ScanSkips(data, 7, 12);
    } else {
      NoFirstSix(data);
      ScanSkips(data, 0, 12);
    }
  }

  lemma HeaderMatches(data: bytes)
    requires 12 <= |data| && forall i :: 6 <= i < 12 ==> Foreign(data[i])
    ensures forall i :: 1 <= i < 12 ==> MatchAt(data, i) == 0
  {
    hide MatchAt, Foreign;
    forall i | 1 <= i < 12 ensures MatchAt(data, i) == 0 {
      NoMatchNear(data, i, if i <= 6 then 6 else i);
    }
  }

  lemma ScanDigits(data: bytes)
    requires 12 <= |data| && data[6] == 0 && AllHex(data[0..6])
    ensures Addresses(data, 0) == [data[0..6]] + Addresses(data, 7)
  {
    hide MatchAt, Addresses, AllHex, IsAddress;
    FirstSix(data);
    ScanTakesFirst(data, data[0..6]);
  }

  lemma ScanTakesFirst(data: bytes, a: bytes)
    requires |a| == 6 && 6 < |data| && IsAddress(a) && data[0..6] == a && data[6] == 0
    ensures Addresses(data, 0) == [a] + Addresses(data, 7)
  {
    hide MatchAt, Addresses, IsAddress;
    ScanTakes(data, 0, a);
  }

  lemma FirstSix(data: bytes)
    requires 6 <= |data| && AllHex(data[0..6])
    ensures IsAddress(data[0..6])
  {
    assert IsHex(data[0..6][0]);
    assert data[0..6][0] != S;
  }

  lemma NoFirstSix(data: bytes)
    requires 8 <= |data| && !AllHex(data[0..6]) && data[6] == 0
    ensures MatchAt(data, 0) == 0
  {
    hide MatchAt;
    if MatchAt(data, 0) > 0 {
      MatchIsAddress(data, 0);
      var n := MatchAt(data, 0);
      var a := data[..n];
      assert a == data[0..0 + n];
      if n > 6 {
        AddressBytes(a, 6);
      } else {
        AddressNotEmpty(a);
      }
    }
  }

  /** In particular under the prefixes the program sends. */
  lemma AckRoundTrips(caller: bytes, callee: bytes, timestamp: u32, prefix: u16)
    requires IsAddress(caller) && IsAddress(callee) && prefix in {0x1800, 0x1820, 0x1840, 0x1860}
    ensures var parsed := ParseCtpp(CallResponseAck(caller, callee, timestamp, prefix));
            && parsed.Some? && parsed.value.prefix == prefix && parsed.value.timestamp == timestamp
            && parsed.value.action == 0 && parsed.value.addresses == [caller, callee]
  {
    var data := CallResponseAck(caller, callee, timestamp, prefix);
    AckRoundTripsExactly(caller, callee, timestamp, prefix);
    AckFields(caller, callee, timestamp, prefix);
    assert data[0..6][1] == data[0..2][1] == 0x18;
  }

  /** An init message parses back to its timestamp and the full address twice and the base once. */
  lemma InitRoundTrips(full: bytes, base: bytes, timestamp: u32)
    requires IsAddress(full) && IsAddress(base)
    ensures var parsed := ParseCtpp(CtppInit(full, base, timestamp));
            && parsed.Some? && parsed.value.prefix == 0x18C0 && parsed.value.timestamp == timestamp
            && parsed.value.addresses == [full, full, base]
  {
    var head := Le16(0x18C0) + Le32(timestamp) + InitFlags();
    var pair := Terminated(full) + Terminated(base) + [0];
    var tail := InitSeparator() + pair;
    var data := head + Terminated(full) + tail;
    InitShape(full, base, timestamp);
    InitHeader(Terminated(full) + tail, timestamp);
    hide IsAddress, MatchAt, Addresses, Terminated, Le16, Le32, InitFlags, InitSeparator, CtppInit, ReadLe16,
         ReadLe32, ReadBe16, CallTag;
    Associative(head, Terminated(full), tail);
    ScanPast(head, full, tail);
    SeparatorSkipped(pair);
    ScanPair(full, base);
  }

  lemma InitHeader(rest: bytes, timestamp: u32)
    ensures var data := Le16(0x18C0) + Le32(timestamp) + InitFlags() + rest;
            && ReadLe16(data, 0) == 0x18C0 && ReadLe32(data, 2) == timestamp
            && forall i :: 0 <= i < 12 ==> MatchAt(data, i) == 0
  {
    var data := Le16(0x18C0) + Le32(timestamp) + InitFlags() + rest;
    assert data[0..2] == Le16(0x18C0) && data[2..6] == Le32(timestamp);
    assert data[1] == data[0..2][1] == 0x18;
    assert forall i :: 6 <= i < 12 ==> data[i] == InitFlags()[i - 6];
    ReadPrefix(data, 0x18C0, timestamp);
    hide MatchAt, Le16, Le32;
    forall i | 0 <= i < 12 ensures MatchAt(data, i) == 0 {
      NoMatchNear(data, i, if i <= 1 then 1 else if i <= 6 then 6 else i);
    }
  }

  lemma InitShape(full: bytes, base: bytes, timestamp: u32)
    ensures CtppInit(full, base, timestamp)
            == Le16(0x18C0) + Le32(timestamp) + InitFlags() + Terminated(full)
               + (InitSeparator() + (Terminated(full) + Terminated(base) + [0]))
  {
    hide Le16, Le32, Terminated;
    var head := Le16(0x18C0) + Le32(timestamp) + InitFlags() + Terminated(full);
    Assoc3(head + InitSeparator(), Terminated(full), Terminated(base));
    Associative(head, InitSeparator(), Terminated(full) + Terminated(base) + [0]);
  }

  lemma SeparatorSkipped(rest: bytes)
    ensures Addresses(InitSeparator() + rest, 0) == Addresses(rest, 0)
  {
    var data := InitSeparator() + rest;
    forall i | 0 <= i < 10 ensures MatchAt(data, i) == 0 {
      assert data[i] == InitSeparator()[i];
      NoMatchNear(data, i, i);
    }
    hide MatchAt, Addresses;
    ScanSkips(data, 0, 10);
    ScanSuffix(data, 10);
    assert data[10..] == rest;
  }

  predicate WildcardAt(data: bytes, i: nat)
  {
    i + 4 <= |data| && data[i..i + 4] == [0xFF, 0xFF, 0xFF, 0xFF]
  }

  /** The origin tag is the two bytes before the first run of four 0xFF bytes, if there is one with two bytes
      before it. */
  lemma CallTagExactly(data: bytes, marker: nat)
    requires marker <= |data| && forall i :: 0 <= i < marker ==> !WildcardAt(data, i)
    requires marker < |data| ==> WildcardAt(data, marker)
    ensures CallTag(data)
            == if marker == |data| || marker < 2 then None else Some([data[marker - 2], data[marker - 1]])
  {
    FindsFirst(data, 0, marker);
    if 2 <= marker < |data| {
      assert data[marker - 2..marker] == [data[marker - 2], data[marker - 1]];
    }
  }

  lemma {:induction false} FindsFirst(data: bytes, from: nat, marker: nat)
    requires from <= marker <= |data| && forall i :: from <= i < marker ==> !WildcardAt(data, i)
    requires marker < |data| ==> WildcardAt(data, marker)
    ensures FindWildcard(data, from) == if marker < |data| then Some(marker) else None
    decreases marker - from
  {
    if from < marker {
      assert !WildcardAt(data, from);
      FindsFirst(data, from + 1, marker);
    }
  }

  /** The messages byte by byte; `t` and `p` are the bytes of timestamp and prefix, lowest first. */
  lemma MessageLayout(full: bytes, base: bytes, t: bytes, p: bytes)
    requires |t| == 4 && |p| == 2
    ensures var timestamp := ByteAt(t, 0) + 0x100 * ByteAt(t, 1) + 0x1_0000 * ByteAt(t, 2) + 0x100_0000 * ByteAt(t, 3);
            CtppInit(full, base, timestamp)
            == [0xC0, 0x18] + t + [0x00, 0x11, 0x00, 0x40, 0x18, 0xC2] + (full + [0])
               + [0x10, 0x0E, 0x00, 0x00, 0x00, 0x00, 0xFF, 0xFF, 0xFF, 0xFF] + (full + [0]) + (base + [0]) + [0]
    ensures var timestamp := ByteAt(t, 0) + 0x100 * ByteAt(t, 1) + 0x1_0000 * ByteAt(t, 2) + 0x100_0000 * ByteAt(t, 3);
            CallResponseAck(full, base, timestamp, ByteAt(p, 0) + 0x100 * ByteAt(p, 1))
            == p + t + [0, 0] + [0xFF, 0xFF, 0xFF, 0xFF] + (full + [0]) + (base + [0]) + [0]
  {
    LowestFirst(t[..2]);
    LowestFirst(t[2..]);
    LowestFirst(p);
    LowestFirst([0xC0, 0x18]);
    var timestamp := ByteAt(t, 0) + 0x100 * ByteAt(t, 1) + 0x1_0000 * ByteAt(t, 2) + 0x100_0000 * ByteAt(t, 3);
    HalvesOf(ByteAt(t, 0) + 0x100 * ByteAt(t, 1), ByteAt(t, 2) + 0x100 * ByteAt(t, 3));
    hide Le16;
    assert t[..2] + t[2..] == t;
    assert Le32(timestamp) == t;
  }

  lemma LowestFirst(s: bytes)
    requires |s| == 2
    ensures Le16(ByteAt(s, 0) + 0x100 * ByteAt(s, 1)) == s
  {
  }

  lemma HalvesOf(low: u16, high: u16)
    ensures (low + 0x1_0000 * high) % 0x1_0000 == low && (low + 0x1_0000 * high) / 0x1_0000 == high
  {
  }

  // ----- The addresses of a renewal acknowledgement -----------------------------------------------

  predicate Repeated(addresses: seq<bytes>, a: bytes) { multiset(addresses)[a] >= 2 }

  predicate Solo(addresses: seq<bytes>, a: bytes) { multiset(addresses)[a] == 1 }

  /** Whether the addresses may resolve to the pair. The program walks a hash set, so where several
      addresses qualify any of them may be chosen. */
  ghost predicate MayResolve(addresses: seq<bytes>, configFull: bytes, configBase: bytes, caller: bytes, callee: bytes)
  {
    if && |addresses| >= 2
       && (exists a :: a in addresses && Repeated(addresses, a))
       && (exists a :: a in addresses && Solo(addresses, a)) then
      caller in addresses && Repeated(addresses, caller) && callee in addresses && Solo(addresses, callee)
    else if |addresses| >= 2 && (exists a, b :: a in addresses && b in addresses && a != b) then
      && caller in addresses && callee in addresses && caller != callee
      && forall a :: a in addresses ==> |callee| <= |a| <= |caller|
    else caller == configFull && callee == configBase
  }

  /** A renewal that repeats the init's addresses resolves to full and base, and to nothing else. */
  lemma InitResolves(full: bytes, base: bytes, timestamp: u32, configFull: bytes, configBase: bytes,
                     caller: bytes, callee: bytes)
    requires IsAddress(full) && IsAddress(base) && full != base
    ensures var parsed := ParseCtpp(CtppInit(full, base, timestamp));
            && parsed.Some?
            && (MayResolve(parsed.value.addresses, configFull, configBase, caller, callee)
                <==> caller == full && callee == base)
  {
    InitRoundTrips(full, base, timestamp);
    hide ParseCtpp, CtppInit, IsAddress;
    var addresses := [full, full, base];
    assert addresses[0] == full && addresses[2] == base;
    assert multiset(addresses) == multiset{full, full, base};
    assert Repeated(addresses, full) && Solo(addresses, base);
  }

  /** Two addresses that each occur once resolve to the longer and the shorter, in either order; fewer than two
      resolve to the configured pair. */
  lemma PairResolvesByLength(a: bytes, b: bytes, configFull: bytes, configBase: bytes, caller: bytes, callee: bytes)
    requires |b| < |a|
    ensures MayResolve([a, b], configFull, configBase, caller, callee) <==> caller == a && callee == b
    ensures MayResolve([b, a], configFull, configBase, caller, callee) <==> caller == a && callee == b
    ensures MayResolve([a], configFull, configBase, caller, callee) <==> caller == configFull && callee == configBase
    ensures MayResolve([], configFull, configBase, caller, callee) <==> caller == configFull && callee == configBase
  {
    OncePair(a, b, configFull, configBase, caller, callee);
    OncePair(b, a, configFull, configBase, caller, callee);
  }

  lemma OncePair(a: bytes, b: bytes, configFull: bytes, configBase: bytes, caller: bytes, callee: bytes)
    requires |a| != |b|
    ensures MayResolve([a, b], configFull, configBase, caller, callee)
            <==> (caller == a && callee == b && |b| < |a|) || (caller == b && callee == a && |a| < |b|)
  {
    var addresses := [a, b];
    assert addresses[0] == a && addresses[1] == b;
    assert a in addresses && b in addresses && a != b;
    assert multiset(addresses) == multiset{a, b};
    assert forall c :: c in addresses ==> (c == a || c == b) && !Repeated(addresses, c);
    hide Repeated, Solo;
  }
}
