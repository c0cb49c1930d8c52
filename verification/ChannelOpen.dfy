/** The body of a channel-open command, and how the dispatcher recovers the opener's request id from
    one that the device sent. */
module ChannelOpen {
  import opened Bytes

  const COMMAND: u16 := 0xABCD
  const NAME_START := 8

  /** Type, sequence and server channel id of a command; the id is 0 when the body is too short. */
  datatype Command = Command(kind: u16, number: u16, channelId: u16)

  function ParseCommandResponse(body: bytes): Command
    requires 4 <= |body|
  {
    Command(ReadLe16(body, 0), ReadLe16(body, 2), if 10 <= |body| then ReadLe16(body, 8) else 0)
  }

  /** The first zero byte at or after `from`. */
  function IndexOfZero(body: bytes, from: nat): (at: Option<nat>)
    requires from <= |body|
    ensures at.Some? ==> from <= at.value < |body| && body[at.value] == 0
    ensures at.Some? ==> forall i :: from <= i < at.value ==> body[i] != 0
    ensures at.None? ==> forall i :: from <= i < |body| ==> body[i] != 0
    decreases |body| - from
  {
    if from == |body| then None
    else if body[from] == 0 then Some(from)
    else IndexOfZero(body, from + 1)
  }

  /** The dispatcher's scan: the two bytes after the name's terminator, or, if there is none or the
      body ends too early, the two bytes before the last. */
  function DeviceRequestId(body: bytes): u16
    requires 10 <= |body|
  {
    match IndexOfZero(body, NAME_START)
    case Some(nameEnd) =>
      if nameEnd + 3 <= |body| then ReadLe16(body, nameEnd + 1) else ReadLe16(body, |body| - 3)
    case None => ReadLe16(body, |body| - 3)
  }

  /** The body our own encoder builds, without extra data: the name is not terminated. */
  function OpenBody(name: bytes, channelType: u32, number: u16, requestId: u16, trailing: byte): (body: bytes)
    ensures |body| == NAME_START + |name| + 3
    ensures ParseCommandResponse(body).kind == COMMAND && ParseCommandResponse(body).number == number
    ensures forall i :: 0 <= i < |name| ==> body[NAME_START + i] == name[i]
    ensures ReadLe16(body, |body| - 3) == requestId && body[|body| - 1] == trailing
  {
    var body := Le16(COMMAND) + Le16(number) + Le32(channelType) + name + Le16(requestId) + [trailing];
    assert body[0..2] == Le16(COMMAND) && body[2..4] == Le16(number);
    assert body[0] == Le16(COMMAND)[0] && body[1] == Le16(COMMAND)[1];
    assert body[2] == Le16(number)[0] && body[3] == Le16(number)[1];
    assert body[|body| - 3..|body| - 1] == Le16(requestId);
    assert body[|body| - 3] == Le16(requestId)[0] && body[|body| - 2] == Le16(requestId)[1];
    body
  }

  predicate ZeroFree(name: bytes) { forall i :: 0 <= i < |name| ==> name[i] != 0 }

  lemma {:induction false} FindsZeroAt(body: bytes, from: nat, at: nat)
    requires from <= at < |body| && body[at] == 0
    requires forall i :: from <= i < at ==> body[i] != 0
    ensures IndexOfZero(body, from) == Some(at)
  {
    var found := IndexOfZero(body, from);
    assert found.Some? && found.value == at;
  }

  /** From a body whose name is terminated any request id is recovered. */
  lemma TerminatedNameRecovers(head: bytes, name: bytes, requestId: u16, rest: bytes)
    requires |head| == NAME_START && ZeroFree(name)
    ensures 10 <= |head + name + [0] + Le16(requestId) + rest|
    ensures DeviceRequestId(head + name + [0] + Le16(requestId) + rest) == requestId
  {
    var body := head + name + [0] + Le16(requestId) + rest;
    var nameEnd := NAME_START + |name|;
    assert forall i :: NAME_START <= i < nameEnd ==> body[i] == name[i - NAME_START];
    FindsZeroAt(body, NAME_START, nameEnd);
    assert body[nameEnd + 1..nameEnd + 3] == Le16(requestId);
    assert body[nameEnd + 1] == Le16(requestId)[0] && body[nameEnd + 2] == Le16(requestId)[1];
  }

  /** From an unterminated body, such as our own encoder builds, the id is recovered exactly when its
      low byte is not zero, or both the id and the trailing byte are. */
  lemma UnterminatedNameRecoversExactly(name: bytes, channelType: u32, number: u16, requestId: u16, trailing: byte)
    requires name != [] && ZeroFree(name)
    ensures DeviceRequestId(OpenBody(name, channelType, number, requestId, trailing)) == requestId
            <==> requestId % 0x100 != 0 || (requestId == 0 && trailing == 0)
  {
    hide OpenBody;
    var body := OpenBody(name, channelType, number, requestId, trailing);
    var end := NAME_START + |name|;
    assert forall i :: NAME_START <= i < end ==> body[i] == name[i - NAME_START];
    assert body[end] == requestId % 0x100 && body[end + 1] == requestId / 0x100;
    if requestId % 0x100 == 0 {
      FindsZeroAt(body, NAME_START, end);
    } else if requestId / 0x100 == 0 {
      FindsZeroAt(body, NAME_START, end + 1);
    } else if trailing == 0 {
      FindsZeroAt(body, NAME_START, end + 2);
    }
  }
}
