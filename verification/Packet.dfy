/** Packets of the RTno protocol and the bytes they are on the line. */
module Packet {
  import opened Bytes

  const PACKET_HEADER_SIZE := 3
  const MARKER: byte := 0x0a

  // RESULT codes.
  const OK: byte := 0x40
  const ERR: byte := 0x78
  const TIMEOUT: byte := 1
  const CHECKSUM_ERROR: byte := 3
  const PACKET_START_TIMEOUT: byte := 0x53
  const PACKET_HEADER_TIMEOUT: byte := 0x54
  const PACKET_BODY_TIMEOUT: byte := 0x55
  const PACKET_CHECKSUM_TIMEOUT: byte := 0x43

  // COMMAND codes.
  const ACTIVATE: byte := 0x41
  const DEACTIVATE: byte := 0x44
  const EXECUTE: byte := 0x45
  const GET_STATE: byte := 0x58
  const GET_CONTEXT_TYPE: byte := 0x42
  const GET_PROFILE: byte := 0x5a
  const INPORT_PROFILE: byte := 0x50
  const OUTPORT_PROFILE: byte := 0x51
  const SEND_DATA: byte := 0x53
  const RECEIVE_DATA: byte := 0x47
  const PACKET_ERROR: byte := 0x46
  const PACKET_ERROR_CHECKSUM: byte := 0x48
  const PACKET_ERROR_TIMEOUT: byte := 0x4b

  datatype Packet = Packet(command: byte, result: byte, data: seq<byte>) {
    predicate Valid() {
      |data| < 256
    }

    function Serialized(): seq<byte>
      requires Valid()
    {
      [command, result, |data|] + data
    }

    /** getPacketLength returns a uint8_t: it wraps from 253 data bytes on. */
    function Length(): nat
      requires Valid()
    {
      Truncated(PACKET_HEADER_SIZE + |data|)
    }

    /** The bytes that are sent and summed. */
    function Body(): seq<byte>
      requires Valid()
    {
      Serialized()[..Length()]
    }

    function Frame(): seq<byte>
      requires Valid()
    {
      [MARKER, MARKER] + Body() + [Sum(Body())]
    }
  }

  function Sum(bytes: seq<byte>): byte {
    if bytes == [] then 0 else Truncated(Sum(bytes[..|bytes| - 1]) + bytes[|bytes| - 1])
  }

  /** The bytes added up without a bound. */
  function Total(bytes: seq<byte>): nat {
    if bytes == [] then 0 else bytes[0] + Total(bytes[1..])
  }

  /** packet_t: the three header bytes and the data in one buffer. */
  class PacketT {
    var pData: array<byte>

    ghost predicate Valid()
      reads this, pData
    {
      pData.Length >= PACKET_HEADER_SIZE && pData.Length == PACKET_HEADER_SIZE + pData[2]
    }

    function Value(): (p: Packet)
      requires Valid()
      reads this, pData
      ensures p.Valid()
    {
      Packet(pData[0], pData[1], pData[PACKET_HEADER_SIZE..])
    }

    constructor (command: byte, result: byte, data: seq<byte>)
      requires |data| < 256
      ensures Valid() && fresh(pData) && Value() == Packet(command, result, data)
    {
      pData := new byte[PACKET_HEADER_SIZE + |data|](i requires 0 <= i < PACKET_HEADER_SIZE + |data| =>
        if i == 0 then command else if i == 1 then result else if i == 2 then |data| else data[i - PACKET_HEADER_SIZE]);
    }

    /** operator=: a fresh buffer, filled from the other packet. */
    method Assign(p: PacketT)
      requires Valid() && p.Valid() && p != this
      modifies this
      ensures Valid() && fresh(pData) && Value() == old(p.Value())
    {
      var copy := new PacketT(p.pData[0], p.pData[1], p.pData[PACKET_HEADER_SIZE..]);
      pData := copy.pData;
    }

    method GetPacketLength() returns (n: byte)
      requires Valid()
      ensures n == Value().Length()
    {
      n := Truncated(PACKET_HEADER_SIZE + pData[2]);
    }

    method GetSum() returns (sum: byte)
      requires Valid()
      ensures sum == Sum(Value().Body()) == Total(Value().Body()) % 256
    {
      sum := 0;
      var length := GetPacketLength();
      assert pData[..] == Value().Serialized();
      var i := 0;
      while i < length
        invariant 0 <= i <= length && sum == Sum(pData[..i])
      {
        assert pData[..i + 1][..i] == pData[..i];
        sum := Truncated(sum + pData[i]);
        i := i + 1;
      }
      assert pData[..length] == Value().Body();
      SumIsTotal(Value().Body());
    }
  }

  /** Up to 252 data bytes nothing wraps. */
  lemma ShortBody(p: Packet)
    requires |p.data| <= 252
    ensures p.Body() == p.Serialized() && p.Length() == PACKET_HEADER_SIZE + |p.data|
  {
  }

  lemma {:induction false} TotalAppend(bytes: seq<byte>, b: byte)
    ensures Total(bytes + [b]) == Total(bytes) + b
  {
    if bytes != [] {
      assert (bytes + [b])[1..] == bytes[1..] + [b];
      TotalAppend(bytes[1..], b);
    }
  }

  lemma TotalPrepend(b: byte, bytes: seq<byte>)
    ensures Total([b] + bytes) == b + Total(bytes)
  {
    assert ([b] + bytes)[1..] == bytes;
  }

  /** The checksum is the plain sum of the bytes, from zero on, in eight bits. */
  lemma {:induction false} SumIsTotal(bytes: seq<byte>)
    ensures Sum(bytes) == Total(bytes) % 256
  {
    if bytes != [] {
      var last := |bytes| - 1;
      SumIsTotal(bytes[..last]);
      assert bytes == bytes[..last] + [bytes[last]];
      TotalAppend(bytes[..last], bytes[last]);
      TruncatedSum(Total(bytes[..last]), bytes[last]);
    }
  }

  /** A packet on the line, byte by byte, as long as its length does not wrap. */
  lemma FrameBytes(p: Packet)
    requires |p.data| <= 252
    ensures p.Frame() == [0x0a, 0x0a, p.command, p.result, |p.data|] + p.data
                         + [(p.command + p.result + |p.data| + Total(p.data)) % 256]
  {
    var body := p.Body();
    ShortBody(p);
    SumIsTotal(body);
    TotalPrepend(|p.data|, p.data);
    TotalPrepend(p.result, [|p.data|] + p.data);
    TotalPrepend(p.command, [p.result] + ([|p.data|] + p.data));
    assert body == [p.command] + ([p.result] + ([|p.data|] + p.data));
  }

  lemma TruncatedSum(x: int, y: int)
    ensures Truncated(Truncated(x) + y) == Truncated(x + y)
  {
    assert x + y == x % 256 + y + 256 * (x / 256);
  }

  lemma {:induction false} SumOfUpdate(bytes: seq<byte>, i: nat, b: byte)
    requires i < |bytes|
    ensures Sum(bytes[i := b]) == Truncated(Sum(bytes) + (b - bytes[i]))
  {
    var last := |bytes| - 1;
    var before := Sum(bytes[..last]);
    if i == last {
      assert bytes[i := b][..last] == bytes[..last];
      TruncatedSum(before + bytes[last], b - bytes[last]);
    } else {
      assert bytes[i := b][..last] == bytes[..last][i := b];
      SumOfUpdate(bytes[..last], i, b);
      TruncatedSum(before + (b - bytes[i]), bytes[last]);
      TruncatedSum(before + bytes[last], b - bytes[i]);
    }
  }

  /** One changed byte changes the sum. */
  lemma SumDetectsChange(bytes: seq<byte>, i: nat, b: byte)
    requires i < |bytes| && bytes[i] != b
    ensures Sum(bytes[i := b]) != Sum(bytes)
  {
    hide Sum;
    SumOfUpdate(bytes, i, b);
  }
}
