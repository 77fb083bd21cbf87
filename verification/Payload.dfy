/** What travels inside SEND_DATA and RECEIVE_DATA packets, from named port data to typed values. */
module Payload {
  import opened Bytes
  import opened Options
  import opened Packet
  import opened Transport
  import opened Protocol
  import opened Exchanges

  const BUFFER_SIZE := 64

  /** Name length, data length, name, data. */
  function PortPayload(name: seq<byte>, data: seq<byte>): seq<byte> {
    [Truncated(|name|), Truncated(|data|)] + name + data
  }

  /** send_inport_data's fixed buffer, filled piece by piece. */
  method FillSendBuffer(name: seq<byte>, data: seq<byte>) returns (buffer: array<byte>)
    requires 2 + |name| + |data| <= BUFFER_SIZE
    ensures fresh(buffer) && buffer.Length == BUFFER_SIZE
    ensures buffer[..2 + |name| + |data|] == PortPayload(name, data)
  {
    buffer := new byte[BUFFER_SIZE];
    buffer[0] := Truncated(|name|);
    buffer[1] := Truncated(|data|);
    forall i | 0 <= i < |name| {
      buffer[2 + i] := name[i];
    }
    forall i | 0 <= i < |data| {
      buffer[2 + |name| + i] := data[i];
    }
  }

  /** The reply's result field, if there is a reply. */
  function SendOutcome(r: ResultT<Packet>): Outcome<byte> {
    if r.result != OK then Done(Bad(ERR))
    else if r.value.None? then OutOfContract
    else Done(Good(r.value.value.result))
  }

  /** The frame of a SEND_DATA request: the name's length, the data's length, the name, the data. */
  function SendRequestBytes(name: seq<byte>, data: seq<byte>): seq<byte>
    requires 2 + |name| + |data| <= BUFFER_SIZE
  {
    [0x0a, 0x0a, 0x53, 0x40, 2 + |name| + |data|, |name|, |data|] + name + data
    + [(0x53 + 0x40 + (2 + |name| + |data|) + (|name| + (|data| + (Total(name) + Total(data))))) % 256]
  }

  lemma SendRequestFrame(name: seq<byte>, data: seq<byte>)
    requires 2 + |name| + |data| <= BUFFER_SIZE
    ensures Packet(SEND_DATA, OK, PortPayload(name, data)).Frame() == SendRequestBytes(name, data)
  {
    hide Packet.Frame, Total;
    var p := Packet(SEND_DATA, OK, PortPayload(name, data));
    FrameBytes(p);
    TotalConcat(name, data);
    TotalPrepend(|data|, name + data);
    TotalPrepend(|name|, [|data|] + (name + data));
    assert p.data == [|name|] + ([|data|] + (name + data));
  }

  function ReceiveRequestBytes(name: seq<byte>, stack: byte): seq<byte>
    requires 2 + |name| <= BUFFER_SIZE
  {
    [0x0a, 0x0a, 0x47, 0x40, 2 + |name|, |name|, stack] + name
    + [(0x47 + 0x40 + (2 + |name|) + (|name| + (stack + Total(name)))) % 256]
  }

  lemma ReceiveRequestFrame(name: seq<byte>, stack: byte)
    requires 2 + |name| <= BUFFER_SIZE
    ensures Packet(RECEIVE_DATA, OK, [Truncated(|name|), stack] + name).Frame() == ReceiveRequestBytes(name, stack)
  {
    hide Packet.Frame, Total;
    var p := Packet(RECEIVE_DATA, OK, [Truncated(|name|), stack] + name);
    FrameBytes(p);
    TotalPrepend(stack, name);
    TotalPrepend(|name|, [stack] + name);
    assert p.data == [|name|] + ([stack] + name);
  }

  lemma {:induction false} TotalConcat(a: seq<byte>, b: seq<byte>)
    ensures Total(a + b) == Total(a) + Total(b)
  {
    if a == [] {
      assert [] + b == b;
    } else {
      assert (a + b)[1..] == a[1..] + b;
      TotalConcat(a[1..], b);
    }
  }

  lemma ReplyKeepsTx(d: Device, command: byte)
    ensures ReplyTo(d, command).1.tx == d.tx
  {
    hide NextPacket;
    NextPacketConsumes(d);
    ReplyIsOkIff(d, command);
  }

  method SendInportData(protocol: ProtocolT, name: seq<byte>, data: seq<byte>) returns (r: Outcome<byte>)
    requires 2 + |name| + |data| <= BUFFER_SIZE
    modifies protocol.transport.device
    ensures var before := old(protocol.transport.device.State());
            var (reply, after) := ReplyTo(AfterSend(before, Packet(SEND_DATA, OK, PortPayload(name, data))), SEND_DATA);
            r == SendOutcome(reply) && protocol.transport.device.State() == after
    ensures protocol.transport.device.tx == old(protocol.transport.device.tx) + SendRequestBytes(name, data)
  {
    ghost var start := AfterSend(protocol.transport.device.State(), Packet(SEND_DATA, OK, PortPayload(name, data)));
    SendRequestFrame(name, data);
    ReplyKeepsTx(start, SEND_DATA);
    hide Packet.Frame, ReplyTo;
    var buffer := FillSendBuffer(name, data);
    var packet := new PacketT(SEND_DATA, OK, buffer[..2 + |name| + |data|]);
    protocol.transport.Send(packet);
    var reply := protocol.WaitAndReceiveCommand(SEND_DATA);
    r := SendOutcome(reply);
  }

  /** The result field of the reply, the size it announced, and what was copied out. */
  datatype Received = Received(result: byte, sizeRead: byte, copied: Option<seq<byte>>)

  /**
   What receive_outport_data takes from a reply: both lengths pass through int8_t, the second goes on
   to a uint8_t. More than fits is reported and not copied, with the reply's result unchanged.
   */
  function DecodeOutport(p: Packet, maxSize: byte): Outcome<Received> {
    if |p.data| < 2 then OutOfContract
    else
      var nameLen := Signed(p.data[0]);
      var sizeRead := Truncated(Signed(p.data[1]));
      if sizeRead > maxSize then Done(Good(Received(p.result, sizeRead, None)))
      else if 0 <= 2 + nameLen && 2 + nameLen + sizeRead <= |p.data| then
        Done(Good(Received(p.result, sizeRead, Some(p.data[2 + nameLen..2 + nameLen + sizeRead]))))
      else OutOfContract
  }

  function ReceiveOutcome(r: ResultT<Packet>, maxSize: byte): Outcome<Received> {
    if r.result != OK then Done(Bad(ERR))
    else if r.value.None? then OutOfContract
    else DecodeOutport(r.value.value, maxSize)
  }

  /** The request names the port; its data length byte is whatever the stack held. */
  method ReceiveOutportData(protocol: ProtocolT, name: seq<byte>, maxSize: byte, stack: byte) returns (r: Outcome<Received>)
    requires 2 + |name| <= BUFFER_SIZE
    modifies protocol.transport.device
    ensures var before := old(protocol.transport.device.State());
            var request := Packet(RECEIVE_DATA, OK, [Truncated(|name|), stack] + name);
            var (reply, after) := ReplyTo(AfterSend(before, request), RECEIVE_DATA);
            r == ReceiveOutcome(reply, maxSize) && protocol.transport.device.State() == after
    ensures protocol.transport.device.tx == old(protocol.transport.device.tx) + ReceiveRequestBytes(name, stack)
  {
    ghost var start := AfterSend(protocol.transport.device.State(),
                                 Packet(RECEIVE_DATA, OK, [Truncated(|name|), stack] + name));
    ReceiveRequestFrame(name, stack);
    ReplyKeepsTx(start, RECEIVE_DATA);
    hide Packet.Frame, ReplyTo;
    var packet := new PacketT(RECEIVE_DATA, OK, [Truncated(|name|), stack] + name);
    protocol.transport.Send(packet);
    var reply := protocol.WaitAndReceiveCommand(RECEIVE_DATA);
    r := ReceiveOutcome(reply, maxSize);
  }

  /** What send_inport_data makes of the reply on the line: its result, whatever that is, or an error. */
  lemma SendOutcomeOnTheLine(d: Device, p: Packet, tail: seq<byte>)
    requires |p.data| <= 252 && d.rx == p.Frame() + tail
    ensures SendOutcome(ReplyTo(d, SEND_DATA).0) ==
      if p.command == 0x53 then Done(Good(p.result))
      else if p.command == 0x46 && p.result == 0x40 then OutOfContract
      else Done(Bad(0x78))
  {
    hide Packet.Frame, ReplyTo;
    ReplyOnTheLine(d, SEND_DATA, p, tail);
  }

  /** No more bytes are copied than the caller has room for, and none at all exactly if more are announced. */
  lemma NeverMoreThanMax(p: Packet, maxSize: byte)
    ensures DecodeOutport(p, maxSize).Done? ==>
              var r := DecodeOutport(p, maxSize).r;
              && r.result == 0x40 && r.value.Some? && r.value.value.result == p.result
              && r.value.value.sizeRead == p.data[1]
              && (r.value.value.copied.None? <==> p.data[1] > maxSize)
              && (r.value.value.copied.Some? ==> |r.value.value.copied.value| == p.data[1] <= maxSize)
    ensures |p.data| >= 2 && p.data[1] > maxSize ==> DecodeOutport(p, maxSize).Done?
  {
  }

  /**
   A payload built on one side, framed, received and decoded on the other yields the same data bytes
   exactly when the name is short enough for its length to stay positive as an int8_t.
   */
  lemma PayloadRoundTripIff(d: Device, command: byte, result: byte, name: seq<byte>, data: seq<byte>, maxSize: byte)
    requires 2 + |name| + |data| <= 252 && |data| <= maxSize
    requires d.rx == Packet(command, result, PortPayload(name, data)).Frame()
    ensures var r := NextPacket(d).0;
            && r.value.Some?
            && (DecodeOutport(r.value.value, maxSize) == Done(Good(Received(result, |data|, Some(data)))) <==> |name| < 128)
  {
    var p := Packet(command, result, PortPayload(name, data));
    FrameRoundTripIff(p, d);
    PayloadDecodesIff(p, name, data, maxSize);
  }

  lemma PayloadDecodesIff(p: Packet, name: seq<byte>, data: seq<byte>, maxSize: byte)
    requires p.data == PortPayload(name, data) && |p.data| <= 252 && |data| <= maxSize
    ensures DecodeOutport(p, maxSize) == Done(Good(Received(p.result, |data|, Some(data)))) <==> |name| < 128
  {
    assert p.data[0] == |name| && p.data[1] == |data|;
    assert p.data[2 + |name|..2 + |name| + |data|] == data;
  }

  /** Within the 64-byte buffers that is always so. */
  lemma EndToEnd(d: Device, name: seq<byte>, data: seq<byte>, result: byte, maxSize: byte)
    requires 2 + |name| + |data| <= BUFFER_SIZE && |data| <= maxSize
    requires d.rx == Packet(RECEIVE_DATA, result, PortPayload(name, data)).Frame()
    ensures ReceiveOutcome(ReplyTo(d, RECEIVE_DATA).0, maxSize) == Done(Good(Received(result, |data|, Some(data))))
  {
    var p := Packet(RECEIVE_DATA, result, PortPayload(name, data));
    FrameRoundTripIff(p, d);
    PayloadDecodesIff(p, name, data, maxSize);
  }

  // Typed values.

  /** The bytes of consecutive values, as the sender lays them out. */
  function Encoded<T>(values: seq<T>, bytesOf: T -> seq<byte>): seq<byte> {
    if values == [] then [] else bytesOf(values[0]) + Encoded(values[1..], bytesOf)
  }

  function Elements<T>(buf: seq<byte>, width: nat, valueOf: seq<byte> -> T): (values: seq<T>)
    requires width > 0
    decreases |buf|
  {
    if |buf| < width then [] else [valueOf(buf[..width])] + Elements(buf[width..], width, valueOf)
  }

  /** into_vec: one value per whole element, each read at its own offset. */
  method IntoVec<T>(buf: seq<byte>, width: nat, valueOf: seq<byte> -> T) returns (val: seq<T>)
    requires width > 0
    ensures |val| == |buf| / width && val == Elements(buf, width, valueOf)
  {
    var length := |buf| / width;
    val := [];
    var i := 0;
    while i < length
      invariant 0 <= i <= length && |val| == i && 0 <= i * width <= |buf|
      invariant val + Elements(buf[i * width..], width, valueOf) == Elements(buf, width, valueOf)
    {
      OffsetInRange(|buf|, width, i);
      NextElement(buf, i * width, width, valueOf);
      var value := valueOf(buf[i * width..i * width + width]);
      assert val + ([value] + Elements(buf[i * width + width..], width, valueOf))
          == (val + [value]) + Elements(buf[i * width + width..], width, valueOf);
      val := val + [value];
      i := i + 1;
    }
    LastOffset(|buf|, width);
    assert Elements(buf[i * width..], width, valueOf) == [];
  }

  lemma NextElement<T>(buf: seq<byte>, offset: nat, width: nat, valueOf: seq<byte> -> T)
    requires width > 0 && offset + width <= |buf|
    ensures Elements(buf[offset..], width, valueOf)
         == [valueOf(buf[offset..offset + width])] + Elements(buf[offset + width..], width, valueOf)
  {
    assert buf[offset..][..width] == buf[offset..offset + width];
    assert buf[offset..][width..] == buf[offset + width..];
  }

  lemma OffsetInRange(size: nat, width: nat, i: nat)
    requires width > 0 && i < size / width
    ensures i * width <= (i + 1) * width == i * width + width <= size
  {
    var q := size / width;
    assert q * width <= size;
    TimesAtMost(i + 1, q, width);
  }

  lemma {:induction false} TimesAtMost(a: nat, b: nat, c: nat)
    requires a <= b
    ensures a * c <= b * c
  {
    if a < b {
      TimesAtMost(a, b - 1, c);
      assert b * c == (b - 1) * c + c;
    }
  }

  lemma LastOffset(size: nat, width: nat)
    requires width > 0
    ensures size - size / width * width < width && size / width * width <= size
  {
  }

  /** Every whole element comes back, in order, and a partial one at the end is dropped. */
  lemma {:induction false} IntoVecRoundTrip<T>(values: seq<T>, tail: seq<byte>, width: nat,
                                              bytesOf: T -> seq<byte>, valueOf: seq<byte> -> T)
    requires width > 0 && |tail| < width
    requires forall x :: x in values ==> |bytesOf(x)| == width && valueOf(bytesOf(x)) == x
    ensures Elements(Encoded(values, bytesOf) + tail, width, valueOf) == values
    decreases |values|
  {
    if values != [] {
      IntoVecRoundTrip(values[1..], tail, width, bytesOf, valueOf);
      var buf := Encoded(values, bytesOf) + tail;
      assert buf[..width] == bytesOf(values[0]);
      assert buf[width..] == Encoded(values[1..], bytesOf) + tail;
    }
  }
}
