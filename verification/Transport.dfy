/**
 transport_t: packets over a byte stream, found again by scanning for the start marker.

 The device is a receive buffer whose future is fixed: `rx` is what arrives before the next deadline,
 and every expired wait adds the next burst of `later`. Any sequence of arrivals and deadlines is of
 this form. `wait_usec` only decides where the deadlines are, so it does not appear.
 */
module Transport {
  import opened Bytes
  import opened Options
  import opened Packet
  import opened Sequences

  /** result_t: a result code, with a value when it comes from one. */
  datatype ResultT<+T> = ResultT(value: Option<T>, result: byte)

  function Good<T>(value: T): ResultT<T> {
    ResultT(Some(value), OK)
  }

  function Bad<T>(result: byte): ResultT<T> {
    ResultT(None, result)
  }

  datatype Device = Device(rx: seq<byte>, later: seq<seq<byte>>, tx: seq<byte>) {
    /** A wait for more than rx holds runs into its deadline. */
    function Expire(): Device {
      if later == [] then this else this.(rx := rx + later[0], later := later[1..])
    }

    function Drop(n: nat): Device
      requires n <= |rx|
    {
      this.(rx := rx[n..])
    }

    function Pending(): seq<byte> {
      rx + Flatten(later)
    }
  }

  function Flatten(bursts: seq<seq<byte>>): seq<byte> {
    if bursts == [] then [] else bursts[0] + Flatten(bursts[1..])
  }

  class SerialDevice {
    var rx: seq<byte>
    var later: seq<seq<byte>>
    var tx: seq<byte>

    function State(): Device
      reads this
    {
      Device(rx, later, tx)
    }

    constructor (arrivals: seq<seq<byte>>)
      ensures State() == Device([], arrivals, [])
    {
      rx, later, tx := [], arrivals, [];
    }

    /** The polling loop over getSizeInRxBuffer, up to the deadline. */
    method Await(size: nat) returns (ready: bool)
      modifies this
      ensures ready == (|old(rx)| >= size)
      ensures State() == if ready then old(State()) else old(State()).Expire()
    {
      ready := |rx| >= size;
      if !ready && later != [] {
        rx, later := rx + later[0], later[1..];
      }
    }

    method Read(size: nat) returns (bytes: seq<byte>)
      requires size <= |rx|
      modifies this
      ensures bytes == old(rx)[..size] && State() == old(State()).Drop(size)
    {
      bytes := rx[..size];
      rx := rx[size..];
    }

    method Write(b: byte)
      modifies this
      ensures State() == old(State()).(tx := old(tx) + [b])
    {
      tx := tx + [b];
    }
  }

  // What the operations do to a device.

  /** is_new: scan for two adjacent marker bytes. */
  function Scan(d: Device): (byte, Device)
    decreases |d.rx|
  {
    if |d.rx| < 1 then (TIMEOUT, d.Expire())
    else if d.rx[0] != MARKER then Scan(d.Drop(1))
    else if |d.rx| < 2 then (TIMEOUT, d.Drop(1).Expire())
    else if d.rx[1] == MARKER then (OK, d.Drop(2))
    else Scan(d.Drop(2))
  }

  function Decode(d: Device): (ResultT<Packet>, Device) {
    if |d.rx| < PACKET_HEADER_SIZE then (Bad(PACKET_HEADER_TIMEOUT), d.Expire())
    else
      var (command, result, length) := (d.rx[0], d.rx[1], d.rx[2]);
      var d1 := d.Drop(PACKET_HEADER_SIZE);
      if |d1.rx| < length then (Bad(PACKET_BODY_TIMEOUT), d1.Expire())
      else
        var packet := Packet(command, result, d1.rx[..length]);
        var d2 := d1.Drop(length);
        if |d2.rx| < 1 then (Bad(PACKET_CHECKSUM_TIMEOUT), d2.Expire())
        else if Sum(packet.Body()) != d2.rx[0] then (Bad(CHECKSUM_ERROR), d2.Drop(1))
        else (Good(packet), d2.Drop(1))
  }

  /** is_new, then receive if it found a start. */
  function NextPacket(d: Device): (ResultT<Packet>, Device) {
    var (found, d1) := Scan(d);
    if found != OK then (Bad(found), d1) else Decode(d1)
  }

  lemma FramePieces(tx: seq<byte>, p: Packet)
    requires p.Valid()
    ensures tx + p.Frame() == ((tx + [MARKER, MARKER]) + p.Body()) + [Sum(p.Body())]
  {
  }

  lemma BodyPrefix(p: Packet, buffer: seq<byte>)
    requires |buffer| >= PACKET_HEADER_SIZE && p == Packet(buffer[0], buffer[1], buffer[PACKET_HEADER_SIZE..])
    requires buffer[2] == |buffer| - PACKET_HEADER_SIZE
    ensures p.Length() <= |buffer| && buffer[..p.Length()] == p.Body()
  {
    assert buffer == p.Serialized();
  }

  class Transport {
    const device: SerialDevice

    constructor (device: SerialDevice)
      ensures this.device == device
    {
      this.device := device;
    }

    method Read(size: nat) returns (result: byte, buffer: seq<byte>)
      requires size < 256
      modifies device
      ensures result == OK || result == TIMEOUT
      ensures result == OK <==> size == 0 || |old(device.rx)| >= size
      ensures result == OK ==> size <= |old(device.rx)| && buffer == old(device.rx)[..size]
      ensures result == OK ==> device.State() == old(device.State()).Drop(size)
      ensures result == TIMEOUT ==> device.State() == old(device.State()).Expire()
    {
      buffer := [];
      if size == 0 {
        return OK, [];
      }
      var ready := device.Await(size);
      if !ready {
        return TIMEOUT, [];
      }
      buffer := device.Read(size);
      result := OK;
    }

    /** The same without a deadline: it takes as many bursts as it needs, and does not return if they are too few. */
    method ReadForever(size: nat) returns (returned: bool, buffer: seq<byte>)
      requires size < 256
      modifies device
      ensures returned <==> size <= |old(device.State()).Pending()|
      ensures returned ==> buffer == old(device.State()).Pending()[..size]
                           && device.State().Pending() == old(device.State()).Pending()[size..]
      ensures returned && size <= |old(device.rx)| ==> device.State() == old(device.State()).Drop(size)
      ensures !returned ==> device.State().Pending() == old(device.State()).Pending() && device.later == []
      ensures device.tx == old(device.tx)
    {
      buffer := [];
      if size == 0 {
        assert device.State().Drop(0) == device.State();
        return true, [];
      }
      while true
        invariant device.State().Pending() == old(device.State()).Pending() && device.tx == old(device.tx)
        invariant size <= |old(device.rx)| ==> device.State() == old(device.State())
        decreases |device.later|
      {
        var last := device.later == [];
        var ready := device.Await(size);
        if ready {
          break;
        }
        if last {
          return false, [];
        }
      }
      ghost var ready := device.State();
      assert ready.Pending()[..size] == ready.rx[..size];
      assert ready.Drop(size).Pending() == ready.Pending()[size..];
      buffer := device.Read(size);
      returned := true;
    }

    method Write(buffer: seq<byte>)
      requires |buffer| < 256
      modifies device
      ensures device.State() == old(device.State()).(tx := old(device.tx) + buffer)
    {
      var i := 0;
      while i < |buffer|
        invariant 0 <= i <= |buffer|
        invariant device.State() == old(device.State()).(tx := old(device.tx) + buffer[..i])
      {
        device.Write(buffer[i]);
        assert old(device.tx) + buffer[..i] + [buffer[i]] == old(device.tx) + buffer[..i + 1];
        i := i + 1;
      }
      assert buffer[..|buffer|] == buffer;
    }

    method Send(packet: PacketT)
      requires packet.Valid()
      modifies device
      ensures device.State() == old(device.State()).(tx := old(device.tx) + packet.Value().Frame())
      ensures var p := packet.Value();
              |p.data| <= 252 ==>
                device.tx == old(device.tx) + ([0x0a, 0x0a, p.command, p.result, |p.data|] + p.data
                                               + [(p.command + p.result + |p.data| + Total(p.data)) % 256])
    {
      hide Packet.Frame, Packet.Body, Sum, Total;
      ghost var p := packet.Value();
      FramePieces(device.tx, p);
      BodyPrefix(p, packet.pData[..]);
      if |p.data| <= 252 {
        FrameBytes(p);
      }
      Write([MARKER, MARKER]);
      var length := packet.GetPacketLength();
      Write(packet.pData[..length]);
      var sum := packet.GetSum();
      Write([sum]);
    }

    method IsNew() returns (result: byte)
      modifies device
      ensures (result, device.State()) == Scan(old(device.State()))
    {
      while true
        invariant Scan(device.State()) == Scan(old(device.State()))
        decreases |device.rx|
      {
        var buf;
        result, buf := Read(1);
        if result != OK {
          return;
        }
        if buf[0] != MARKER {
          continue;
        }
        result, buf := Read(1);
        if result != OK {
          return;
        }
        if buf[0] == MARKER {
          return OK;
        }
      }
    }

    method Receive() returns (r: ResultT<Packet>)
      modifies device
      ensures (r, device.State()) == Decode(old(device.State()))
    {
      var result, header := Read(PACKET_HEADER_SIZE);
      if result != OK {
        return if result == TIMEOUT then Bad(PACKET_HEADER_TIMEOUT) else Bad(result);
      }
      var data;
      result, data := Read(header[2]);
      if result != OK {
        return if result == TIMEOUT then Bad(PACKET_BODY_TIMEOUT) else Bad(result);
      }
      var packet := new PacketT(header[0], header[1], data);
      var sum := packet.GetSum();
      var buf;
      result, buf := Read(1);
      if result != OK {
        return if result == TIMEOUT then Bad(PACKET_CHECKSUM_TIMEOUT) else Bad(result);
      }
      if sum != buf[0] {
        return Bad(CHECKSUM_ERROR);
      }
      r := Good(packet.Value());
    }
  }

  // Scanning.

  /** There is a pair of adjacent markers at i. */
  predicate PairAt(s: seq<byte>, i: int) {
    0 <= i && i + 1 < |s| && s[i] == MARKER && s[i + 1] == MARKER
  }

  predicate FirstPairAt(s: seq<byte>, i: int) {
    PairAt(s, i) && forall j :: 0 <= j < i ==> !PairAt(s, j)
  }

  /** The scan consumes exactly up to the end of the first pair, or everything. */
  lemma {:induction false} ScanStopsAfterFirstPair(d: Device, i: nat)
    requires FirstPairAt(d.rx, i)
    ensures Scan(d) == (OK, d.Drop(i + 2))
    decreases |d.rx|
  {
    if i > 0 {
      var skip := if d.rx[0] == MARKER then 2 else 1;
      var d' := d.Drop(skip);
      assert !PairAt(d.rx, 0);
      assert i >= skip;
      assert forall j :: 0 <= j < i - skip ==> PairAt(d'.rx, j) == PairAt(d.rx, j + skip);
      ScanStopsAfterFirstPair(d', i - skip);
      assert d'.Drop(i - skip + 2) == d.Drop(i + 2);
    }
  }

  lemma {:induction false} ScanWithoutPairExpires(d: Device)
    requires forall i :: !PairAt(d.rx, i)
    ensures Scan(d) == (TIMEOUT, d.Drop(|d.rx|).Expire())
    decreases |d.rx|
  {
    if |d.rx| > 0 {
      assert !PairAt(d.rx, 0);
      if d.rx[0] == MARKER && |d.rx| == 1 {
        assert d.Drop(1) == d.Drop(|d.rx|);
      } else {
        var skip := if d.rx[0] == MARKER then 2 else 1;
        var d' := d.Drop(skip);
        assert forall j :: PairAt(d'.rx, j) ==> PairAt(d.rx, j + skip);
        ScanWithoutPairExpires(d');
        assert d'.Drop(|d'.rx|) == d.Drop(|d.rx|);
      }
    } else {
      assert d.Drop(0) == d;
    }
  }

  /** Noise that hides no start marker, not even together with the one that follows it. */
  ghost predicate Clean(noise: seq<byte>) {
    (forall i :: !PairAt(noise, i)) && (noise != [] ==> noise[|noise| - 1] != MARKER)
  }

  /** The scan finds the frame behind the noise exactly when the noise is clean. */
  lemma ResyncIff(d: Device, noise: seq<byte>, body: seq<byte>)
    requires d.rx == noise + [MARKER, MARKER] + body
    ensures Scan(d) == (OK, d.(rx := body)) <==> Clean(noise)
  {
    var s := d.rx;
    assert PairAt(s, |noise|);
    assert forall i :: i < |noise| - 1 ==> PairAt(s, i) == PairAt(noise, i);
    if Clean(noise) {
      assert forall j :: 0 <= j < |noise| ==> !PairAt(s, j);
      ScanStopsAfterFirstPair(d, |noise|);
      assert s[|noise| + 2..] == body;
    } else {
      var i := FirstPair(s, |noise|);
      ScanStopsAfterFirstPair(d, i);
      if noise[|noise| - 1] == MARKER {
        assert PairAt(s, |noise| - 1);
      } else {
        var j :| PairAt(noise, j);
        assert PairAt(s, j);
      }
      assert |d.Drop(i + 2).rx| != |body|;
    }
  }

  lemma {:induction false} FirstPair(s: seq<byte>, bound: nat) returns (i: nat)
    requires PairAt(s, bound)
    ensures i <= bound && FirstPairAt(s, i)
    decreases bound
  {
    if j :| 0 <= j < bound && PairAt(s, j) {
      i := FirstPair(s, j);
    } else {
      i := bound;
    }
  }

  /** Nothing is lost: what an operation leaves pending is a suffix of what was pending. */
  ghost predicate Consumes(before: Device, after: Device) {
    && after.tx == before.tx
    && exists n: nat :: n <= |before.Pending()| && after.Pending() == before.Pending()[n..]
  }

  lemma ConsumesDrop(d: Device, n: nat)
    requires n <= |d.rx|
    ensures Consumes(d, d.Drop(n))
  {
    assert d.Drop(n).Pending() == d.Pending()[n..];
  }

  lemma ConsumesAndExpires(d: Device, n: nat)
    requires n <= |d.rx|
    ensures Consumes(d, d.Drop(n).Expire())
  {
    ConsumesDrop(d, n);
  }

  lemma {:induction false} ScanConsumes(d: Device)
    ensures Consumes(d, Scan(d).1)
    decreases |d.rx|
  {
    if |d.rx| < 1 {
      assert d.Drop(0) == d;
      ConsumesAndExpires(d, 0);
    } else if d.rx[0] != MARKER {
      ConsumesDrop(d, 1);
      ScanConsumes(d.Drop(1));
    } else if |d.rx| < 2 {
      ConsumesAndExpires(d, 1);
    } else {
      ConsumesDrop(d, 2);
      if d.rx[1] != MARKER {
        ScanConsumes(d.Drop(2));
      }
    }
  }

  lemma DecodeConsumes(d: Device)
    ensures Consumes(d, Decode(d).1)
  {
    assert d.Drop(0) == d;
    if |d.rx| < PACKET_HEADER_SIZE {
      ConsumesAndExpires(d, 0);
    } else {
      var d1, length := d.Drop(PACKET_HEADER_SIZE), d.rx[2];
      ConsumesAndExpires(d, PACKET_HEADER_SIZE);
      if |d1.rx| >= length {
        var d2 := d1.Drop(length);
        assert d2 == d.Drop(PACKET_HEADER_SIZE + length);
        ConsumesAndExpires(d, PACKET_HEADER_SIZE + length);
        if |d2.rx| >= 1 {
          assert d2.Drop(1) == d.Drop(PACKET_HEADER_SIZE + length + 1);
          ConsumesDrop(d, PACKET_HEADER_SIZE + length + 1);
        }
      }
    }
  }

  /** Whatever arrives: every byte is consumed once or still unread, and nothing is written. */
  lemma NextPacketConsumes(d: Device)
    ensures Consumes(d, NextPacket(d).1)
  {
    ScanConsumes(d);
    DecodeConsumes(Scan(d).1);
  }

  // Round trips.

  /** A frame's bytes behind its marker. */
  function Rest(p: Packet): seq<byte>
    requires p.Valid()
  {
    p.Body() + [Sum(p.Body())]
  }

  /** Decoding the bytes of a body of known length, whatever they are. */
  lemma DecodeBytes(d: Device, wire: seq<byte>, tail: seq<byte>)
    requires |wire| >= PACKET_HEADER_SIZE + 1 && wire[2] == |wire| - PACKET_HEADER_SIZE - 1 <= 252
    requires d.rx == wire + tail
    ensures var last := |wire| - 1;
            var received := Packet(wire[0], wire[1], wire[PACKET_HEADER_SIZE..last]);
            && received.Body() == wire[..last]
            && Decode(d) == (if Sum(wire[..last]) == wire[last] then Good(received) else Bad(CHECKSUM_ERROR), d.(rx := tail))
  {
    hide Sum;
    var n := |wire| - PACKET_HEADER_SIZE - 1;
    var received := Packet(wire[0], wire[1], wire[PACKET_HEADER_SIZE..PACKET_HEADER_SIZE + n]);
    ShortBody(received);
    assert received.Body() == wire[..PACKET_HEADER_SIZE + n];
    var d1 := d.Drop(PACKET_HEADER_SIZE);
    assert d1.rx[..n] == received.data;
    assert d1.Drop(n).rx == [wire[PACKET_HEADER_SIZE + n]] + tail;
    assert d1.Drop(n).Drop(1) == d.(rx := tail);
  }

  lemma DecodeFrame(d: Device, p: Packet, tail: seq<byte>)
    requires |p.data| <= 252 && d.rx == Rest(p) + tail
    ensures Decode(d) == (Good(p), d.(rx := tail))
  {
    hide Decode, Sum;
    ShortBody(p);
    var wire := Rest(p);
    assert wire[..|wire| - 1] == p.Body() && wire[PACKET_HEADER_SIZE..|wire| - 1] == p.data;
    DecodeBytes(d, wire, tail);
  }

  /** A changed command, result, data or checksum byte is noticed and costs only its own packet. */
  lemma DecodeCorrupted(d: Device, p: Packet, tail: seq<byte>, i: nat, b: byte)
    requires |p.data| <= 252 && i < |Rest(p)| && i != 2 && b != Rest(p)[i]
    requires d.rx == Rest(p)[i := b] + tail
    ensures Decode(d) == (Bad(CHECKSUM_ERROR), d.(rx := tail))
  {
    hide Decode, Sum;
    ShortBody(p);
    var wire := Rest(p)[i := b];
    var last := |wire| - 1;
    DecodeBytes(d, wire, tail);
    if i < last {
      SumDetectsChange(p.Body(), i, b);
      assert wire[..last] == p.Body()[i := b];
    } else {
      assert wire[..last] == p.Body();
    }
  }

  /** What is on the line for one packet, and what the receiver should make of it. */
  datatype Sent = Intact(p: Packet) | Corrupted(p: Packet, at: nat, instead: byte) {
    predicate Valid() {
      |p.data| <= 252 && (Corrupted? ==> at < |Rest(p)| && at != 2 && instead != Rest(p)[at])
    }

    function Wire(): seq<byte>
      requires Valid()
    {
      [MARKER, MARKER] + if Intact? then Rest(p) else Rest(p)[at := instead]
    }

    function Expected(): ResultT<Packet> {
      if Intact? then Good(p) else Bad(CHECKSUM_ERROR)
    }
  }

  function Wires(sents: seq<Sent>): seq<byte>
    requires forall s :: s in sents ==> s.Valid()
  {
    if sents == [] then [] else sents[0].Wire() + Wires(sents[1..])
  }

  function Outcomes(sents: seq<Sent>): seq<ResultT<Packet>> {
    if sents == [] then [] else [sents[0].Expected()] + Outcomes(sents[1..])
  }

  function ReceiveAll(d: Device, n: nat): (seq<ResultT<Packet>>, Device)
    decreases n
  {
    if n == 0 then ([], d)
    else
      var (r, d1) := NextPacket(d);
      var (rs, d2) := ReceiveAll(d1, n - 1);
      ([r] + rs, d2)
  }

  lemma OneFrame(d: Device, s: Sent, tail: seq<byte>)
    requires s.Valid() && d.rx == s.Wire() + tail
    ensures NextPacket(d) == (s.Expected(), d.(rx := tail))
  {
    var rest := if s.Intact? then Rest(s.p) else Rest(s.p)[s.at := s.instead];
    assert d.rx == [] + [MARKER, MARKER] + (rest + tail);
    ResyncIff(d, [], rest + tail);
    if s.Intact? {
      DecodeFrame(d.(rx := rest + tail), s.p, tail);
    } else {
      DecodeCorrupted(d.(rx := rest + tail), s.p, tail, s.at, s.instead);
    }
  }

  /**
   Any stream of frames, some of them with a corrupted byte, comes out as exactly those packets, in
   order, with a checksum error in place of each corrupted one.
   */
  lemma {:induction false} StreamRoundTrip(d: Device, sents: seq<Sent>, tail: seq<byte>)
    requires forall s :: s in sents ==> s.Valid()
    requires d.rx == Wires(sents) + tail
    ensures ReceiveAll(d, |sents|) == (Outcomes(sents), d.(rx := tail))
    decreases |sents|
  {
    hide NextPacket, Sent.Wire, Sent.Valid;
    if sents == [] {
      assert d.rx == tail;
    } else {
      var d1 := d.(rx := Wires(sents[1..]) + tail);
      assert forall s :: s in sents[1..] ==> s in sents;
      Associates(sents[0].Wire(), Wires(sents[1..]), tail);
      OneFrame(d, sents[0], d1.rx);
      StreamRoundTrip(d1, sents[1..], tail);
    }
  }

  /** What send writes is what the stream theorem is about. */
  lemma FrameIsWire(p: Packet)
    requires |p.data| <= 252
    ensures p.Frame() == Intact(p).Wire()
  {
  }

  /** The line after a number of sends. */
  function SentAll(tx: seq<byte>, ps: seq<Packet>): seq<byte>
    requires forall p :: p in ps ==> p.Valid()
    decreases |ps|
  {
    if ps == [] then tx else SentAll(tx + ps[0].Frame(), ps[1..])
  }

  function Intacts(ps: seq<Packet>): seq<Sent> {
    seq(|ps|, i requires 0 <= i < |ps| => Intact(ps[i]))
  }

  lemma {:induction false} SentAllIsWires(tx: seq<byte>, ps: seq<Packet>)
    requires forall p :: p in ps ==> |p.data| <= 252
    ensures forall s :: s in Intacts(ps) ==> s.Valid()
    ensures SentAll(tx, ps) == tx + Wires(Intacts(ps))
    decreases |ps|
  {
    if ps == [] {
      assert tx + [] == tx;
    } else {
      FrameIsWire(ps[0]);
      hide Packet.Frame, Sent.Wire;
      assert forall p :: p in ps[1..] ==> p in ps;
      SentAllIsWires(tx + ps[0].Frame(), ps[1..]);
      assert Intacts(ps)[1..] == Intacts(ps[1..]);
      Associates(tx, ps[0].Frame(), Wires(Intacts(ps[1..])));
    }
  }

  lemma {:induction false} IntactOutcomes(ps: seq<Packet>)
    ensures Outcomes(Intacts(ps)) == seq(|ps|, i requires 0 <= i < |ps| => Good(ps[i]))
  {
    if ps != [] {
      assert Intacts(ps)[1..] == Intacts(ps[1..]);
      IntactOutcomes(ps[1..]);
    }
  }

  /** What a number of sends put on the line is received as exactly those packets, in order. */
  lemma SentIsReceived(ps: seq<Packet>, d: Device, tail: seq<byte>)
    requires forall p :: p in ps ==> |p.data| <= 252
    requires d.rx == SentAll([], ps) + tail
    ensures ReceiveAll(d, |ps|) == (seq(|ps|, i requires 0 <= i < |ps| => Good(ps[i])), d.(rx := tail))
  {
    hide Wires, ReceiveAll, Outcomes, SentAll, Sent.Valid, Sent.Wire;
    SentAllIsWires([], ps);
    IntactOutcomes(ps);
    assert [] + Wires(Intacts(ps)) == Wires(Intacts(ps));
    StreamRoundTrip(d, Intacts(ps), tail);
  }

  /** A frame alone is decoded to its packet exactly up to 252 data bytes; beyond, its length has wrapped. */
  lemma FrameRoundTripIff(p: Packet, d: Device)
    requires p.Valid() && d.rx == p.Frame()
    ensures NextPacket(d).0 == Good(p) <==> |p.data| <= 252
  {
    if |p.data| <= 252 {
      FrameIsWire(p);
      assert d.rx == Intact(p).Wire() + [];
      OneFrame(d, Intact(p), []);
    } else {
      assert d.rx == [] + [MARKER, MARKER] + Rest(p);
      ResyncIff(d, [], Rest(p));
      assert |Rest(p)| <= 3;
    }
  }
  /**
   A frame cut off after n bytes times out with the code of the part that is missing: the start, the
   header, the data or the checksum. The parts that were complete are gone and the rest stays unread.
   */
  lemma CutFrameTimesOut(d: Device, p: Packet, n: nat)
    requires |p.data| <= 252 && n < |p.Frame()| && d.rx == p.Frame()[..n]
    ensures var read := if n < 2 then n else if n < 5 then 2 else if n < 5 + |p.data| then 5 else n;
            NextPacket(d) == (Bad(if n < 2 then 1 else if n < 5 then 0x54 else if n < 5 + |p.data| then 0x55 else 0x43),
                              d.(rx := p.Frame()[read..n]).Expire())
  {
    hide Packet.Frame;
    FrameBytes(p);
    var f := p.Frame();
    if n < 2 {
      assert forall i :: !PairAt(d.rx, i);
      ScanWithoutPairExpires(d);
      assert d.Drop(n).rx == f[n..n];
    } else {
      assert d.rx == [] + [MARKER, MARKER] + f[2..n];
      ResyncIff(d, [], f[2..n]);
    }
  }
}
