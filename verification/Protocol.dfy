/**
 protocol_t: request and reply exchanges with retries, on top of the transport.

 Where the code would leave its buffers or read a value that is not there, the outcome is
 `OutOfContract`: what the device sent is then beyond what the code provides for.
 */
module Protocol {
  import opened Bytes
  import opened Options
  import opened Packet
  import opened Transport

  datatype Outcome<+T> = Done(r: ResultT<T>) | OutOfContract

  datatype PortProfile = PortProfile(typecode: byte, name: seq<byte>)

  datatype Profile = Profile(inports: seq<PortProfile>, outports: seq<PortProfile>)

  const NO_PORTS := Profile([], [])

  const NAME_BUFFER := 64

  /** A C string ends at its first NUL. */
  function UpToNul(s: seq<byte>): seq<byte> {
    if s == [] || s[0] == 0 then [] else [s[0]] + UpToNul(s[1..])
  }

  /** parse_port_profile copies the name and a terminator into a 64-byte buffer. */
  function ParsePortProfile(p: Packet): Option<PortProfile> {
    if 1 <= |p.data| <= NAME_BUFFER then Some(PortProfile(p.data[0], UpToNul(p.data[1..]))) else None
  }

  predicate IsTimeout(result: byte) {
    result == PACKET_START_TIMEOUT || result == PACKET_HEADER_TIMEOUT
    || result == PACKET_BODY_TIMEOUT || result == PACKET_CHECKSUM_TIMEOUT
  }

  function Request(command: byte): Packet {
    Packet(command, OK, [])
  }

  function AfterSend(d: Device, p: Packet): Device
    requires p.Valid()
  {
    d.(tx := d.tx + p.Frame())
  }

  lemma NextPacketShrinks(d: Device)
    ensures NextPacket(d).0.result == OK ==> |NextPacket(d).1.rx| < |d.rx| && NextPacket(d).0.value.Some?
    ensures NextPacket(d).0.value.Some? ==> NextPacket(d).0.result == OK
  {
    ScanShrinks(d);
  }

  lemma {:induction false} ScanShrinks(d: Device)
    ensures Scan(d).0 == OK ==> |Scan(d).1.rx| < |d.rx|
    ensures Scan(d).0 == OK || Scan(d).0 == TIMEOUT
    decreases |d.rx|
  {
    if |d.rx| >= 1 && d.rx[0] != MARKER {
      ScanShrinks(d.Drop(1));
    } else if |d.rx| >= 2 && d.rx[1] != MARKER {
      ScanShrinks(d.Drop(2));
    }
  }

  // get_profile.

  /** How the inner loop ends: with the reply, with another attempt, for good, or out of contract. */
  datatype End = Reply(profile: Profile) | Retry | Stop(result: byte) | Fault

  function Collect(d: Device, profile: Profile): (End, Device)
    decreases |d.rx|
  {
    NextPacketShrinks(d);
    var (r, d1) := NextPacket(d);
    if r.result != OK then
      (if Scan(d).0 != OK || IsTimeout(r.result) then Retry else Stop(r.result), d1)
    else
      var p := r.value.value;
      if p.command == GET_PROFILE then (Reply(profile), d1)
      else if p.command == INPORT_PROFILE then
        match ParsePortProfile(p)
        case None => (Fault, d1)
        case Some(port) => Collect(d1, profile.(inports := profile.inports + [port]))
      else if p.command == OUTPORT_PROFILE then
        match ParsePortProfile(p)
        case None => (Fault, d1)
        case Some(port) => Collect(d1, profile.(outports := profile.outports + [port]))
      else if p.command == PACKET_ERROR then (Stop(ERR), d1)
      else if p.command == PACKET_ERROR_CHECKSUM then (Stop(CHECKSUM_ERROR), d1)
      else if p.command == PACKET_ERROR_TIMEOUT then (Stop(TIMEOUT), d1)
      else Collect(d1, profile)
  }

  function ProfileExchange(d: Device, retryCount: int): (Outcome<Profile>, Device)
    decreases retryCount
  {
    if retryCount <= 0 then (Done(Bad(TIMEOUT)), d)
    else
      match Collect(AfterSend(d, Request(GET_PROFILE)), NO_PORTS)
      case (Reply(profile), d1) => (Done(Good(profile)), d1)
      case (Retry, d1) => ProfileExchange(d1, retryCount - 1)
      case (Stop(result), d1) => (Done(Bad(result)), d1)
      case (Fault, d1) => (OutOfContract, d1)
  }

  // The other requests.

  /** wait_and_receive_command: a reply that is an error packet yields only its result code. */
  function ReplyTo(d: Device, command: byte): (ResultT<Packet>, Device) {
    var (r, d1) := NextPacket(d);
    if r.result != OK || r.value.None? then (r, d1)
    else if r.value.value.command == command then (r, d1)
    else if r.value.value.command == PACKET_ERROR then (Bad(r.value.value.result), d1)
    else (Bad(ERR), d1)
  }

  /** activate, deactivate, execute: OK from the first accepted reply. */
  function CommandExchange(d: Device, command: byte, retryCount: int): (byte, Device)
    decreases retryCount
  {
    if retryCount <= 0 then (ERR, d)
    else
      var (r, d1) := ReplyTo(AfterSend(d, Request(command)), command);
      if r.result == OK then (OK, d1) else CommandExchange(d1, command, retryCount - 1)
  }

  /** get_state, get_ec_type: the first data byte of the first accepted reply. */
  function QueryExchange(d: Device, command: byte, retryCount: int): (Outcome<byte>, Device)
    decreases retryCount
  {
    if retryCount <= 0 then (Done(Bad(ERR)), d)
    else
      var (r, d1) := ReplyTo(AfterSend(d, Request(command)), command);
      if r.result != OK then QueryExchange(d1, command, retryCount - 1)
      else if r.value.None? || r.value.value.data == [] then (OutOfContract, d1)
      else (Done(Good(r.value.value.data[0])), d1)
  }

  class ProtocolT {
    const transport: Transport

    constructor (transport: Transport)
      ensures this.transport == transport
    {
      this.transport := transport;
    }

    method SendRequest(command: byte)
      modifies transport.device
      ensures transport.device.State() == AfterSend(old(transport.device.State()), Request(command))
    {
      var packet := new PacketT(command, OK, []);
      transport.Send(packet);
    }

    method GetProfile(retryCount: int) returns (r: Outcome<Profile>)
      modifies transport.device
      ensures (r, transport.device.State()) == ProfileExchange(old(transport.device.State()), retryCount)
    {
      hide Packet.Frame, Scan, Decode, ParsePortProfile;
      var i := 0;
      while i < retryCount
        invariant 0 <= i && (retryCount > 0 ==> i <= retryCount)
        invariant ProfileExchange(old(transport.device.State()), retryCount)
               == ProfileExchange(transport.device.State(), retryCount - i)
      {
        SendRequest(GET_PROFILE);
        var profile := NO_PORTS;
        ghost var start := transport.device.State();
        while true
          invariant Collect(start, NO_PORTS) == Collect(transport.device.State(), profile)
          decreases |transport.device.rx|
        {
          NextPacketShrinks(transport.device.State());
          var found := transport.IsNew();
          if found != OK {
            break;
          }
          var received := transport.Receive();
          if received.result != OK {
            if IsTimeout(received.result) {
              break;
            }
            return Done(Bad(received.result));
          }
          var p := received.value.value;
          if p.command == GET_PROFILE {
            return Done(Good(profile));
          } else if p.command == INPORT_PROFILE {
            var port := ParsePortProfile(p);
            if port.None? {
              return OutOfContract;
            }
            profile := profile.(inports := profile.inports + [port.value]);
          } else if p.command == OUTPORT_PROFILE {
            var port := ParsePortProfile(p);
            if port.None? {
              return OutOfContract;
            }
            profile := profile.(outports := profile.outports + [port.value]);
          } else if p.command == PACKET_ERROR {
            return Done(Bad(ERR));
          } else if p.command == PACKET_ERROR_CHECKSUM {
            return Done(Bad(CHECKSUM_ERROR));
          } else if p.command == PACKET_ERROR_TIMEOUT {
            return Done(Bad(TIMEOUT));
          }
        }
        i := i + 1;
      }
      r := Done(Bad(TIMEOUT));
    }

    method WaitAndReceiveCommand(command: byte) returns (r: ResultT<Packet>)
      modifies transport.device
      ensures (r, transport.device.State()) == ReplyTo(old(transport.device.State()), command)
    {
      NextPacketShrinks(transport.device.State());
      var found := transport.IsNew();
      if found != OK {
        return Bad(found);
      }
      r := transport.Receive();
      if r.result != OK {
        return Bad(r.result);
      }
      var p := r.value.value;
      if p.command == command {
        return Good(p);
      }
      r := Bad(if p.command == PACKET_ERROR then p.result else ERR);
    }

    method Command(command: byte, retryCount: int) returns (result: byte)
      modifies transport.device
      ensures (result, transport.device.State()) == CommandExchange(old(transport.device.State()), command, retryCount)
    {
      var i := 0;
      while i < retryCount
        invariant 0 <= i && (retryCount > 0 ==> i <= retryCount)
        invariant CommandExchange(old(transport.device.State()), command, retryCount)
               == CommandExchange(transport.device.State(), command, retryCount - i)
      {
        SendRequest(command);
        var r := WaitAndReceiveCommand(command);
        if r.result == OK {
          return r.result;
        }
        i := i + 1;
      }
      result := ERR;
    }

    method Activate(retryCount: int) returns (result: byte)
      modifies transport.device
      ensures (result, transport.device.State()) == CommandExchange(old(transport.device.State()), ACTIVATE, retryCount)
    {
      result := Command(ACTIVATE, retryCount);
    }

    method Deactivate(retryCount: int) returns (result: byte)
      modifies transport.device
      ensures (result, transport.device.State()) == CommandExchange(old(transport.device.State()), DEACTIVATE, retryCount)
    {
      result := Command(DEACTIVATE, retryCount);
    }

    method Execute(retryCount: int) returns (result: byte)
      modifies transport.device
      ensures (result, transport.device.State()) == CommandExchange(old(transport.device.State()), EXECUTE, retryCount)
    {
      result := Command(EXECUTE, retryCount);
    }

    method Query(command: byte, retryCount: int) returns (r: Outcome<byte>)
      modifies transport.device
      ensures (r, transport.device.State()) == QueryExchange(old(transport.device.State()), command, retryCount)
    {
      var i := 0;
      while i < retryCount
        invariant 0 <= i && (retryCount > 0 ==> i <= retryCount)
        invariant QueryExchange(old(transport.device.State()), command, retryCount)
               == QueryExchange(transport.device.State(), command, retryCount - i)
      {
        SendRequest(command);
        var reply := WaitAndReceiveCommand(command);
        if reply.result == OK {
          return if reply.value.None? || reply.value.value.data == [] then OutOfContract
                 else Done(Good(reply.value.value.data[0]));
        }
        i := i + 1;
      }
      r := Done(Bad(ERR));
    }

    method GetState(retryCount: int) returns (r: Outcome<byte>)
      modifies transport.device
      ensures (r, transport.device.State()) == QueryExchange(old(transport.device.State()), GET_STATE, retryCount)
    {
      r := Query(GET_STATE, retryCount);
    }

    method GetEcType(retryCount: int) returns (r: Outcome<byte>)
      modifies transport.device
      ensures (r, transport.device.State()) == QueryExchange(old(transport.device.State()), GET_CONTEXT_TYPE, retryCount)
    {
      r := Query(GET_CONTEXT_TYPE, retryCount);
    }
  }

  // What a profile contains.

  /** Every packet the transport decodes from here on, up to the first time it does not. */
  function PacketsFrom(d: Device): seq<Packet>
    decreases |d.rx|
  {
    NextPacketShrinks(d);
    var (r, d1) := NextPacket(d);
    if r.result == OK then [r.value.value] + PacketsFrom(d1) else []
  }

  /** What that first failure means for the exchange: a checksum error ends it, silence does not. */
  function EndOfStream(d: Device): End
    decreases |d.rx|
  {
    NextPacketShrinks(d);
    var (r, d1) := NextPacket(d);
    if r.result == OK then EndOfStream(d1)
    else if r.result == CHECKSUM_ERROR then Stop(CHECKSUM_ERROR)
    else Retry
  }

  predicate IsPort(p: Packet) {
    p.command == INPORT_PROFILE || p.command == OUTPORT_PROFILE
  }

  /** Packets that end the exchange; any other is a port to collect or is passed over. */
  predicate IsStop(p: Packet) {
    || p.command == GET_PROFILE || p.command == PACKET_ERROR
    || p.command == PACKET_ERROR_CHECKSUM || p.command == PACKET_ERROR_TIMEOUT
    || (IsPort(p) && ParsePortProfile(p).None?)
  }

  function FirstStop(ps: seq<Packet>): (n: nat)
    ensures n <= |ps| && (n < |ps| ==> IsStop(ps[n])) && forall i :: 0 <= i < n ==> !IsStop(ps[i])
  {
    if ps == [] || IsStop(ps[0]) then 0 else 1 + FirstStop(ps[1..])
  }

  /** The ports of one kind, in arrival order. */
  function PortsOf(ps: seq<Packet>, kind: byte): seq<PortProfile> {
    if ps == [] then []
    else
      var rest := PortsOf(ps[1..], kind);
      if ps[0].command == kind && ParsePortProfile(ps[0]).Some? then [ParsePortProfile(ps[0]).value] + rest else rest
  }

  function Extended(profile: Profile, ps: seq<Packet>): Profile {
    Profile(profile.inports + PortsOf(ps, INPORT_PROFILE), profile.outports + PortsOf(ps, OUTPORT_PROFILE))
  }

  function EndAt(p: Packet, profile: Profile): End {
    if p.command == GET_PROFILE then Reply(profile)
    else if p.command == PACKET_ERROR then Stop(ERR)
    else if p.command == PACKET_ERROR_CHECKSUM then Stop(CHECKSUM_ERROR)
    else if p.command == PACKET_ERROR_TIMEOUT then Stop(TIMEOUT)
    else Fault
  }

  lemma {:induction false} NextPacketResults(d: Device)
    ensures var r := NextPacket(d).0.result;
            r == OK || r == CHECKSUM_ERROR || (Scan(d).0 != OK || IsTimeout(r))
    ensures NextPacket(d).0.result == CHECKSUM_ERROR ==> Scan(d).0 == OK
  {
    ScanShrinks(d);
  }

  lemma ExtendedByOne(profile: Profile, p: Packet, ps: seq<Packet>)
    ensures Extended(profile, [p] + ps) == Extended(Extended(profile, [p]), ps)
  {
    assert ([p] + ps)[1..] == ps;
    assert PortsOf([p], INPORT_PROFILE) + PortsOf(ps, INPORT_PROFILE) == PortsOf([p] + ps, INPORT_PROFILE);
    assert PortsOf([p], OUTPORT_PROFILE) + PortsOf(ps, OUTPORT_PROFILE) == PortsOf([p] + ps, OUTPORT_PROFILE);
  }

  /** One attempt is decided by the decoded packets up to the first that stops it, and by the ports among them. */
  lemma {:induction false} CollectMeaning(d: Device, profile: Profile)
    ensures var ps := PacketsFrom(d);
            var n := FirstStop(ps);
            Collect(d, profile).0 == if n < |ps| then EndAt(ps[n], Extended(profile, ps[..n])) else EndOfStream(d)
    decreases |d.rx|
  {
    hide NextPacket;
    NextPacketShrinks(d);
    NextPacketResults(d);
    var (r, d1) := NextPacket(d);
    var ps := PacketsFrom(d);
    var n := FirstStop(ps);
    if r.result == OK {
      var p, rest := r.value.value, PacketsFrom(d1);
      assert ps == [p] + rest && ps[1..] == rest;
      if IsStop(p) {
        assert ps[..0] == [] && Extended(profile, []) == profile;
      } else {
        CollectMeaning(d1, Extended(profile, [p]));
        assert n == 1 + FirstStop(rest);
        assert ps[..n] == [p] + rest[..n - 1];
        ExtendedByOne(profile, p, rest[..n - 1]);
        SkipOrCollect(profile, p);
      }
    }
  }

  lemma SkipOrCollect(profile: Profile, p: Packet)
    requires !IsStop(p)
    ensures Extended(profile, [p]) ==
      if p.command == INPORT_PROFILE then profile.(inports := profile.inports + [ParsePortProfile(p).value])
      else if p.command == OUTPORT_PROFILE then profile.(outports := profile.outports + [ParsePortProfile(p).value])
      else profile
  {
    assert [p][1..] == [];
    assert PortsOf([p], INPORT_PROFILE) == if p.command == INPORT_PROFILE then [ParsePortProfile(p).value] else [];
    assert PortsOf([p], OUTPORT_PROFILE) == if p.command == OUTPORT_PROFILE then [ParsePortProfile(p).value] else [];
    assert profile.inports + [] == profile.inports && profile.outports + [] == profile.outports;
  }

  function Repeat(frame: seq<byte>, k: nat): seq<byte> {
    if k == 0 then [] else frame + Repeat(frame, k - 1)
  }

  lemma {:induction false} CollectConsumes(d: Device, profile: Profile)
    ensures Consumes(d, Collect(d, profile).1)
    decreases |d.rx|
  {
    NextPacketShrinks(d);
    NextPacketConsumes(d);
    var (r, d1) := NextPacket(d);
    if r.result == OK && !IsStop(r.value.value) {
      SkipOrCollect(profile, r.value.value);
      CollectConsumes(d1, Extended(profile, [r.value.value]));
    }
  }

  /** What the caller gets from the end of an attempt, if there is no further one. */
  function OutcomeOf(end: End): Outcome<Profile> {
    match end
    case Reply(profile) => Done(Good(profile))
    case Retry => Done(Bad(TIMEOUT))
    case Stop(result) => Done(Bad(result))
    case Fault => OutOfContract
  }

  /** The device just after the k-th profile request, if all earlier attempts met with silence. */
  function AttemptStart(d: Device, k: nat): Device
    requires k > 0
    decreases k
  {
    var start := AfterSend(d, Request(GET_PROFILE));
    if k == 1 then start else AttemptStart(Collect(start, NO_PORTS).1, k - 1)
  }

  lemma FirstRequest(d: Device)
    ensures var start := AfterSend(d, Request(GET_PROFILE));
            && start.tx == d.tx + Repeat(Request(GET_PROFILE).Frame(), 1)
            && Consumes(d, start.(tx := d.tx))
  {
    var frame := Request(GET_PROFILE).Frame();
    var start := AfterSend(d, Request(GET_PROFILE));
    assert Repeat(frame, 1) == frame + Repeat(frame, 0) == frame;
    assert start.(tx := d.tx) == d && d.Pending()[0..] == d.Pending();
  }

  lemma {:induction false} AttemptStartSends(d: Device, k: nat)
    requires k > 0
    ensures AttemptStart(d, k).tx == d.tx + Repeat(Request(GET_PROFILE).Frame(), k)
    ensures Consumes(d, AttemptStart(d, k).(tx := d.tx))
    decreases k
  {
    hide Collect, Consumes, Packet.Frame;
    FirstRequest(d);
    if k > 1 {
      var start := AfterSend(d, Request(GET_PROFILE));
      CollectConsumes(start, NO_PORTS);
      var d1 := Collect(start, NO_PORTS).1;
      AttemptStartSends(d1, k - 1);
      OneMoreAttempt(d, start, d1, AttemptStart(d1, k - 1), Request(GET_PROFILE).Frame(), k - 1);
    }
  }

  /** How the k-th attempt ends. */
  function AttemptEnd(d: Device, k: nat): End
    requires k > 0
  {
    Collect(AttemptStart(d, k), NO_PORTS).0
  }

  /** All attempts before the k-th met with silence, and the k-th did not or was the last one allowed. */
  ghost predicate IsLastAttempt(d: Device, retryCount: int, k: nat) {
    && 1 <= k <= retryCount
    && (forall j: nat :: 1 <= j < k ==> AttemptEnd(d, j).Retry?)
    && (AttemptEnd(d, k).Retry? ==> k == retryCount)
  }

  lemma AttemptShift(d: Device, k: nat)
    requires k > 1
    ensures AttemptStart(d, k) == AttemptStart(Collect(AttemptStart(d, 1), NO_PORTS).1, k - 1)
    ensures AttemptEnd(d, k) == AttemptEnd(Collect(AttemptStart(d, 1), NO_PORTS).1, k - 1)
  {
  }

  lemma FirstAttempt(d: Device, retryCount: int)
    requires retryCount > 0
    ensures ProfileExchange(d, retryCount) ==
      if AttemptEnd(d, 1).Retry? then ProfileExchange(Collect(AttemptStart(d, 1), NO_PORTS).1, retryCount - 1)
      else (OutcomeOf(AttemptEnd(d, 1)), Collect(AttemptStart(d, 1), NO_PORTS).1)
  {
  }

  /** The exchange ends exactly like its last attempt, in the state of the device that one left behind. */
  lemma {:induction false} LastAttemptDecides(d: Device, retryCount: int, k: nat)
    requires IsLastAttempt(d, retryCount, k)
    ensures ProfileExchange(d, retryCount) == (OutcomeOf(AttemptEnd(d, k)), Collect(AttemptStart(d, k), NO_PORTS).1)
    decreases k
  {
    hide Collect, AttemptStart, ProfileExchange;
    FirstAttempt(d, retryCount);
    if k > 1 {
      assert AttemptEnd(d, 1).Retry?;
      AttemptShift(d, k);
      var d1 := Collect(AttemptStart(d, 1), NO_PORTS).1;
      forall j: nat | 1 <= j < k - 1 ensures AttemptEnd(d1, j).Retry? {
        AttemptShift(d, j + 1);
      }
      LastAttemptDecides(d1, retryCount - 1, k - 1);
    } else if AttemptEnd(d, 1).Retry? {
      NoMoreAttempts(Collect(AttemptStart(d, 1), NO_PORTS).1);
    }
  }

  lemma NoMoreAttempts(d: Device)
    ensures ProfileExchange(d, 0) == (Done(Bad(TIMEOUT)), d)
  {
  }

  /** There is such an attempt, from the first on. */
  lemma {:induction false} LastAttemptFrom(d: Device, retryCount: int, i: nat) returns (k: nat)
    requires 1 <= i <= retryCount && forall j: nat :: 1 <= j < i ==> AttemptEnd(d, j).Retry?
    ensures IsLastAttempt(d, retryCount, k)
    decreases retryCount - i
  {
    hide AttemptEnd;
    if AttemptEnd(d, i).Retry? && i < retryCount {
      k := LastAttemptFrom(d, retryCount, i + 1);
    } else {
      k := i;
    }
  }

  /** An attempt, if one is allowed at all, decides the exchange: the first that does not meet with silence, or the last. */
  lemma SomeAttemptDecides(d: Device, retryCount: int) returns (k: nat)
    requires retryCount > 0
    ensures IsLastAttempt(d, retryCount, k)
    ensures ProfileExchange(d, retryCount) == (OutcomeOf(AttemptEnd(d, k)), Collect(AttemptStart(d, k), NO_PORTS).1)
    ensures AttemptStart(d, k).tx == d.tx + Repeat(Request(GET_PROFILE).Frame(), k)
    ensures Consumes(d, AttemptStart(d, k).(tx := d.tx))
  {
    k := LastAttemptFrom(d, retryCount, 1);
    LastAttemptDecides(d, retryCount, k);
    AttemptStartSends(d, k);
  }

  lemma OneMoreAttempt(d: Device, start: Device, d1: Device, later: Device, frame: seq<byte>, n: nat)
    requires start == d.(tx := d.tx + frame) && Consumes(start, d1)
    requires Consumes(d1, later.(tx := d1.tx)) && later.tx == d1.tx + Repeat(frame, n)
    ensures later.tx == d.tx + Repeat(frame, n + 1)
    ensures Consumes(d, later.(tx := d.tx))
  {
    assert d1.tx + Repeat(frame, n) == d.tx + (frame + Repeat(frame, n));
    SamePending(start, d, d1, d1.(tx := d.tx));
    SamePending(d1, d1.(tx := d.tx), later.(tx := d1.tx), later.(tx := d.tx));
  }

  lemma SamePending(a: Device, a': Device, b: Device, b': Device)
    requires Consumes(a, b) && a'.Pending() == a.Pending() && b'.Pending() == b.Pending() && a'.tx == b'.tx
    ensures Consumes(a', b')
  {
  }

  /**
   The packets decoded after the k-th request contain a GET_PROFILE, nothing before it ends the
   attempt, and the ports before it are, in arrival order, those of the profile.
   */
  ghost predicate Arrives(d: Device, k: nat, profile: Profile)
    requires k > 0
  {
    var ps := PacketsFrom(AttemptStart(d, k));
    var n := FirstStop(ps);
    && n < |ps| && ps[n].command == GET_PROFILE
    && profile == Profile(PortsOf(ps[..n], INPORT_PROFILE), PortsOf(ps[..n], OUTPORT_PROFILE))
  }

  /** An attempt ends with a profile exactly if that profile arrives. */
  lemma RepliesIffArrives(d: Device, k: nat, profile: Profile)
    requires k > 0
    ensures AttemptEnd(d, k) == Reply(profile) <==> Arrives(d, k, profile)
  {
    hide Collect, AttemptStart, NextPacket, EndOfStream;
    var start := AttemptStart(d, k);
    CollectMeaning(start, NO_PORTS);
    EndOfStreamIsNoReply(start);
  }

  /** It meets with silence exactly if nothing decoded ends it and then a wait runs out. */
  lemma RetriesIffSilence(d: Device, k: nat)
    requires k > 0
    ensures AttemptEnd(d, k).Retry?
       <==> (var ps := PacketsFrom(AttemptStart(d, k)); FirstStop(ps) == |ps|) && EndOfStream(AttemptStart(d, k)).Retry?
  {
    hide Collect, AttemptStart, NextPacket, EndOfStream;
    CollectMeaning(AttemptStart(d, k), NO_PORTS);
  }

  /**
   get_profile returns a profile exactly if, after one of the allowed requests, all earlier ones having
   met with silence, that profile arrives: it is what was decoded since that last request.
   */
  lemma ProfileIsWhatArrived(d: Device, retryCount: int, profile: Profile)
    ensures ProfileExchange(d, retryCount).0 == Done(Good(profile))
       <==> exists k: nat :: IsLastAttempt(d, retryCount, k) && Arrives(d, k, profile)
  {
    hide AttemptEnd, Arrives, AttemptStart;
    if ProfileExchange(d, retryCount).0 == Done(Good(profile)) {
      var k := SomeAttemptDecides(d, retryCount);
      RepliesIffArrives(d, k, profile);
      assert IsLastAttempt(d, retryCount, k) && Arrives(d, k, profile);
    }
    if k: nat :| IsLastAttempt(d, retryCount, k) && Arrives(d, k, profile) {
      LastAttemptDecides(d, retryCount, k);
      RepliesIffArrives(d, k, profile);
    }
  }

  lemma {:induction false} EndOfStreamIsNoReply(d: Device)
    ensures EndOfStream(d).Retry? || EndOfStream(d) == Stop(CHECKSUM_ERROR)
    decreases |d.rx|
  {
    NextPacketShrinks(d);
    if NextPacket(d).0.result == OK {
      EndOfStreamIsNoReply(NextPacket(d).1);
    }
  }

  lemma SilentCollect(d: Device)
    requires d.rx == [] && d.later == []
    ensures Collect(d, NO_PORTS) == (Retry, d)
  {
  }

  /** A silent device: as many requests as allowed, then a timeout. */
  lemma SilenceTimesOut(d: Device, retryCount: nat)
    requires d.rx == [] && d.later == []
    ensures ProfileExchange(d, retryCount) ==
      (Done(Bad(TIMEOUT)), d.(tx := d.tx + Repeat(Request(GET_PROFILE).Frame(), retryCount)))
    decreases retryCount
  {
    hide Collect, Packet.Frame;
    var frame := Request(GET_PROFILE).Frame();
    if retryCount == 0 {
      assert d.tx + Repeat(frame, 0) == d.tx;
    } else {
      var d1 := AfterSend(d, Request(GET_PROFILE));
      SilentCollect(d1);
      SilenceTimesOut(d1, retryCount - 1);
      assert d1.tx + Repeat(frame, retryCount - 1) == d.tx + Repeat(frame, retryCount);
    }
  }

  // What OK means for the other requests.

  /** The result field of a reply to the command itself does not matter; that of an error packet does. */
  predicate Accepts(p: Packet, command: byte) {
    p.command == command || (p.command == PACKET_ERROR && p.result == OK)
  }

  lemma ReplyIsOkIff(d: Device, command: byte)
    ensures ReplyTo(d, command).0.result == OK
       <==> NextPacket(d).0.value.Some? && Accepts(NextPacket(d).0.value.value, command)
    ensures ReplyTo(d, command).1 == NextPacket(d).1
  {
    NextPacketShrinks(d);
  }

  /** The device just after the k-th of the requests, if all earlier ones failed. */
  function AfterRequests(d: Device, command: byte, k: nat): Device {
    if k == 0 then d else NextPacket(AfterSend(AfterRequests(d, command, k - 1), Request(command))).1
  }

  function KthReply(d: Device, command: byte, k: nat): ResultT<Packet>
    requires k > 0
  {
    NextPacket(AfterSend(AfterRequests(d, command, k - 1), Request(command))).0
  }

  ghost predicate KthAccepted(d: Device, command: byte, k: nat) {
    k > 0 && KthReply(d, command, k).value.Some? && Accepts(KthReply(d, command, k).value.value, command)
  }

  lemma {:induction false} AfterRequestsShift(d: Device, command: byte, k: nat)
    ensures AfterRequests(d, command, k + 1)
         == AfterRequests(NextPacket(AfterSend(d, Request(command))).1, command, k)
  {
    if k > 0 {
      AfterRequestsShift(d, command, k - 1);
    }
  }

  lemma KthAcceptedShift(d: Device, command: byte, k: nat)
    requires k > 0
    ensures KthAccepted(d, command, k + 1)
       <==> KthAccepted(NextPacket(AfterSend(d, Request(command))).1, command, k)
  {
    AfterRequestsShift(d, command, k - 1);
  }

  lemma CommandStep(d: Device, command: byte, retryCount: int)
    requires retryCount > 0
    ensures CommandExchange(d, command, retryCount).0 ==
      if KthAccepted(d, command, 1) then OK
      else CommandExchange(NextPacket(AfterSend(d, Request(command))).1, command, retryCount - 1).0
  {
    assert AfterRequests(d, command, 0) == d;
    ReplyIsOkIff(AfterSend(d, Request(command)), command);
  }

  ghost predicate SomeAccepted(d: Device, command: byte, n: int) {
    exists k: nat :: k <= n && KthAccepted(d, command, k)
  }

  lemma SomeAcceptedStep(d: Device, command: byte, n: int)
    requires n > 0
    ensures SomeAccepted(d, command, n)
       <==> KthAccepted(d, command, 1) || SomeAccepted(NextPacket(AfterSend(d, Request(command))).1, command, n - 1)
  {
    var d1 := NextPacket(AfterSend(d, Request(command))).1;
    if SomeAccepted(d, command, n) {
      var k: nat :| k <= n && KthAccepted(d, command, k);
      if k > 1 {
        KthAcceptedShift(d, command, k - 1);
        assert KthAccepted(d1, command, k - 1);
      }
    }
    if SomeAccepted(d1, command, n - 1) {
      var k: nat :| k <= n - 1 && KthAccepted(d1, command, k);
      KthAcceptedShift(d, command, k);
      assert KthAccepted(d, command, k + 1);
    }
  }

  /** activate, deactivate and execute report OK exactly when one of the allowed requests drew an accepted reply. */
  lemma {:induction false} CommandOkIff(d: Device, command: byte, retryCount: int)
    ensures CommandExchange(d, command, retryCount).0 == OK <==> SomeAccepted(d, command, retryCount)
    ensures CommandExchange(d, command, retryCount).0 in {OK, ERR}
    decreases retryCount
  {
    hide NextPacket, KthReply;
    if retryCount > 0 {
      CommandStep(d, command, retryCount);
      SomeAcceptedStep(d, command, retryCount);
      CommandOkIff(NextPacket(AfterSend(d, Request(command))).1, command, retryCount - 1);
    }
  }

  // What get_state and get_ec_type return.

  lemma KthReplyShift(d: Device, command: byte, k: nat)
    requires k > 0
    ensures KthReply(d, command, k + 1) == KthReply(NextPacket(AfterSend(d, Request(command))).1, command, k)
  {
    AfterRequestsShift(d, command, k - 1);
  }

  /** What an accepted reply is worth: its first byte, if it is the answer and has one. */
  function ValueOf(p: Packet, command: byte): Outcome<byte> {
    if p.command == command && p.data != [] then Done(Good(p.data[0])) else OutOfContract
  }

  lemma QueryStep(d: Device, command: byte, retryCount: int)
    requires retryCount > 0
    ensures QueryExchange(d, command, retryCount).0 ==
      if KthAccepted(d, command, 1) then ValueOf(KthReply(d, command, 1).value.value, command)
      else QueryExchange(NextPacket(AfterSend(d, Request(command))).1, command, retryCount - 1).0
  {
    assert AfterRequests(d, command, 0) == d;
    ReplyIsOkIff(AfterSend(d, Request(command)), command);
    NextPacketShrinks(AfterSend(d, Request(command)));
  }

  /** The first accepted reply decides what a query returns. */
  lemma {:induction false} QueryIsFirstAccepted(d: Device, command: byte, retryCount: int, k: nat)
    requires 0 < k <= retryCount && KthAccepted(d, command, k)
    requires forall j: nat :: j < k ==> !KthAccepted(d, command, j)
    ensures QueryExchange(d, command, retryCount).0 == ValueOf(KthReply(d, command, k).value.value, command)
    decreases k
  {
    hide NextPacket, KthReply, QueryExchange;
    QueryStep(d, command, retryCount);
    if k > 1 {
      var d1 := NextPacket(AfterSend(d, Request(command))).1;
      KthAcceptedShift(d, command, k - 1);
      KthReplyShift(d, command, k - 1);
      forall j: nat | j < k - 1 ensures !KthAccepted(d1, command, j) {
        if j > 0 {
          KthAcceptedShift(d, command, j);
        }
      }
      QueryIsFirstAccepted(d1, command, retryCount - 1, k - 1);
    }
  }

  /** And without one there is only an error. */
  lemma {:induction false} QueryWithoutReply(d: Device, command: byte, retryCount: int)
    requires !SomeAccepted(d, command, retryCount)
    ensures QueryExchange(d, command, retryCount).0 == Done(Bad(ERR))
    decreases retryCount
  {
    hide NextPacket, KthReply;
    if retryCount > 0 {
      QueryStep(d, command, retryCount);
      SomeAcceptedStep(d, command, retryCount);
      QueryWithoutReply(NextPacket(AfterSend(d, Request(command))).1, command, retryCount - 1);
    }
  }
}
