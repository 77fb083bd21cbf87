/**
 Whole exchanges with the board, told by the bytes on the line and not by the functions of `Protocol`:
 what every request puts on the line, how often, what is left unread, and which ports a profile holds.
 */
module Exchanges {
  import opened Bytes
  import opened Options
  import opened Packet
  import opened Sequences
  import opened Transport
  import opened Protocol

  // What is sent.

  function RequestBytes(command: byte): seq<byte> {
    [0x0a, 0x0a, command, 0x40, 0x00, (command + 0x40) % 256]
  }

  lemma RequestFrame(command: byte)
    ensures Request(command).Frame() == RequestBytes(command)
  {
    FrameBytes(Request(command));
  }

  lemma CommandsOnTheLine()
    ensures Request(ACTIVATE).Frame() == [0x0a, 0x0a, 0x41, 0x40, 0x00, 0x81]
    ensures Request(DEACTIVATE).Frame() == [0x0a, 0x0a, 0x44, 0x40, 0x00, 0x84]
    ensures Request(EXECUTE).Frame() == [0x0a, 0x0a, 0x45, 0x40, 0x00, 0x85]
    ensures Request(GET_STATE).Frame() == [0x0a, 0x0a, 0x58, 0x40, 0x00, 0x98]
    ensures Request(GET_CONTEXT_TYPE).Frame() == [0x0a, 0x0a, 0x42, 0x40, 0x00, 0x82]
    ensures Request(GET_PROFILE).Frame() == [0x0a, 0x0a, 0x5a, 0x40, 0x00, 0x9a]
  {
    hide Packet.Frame;
    RequestFrame(ACTIVATE);
    RequestFrame(DEACTIVATE);
    RequestFrame(EXECUTE);
    RequestFrame(GET_STATE);
    RequestFrame(GET_CONTEXT_TYPE);
    RequestFrame(GET_PROFILE);
  }

  lemma {:induction false} RepeatOneMore(frame: seq<byte>, k: nat)
    ensures Repeat(frame, k) + frame == Repeat(frame, k + 1)
  {
    if k == 0 {
      assert Repeat(frame, 1) == frame + Repeat(frame, 0) == frame;
      assert Repeat(frame, 0) + frame == frame;
    } else {
      RepeatOneMore(frame, k - 1);
      Associates(frame, Repeat(frame, k - 1), frame);
    }
  }

  /** After k requests that went unaccepted, exactly k frames were sent, and what is unread was pending all along. */
  lemma {:induction false} RequestsSent(d: Device, command: byte, k: nat)
    ensures AfterRequests(d, command, k).tx == d.tx + Repeat(RequestBytes(command), k)
    ensures Consumes(d, AfterRequests(d, command, k).(tx := d.tx))
  {
    hide Consumes, NextPacket, Packet.Frame, Repeat;
    if k == 0 {
      NothingSent(d, command);
    } else {
      RequestsSent(d, command, k - 1);
      RequestFrame(command);
      OneMoreReply(d, AfterRequests(d, command, k - 1), RequestBytes(command), k - 1);
    }
  }

  lemma NothingSent(d: Device, command: byte)
    ensures d.tx + Repeat(RequestBytes(command), 0) == d.tx && Consumes(d, d.(tx := d.tx))
  {
    assert d.Pending()[0..] == d.Pending();
  }

  lemma OneMoreReply(d: Device, before: Device, frame: seq<byte>, k: nat)
    requires before.tx == d.tx + Repeat(frame, k) && Consumes(d, before.(tx := d.tx))
    ensures var after := NextPacket(before.(tx := before.tx + frame)).1;
            after.tx == d.tx + Repeat(frame, k + 1) && Consumes(d, after.(tx := d.tx))
  {
    hide NextPacket, Repeat;
    var start := before.(tx := before.tx + frame);
    var after := NextPacket(start).1;
    NextPacketConsumes(start);
    RepeatOneMore(frame, k);
    Associates(d.tx, Repeat(frame, k), frame);
    SamePending(start, before.(tx := d.tx), after, after.(tx := d.tx));
  }

  // How often, and what is left.

  /** The k-th request is the last: it is the first to be accepted, or no more are allowed. */
  ghost predicate IsLastRequest(d: Device, command: byte, retryCount: int, k: nat) {
    && (forall j: nat :: j < k ==> !KthAccepted(d, command, j))
    && (if KthAccepted(d, command, k) then k <= retryCount else k == if retryCount > 0 then retryCount else 0)
  }

  lemma {:induction false} LastRequestFrom(d: Device, command: byte, retryCount: int, i: nat) returns (k: nat)
    requires i == 0 || i <= retryCount
    requires forall j: nat :: j < i ==> !KthAccepted(d, command, j)
    ensures IsLastRequest(d, command, retryCount, k)
    decreases retryCount - i
  {
    if KthAccepted(d, command, i) || i >= retryCount {
      k := i;
    } else {
      k := LastRequestFrom(d, command, retryCount, i + 1);
    }
  }

  lemma LastRequestShift(d: Device, command: byte, retryCount: int, k: nat)
    requires k > 0 && retryCount > 0 && !KthAccepted(d, command, 1) && IsLastRequest(d, command, retryCount, k)
    ensures k > 1 || retryCount == 1
    ensures IsLastRequest(NextPacket(AfterSend(d, Request(command))).1, command, retryCount - 1, k - 1)
  {
    hide NextPacket, KthReply, KthAccepted;
    var d1 := NextPacket(AfterSend(d, Request(command))).1;
    NoRequestAccepted(d1, command);
    forall j: nat | 0 < j < k ensures KthAccepted(d1, command, j) == KthAccepted(d, command, j + 1) {
      KthAcceptedShift(d, command, j);
    }
  }

  lemma NoRequestAccepted(d: Device, command: byte)
    ensures !KthAccepted(d, command, 0)
  {
  }

  lemma CommandFirst(d: Device, command: byte, retryCount: int)
    requires retryCount > 0
    ensures var d1 := NextPacket(AfterSend(d, Request(command))).1;
            CommandExchange(d, command, retryCount) ==
              if KthAccepted(d, command, 1) then (OK, d1) else CommandExchange(d1, command, retryCount - 1)
  {
    assert AfterRequests(d, command, 0) == d;
    ReplyIsOkIff(AfterSend(d, Request(command)), command);
  }

  /** The exchange is over with its last request: it is OK if that one was accepted, and leaves the device as its reply does. */
  lemma {:induction false} CommandEndsWith(d: Device, command: byte, retryCount: int, k: nat)
    requires IsLastRequest(d, command, retryCount, k)
    ensures CommandExchange(d, command, retryCount)
         == (if KthAccepted(d, command, k) then OK else ERR, AfterRequests(d, command, k))
    decreases k
  {
    hide NextPacket, KthReply, ReplyTo;
    NoRequestAccepted(d, command);
    if retryCount > 0 {
      var d1 := NextPacket(AfterSend(d, Request(command))).1;
      CommandFirst(d, command, retryCount);
      AfterRequestsShift(d, command, k - 1);
      if !KthAccepted(d, command, 1) {
        LastRequestShift(d, command, retryCount, k);
        CommandEndsWith(d1, command, retryCount - 1, k - 1);
        LastIsAcceptedShift(d, command, k);
      } else {
        assert k == 1;
        assert AfterRequests(d1, command, 0) == d1;
      }
    }
  }

  lemma LastIsAcceptedShift(d: Device, command: byte, k: nat)
    requires k > 0 && !KthAccepted(d, command, 1)
    ensures KthAccepted(NextPacket(AfterSend(d, Request(command))).1, command, k - 1) <==> KthAccepted(d, command, k)
  {
    hide NextPacket, KthReply;
    if k > 1 {
      KthAcceptedShift(d, command, k - 1);
    }
  }

  /**
   activate, deactivate and execute put k request frames on the line and nothing else, where the k-th is
   the first to be accepted or the last allowed, and what stays unread is what the k-th reply left.
   */
  lemma CommandMeaning(d: Device, command: byte, retryCount: int) returns (k: nat)
    ensures IsLastRequest(d, command, retryCount, k)
    ensures var (result, after) := CommandExchange(d, command, retryCount);
            && result == (if KthAccepted(d, command, k) then OK else ERR)
            && after == AfterRequests(d, command, k)
            && after.tx == d.tx + Repeat([0x0a, 0x0a, command, 0x40, 0x00, (command + 0x40) % 256], k)
            && Consumes(d, after.(tx := d.tx))
  {
    hide CommandExchange, AfterRequests, Consumes, KthAccepted;
    k := LastRequestFrom(d, command, retryCount, 0);
    CommandEndsWith(d, command, retryCount, k);
    RequestsSent(d, command, k);
  }

  lemma QueryFirst(d: Device, command: byte, retryCount: int)
    requires retryCount > 0
    ensures var d1 := NextPacket(AfterSend(d, Request(command))).1;
            QueryExchange(d, command, retryCount) ==
              if KthAccepted(d, command, 1) then (ValueOf(KthReply(d, command, 1).value.value, command), d1)
              else QueryExchange(d1, command, retryCount - 1)
  {
    assert AfterRequests(d, command, 0) == d;
    ReplyIsOkIff(AfterSend(d, Request(command)), command);
    NextPacketShrinks(AfterSend(d, Request(command)));
  }

  lemma {:induction false} QueryEndsWith(d: Device, command: byte, retryCount: int, k: nat)
    requires IsLastRequest(d, command, retryCount, k)
    ensures QueryExchange(d, command, retryCount)
         == (if KthAccepted(d, command, k) then ValueOf(KthReply(d, command, k).value.value, command) else Done(Bad(ERR)),
             AfterRequests(d, command, k))
    decreases k
  {
    hide NextPacket, KthReply, ReplyTo, ValueOf;
    NoRequestAccepted(d, command);
    if retryCount > 0 {
      var d1 := NextPacket(AfterSend(d, Request(command))).1;
      QueryFirst(d, command, retryCount);
      AfterRequestsShift(d, command, k - 1);
      if !KthAccepted(d, command, 1) {
        LastRequestShift(d, command, retryCount, k);
        QueryEndsWith(d1, command, retryCount - 1, k - 1);
        LastIsAcceptedShift(d, command, k);
        if k > 1 {
          KthReplyShift(d, command, k - 1);
        }
      } else {
        assert k == 1;
        assert AfterRequests(d1, command, 0) == d1;
      }
    }
  }

  /** The same of get_state and get_ec_type, whose answer is the first data byte of the first accepted reply. */
  lemma QueryMeaning(d: Device, command: byte, retryCount: int) returns (k: nat)
    ensures IsLastRequest(d, command, retryCount, k)
    ensures var (answer, after) := QueryExchange(d, command, retryCount);
            && answer == (if !KthAccepted(d, command, k) then Done(Bad(ERR))
                          else ValueOf(KthReply(d, command, k).value.value, command))
            && after == AfterRequests(d, command, k)
            && after.tx == d.tx + Repeat([0x0a, 0x0a, command, 0x40, 0x00, (command + 0x40) % 256], k)
            && Consumes(d, after.(tx := d.tx))
  {
    hide QueryExchange, AfterRequests, Consumes, KthReply, ValueOf;
    k := LastRequestFrom(d, command, retryCount, 0);
    QueryEndsWith(d, command, retryCount, k);
    RequestsSent(d, command, k);
  }

  // One reply on the line.

  /** A frame that arrives whole is the reply: the answer, the code of an error packet, or an error; what follows it stays. */
  lemma ReplyOnTheLine(d: Device, command: byte, p: Packet, tail: seq<byte>)
    requires |p.data| <= 252 && d.rx == p.Frame() + tail
    ensures ReplyTo(d, command) ==
      (if p.command == command then Good(p) else if p.command == 0x46 then Bad(p.result) else Bad(0x78), d.(rx := tail))
  {
    hide Packet.Frame, NextPacket;
    FrameIsWire(p);
    OneFrame(d, Intact(p), tail);
  }

  /** An intact answer to the first request is enough: one frame goes out, one comes in, and the rest stays unread. */
  lemma CommandAnswered(d: Device, command: byte, retryCount: int, p: Packet, tail: seq<byte>)
    requires retryCount > 0 && |p.data| <= 252 && p.command == command && d.rx == p.Frame() + tail
    ensures CommandExchange(d, command, retryCount)
         == (OK, d.(rx := tail, tx := d.tx + [0x0a, 0x0a, command, 0x40, 0x00, (command + 0x40) % 256]))
  {
    hide Packet.Frame, ReplyTo;
    RequestFrame(command);
    ReplyOnTheLine(AfterSend(d, Request(command)), command, p, tail);
  }

  // The ports of a profile.

  /** What the board sends in answer to GET_PROFILE: ports, and packets of commands that mean nothing here. */
  datatype Item =
    | Port(output: bool, typecode: byte, name: seq<byte>, rest: Option<seq<byte>>, result: byte)
    | Ignored(p: Packet)
  {
    ghost predicate Valid() {
      match this
      case Port(_, _, name, rest, _) => 0 !in name && 1 + |name| + (if rest.Some? then 1 + |rest.value| else 0) <= 64
      case Ignored(p) => |p.data| <= 252 && p.command !in [0x5a, 0x50, 0x51, 0x46, 0x48, 0x4b]
    }

    function AsPacket(): Packet {
      match this
      case Port(output, typecode, name, rest, result) =>
        Packet(if output then 0x51 else 0x50, result,
               [typecode] + name + if rest.Some? then [0] + rest.value else [])
      case Ignored(p) => p
    }
  }

  /** The type codes and names of the ports of one direction, as they were sent. */
  function PortsSent(items: seq<Item>, output: bool): seq<PortProfile> {
    if items == [] then []
    else (if items[0].Port? && items[0].output == output then [PortProfile(items[0].typecode, items[0].name)] else [])
         + PortsSent(items[1..], output)
  }

  ghost predicate AllValid(items: seq<Item>) {
    forall i :: 0 <= i < |items| ==> items[i].Valid()
  }

  function Packets(items: seq<Item>): seq<Packet> {
    seq(|items|, i requires 0 <= i < |items| => items[i].AsPacket())
  }

  lemma {:induction false} NameUpToNul(name: seq<byte>, rest: seq<byte>)
    requires 0 !in name
    ensures UpToNul(name) == name && UpToNul(name + [0] + rest) == name
  {
    if name == [] {
      assert ([] + [0] + rest)[0] == 0;
    } else {
      assert (name + [0] + rest)[1..] == name[1..] + [0] + rest;
      NameUpToNul(name[1..], rest);
    }
  }

  lemma PortIsParsed(item: Item)
    requires item.Valid() && item.Port?
    ensures ParsePortProfile(item.AsPacket()) == Some(PortProfile(item.typecode, item.name))
  {
    var data := item.AsPacket().data;
    NameUpToNul(item.name, if item.rest.Some? then item.rest.value else []);
    if item.rest.Some? {
      assert data[1..] == item.name + [0] + item.rest.value;
    } else {
      assert data[1..] == item.name;
    }
  }

  lemma ItemIsNoStop(item: Item)
    requires item.Valid()
    ensures !IsStop(item.AsPacket()) && |item.AsPacket().data| <= 252
    ensures PortsOf([item.AsPacket()], INPORT_PROFILE) == PortsSent([item], false)
    ensures PortsOf([item.AsPacket()], OUTPORT_PROFILE) == PortsSent([item], true)
  {
    hide ParsePortProfile;
    if item.Port? {
      PortIsParsed(item);
    }
    assert [item.AsPacket()][1..] == [] && [item][1..] == [];
  }

  lemma {:induction false} ItemsDoNotStop(items: seq<Item>, closing: Packet, more: seq<Packet>)
    requires AllValid(items) && closing.command == 0x5a
    ensures var ps := Packets(items) + [closing] + more;
            && FirstStop(ps) == |items| && ps[..|items|] == Packets(items) && ps[|items|] == closing
  {
    var ps := Packets(items) + [closing] + more;
    if items == [] {
      assert ps[0] == closing;
    } else {
      hide ParsePortProfile, IsStop, Item.Valid, Item.AsPacket;
      ItemIsNoStop(items[0]);
      ItemsDoNotStop(items[1..], closing, more);
      assert ps[0] == items[0].AsPacket();
      assert ps[1..] == Packets(items[1..]) + [closing] + more;
    }
  }

  lemma {:induction false} ItemsArePorts(items: seq<Item>)
    requires AllValid(items)
    ensures PortsOf(Packets(items), INPORT_PROFILE) == PortsSent(items, false)
    ensures PortsOf(Packets(items), OUTPORT_PROFILE) == PortsSent(items, true)
  {
    if items != [] {
      hide ParsePortProfile, PortsOf, Item.Valid, Item.AsPacket, PortsSent;
      var p := items[0].AsPacket();
      ItemIsNoStop(items[0]);
      ItemsArePorts(items[1..]);
      assert Packets(items) == [p] + Packets(items[1..]);
      PortsSentStep(items, false);
      PortsSentStep(items, true);
    }
  }

  /** All attempts before the k-th met with silence. */
  predicate SilentBefore(d: Device, k: nat)
    requires k > 0
  {
    k == 1 || (AttemptEnd(d, k - 1).Retry? && SilentBefore(d, k - 1))
  }

  lemma {:induction false} SilentAt(d: Device, k: nat, j: nat)
    requires 0 < j < k && SilentBefore(d, k)
    ensures AttemptEnd(d, j).Retry?
    decreases k
  {
    hide AttemptEnd;
    if j < k - 1 {
      SilentAt(d, k - 1, j);
    }
  }

  /**
   get_profile returns the ports that the board sent: if all earlier attempts met with silence and after
   the k-th request come ports and unknown packets and then GET_PROFILE, the profile holds exactly the
   type codes and names of those ports, in their order.
   */
  lemma ProfileAsSent(d: Device, retryCount: int, k: nat, items: seq<Item>, closing: Packet, more: seq<Packet>)
    requires 0 < k <= retryCount && SilentBefore(d, k) && AllValid(items) && closing.command == 0x5a
    requires PacketsFrom(AttemptStart(d, k)) == Packets(items) + [closing] + more
    ensures ProfileExchange(d, retryCount)
         == (Done(Good(Profile(PortsSent(items, false), PortsSent(items, true)))), Collect(AttemptStart(d, k), NO_PORTS).1)
  {
    hide Collect, AttemptStart, ProfileExchange, PortsOf, FirstStop, Packets, AttemptEnd;
    ItemsDoNotStop(items, closing, more);
    ItemsArePorts(items);
    var profile := Profile(PortsSent(items, false), PortsSent(items, true));
    assert Arrives(d, k, profile);
    RepliesIffArrives(d, k, profile);
    forall j: nat | 1 <= j < k ensures AttemptEnd(d, j).Retry? {
      SilentAt(d, k, j);
    }
    LastAttemptDecides(d, retryCount, k);
  }

  // The same on the line.

  function Frames(ps: seq<Packet>): seq<byte>
    requires forall i :: 0 <= i < |ps| ==> ps[i].Valid()
  {
    if ps == [] then [] else ps[0].Frame() + Frames(ps[1..])
  }

  lemma CollectOne(d: Device, profile: Profile, item: Item, tail: seq<byte>)
    requires item.Valid() && |item.AsPacket().data| <= 252 && d.rx == item.AsPacket().Frame() + tail
    ensures Collect(d, profile) == Collect(d.(rx := tail), Profile(profile.inports + PortsSent([item], false),
                                                                   profile.outports + PortsSent([item], true)))
  {
    hide Packet.Frame, NextPacket, ParsePortProfile;
    var p := item.AsPacket();
    FrameIsWire(p);
    OneFrame(d, Intact(p), tail);
    ItemIsNoStop(item);
    SkipOrCollect(profile, p);
  }

  lemma CollectClosing(d: Device, profile: Profile, closing: Packet, tail: seq<byte>)
    requires closing.command == 0x5a && |closing.data| <= 252 && d.rx == closing.Frame() + tail
    ensures Collect(d, profile) == (Reply(profile), d.(rx := tail))
  {
    hide Packet.Frame, NextPacket;
    FrameIsWire(closing);
    OneFrame(d, Intact(closing), tail);
  }

  ghost predicate OnTheLine(rx: seq<byte>, items: seq<Item>, closing: Packet, tail: seq<byte>) {
    && AllValid(items) && |closing.data| <= 252
    && (forall i :: 0 <= i < |items| ==> |Packets(items)[i].data| <= 252)
    && rx == Frames(Packets(items)) + (closing.Frame() + tail)
  }

  lemma OnTheLineStep(rx: seq<byte>, items: seq<Item>, closing: Packet, tail: seq<byte>)
    requires OnTheLine(rx, items, closing, tail) && items != []
    ensures items[0].Valid() && |items[0].AsPacket().data| <= 252
    ensures exists rx' :: OnTheLine(rx', items[1..], closing, tail) && rx == items[0].AsPacket().Frame() + rx'
  {
    hide Packet.Frame, Item.Valid, Item.AsPacket;
    var ps := Packets(items);
    assert ps[0] == items[0].AsPacket() && ps[1..] == Packets(items[1..]);
    var rx' := Frames(Packets(items[1..])) + (closing.Frame() + tail);
    Associates(ps[0].Frame(), Frames(ps[1..]), closing.Frame() + tail);
    assert OnTheLine(rx', items[1..], closing, tail);
  }

  lemma {:induction false} CollectItems(d: Device, profile: Profile, items: seq<Item>, closing: Packet, tail: seq<byte>)
    requires closing.command == 0x5a && OnTheLine(d.rx, items, closing, tail)
    ensures Collect(d, profile) == (Reply(Profile(profile.inports + PortsSent(items, false),
                                                  profile.outports + PortsSent(items, true))), d.(rx := tail))
    decreases |items|
  {
    hide Collect, Packet.Frame, Item.Valid, Item.AsPacket;
    if items == [] {
      assert d.rx == closing.Frame() + tail;
      assert profile.inports + [] == profile.inports && profile.outports + [] == profile.outports;
      CollectClosing(d, profile, closing, tail);
    } else {
      OnTheLineStep(d.rx, items, closing, tail);
      var rest :| OnTheLine(rest, items[1..], closing, tail) && d.rx == items[0].AsPacket().Frame() + rest;
      CollectOne(d, profile, items[0], rest);
      var profile' := Profile(profile.inports + PortsSent([items[0]], false), profile.outports + PortsSent([items[0]], true));
      CollectItems(d.(rx := rest), profile', items[1..], closing, tail);
      PortsSentStep(items, false);
      PortsSentStep(items, true);
      Associates(profile.inports, PortsSent([items[0]], false), PortsSent(items[1..], false));
      Associates(profile.outports, PortsSent([items[0]], true), PortsSent(items[1..], true));
    }
  }

  lemma PortsSentStep(items: seq<Item>, output: bool)
    requires items != []
    ensures PortsSent(items, output) == PortsSent([items[0]], output) + PortsSent(items[1..], output)
  {
    assert [items[0]][1..] == [];
  }

  /**
   The plain case, byte for byte: the frames of the ports, then that of GET_PROFILE, wait to be read.
   One request goes out, the ports come back as they were sent, and what follows stays unread.
   */
  lemma ProfileOverTheLine(d: Device, retryCount: int, items: seq<Item>, closing: Packet, tail: seq<byte>)
    requires retryCount > 0 && closing.command == 0x5a && OnTheLine(d.rx, items, closing, tail)
    ensures ProfileExchange(d, retryCount)
         == (Done(Good(Profile(PortsSent(items, false), PortsSent(items, true)))),
             d.(rx := tail, tx := d.tx + [0x0a, 0x0a, 0x5a, 0x40, 0x00, 0x9a]))
  {
    hide Collect, Packet.Frame, PortsSent, OnTheLine;
    CommandsOnTheLine();
    CollectItems(AfterSend(d, Request(GET_PROFILE)), NO_PORTS, items, closing, tail);
    assert [] + PortsSent(items, false) == PortsSent(items, false) && [] + PortsSent(items, true) == PortsSent(items, true);
  }

  /** A port without a type code, or longer than the buffer of the parser, is out of the code's contract. */
  lemma BadPortIsOutOfContract(d: Device, retryCount: int, p: Packet, tail: seq<byte>)
    requires retryCount > 0 && p.command in [0x50, 0x51] && (p.data == [] || 65 <= |p.data| <= 252)
    requires d.rx == p.Frame() + tail
    ensures ProfileExchange(d, retryCount)
         == (OutOfContract, d.(rx := tail, tx := d.tx + [0x0a, 0x0a, 0x5a, 0x40, 0x00, 0x9a]))
  {
    hide Packet.Frame, NextPacket;
    CommandsOnTheLine();
    FrameIsWire(p);
    OneFrame(AfterSend(d, Request(GET_PROFILE)), Intact(p), tail);
  }

  lemma CollectStep(d: Device, profile: Profile)
    ensures var (r, d1) := NextPacket(d);
            Collect(d, profile).1 ==
              if r.result == OK && r.value.Some? && !IsStop(r.value.value)
              then Collect(d1, Extended(profile, [r.value.value])).1 else d1
  {
    hide NextPacket, ParsePortProfile, Extended, PortsOf;
    NextPacketShrinks(d);
    var r := NextPacket(d).0;
    if r.result == OK && !IsStop(r.value.value) {
      SkipOrCollect(profile, r.value.value);
    }
  }

  /** However an attempt ends, it has received the packets up to the one that stopped it, or up to the first failure. */
  lemma {:induction false} CollectReceives(d: Device, profile: Profile)
    ensures Collect(d, profile).1 == ReceiveAll(d, FirstStop(PacketsFrom(d)) + 1).1
    decreases |d.rx|
  {
    hide NextPacket, Collect, Extended, IsStop;
    NextPacketShrinks(d);
    CollectStep(d, profile);
    var (r, d1) := NextPacket(d);
    assert ReceiveAll(d1, 0).1 == d1;
    if r.result == OK {
      assert PacketsFrom(d)[1..] == PacketsFrom(d1);
      if !IsStop(r.value.value) {
        CollectReceives(d1, Extended(profile, [r.value.value]));
      }
    }
  }
}
