/** The sniffing task: the start-up sequence that brings up the radio queue,
    the UDP socket and the radio session for the selected protocol, and the
    per-tick forwarding of at most one captured frame as one UDP datagram
    laid out as [protocol byte][BLE access address, BLE only][frame]. */
module SniffingTask {
  import opened RadioTypes
  import opened Platform
  import opened Ethernet
  import opened RadioApi

  /** Local port of the socket and destination port of every datagram. */
  const SnifferPort: int := 2014

  /** The BLE advertising access address that prefixes BLE frames. */
  const AccessAddress: seq<byte> := [0xD6, 0xBE, 0x89, 0x8E]

  // ---------------------------------------------------------------------
  // Datagram layout.

  /** The cast of a protocol value to its first datagram byte: the value
      modulo 256, so a protocol value below 256 is sent unchanged. */
  function ProtoTag(proto: int): (b: byte)
    ensures (b - proto) % 256 == 0
    ensures 0 <= proto < 256 ==> b == proto
  {
    proto % 256
  }

  /** The datagram that carries one captured frame. */
  function Datagram(proto: int, accessAddr: seq<byte>, payload: Frame): (d: seq<byte>)
    requires proto == BluetoothLowEnergy ==> |accessAddr| >= 4
    ensures |d| == (if proto == BluetoothLowEnergy then 1 + 4 else 1) + |payload|
    ensures d[0] == ProtoTag(proto)
    ensures proto == BluetoothLowEnergy ==> d[1..5] == accessAddr[..4]
    ensures d[|d| - |payload|..] == payload
  {
    [ProtoTag(proto)] + (if proto == BluetoothLowEnergy then accessAddr[..4] else []) + payload
  }

  /** A datagram as a listener reads it back. */
  datatype Capture = Capture(tag: byte, accessAddr: seq<byte>, payload: seq<byte>)

  /** The listener's side of the layout: the first byte is the tag, four
      access-address bytes follow when the tag is the BLE tag, and the rest
      is the frame. */
  function ParseDatagram(d: seq<byte>): Option<Capture> {
    if |d| == 0 then None
    else if d[0] == ProtoTag(BluetoothLowEnergy) then
      if |d| < 5 then None else Some(Capture(d[0], d[1..5], d[5..]))
    else Some(Capture(d[0], [], d[1..]))
  }

  /** A listener recovers the tag, the access address and the frame of every
      datagram, provided a non-BLE protocol's tag is not the BLE tag. */
  lemma ParseDatagramInvertsDatagram(proto: int, accessAddr: seq<byte>, payload: Frame)
    requires proto == BluetoothLowEnergy ==> |accessAddr| >= 4
    requires proto == BluetoothLowEnergy || ProtoTag(proto) != ProtoTag(BluetoothLowEnergy)
    ensures ParseDatagram(Datagram(proto, accessAddr, payload))
            == Some(Capture(ProtoTag(proto),
                            if proto == BluetoothLowEnergy then accessAddr[..4] else [],
                            payload))
  {
    var d := Datagram(proto, accessAddr, payload);
    if proto == BluetoothLowEnergy {
      assert d[5..] == payload;
    } else {
      assert d[1..] == payload;
    }
  }

  /** Conversely, everything a listener accepts is the datagram of its
      capture. */
  lemma DatagramInvertsParse(d: seq<byte>)
    requires ParseDatagram(d).Some?
    ensures var c := ParseDatagram(d).value;
            if c.tag == ProtoTag(BluetoothLowEnergy)
            then |c.accessAddr| == 4 && d == Datagram(BluetoothLowEnergy, c.accessAddr, c.payload)
            else c.tag != BluetoothLowEnergy && d == Datagram(c.tag, [], c.payload)
  {
    var c := ParseDatagram(d).value;
    if c.tag == ProtoTag(BluetoothLowEnergy) {
      assert d == [d[0]] + d[1..5] + d[5..];
    } else {
      assert c.tag != BluetoothLowEnergy;
      assert d == [d[0]] + d[1..];
    }
  }

  // ---------------------------------------------------------------------
  // One tick.

  /** What one tick sends when it takes frame from the queue: one datagram
      to ip on the sniffer port, unless the frame is empty or the network
      refuses the datagram. */
  function TickOutput(frame: Frame, proto: int, ip: IpAddress, accessAddr: seq<byte>, sendOk: bool)
    : (r: seq<SentDatagram>)
    requires proto == BluetoothLowEnergy ==> |accessAddr| >= 4
    ensures |r| <= 1
    ensures |r| == 1 <==> frame != [] && sendOk
    ensures |r| == 1 ==> r[0].ip == ip && r[0].port == SnifferPort
    ensures |r| == 1 ==> r[0].payload == Datagram(proto, accessAddr, frame)
  {
    if frame != [] && sendOk then [SentDatagram(ip, SnifferPort, Datagram(proto, accessAddr, frame))]
    else []
  }

  /** HandleIncomingRfPacket: takes at most one frame from the radio queue;
      an empty queue or an empty frame begins no datagram at all, otherwise
      the frame's datagram is built by successive writes and sent to
      targetIp on the sniffer port, and a refused send is not retried. */
  method HandleIncomingRfPacket(dev: Device, udp: EthernetUdp, targetIp: IpAddress, proto: int,
                                accessAddr: array<byte>, delivered: bool)
    requires dev.Valid()
    requires proto == BluetoothLowEnergy ==> accessAddr.Length >= 4
    modifies dev`frames, udp
    ensures dev.Valid()
    ensures dev.frames == if old(dev.frames) == [] then [] else old(dev.frames)[1..]
    ensures old(dev.frames) == [] || old(dev.frames)[0] == [] ==> unchanged(udp)
    ensures old(dev.frames) != [] && old(dev.frames)[0] != [] ==>
              && udp.localPort == old(udp.localPort)
              && udp.remoteIp == targetIp && udp.remotePort == SnifferPort
              && udp.outgoing == Datagram(proto, accessAddr[..], old(dev.frames)[0])
              && udp.sent == old(udp.sent)
                             + TickOutput(old(dev.frames)[0], proto, targetIp, accessAddr[..], delivered)
  {
    var localBuf := new byte[MaxPacketLen];
    var packetLen := dev.TakePacket(localBuf, MaxPacketLen);
    if packetLen != 0 {
      var _ := udp.BeginPacketIp(targetIp, SnifferPort);
      udp.WriteByte(ProtoTag(proto));
      if proto == BluetoothLowEnergy {
        udp.Write(accessAddr, 4);
      }
      udp.Write(localBuf, packetLen);
      var _ := udp.EndPacket(delivered);
    }
  }

  // ---------------------------------------------------------------------
  // A run of ticks.

  /** What happens between two ticks and during one: frames the radio
      captured, whether the radio raised RxBufFull, and whether the network
      accepts the tick's datagram. */
  datatype Tick = Tick(arrivals: seq<Frame>, bufferFull: bool, sendOk: bool)

  /** The frames queued, every call made on the queue and the driver, and
      every datagram sent. */
  datatype RunState = RunState(queue: seq<Frame>, calls: seq<Call>, sent: seq<SentDatagram>)

  /** One tick: the captured frames join the queue; RxBufFull runs overflow
      recovery; then the task forwards at most one frame. */
  function StepTick(s: RunState, t: Tick, proto: int, ip: IpAddress, accessAddr: seq<byte>): RunState
    requires proto == BluetoothLowEnergy ==> |accessAddr| >= 4
  {
    var q := if t.bufferFull then [] else s.queue + t.arrivals;
    var calls := if t.bufferFull then s.calls + OverflowCallsSameProtocol(proto) else s.calls;
    if q == [] then RunState([], calls, s.sent)
    else RunState(q[1..], calls, s.sent + TickOutput(q[0], proto, ip, accessAddr, t.sendOk))
  }

  /** The state after the given ticks. Each tick sends at most one datagram
      and never takes back what was sent. */
  function Run(s0: RunState, ticks: seq<Tick>, proto: int, ip: IpAddress, accessAddr: seq<byte>)
    : (r: RunState)
    requires proto == BluetoothLowEnergy ==> |accessAddr| >= 4
    ensures |s0.sent| <= |r.sent| <= |s0.sent| + |ticks|
    ensures r.sent[..|s0.sent|] == s0.sent
    decreases |ticks|
  {
    if ticks == [] then s0
    else StepTick(Run(s0, ticks[..|ticks| - 1], proto, ip, accessAddr), ticks[|ticks| - 1], proto, ip, accessAddr)
  }

  /** Every frame captured during the ticks, in capture order. */
  function Arrivals(ticks: seq<Tick>): seq<Frame> {
    if ticks == [] then [] else Arrivals(ticks[..|ticks| - 1]) + ticks[|ticks| - 1].arrivals
  }

  /** The datagrams that carry the given frames, in order. */
  function Sends(frames: seq<Frame>, proto: int, ip: IpAddress, accessAddr: seq<byte>)
    : (r: seq<SentDatagram>)
    requires proto == BluetoothLowEnergy ==> |accessAddr| >= 4
    ensures |r| == |frames|
  {
    if frames == [] then []
    else Sends(frames[..|frames| - 1], proto, ip, accessAddr)
         + [SentDatagram(ip, SnifferPort, Datagram(proto, accessAddr, frames[|frames| - 1]))]
  }

  /** r has sent, after sent0, the datagrams of the first n captured frames
      for some n, and still queues exactly the captured frames after them. */
  ghost predicate ForwardedInOrder(sent0: seq<SentDatagram>, r: RunState, captured: seq<Frame>,
                                   proto: int, ip: IpAddress, accessAddr: seq<byte>)
    requires proto == BluetoothLowEnergy ==> |accessAddr| >= 4
  {
    var n := |r.sent| - |sent0|;
    && 0 <= n <= |captured|
    && r.queue == captured[n..]
    && r.sent == sent0 + Sends(captured[..n], proto, ip, accessAddr)
  }

  /** One tick of a capture run keeps the forwarded datagrams and the queue
      in step with what was captured, the tick's arrivals included. */
  lemma StepKeepsCaptureOrder(sent0: seq<SentDatagram>, s: RunState, t: Tick, earlier: seq<Frame>,
                              proto: int, ip: IpAddress, accessAddr: seq<byte>)
    requires proto == BluetoothLowEnergy ==> |accessAddr| >= 4
    requires !t.bufferFull && t.sendOk
    requires forall f :: f in earlier + t.arrivals ==> f != []
    requires ForwardedInOrder(sent0, s, earlier, proto, ip, accessAddr)
    ensures ForwardedInOrder(sent0, StepTick(s, t, proto, ip, accessAddr), earlier + t.arrivals,
                             proto, ip, accessAddr)
    ensures StepTick(s, t, proto, ip, accessAddr).calls == s.calls
  {
    var captured := earlier + t.arrivals;
    var q := s.queue + t.arrivals;
    var n := |s.sent| - |sent0|;
    assert captured[..n] == earlier[..n];
    assert q == captured[n..];
    if q != [] {
      assert captured[n] in captured;
      assert captured[..n + 1][..n] == captured[..n];
      assert captured[n + 1..] == q[1..];
    }
  }

  /** The frames captured up to some tick are those captured before it and
      then the tick's own. */
  lemma {:induction false} CapturedThroughTick(queue: seq<Frame>, ticks: seq<Tick>)
    requires ticks != []
    ensures queue + Arrivals(ticks) == (queue + Arrivals(ticks[..|ticks| - 1])) + ticks[|ticks| - 1].arrivals
  {
    var earlier := Arrivals(ticks[..|ticks| - 1]);
    var last := ticks[|ticks| - 1].arrivals;
    assert Arrivals(ticks) == earlier + last;
    assert queue + (earlier + last) == (queue + earlier) + last;
  }

  /** Within a capture run (no RxBufFull) where every send succeeds and no
      frame is empty, frames are forwarded in the order captured: what was
      sent is the datagrams of a prefix of everything captured, and what
      remains queued is exactly the rest. */
  lemma {:induction false} RunForwardsInCaptureOrder(s0: RunState, ticks: seq<Tick>, proto: int,
                                                     ip: IpAddress, accessAddr: seq<byte>)
    requires proto == BluetoothLowEnergy ==> |accessAddr| >= 4
    requires forall i :: 0 <= i < |ticks| ==> !ticks[i].bufferFull && ticks[i].sendOk
    requires forall f :: f in s0.queue + Arrivals(ticks) ==> f != []
    ensures ForwardedInOrder(s0.sent, Run(s0, ticks, proto, ip, accessAddr),
                             s0.queue + Arrivals(ticks), proto, ip, accessAddr)
    ensures Run(s0, ticks, proto, ip, accessAddr).calls == s0.calls
    decreases |ticks|
  {
    if ticks == [] {
      assert Sends([], proto, ip, accessAddr) == [];
      assert (s0.queue + Arrivals(ticks))[..0] == [];
    } else {
      var k := |ticks| - 1;
      var prev := ticks[..k];
      var earlier := s0.queue + Arrivals(prev);
      CapturedThroughTick(s0.queue, ticks);
      forall f | f in earlier ensures f != [] {
        assert f in earlier + ticks[k].arrivals;
      }
      RunForwardsInCaptureOrder(s0, prev, proto, ip, accessAddr);
      StepKeepsCaptureOrder(s0.sent, Run(s0, prev, proto, ip, accessAddr), ticks[k], earlier,
                            proto, ip, accessAddr);
    }
  }

  /** Whether the network accepted the send of each frame the ticks took
      from the queue, in the order taken. A tick takes a frame exactly when
      the queue holds one once the tick's arrivals and any overflow reset
      are accounted for. */
  function Taken(s0: RunState, ticks: seq<Tick>, proto: int, ip: IpAddress, accessAddr: seq<byte>)
    : (r: seq<bool>)
    requires proto == BluetoothLowEnergy ==> |accessAddr| >= 4
    ensures |r| <= |ticks|
    decreases |ticks|
  {
    if ticks == [] then []
    else
      var prev := ticks[..|ticks| - 1];
      var t := ticks[|ticks| - 1];
      var q := if t.bufferFull then [] else Run(s0, prev, proto, ip, accessAddr).queue + t.arrivals;
      Taken(s0, prev, proto, ip, accessAddr) + (if q == [] then [] else [t.sendOk])
  }

  /** What the task sends for the given frames taken in order, each with
      whether the network accepted its datagram: an empty frame or a
      refused datagram sends nothing, so at most one datagram per frame. */
  function Forwarded(frames: seq<Frame>, oks: seq<bool>, proto: int, ip: IpAddress, accessAddr: seq<byte>)
    : (r: seq<SentDatagram>)
    requires proto == BluetoothLowEnergy ==> |accessAddr| >= 4
    requires |frames| == |oks|
    ensures |r| <= |frames|
  {
    if frames == [] then []
    else Forwarded(frames[..|frames| - 1], oks[..|oks| - 1], proto, ip, accessAddr)
         + TickOutput(frames[|frames| - 1], proto, ip, accessAddr, oks[|oks| - 1])
  }

  /** r has taken the first |oks| captured frames in order, sent after sent0
      what those frames with those outcomes give, and still queues exactly
      the captured frames after them. */
  ghost predicate TakenInOrder(sent0: seq<SentDatagram>, r: RunState, captured: seq<Frame>, oks: seq<bool>,
                               proto: int, ip: IpAddress, accessAddr: seq<byte>)
    requires proto == BluetoothLowEnergy ==> |accessAddr| >= 4
  {
    && |oks| <= |captured|
    && r.queue == captured[|oks|..]
    && r.sent == sent0 + Forwarded(captured[..|oks|], oks, proto, ip, accessAddr)
  }

  /** Taking one more frame adds what that frame's tick sends. */
  lemma ForwardedOneMore(frames: seq<Frame>, oks: seq<bool>, f: Frame, ok: bool,
                         proto: int, ip: IpAddress, accessAddr: seq<byte>)
    requires proto == BluetoothLowEnergy ==> |accessAddr| >= 4
    requires |frames| == |oks|
    ensures Forwarded(frames + [f], oks + [ok], proto, ip, accessAddr)
            == Forwarded(frames, oks, proto, ip, accessAddr) + TickOutput(f, proto, ip, accessAddr, ok)
  {
    assert (frames + [f])[..|frames|] == frames;
    assert (oks + [ok])[..|oks|] == oks;
  }

  /** One overflow-free tick keeps TakenInOrder, whatever the network does
      with its datagram and whatever the frame it takes holds. */
  lemma StepKeepsTakenOrder(sent0: seq<SentDatagram>, s: RunState, t: Tick, earlier: seq<Frame>,
                            oks: seq<bool>, proto: int, ip: IpAddress, accessAddr: seq<byte>)
    requires proto == BluetoothLowEnergy ==> |accessAddr| >= 4
    requires !t.bufferFull
    requires TakenInOrder(sent0, s, earlier, oks, proto, ip, accessAddr)
    ensures var q := s.queue + t.arrivals;
            TakenInOrder(sent0, StepTick(s, t, proto, ip, accessAddr), earlier + t.arrivals,
                         oks + (if q == [] then [] else [t.sendOk]), proto, ip, accessAddr)
    ensures StepTick(s, t, proto, ip, accessAddr).calls == s.calls
  {
    var captured := earlier + t.arrivals;
    var q := s.queue + t.arrivals;
    var n := |oks|;
    assert captured[..n] == earlier[..n];
    assert q == captured[n..];
    if q != [] {
      var out := TickOutput(q[0], proto, ip, accessAddr, t.sendOk);
      assert StepTick(s, t, proto, ip, accessAddr) == RunState(q[1..], s.calls, s.sent + out);
      assert captured[..n + 1] == captured[..n] + [q[0]];
      assert captured[n + 1..] == q[1..];
      ForwardedOneMore(captured[..n], oks, q[0], t.sendOk, proto, ip, accessAddr);
      assert s.sent + out == sent0 + (Forwarded(captured[..n], oks, proto, ip, accessAddr) + out);
    } else {
      assert StepTick(s, t, proto, ip, accessAddr) == RunState([], s.calls, s.sent);
      assert oks + [] == oks;
    }
  }

  /** Between two RxBufFull events, frames are taken strictly in capture
      order, whether their sends are accepted or refused and whether they
      are empty: the ticks take a prefix of everything captured, what was
      sent is exactly what those frames with their outcomes give, and the
      queue holds exactly the frames not yet taken. */
  lemma {:induction false} RunTakesInCaptureOrder(s0: RunState, ticks: seq<Tick>, proto: int,
                                                  ip: IpAddress, accessAddr: seq<byte>)
    requires proto == BluetoothLowEnergy ==> |accessAddr| >= 4
    requires forall i :: 0 <= i < |ticks| ==> !ticks[i].bufferFull
    ensures TakenInOrder(s0.sent, Run(s0, ticks, proto, ip, accessAddr), s0.queue + Arrivals(ticks),
                         Taken(s0, ticks, proto, ip, accessAddr), proto, ip, accessAddr)
    ensures Run(s0, ticks, proto, ip, accessAddr).calls == s0.calls
    decreases |ticks|
  {
    if ticks == [] {
      assert (s0.queue + Arrivals(ticks))[..0] == [];
      assert Forwarded([], [], proto, ip, accessAddr) == [];
    } else {
      var k := |ticks| - 1;
      var prev := ticks[..k];
      CapturedThroughTick(s0.queue, ticks);
      RunTakesInCaptureOrder(s0, prev, proto, ip, accessAddr);
      StepKeepsTakenOrder(s0.sent, Run(s0, prev, proto, ip, accessAddr), ticks[k],
                          s0.queue + Arrivals(prev), Taken(s0, prev, proto, ip, accessAddr),
                          proto, ip, accessAddr);
    }
  }

  /** A refused send drops the frame: the queue moves on exactly as if the
      send had succeeded, and nothing is retried. */
  lemma SendFailureDropsFrame(s: RunState, t: Tick, proto: int, ip: IpAddress, accessAddr: seq<byte>)
    requires proto == BluetoothLowEnergy ==> |accessAddr| >= 4
    ensures StepTick(s, t.(sendOk := false), proto, ip, accessAddr).queue
            == StepTick(s, t.(sendOk := true), proto, ip, accessAddr).queue
    ensures StepTick(s, t.(sendOk := false), proto, ip, accessAddr).sent == s.sent
  {
  }

  /** RxBufFull empties the queue, so the tick forwards nothing, and the
      session is restarted with its own RX command. */
  lemma BufferFullTickDiscardsQueue(s: RunState, t: Tick, proto: int, ip: IpAddress, accessAddr: seq<byte>)
    requires proto == BluetoothLowEnergy ==> |accessAddr| >= 4
    requires t.bufferFull
    ensures StepTick(s, t, proto, ip, accessAddr).queue == []
    ensures StepTick(s, t, proto, ip, accessAddr).sent == s.sent
    ensures StepTick(s, t, proto, ip, accessAddr).calls
            == s.calls + [QueueReset, BeginRxCall(proto, QueueOverflowHandler, RfEventRxBufFull)]
  {
  }

  // ---------------------------------------------------------------------
  // Start-up.

  /** The calls Sniffing_Main makes on the radio queue and the driver before
      its first tick. */
  function StartUpCalls(proto: int): seq<Call> {
    [QueueInit, QueueReset, OpenCall(proto), TuneCall(proto),
     BeginRxCall(proto, QueueOverflowHandler, RfEventRxBufFull)]
  }

  /** Start-up initialises and resets the queue before anything reaches the
      driver, and then opens, tunes and starts receiving with descriptors of
      the one protocol it read, RX armed with the overflow handler on
      RxBufFull. */
  lemma StartUpUsesOneProtocol(proto: int)
    requires IsKnownProtocol(proto)
    ensures var c := StartUpCalls(proto);
            && c[0] == QueueInit && c[1] == QueueReset
            && c[2].RfOpen? && c[2].mode.Some? && c[2].setup.Some?
            && FamilyProtocol(ModeFamily(c[2].mode.value)) == proto
            && FamilyProtocol(SetupFamily(c[2].setup.value)) == proto
            && c[3].RfPost? && c[3].cmd.Some? && OpKindOf(c[3].cmd.value) == FrequencySynthesizer
            && FamilyProtocol(OpFamily(c[3].cmd.value)) == proto
            && c[4].RfPost? && c[4].cmd.Some? && OpKindOf(c[4].cmd.value) == Receive
            && FamilyProtocol(OpFamily(c[4].cmd.value)) == proto
            && c[4].callback == QueueOverflowHandler && c[4].events == RfEventRxBufFull
  {
  }

  /** The intended overflow recovery repeats start-up's queue reset and RX
      post for the session's protocol; the recovery as written does so only
      for a BLE session. */
  lemma OverflowRestartRepeatsStartUp(proto: int)
    ensures OverflowCallsSameProtocol(proto) == [StartUpCalls(proto)[1], StartUpCalls(proto)[4]]
    ensures OverflowCalls() == [StartUpCalls(BluetoothLowEnergy)[1], StartUpCalls(BluetoothLowEnergy)[4]]
  {
  }

  /** One pass of Sniffing_Main's forwarding loop, preceded by what the
      radio does since the previous pass: it captures frames and may raise
      RxBufFull, which the driver hands to the registered overflow handler.
      The pass then forwards at most one frame to the configured target. */
  method SnifferTick(dev: Device, udp: EthernetUdp, currProto: int, accessAddress: array<byte>,
                     rxHandle: nat, t: Tick)
    requires dev.Valid()
    requires currProto == GetCurrentProtocol(dev.stvRfProtocol)
    requires accessAddress[..] == AccessAddress
    requires forall f :: f in t.arrivals ==> |f| <= MaxPacketLen
    modifies dev`frames, dev`calls, udp
    ensures dev.Valid()
    ensures udp.localPort == old(udp.localPort)
    ensures var r := StepTick(RunState(old(dev.frames), old(dev.calls), old(udp.sent)), t,
                              currProto, dev.stvTargetIp, AccessAddress);
            dev.frames == r.queue && dev.calls == r.calls && udp.sent == r.sent
  {
    dev.ReceiveFrames(t.arrivals);
    if t.bufferFull {
      HandleQueueOverflowSameProtocol(dev, rxHandle, RfEventRxBufFull);
    }
    HandleIncomingRfPacket(dev, udp, dev.stvTargetIp, currProto, accessAddress, t.sendOk);
  }

  /** The start-up half of Sniffing_Main: the radio queue is initialised
      and emptied, the UDP socket listens on the sniffer port, the protocol
      is read from STV, both RX commands are pointed at the queue, and the
      radio is opened, tuned and set receiving with the overflow handler
      registered. Returns the protocol and the RX command handle. */
  method SniffingStartUp(dev: Device, udp: EthernetUdp, ble: BleGenericRxCmd, ieee: IeeeRxCmd,
                         socketAvailable: bool) returns (currProto: int, rxHandle: nat)
    requires dev.Valid()
    modifies dev, udp, ble, ieee
    ensures dev.Valid()
    ensures currProto == GetCurrentProtocol(dev.stvRfProtocol)
    ensures BleRxConfigured(ble, dev.dataQueue, Null) && IeeeRxConfigured(ieee, dev.dataQueue, Null)
    ensures dev.rfOpen
    ensures udp.localPort == (if socketAvailable then SnifferPort else 0)
    ensures dev.frames == [] && dev.calls == old(dev.calls) + StartUpCalls(currProto)
    ensures udp.sent == old(udp.sent)
  {
    dev.InitQueue();
    dev.ResetQueue();
    udp.BeginInit();
    var _ := udp.Begin(SnifferPort, socketAvailable);
    currProto := GetCurrentProtocol(dev.stvRfProtocol);
    InitRXCmd(dev, ble, ieee, Null, Null);
    OpenRadioCore(dev, currProto);
    var _ := SetFrequencySynthesizer(dev, currProto);
    rxHandle := BeginRX(dev, currProto, QueueOverflowHandler, RfEventRxBufFull);
  }

  /** Sniffing_Main: start-up, then the forwarding loop, run here for the
      given ticks instead of forever. */
  method SniffingMain(dev: Device, udp: EthernetUdp, ble: BleGenericRxCmd, ieee: IeeeRxCmd,
                      socketAvailable: bool, ticks: seq<Tick>) returns (currProto: int)
    requires dev.Valid()
    requires forall i, f :: 0 <= i < |ticks| && f in ticks[i].arrivals ==> |f| <= MaxPacketLen
    modifies dev, udp, ble, ieee
    ensures dev.Valid()
    ensures currProto == GetCurrentProtocol(dev.stvRfProtocol)
    ensures BleRxConfigured(ble, dev.dataQueue, Null) && IeeeRxConfigured(ieee, dev.dataQueue, Null)
    ensures dev.rfOpen
    ensures udp.localPort == (if socketAvailable then SnifferPort else 0)
    ensures var r := Run(RunState([], old(dev.calls) + StartUpCalls(currProto), old(udp.sent)),
                         ticks, currProto, dev.stvTargetIp, AccessAddress);
            dev.frames == r.queue && dev.calls == r.calls && udp.sent == r.sent
  {
    var rxHandle;
    currProto, rxHandle := SniffingStartUp(dev, udp, ble, ieee, socketAvailable);

    var accessAddress := new byte[4] [0xD6, 0xBE, 0x89, 0x8E];
    ghost var start := RunState(dev.frames, dev.calls, udp.sent);
    for i := 0 to |ticks|
      invariant dev.Valid() && dev.rfOpen
      invariant BleRxConfigured(ble, dev.dataQueue, Null) && IeeeRxConfigured(ieee, dev.dataQueue, Null)
      invariant udp.localPort == (if socketAvailable then SnifferPort else 0)
      invariant accessAddress[..] == AccessAddress
      invariant var r := Run(start, ticks[..i], currProto, dev.stvTargetIp, AccessAddress);
                dev.frames == r.queue && dev.calls == r.calls && udp.sent == r.sent
    {
      assert ticks[..i + 1][..i] == ticks[..i];
      SnifferTick(dev, udp, currProto, accessAddress, rxHandle, ticks[i]);
    }
    assert ticks[..|ticks|] == ticks;
  }
}
