/** The radio API: protocol-to-descriptor lookups, the protocol query on the
    stored selector, the in-place configuration of the two RX commands, and
    the session transitions (open, tune, begin RX, stop, overflow recovery)
    as ordered calls on the radio queue and the RF driver. */
module RadioApi {
  import opened RadioTypes
  import opened Platform

  // ---------------------------------------------------------------------
  // Protocol lookups: a total function on any protocol value, NULL (None)
  // for anything that is neither BLE nor IEEE 802.15.4.

  /** getRXCmdByProto */
  function RxCmdByProto(proto: int): (r: Option<RfOp>)
    ensures r.Some? <==> IsKnownProtocol(proto)
    ensures r.Some? ==> OpKindOf(r.value) == Receive && FamilyProtocol(OpFamily(r.value)) == proto
    ensures proto == BluetoothLowEnergy ==> r == Some(BleGenericRx)
  {
    if proto == BluetoothLowEnergy then Some(BleGenericRx)
    else if proto == Ieee802154 then Some(IeeeRx)
    else None
  }

  /** getFSCmdByProto */
  function FsCmdByProto(proto: int): (r: Option<RfOp>)
    ensures r.Some? <==> IsKnownProtocol(proto)
    ensures r.Some? ==> OpKindOf(r.value) == FrequencySynthesizer && FamilyProtocol(OpFamily(r.value)) == proto
    ensures proto == BluetoothLowEnergy ==> r == Some(BleFrequencySynthesizer)
  {
    if proto == BluetoothLowEnergy then Some(BleFrequencySynthesizer)
    else if proto == Ieee802154 then Some(IeeeFrequencySynthesizer)
    else None
  }

  /** getRSCmdByProto */
  function RsCmdByProto(proto: int): (r: Option<RadioSetup>)
    ensures r.Some? <==> IsKnownProtocol(proto)
    ensures r.Some? ==> FamilyProtocol(SetupFamily(r.value)) == proto
    ensures proto == BluetoothLowEnergy ==> r == Some(BleRadioSetup)
  {
    if proto == BluetoothLowEnergy then Some(BleRadioSetup)
    else if proto == Ieee802154 then Some(IeeeRadioSetup)
    else None
  }

  /** getRFModeByProto */
  function ModeByProto(proto: int): (r: Option<RfMode>)
    ensures r.Some? <==> IsKnownProtocol(proto)
    ensures r.Some? ==> FamilyProtocol(ModeFamily(r.value)) == proto
    ensures proto == BluetoothLowEnergy ==> r == Some(BleModeObject)
  {
    if proto == BluetoothLowEnergy then Some(BleModeObject)
    else if proto == Ieee802154 then Some(IeeeModeObject)
    else None
  }

  /** The four lookups never disagree: for a protocol value they all answer
      or all answer NULL, and what they answer belongs to one family. */
  lemma LookupsAgree(proto: int)
    ensures RxCmdByProto(proto).None? == FsCmdByProto(proto).None?
                                      == RsCmdByProto(proto).None?
                                      == ModeByProto(proto).None?
    ensures RxCmdByProto(proto).Some? ==>
              OpFamily(RxCmdByProto(proto).value) == OpFamily(FsCmdByProto(proto).value)
                                                  == SetupFamily(RsCmdByProto(proto).value)
                                                  == ModeFamily(ModeByProto(proto).value)
  {
  }

  // ---------------------------------------------------------------------
  // The protocol query.

  /** Radio_GetCurrentProtocol, applied to the word read from the STV
      memory: the BLE selector gives BLE, the IEEE selector IEEE 802.15.4,
      and any other word the sentinel 0. */
  function GetCurrentProtocol(selector: int): (p: int)
    ensures selector == StvRfProtoBle ==> p == BluetoothLowEnergy
    ensures selector != StvRfProtoBle && selector == StvRfProtoIeee ==> p == Ieee802154
    ensures selector != StvRfProtoBle && selector != StvRfProtoIeee ==> p == NoProtocol
  {
    if selector == StvRfProtoBle then BluetoothLowEnergy
    else if selector == StvRfProtoIeee then Ieee802154
    else NoProtocol
  }

  /** Whenever the sentinel is not itself an enumerator, an unrecognised
      selector selects no descriptor at all. */
  lemma UnrecognisedSelectorSelectsNothing(selector: int)
    requires selector != StvRfProtoBle && selector != StvRfProtoIeee
    requires !IsKnownProtocol(NoProtocol)
    ensures RxCmdByProto(GetCurrentProtocol(selector)) == None
    ensures FsCmdByProto(GetCurrentProtocol(selector)) == None
    ensures RsCmdByProto(GetCurrentProtocol(selector)) == None
    ensures ModeByProto(GetCurrentProtocol(selector)) == None
  {
  }

  /** Whenever the sentinel coincides with the BLE enumerator, an
      unrecognised selector is indistinguishable from the BLE selector. */
  lemma UnrecognisedSelectorMayAliasBle(selector: int)
    requires selector != StvRfProtoBle && selector != StvRfProtoIeee
    requires NoProtocol == BluetoothLowEnergy
    ensures GetCurrentProtocol(selector) == GetCurrentProtocol(StvRfProtoBle)
    ensures RxCmdByProto(GetCurrentProtocol(selector)) == Some(BleGenericRx)
  {
  }

  // ---------------------------------------------------------------------
  // The two global RX command records, updated in place.

  /** RFCMD_bleGenericRX, with the fields of its pParams record flattened. */
  class BleGenericRxCmd {
    var pRxQ: nat
    var autoFlushCrcErr: bit
    var includeLenByte: bit
    var includeCrc: bit
    var appendRssi: bit
    var appendStatus: bit
    var whiteningInit: byte
    var pOutput: nat
    var channel: byte

    constructor ()
    {
    }
  }

  /** RFCMD_ieeeRX. */
  class IeeeRxCmd {
    var pRxQ: nat
    var autoFlushCrc: bit
    var autoFlushIgn: bit
    var includePhyHdr: bit
    var includeCrc: bit
    var appendRssi: bit
    var appendCorrCrc: bit
    var appendSrcInd: bit
    var appendTimestamp: bit
    var pOutput: nat
    var channel: byte

    constructor ()
    {
    }
  }

  /** The BLE receive configuration used for sniffing: frames with a CRC
      error are dropped, the length byte and the CRC are kept, no RSSI or
      status is appended, whitening starts at 0x65 and the initial channel
      is 0x66. */
  ghost predicate BleRxConfigured(cmd: BleGenericRxCmd, dataQueue: nat, stats: nat)
    reads cmd
  {
    && cmd.pRxQ == dataQueue
    && cmd.autoFlushCrcErr == 1 && cmd.includeLenByte == 1 && cmd.includeCrc == 1
    && cmd.appendRssi == 0 && cmd.appendStatus == 0
    && cmd.whiteningInit == 0x65
    && cmd.pOutput == stats
    && cmd.channel == 0x66
  }

  /** The IEEE 802.15.4 receive configuration used for sniffing: frames with
      a CRC error are dropped, ignored frames are kept, the PHY header is
      not included, the CRC is, nothing is appended, and the initial channel
      is 0. */
  ghost predicate IeeeRxConfigured(cmd: IeeeRxCmd, dataQueue: nat, stats: nat)
    reads cmd
  {
    && cmd.pRxQ == dataQueue
    && cmd.autoFlushCrc == 1 && cmd.autoFlushIgn == 0
    && cmd.includePhyHdr == 0 && cmd.includeCrc == 1
    && cmd.appendRssi == 0 && cmd.appendCorrCrc == 0
    && cmd.appendSrcInd == 0 && cmd.appendTimestamp == 0
    && cmd.pOutput == stats
    && cmd.channel == 0
  }

  /** The BLE half of Radio_initRXCmd. */
  method InitBleRxCmd(cmd: BleGenericRxCmd, dataQueue: nat, stats: nat)
    modifies cmd
    ensures BleRxConfigured(cmd, dataQueue, stats)
  {
    cmd.pRxQ := dataQueue;
    cmd.autoFlushCrcErr, cmd.includeLenByte, cmd.includeCrc := 1, 1, 1;
    cmd.appendRssi, cmd.appendStatus := 0, 0;
    cmd.whiteningInit := 0x65;
    cmd.pOutput := stats;
    cmd.channel := 0x66;
  }

  /** The IEEE 802.15.4 half of Radio_initRXCmd. */
  method InitIeeeRxCmd(cmd: IeeeRxCmd, dataQueue: nat, stats: nat)
    modifies cmd
    ensures IeeeRxConfigured(cmd, dataQueue, stats)
  {
    cmd.pRxQ := dataQueue;
    cmd.autoFlushCrc, cmd.autoFlushIgn := 1, 0;
    cmd.includePhyHdr, cmd.includeCrc := 0, 1;
    cmd.appendRssi, cmd.appendCorrCrc, cmd.appendSrcInd, cmd.appendTimestamp := 0, 0, 0, 0;
    cmd.pOutput := stats;
    cmd.channel := 0;
  }

  /** Radio_initRXCmd: both RX commands receive into the radio queue's data
      queue and get their sniffing configuration. */
  method InitRXCmd(dev: Device, ble: BleGenericRxCmd, ieee: IeeeRxCmd, bleStats: nat, ieeeStats: nat)
    modifies ble, ieee
    ensures ble.pRxQ == ieee.pRxQ == dev.dataQueue
    ensures BleRxConfigured(ble, dev.dataQueue, bleStats)
    ensures IeeeRxConfigured(ieee, dev.dataQueue, ieeeStats)
  {
    InitBleRxCmd(ble, dev.dataQueue, bleStats);
    InitIeeeRxCmd(ieee, dev.dataQueue, ieeeStats);
  }

  // ---------------------------------------------------------------------
  // Session transitions, as the calls they make on the driver and queue.

  /** The driver call that opens the radio core for proto. */
  function OpenCall(proto: int): Call {
    RfOpen(ModeByProto(proto), RsCmdByProto(proto))
  }

  /** The driver call that tunes the frequency synthesizer for proto. */
  function TuneCall(proto: int): Call {
    RfPost(FsCmdByProto(proto), PriorityNormal, NoCallback, {})
  }

  /** The driver call that starts receiving for proto. */
  function BeginRxCall(proto: int, callback: Callback, events: EventMask): Call {
    RfPost(RxCmdByProto(proto), PriorityNormal, callback, events)
  }

  /** Opening the radio core for a protocol hands the driver the mode and
      the radio setup of that very protocol, and nothing for any other
      value. */
  lemma OpenUsesOneProtocol(proto: int)
    ensures IsKnownProtocol(proto) ==>
              && OpenCall(proto).mode.Some? && OpenCall(proto).setup.Some?
              && FamilyProtocol(ModeFamily(OpenCall(proto).mode.value)) == proto
              && ModeFamily(OpenCall(proto).mode.value) == SetupFamily(OpenCall(proto).setup.value)
    ensures !IsKnownProtocol(proto) ==> OpenCall(proto) == RfOpen(None, None)
  {
  }

  /** Radio_openRadioCore */
  method OpenRadioCore(dev: Device, proto: int)
    modifies dev`rfOpen, dev`calls
    ensures dev.rfOpen
    ensures dev.calls == old(dev.calls) + [OpenCall(proto)]
  {
    var mode := ModeByProto(proto);
    var setup := RsCmdByProto(proto);
    dev.Open(mode, setup);
  }

  /** Radio_setFrequencySynthesizer: returns what the driver returned for
      the posted command. */
  method SetFrequencySynthesizer(dev: Device, proto: int) returns (r: nat)
    modifies dev`calls
    ensures dev.calls == old(dev.calls) + [TuneCall(proto)]
    ensures r == |old(dev.calls)|
  {
    var fsCmd := FsCmdByProto(proto);
    r := dev.PostCmd(fsCmd, PriorityNormal, NoCallback, {});
  }

  /** Radio_beginRX: posts the RX command of proto with the given callback
      and event mask, returning the command handle. */
  method BeginRX(dev: Device, proto: int, callback: Callback, events: EventMask) returns (cmdHandle: nat)
    modifies dev`calls
    ensures dev.calls == old(dev.calls) + [BeginRxCall(proto, callback, events)]
    ensures cmdHandle == |old(dev.calls)|
  {
    var rxCmd := RxCmdByProto(proto);
    cmdHandle := dev.PostCmd(rxCmd, PriorityNormal, callback, events);
  }

  /** Radio_stopRX: every command is flushed, then the handle is closed,
      and the flush status is returned. */
  method StopRX(dev: Device, driverStatus: int) returns (status: int)
    modifies dev`rfOpen, dev`calls
    ensures !dev.rfOpen
    ensures dev.calls == old(dev.calls) + [RfFlushAll(1), RfClose]
    ensures status == driverStatus
  {
    status := dev.FlushAll(1, driverStatus);
    dev.Close();
  }

  // ---------------------------------------------------------------------
  // Overflow recovery.

  /** What Radio_HandleQueueOverflow does, as written: reset the queue,
      then re-post the BLE RX command with itself as the callback on
      RxBufFull, whatever protocol the session was started with. */
  function OverflowCalls(): seq<Call> {
    [QueueReset, BeginRxCall(BluetoothLowEnergy, QueueOverflowHandler, RfEventRxBufFull)]
  }

  /** Radio_HandleQueueOverflow, as written. */
  method HandleQueueOverflow(dev: Device, cmdHandle: nat, events: EventMask)
    requires dev.Valid()
    modifies dev`frames, dev`calls
    ensures dev.Valid()
    ensures dev.frames == []
    ensures dev.calls == old(dev.calls) + OverflowCalls()
  {
    dev.ResetQueue();
    var _ := BeginRX(dev, BluetoothLowEnergy, QueueOverflowHandler, RfEventRxBufFull);
  }

  /** As written, an IEEE 802.15.4 session that overflows is restarted with
      the BLE RX command: the re-post is not the session's own RX post. */
  lemma OverflowRestartsIeeeSessionAsBle()
    requires BluetoothLowEnergy != Ieee802154
    ensures OverflowCalls()[1] != BeginRxCall(Ieee802154, QueueOverflowHandler, RfEventRxBufFull)
    ensures OverflowCalls()[1].cmd == Some(BleGenericRx)
  {
    assert RxCmdByProto(Ieee802154) == Some(IeeeRx);
  }

  /** Overflow recovery as evidently intended: the same reset and the same
      post as written, except that the posted command is the RX command of
      the session's protocol; it agrees with the recovery as written
      exactly for a BLE session. */
  function OverflowCallsSameProtocol(proto: int): (r: seq<Call>)
    ensures |r| == |OverflowCalls()| && r[0] == OverflowCalls()[0]
    ensures r[1].RfPost? && r[1] == OverflowCalls()[1].(cmd := r[1].cmd)
    ensures r == OverflowCalls() <==> proto == BluetoothLowEnergy
    ensures IsKnownProtocol(proto) ==>
              r[1].cmd.Some? && OpKindOf(r[1].cmd.value) == Receive
              && FamilyProtocol(OpFamily(r[1].cmd.value)) == proto
  {
    [QueueReset, BeginRxCall(proto, QueueOverflowHandler, RfEventRxBufFull)]
  }

  /** Overflow recovery that restarts the protocol the STV memory selects,
      the same one the session was started with. */
  method HandleQueueOverflowSameProtocol(dev: Device, cmdHandle: nat, events: EventMask)
    requires dev.Valid()
    modifies dev`frames, dev`calls
    ensures dev.Valid()
    ensures dev.frames == []
    ensures dev.calls == old(dev.calls) + OverflowCallsSameProtocol(GetCurrentProtocol(dev.stvRfProtocol))
  {
    dev.ResetQueue();
    var proto := GetCurrentProtocol(dev.stvRfProtocol);
    var _ := BeginRX(dev, proto, QueueOverflowHandler, RfEventRxBufFull);
  }
}
