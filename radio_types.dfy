/** Values shared by the radio API and the sniffing task: the protocol
    enumeration, the static command descriptors of the generated radio
    configuration, RF event masks and callbacks, and byte-level types. */
module RadioTypes {

  type byte = x: int | 0 <= x < 256
  type bit = x: int | 0 <= x < 2

  datatype Option<+T> = None | Some(value: T)

  /** One captured radio frame, as the radio queue hands it out. */
  type Frame = seq<byte>

  type IpAddress = seq<byte>

  /** Longest frame the radio queue holds (MAX_PACKET_LEN). */
  const MaxPacketLen: nat := 2047

  /** A null pointer, where the model passes an address. */
  const Null: nat := 0

  // The enumerators of RF_Protocol_t. Their numeric values are defined in
  // radio_api.h, which is not part of this model, so they are left
  // unconstrained: every proof holds whatever values they have, and a
  // lemma that needs them to differ says so in its precondition.
  const BluetoothLowEnergy: int
  const Ieee802154: int

  /** What the protocol query returns for an unrecognised selector. */
  const NoProtocol: int := 0

  // Selector words stored at STVW_RF_PROTOCOL in the STV configuration
  // memory; stv.h is not part of this model either.
  const StvRfProtoBle: int
  const StvRfProtoIeee: int

  predicate IsKnownProtocol(proto: int) {
    proto == BluetoothLowEnergy || proto == Ieee802154
  }

  /** The two descriptor families of the radio configuration. */
  datatype Family = Ble | Ieee

  function FamilyProtocol(f: Family): int {
    match f
    case Ble => BluetoothLowEnergy
    case Ieee => Ieee802154
  }

  /** Radio operations (RF_Op) the configuration provides. */
  datatype RfOp = BleGenericRx | IeeeRx | BleFrequencySynthesizer | IeeeFrequencySynthesizer

  datatype OpKind = Receive | FrequencySynthesizer

  function OpKindOf(op: RfOp): OpKind {
    match op
    case BleGenericRx | IeeeRx => Receive
    case BleFrequencySynthesizer | IeeeFrequencySynthesizer => FrequencySynthesizer
  }

  function OpFamily(op: RfOp): Family {
    match op
    case BleGenericRx | BleFrequencySynthesizer => Ble
    case IeeeRx | IeeeFrequencySynthesizer => Ieee
  }

  /** Radio-setup commands (RF_RadioSetup). */
  datatype RadioSetup = BleRadioSetup | IeeeRadioSetup

  function SetupFamily(s: RadioSetup): Family {
    match s
    case BleRadioSetup => Ble
    case IeeeRadioSetup => Ieee
  }

  /** Mode objects (RF_Mode). */
  datatype RfMode = BleModeObject | IeeeModeObject

  function ModeFamily(m: RfMode): Family {
    match m
    case BleModeObject => Ble
    case IeeeModeObject => Ieee
  }

  /** RF driver events; an event mask is a set of them. */
  datatype RfEvent = RxBufFull

  type EventMask = set<RfEvent>

  const RfEventRxBufFull: EventMask := {RxBufFull}

  datatype Priority = PriorityNormal

  /** The callback registered with a posted command. */
  datatype Callback = NoCallback | QueueOverflowHandler
}
