# multiSniff radio core and sniffing task, in Dafny

multiSniff turns a CC2652RB LaunchPad into a network sniffer. It opens the
radio core for one protocol, either Bluetooth Low Energy or IEEE 802.15.4.
The protocol is selected by a word in the STV configuration memory. The
radio core writes every captured frame into a radio queue. A task takes one
frame from that queue per pass and forwards it as one UDP datagram to a
configured target IP on port 2014. The datagram holds a protocol byte, then
the BLE advertising access address `D6 BE 89 8E` for BLE only, then the
frame.

This project models two parts of the firmware:

- The radio API (`radio_api.dfy`, module `RadioApi`):
  - the four protocol-to-descriptor lookups;
  - the protocol query on the STV selector word;
  - the in-place configuration of the two global RX command records;
  - opening the radio core, tuning it, beginning and stopping RX, and
    overflow recovery. Each of these is modelled as the calls it makes on
    the radio queue and the RF driver.
- The sniffing task (`sniffing_task.dfy`, module `SniffingTask`):
  - the datagram layout and a listener's parse of it;
  - `HandleIncomingRfPacket`;
  - `Sniffing_Main`: its start-up sequence, then its forwarding loop run for
    a given sequence of ticks.

The collaborators whose code is not part of this model are reduced to their
observable contracts:

- `platform.dfy` (`Platform.Device`) covers three of them:
  - the radio queue, a FIFO of frames;
  - the TI RF driver, an open flag plus the ordered trace of calls made on
    it and on the queue;
  - the STV words, as constant fields.
- `ethernet_udp.dfy` (`Ethernet.EthernetUdp`) covers the UDP socket: the
  packet being built and the datagrams sent.

`radio_types.dfy` holds the shared enumerations and descriptor values.

The numeric values of `BluetoothLowEnergy`, `IEEE_802_15_4`,
`STV_RF_PROTO_BLE` and `STV_RF_PROTO_IEEE` are defined in `radio_api.h` and
`stv.h`. Neither file is part of this model, so these values are left
unconstrained. Every proof holds whatever they are. A lemma that needs two
of them to differ says so in its precondition.

## Model

| member | source | states |
|---|---|---|
| RadioApi.RxCmdByProto | source/radio_api/radio_api.c:38-51 | The lookup answers (non-NULL) exactly for BLE and IEEE 802.15.4. The answer is a receive operation of that very protocol. BLE gives the BLE generic RX command. |
| RadioApi.FsCmdByProto | source/radio_api/radio_api.c:53-66 | Answers exactly for the two known protocols. The answer is a frequency-synthesizer operation of that protocol. BLE gives the BLE synthesizer command. |
| RadioApi.RsCmdByProto | source/radio_api/radio_api.c:68-81 | Answers exactly for the two known protocols, with the radio setup of that protocol. |
| RadioApi.ModeByProto | source/radio_api/radio_api.c:83-96 | Answers exactly for the two known protocols, with the mode object of that protocol. |
| RadioApi.LookupsAgree | source/radio_api/radio_api.c:38-96 | The four lookups are NULL for the same protocol values. When they answer, all four answers belong to one protocol family. |
| RadioApi.GetCurrentProtocol | source/radio_api/radio_api.c:265-278 | The BLE selector word gives BLE. Otherwise the IEEE selector word gives IEEE 802.15.4. Any other word gives the sentinel 0. |
| RadioApi.UnrecognisedSelectorSelectsNothing | source/radio_api/radio_api.c:265-278 | An unrecognised selector makes every lookup answer NULL, whenever 0 is not itself a protocol enumerator. |
| RadioApi.UnrecognisedSelectorMayAliasBle | source/radio_api/radio_api.c:277 | If the sentinel 0 equals the BLE enumerator, an unrecognised selector cannot be told apart from the BLE selector and selects the BLE RX command. |
| RadioApi.InitBleRxCmd | source/radio_api/radio_api.c:172-180 | The BLE RX record gets its sniffing configuration: RX queue, CRC-error flush, length byte and CRC kept, no RSSI or status, whitening 0x65, stats pointer, channel 0x66. |
| RadioApi.InitIeeeRxCmd | source/radio_api/radio_api.c:183-193 | The IEEE RX record gets its sniffing configuration: RX queue, CRC flush on, ignored frames kept, no PHY header, CRC kept, nothing appended, stats pointer, channel 0. |
| RadioApi.InitRXCmd | source/radio_api/radio_api.c:169-196 | Both RX records receive into the radio queue's data queue and are fully configured for sniffing. |
| RadioApi.OpenUsesOneProtocol | source/radio_api/radio_api.c:117-128 | For a known protocol, RF_open gets a mode and a setup of that same protocol. For any other value it gets NULL for both. |
| RadioApi.OpenRadioCore | source/radio_api/radio_api.c:117-128 | The handle is open. Exactly one RF_open with the protocol's mode and setup is appended to the call trace. |
| RadioApi.SetFrequencySynthesizer | source/radio_api/radio_api.c:143-156 | Exactly one post of the protocol's synthesizer command is appended: normal priority, no callback, empty event mask. The driver's result is returned. |
| RadioApi.BeginRX | source/radio_api/radio_api.c:214-226 | Exactly one post of the protocol's RX command is appended, with the given callback and event mask. Its command handle is returned. |
| RadioApi.StopRX | source/radio_api/radio_api.c:239-252 | All commands are flushed, then the handle is closed, in that order. The flush status is returned. |
| RadioApi.HandleQueueOverflow | source/radio_api/radio_api.c:290-299 | As written: the queue is emptied and reset, then the BLE RX command is re-posted with the overflow handler on RxBufFull. |
| RadioApi.OverflowRestartsIeeeSessionAsBle | source/radio_api/radio_api.c:296 | As written, recovery re-posts the BLE RX command, which is not the IEEE session's own RX post. |
| RadioApi.OverflowCallsSameProtocol | source/radio_api/radio_api.c:290-299 | Intended recovery. It is the same reset and the same post as written, with the same priority, callback and event mask. Only the posted command differs: it is an RX command of the session's own protocol. It equals the recovery as written exactly when the session is BLE. |
| RadioApi.HandleQueueOverflowSameProtocol | source/radio_api/radio_api.c:290-299 | The queue is emptied. The calls appended are the intended recovery for the protocol the STV memory selects. |
| SniffingTask.ProtoTag | sniffing_task.c:116 | The protocol byte is the protocol value modulo 256. A value below 256 is sent unchanged. |
| SniffingTask.Datagram | sniffing_task.c:114-123 | The datagram is the protocol byte, then the 4 access-address bytes for BLE only, then the whole frame. Its length is 5 or 1 plus the frame length. |
| SniffingTask.ParseDatagramInvertsDatagram | sniffing_task.c:114-123 | A listener recovers the protocol byte, the access address and the frame of every datagram, as long as a non-BLE protocol byte differs from the BLE one. |
| SniffingTask.DatagramInvertsParse | sniffing_task.c:114-123 | Everything a listener accepts is exactly the datagram of what it read back. |
| SniffingTask.TickOutput | sniffing_task.c:110-126 | A tick sends at most one datagram. It sends one exactly when the frame taken is non-empty and the network accepts it. That datagram goes to the target IP on port 2014 and carries the frame's datagram. |
| SniffingTask.HandleIncomingRfPacket | sniffing_task.c:104-129 | At most the oldest frame is taken. An empty queue or an empty frame leaves the socket untouched. Otherwise the packet is begun towards the target on port 2014, and the written bytes are exactly the frame's datagram. It is appended to what was sent only when the network accepts it. |
| SniffingTask.Run | sniffing_task.c:79-90 | Each pass of the loop sends at most one datagram and never takes back what was already sent. |
| SniffingTask.StepKeepsCaptureOrder | sniffing_task.c:87 | One pass with no overflow and an accepted send keeps this invariant: sent is the datagrams of a prefix of the captured frames, and the queue is exactly the rest. The pass adds no driver calls. |
| SniffingTask.Taken | sniffing_task.c:110-125 | A pass takes at most one frame. The result records, for each frame taken, whether the network accepted its datagram. |
| SniffingTask.Forwarded | sniffing_task.c:112-125 | Frames taken in order send at most one datagram each. An empty frame or a refused datagram sends nothing. |
| SniffingTask.StepKeepsTakenOrder | sniffing_task.c:87 | One pass with no overflow keeps this invariant, whether its send is accepted or refused and whether its frame is empty: the frames taken are a prefix of those captured; what was sent is exactly what those frames with their outcomes give; the queue is exactly the rest. The pass adds no driver calls. |
| SniffingTask.RunTakesInCaptureOrder | sniffing_task.c:79-90 | Between two RxBufFull events, frames are taken strictly in capture order, with no retry of a refused or empty one. What was sent is exactly what the frames taken give with their outcomes, and the queue holds exactly the frames not yet taken. |
| SniffingTask.RunForwardsInCaptureOrder | sniffing_task.c:79-90 | The special case with every send accepted and no empty frame: what was sent is the datagrams of a prefix of everything captured, and the queue holds exactly the rest. |
| SniffingTask.SendFailureDropsFrame | sniffing_task.c:125 | A refused send drops the frame: the queue advances as if the send had succeeded, nothing is sent, and nothing is retried. |
| SniffingTask.BufferFullTickDiscardsQueue | source/radio_api/radio_api.c:290-299 | A pass after RxBufFull finds the queue empty and sends nothing. The calls appended are the corrected recovery (`HandleQueueOverflowSameProtocol`): a queue reset and the RX post of the session's own protocol, not BLE's as at line 296. |
| SniffingTask.StartUpUsesOneProtocol | sniffing_task.c:59-77 | Start-up first initialises and then resets the queue. It then opens, tunes and begins RX with descriptors of the one protocol it read. RX is armed with the overflow handler on RxBufFull. |
| SniffingTask.OverflowRestartRepeatsStartUp | source/radio_api/radio_api.c:294-296 | Intended recovery repeats start-up's queue reset and RX post for the session's protocol. As written, recovery repeats BLE's. |
| SniffingTask.SnifferTick | sniffing_task.c:79-90 | One pass leaves the queue, the call trace and the sent datagrams equal to one step of `Run`. |
| SniffingTask.SniffingStartUp | sniffing_task.c:59-77 | After start-up: the queue is empty; the socket listens on port 2014 when a socket was available; both RX records are configured; the radio is open. The call trace gains exactly the start-up calls of the protocol read from STV. |
| SniffingTask.SniffingMain | sniffing_task.c:46-91 | After start-up and the given passes, the queue, the call trace and the sent datagrams are exactly what `Run` gives from the start-up state. |
| Platform.Device.TakePacket | sniffing_task.c:110 | An empty queue returns 0 and changes nothing. Otherwise the oldest frame is copied into the buffer, its length is returned, and it is removed. |
| Platform.Device.InitQueue | sniffing_task.c:59 | The queue is empty and the initialisation is recorded. |
| Platform.Device.ResetQueue | source/radio_api/radio_api.c:294 | Every waiting frame is discarded and the reset is recorded. |
| Platform.Device.Open | source/radio_api/radio_api.c:125 | The handle is open and the RF_open call is recorded. |
| Platform.Device.PostCmd | source/radio_api/radio_api.c:220 | The post is recorded, and its position in the trace is the command handle. |
| Platform.Device.FlushAll | source/radio_api/radio_api.c:241 | The flush is recorded and the driver's status is returned. |
| Platform.Device.Close | source/radio_api/radio_api.c:249 | The handle is closed and the close is recorded. |
| Ethernet.EthernetUdp.BeginInit | source/ethernet/EthernetUdp.h:59 | The socket state is cleared. What was already sent stays sent. |
| Ethernet.EthernetUdp.Begin | source/ethernet/EthernetUdp.h:61 | Returns 1 and listens on the port when a socket is available. Otherwise returns 0 and changes nothing. |
| Ethernet.EthernetUdp.BeginPacketIp | source/ethernet/EthernetUdp.h:66-68 | Starts an empty packet for the given IP and port. |
| Ethernet.EthernetUdp.WriteByte | sniffing_task.c:116 | Appends one byte to the packet. |
| Ethernet.EthernetUdp.Write | sniffing_task.c:120-123 | Appends the first `size` bytes of the buffer to the packet. |
| Ethernet.EthernetUdp.EndPacket | source/ethernet/EthernetUdp.h:72-74 | Returns 1 and records the packet as sent when the network accepts it. Otherwise returns 0 and records nothing. |

## Left out

- Logging (`Log_print`, `log.c`) has no effect on the state modelled here and is left out.
- `Semaphore_post` and `Task_sleep` are left out, and so is the concurrency between the RF driver's callback and the task. The overflow callback is modelled as running at the start of a pass, before the frame is taken.
- `RF_Params_init`, the `RF_Object` and the `RF_Params` record are left out: no field of them is read by the modelled code.
- Failures of `RF_open` and `RF_postCmd` inside the driver are not modelled. A command handle is the post's position in the call trace.
- Ethernet.EthernetUdp.BeginPacketIp: always returns 1. A rejected IP address or port is not modelled, because the sniffing task ignores the result.
- `UDP_TX_PACKET_MAX_SIZE` and the socket's buffer limits are not modelled. The whole datagram is assumed to fit the socket buffer.
- The radio queue's capacity and its overflow counter (`nRxBufFull`, still a TODO in the source) are not modelled. A full buffer reaches the model only as the RxBufFull event of a tick.
- `Radio_GetCurrentProtocol` reads the STV word twice. The model reads it once, because the word is constant for the run.
- The numeric values of the protocol enumerators and STV selector words are unconstrained (see above).
- `for (;;)` in `Sniffing_Main` is run here for a finite sequence of ticks. Each tick says which frames the radio captured, whether RxBufFull was raised, and whether the network accepted the datagram.
- The `pParams` sub-record of the BLE RX command is flattened into the command record.
- Three call sites in `sniffing_task.c` do not match the declarations they call. Each is modelled by its evident intent:
  - `Radio_initRXCmd(currProto)` (line 71) is declared with two stats pointers. It is modelled with both pointers NULL.
  - `Radio_setFrequencySynthesizer(rfHnd, …)` (line 75) passes a handle where a handle pointer is declared. It is modelled as acting on the handle.
  - `EthernetUDP_begin(&ethernetUdp, 2014)` (line 65) omits the socket argument. It is modelled with the socket's availability as a parameter.
- Platform.Device.TakePacket: requires a buffer of at least 2047 bytes, the longest frame the queue holds. The sniffing task always passes one of that size.
- `Radio_stopRX` is modelled, but `Sniffing_Main` never calls it.
- SniffingTask.SnifferTick: runs the corrected overflow recovery (`HandleQueueOverflowSameProtocol`), not the one as written (see Findings).
- SniffingTask.SniffingMain: a pass after RxBufFull re-posts the session's own RX command, not BLE's as at `radio_api.c:296`. For an IEEE 802.15.4 session the call trace therefore holds the IEEE RX post where the firmware makes the BLE one. The recovery as written is modelled separately, by `HandleQueueOverflow`.
- SniffingTask.BufferFullTickDiscardsQueue: states the corrected recovery, which re-posts the session's own RX command, not BLE's as at `radio_api.c:296`.
- SniffingTask.Run: its contract states only the bounds on what is sent. Capture order is proved separately, by `RunForwardsInCaptureOrder`.

## Findings

| source | as written | input that shows it | evidently intended | confidence | as-written member | corrected member |
|---|---|---|---|---|---|---|
| source/radio_api/radio_api.c:296 | Queue-overflow recovery always re-posts the BLE RX command. | An IEEE 802.15.4 session (STV selector = IEEE) that raises RxBufFull is restarted with `RFCMD_bleGenericRX` on the IEEE radio setup. | Re-post the RX command of the protocol the session was started with, as start-up does. | not executed | RadioApi.OverflowRestartsIeeeSessionAsBle | RadioApi.HandleQueueOverflowSameProtocol |
