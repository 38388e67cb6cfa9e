/** The collaborators the radio API and the sniffing task drive but whose
    code is not part of this model: the radio queue (a FIFO of captured
    frames), the TI RF driver (an open/closed handle and the calls made on
    it) and the STV configuration memory (read-only words). Only their
    observable contracts are modelled. */
module Platform {
  import opened RadioTypes

  /** One call into the radio queue or the RF driver, in the order made. */
  datatype Call =
    | QueueInit
    | QueueReset
    | RfOpen(mode: Option<RfMode>, setup: Option<RadioSetup>)
    | RfPost(cmd: Option<RfOp>, priority: Priority, callback: Callback, events: EventMask)
    | RfFlushAll(flushMode: nat)
    | RfClose

  class Device {
    /** Word stored at STVW_RF_PROTOCOL. */
    const stvRfProtocol: int
    /** Address stored at STVW_TARGET_IP_ADDRESS. */
    const stvTargetIp: IpAddress
    /** What RadioQueue_getDQpointer returns: the address of the queue's
        data-queue descriptor, fixed for the process lifetime. */
    const dataQueue: nat

    /** Frames waiting in the radio queue, oldest first. */
    var frames: seq<Frame>
    /** Whether the RF handle is open. */
    var rfOpen: bool
    /** Every call made on the radio queue and the RF driver so far. */
    var calls: seq<Call>

    ghost predicate Valid()
      reads this
    {
      forall f :: f in frames ==> |f| <= MaxPacketLen
    }

    constructor (rfProtocol: int, targetIp: IpAddress, dataQueueAddress: nat)
      ensures Valid()
      ensures stvRfProtocol == rfProtocol && stvTargetIp == targetIp && dataQueue == dataQueueAddress
      ensures frames == [] && !rfOpen && calls == []
    {
      stvRfProtocol, stvTargetIp, dataQueue := rfProtocol, targetIp, dataQueueAddress;
      frames, rfOpen, calls := [], false, [];
    }

    /** RadioQueue_init. */
    method InitQueue()
      modifies this`frames, this`calls
      ensures Valid()
      ensures frames == [] && calls == old(calls) + [QueueInit]
    {
      frames := [];
      calls := calls + [QueueInit];
    }

    /** RadioQueue_reset: every waiting frame is discarded. */
    method ResetQueue()
      modifies this`frames, this`calls
      ensures Valid()
      ensures frames == [] && calls == old(calls) + [QueueReset]
    {
      frames := [];
      calls := calls + [QueueReset];
    }

    /** The radio writes captured frames into the queue (the producer side,
        driven by the RF core between two ticks of the sniffing task). */
    method ReceiveFrames(fs: seq<Frame>)
      requires Valid()
      requires forall f :: f in fs ==> |f| <= MaxPacketLen
      modifies this`frames
      ensures Valid()
      ensures frames == old(frames) + fs
    {
      frames := frames + fs;
    }

    /** RadioQueue_takePacket: copies the oldest frame into buf and removes
        it from the queue, returning its length; returns 0 and leaves
        everything as it was when the queue is empty. */
    method TakePacket(buf: array<byte>, maxLen: nat) returns (len: nat)
      requires Valid()
      requires MaxPacketLen <= maxLen <= buf.Length
      modifies this`frames, buf
      ensures Valid()
      ensures old(frames) == [] ==> len == 0 && frames == [] && buf[..] == old(buf[..])
      ensures old(frames) != [] ==>
                len == |old(frames)[0]| && buf[..len] == old(frames)[0] && frames == old(frames)[1..]
    {
      if frames == [] {
        return 0;
      }
      var f := frames[0];
      assert f in frames;
      forall i | 0 <= i < |f| {
        buf[i] := f[i];
      }
      len := |f|;
      frames := frames[1..];
    }

    /** RF_open with the given mode and radio-setup command. */
    method Open(mode: Option<RfMode>, setup: Option<RadioSetup>)
      modifies this`rfOpen, this`calls
      ensures rfOpen && calls == old(calls) + [RfOpen(mode, setup)]
    {
      rfOpen := true;
      calls := calls + [RfOpen(mode, setup)];
    }

    /** RF_postCmd: queues a command and returns its command handle. */
    method PostCmd(cmd: Option<RfOp>, priority: Priority, callback: Callback, events: EventMask)
      returns (cmdHandle: nat)
      modifies this`calls
      ensures calls == old(calls) + [RfPost(cmd, priority, callback, events)]
      ensures cmdHandle == |old(calls)|
    {
      cmdHandle := |calls|;
      calls := calls + [RfPost(cmd, priority, callback, events)];
    }

    /** RF_flushCmd on every command; its status comes from the driver and
        is a parameter here. */
    method FlushAll(mode: nat, driverStatus: int) returns (status: int)
      modifies this`calls
      ensures calls == old(calls) + [RfFlushAll(mode)]
      ensures status == driverStatus
    {
      calls := calls + [RfFlushAll(mode)];
      status := driverStatus;
    }

    /** RF_close. */
    method Close()
      modifies this`rfOpen, this`calls
      ensures !rfOpen && calls == old(calls) + [RfClose]
    {
      rfOpen := false;
      calls := calls + [RfClose];
    }
  }
}
