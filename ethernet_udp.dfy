/** The datagram interface of the Ethernet socket library, whose code is not
    part of this model: a packet is begun towards a destination, filled by
    byte writes, and committed by endPacket. Whether the network accepts a
    committed packet is decided outside the model and passed in. */
module Ethernet {
  import opened RadioTypes

  /** A datagram that left the device. */
  datatype SentDatagram = SentDatagram(ip: IpAddress, port: int, payload: seq<byte>)

  class EthernetUdp {
    var localPort: int
    var remoteIp: IpAddress
    var remotePort: int
    /** The packet being built. */
    var outgoing: seq<byte>
    /** Every datagram sent so far, oldest first. */
    var sent: seq<SentDatagram>

    constructor ()
      ensures localPort == 0 && remoteIp == [] && remotePort == 0
      ensures outgoing == [] && sent == []
    {
      localPort, remoteIp, remotePort := 0, [], 0;
      outgoing, sent := [], [];
    }

    /** EthernetUDP_begin_init: clears the socket state; what was already
        sent stays sent. */
    method BeginInit()
      modifies this
      ensures localPort == 0 && remoteIp == [] && remotePort == 0 && outgoing == []
      ensures sent == old(sent)
    {
      localPort, remoteIp, remotePort := 0, [], 0;
      outgoing := [];
    }

    /** EthernetUDP_begin: listens on port; 1 when a socket was available,
        0 otherwise. */
    method Begin(port: int, socketAvailable: bool) returns (ok: byte)
      modifies this`localPort
      ensures ok == (if socketAvailable then 1 else 0)
      ensures localPort == (if socketAvailable then port else old(localPort))
    {
      if socketAvailable {
        localPort := port;
        ok := 1;
      } else {
        ok := 0;
      }
    }

    /** EthernetUDP_beginPacket_ip: starts an empty packet for ip:port. */
    method BeginPacketIp(ip: IpAddress, port: int) returns (ok: int)
      modifies this`remoteIp, this`remotePort, this`outgoing
      ensures remoteIp == ip && remotePort == port && outgoing == []
      ensures ok == 1
    {
      remoteIp, remotePort, outgoing := ip, port, [];
      ok := 1;
    }

    /** EthernetUDP_write_byte: appends one byte to the packet. */
    method WriteByte(b: byte)
      modifies this`outgoing
      ensures outgoing == old(outgoing) + [b]
    {
      outgoing := outgoing + [b];
    }

    /** EthernetUDP_write: appends the first size bytes of buf. */
    method Write(buf: array<byte>, size: nat)
      requires size <= buf.Length
      modifies this`outgoing
      ensures outgoing == old(outgoing) + buf[..size]
    {
      outgoing := outgoing + buf[..size];
    }

    /** EthernetUDP_endPacket: commits the packet; 1 when it was sent,
        0 when the network refused it. */
    method EndPacket(delivered: bool) returns (ok: int)
      modifies this`sent
      ensures sent == old(sent) + (if delivered then [SentDatagram(remoteIp, remotePort, outgoing)] else [])
      ensures ok == (if delivered then 1 else 0)
    {
      if delivered {
        sent := sent + [SentDatagram(remoteIp, remotePort, outgoing)];
        ok := 1;
      } else {
        ok := 0;
      }
    }
  }
}
