// An RTP packet as it lies in a slot of the pool (header fields of section 5.1 of RFC 3550).
module RtpPackets {
  import opened Words

  datatype RtpPacket = RtpPacket(mark: bool, pt: byte, seqno: uint16, time: uint32, ssrc: uint32, data: seq<byte>)

  // A slot after memset(0).
  const BLANK := RtpPacket(false, 0, 0, 0, 0, [])
}
