/** The packets of the transport stream as the DMA engine stores them: a header with a tag, then the payload. */
module PtiPackets {
  import opened Common

  const HEADER_SIZE: nat := 6
  const PAYLOAD_SIZE: nat := 188
  const PACKET_SIZE: nat := 194

  function BlankPacket(): (p: seq<Byte>)
    ensures |p| == PACKET_SIZE
  {
    seq(PACKET_SIZE, _ => 0)
  }

  type Packet = p: seq<Byte> | |p| == PACKET_SIZE witness BlankPacket()

  /** The tag in the header of the packet at `at`: the four bits between the upper two and the lower two. */
  function TagOf(buf: seq<Byte>, at: nat): (t: nat)
    requires at < |buf|
    ensures t < 16 && 4 * t <= buf[at] % 64 < 4 * t + 4
  {
    buf[at] / 4 % 16
  }

  /** A first byte put together from two bits, the tag and two bits is read as that tag and no other. */
  lemma TagIs(buf: seq<Byte>, at: nat, hi: nat, t: nat, low: nat)
    requires at < |buf| && hi < 4 && t < 16 && low < 4 && buf[at] == 64 * hi + 4 * t + low
    ensures TagOf(buf, at) == t
  {
    assert buf[at] % 64 == 4 * t + low;
  }

  function Payload(buf: seq<Byte>, at: nat): (p: seq<Byte>)
    requires at + PACKET_SIZE <= |buf|
    ensures |p| == 188 && forall k | 0 <= k < 188 :: p[k] == buf[at + 6 + k]
  {
    buf[at + HEADER_SIZE..at + PACKET_SIZE]
  }
}
