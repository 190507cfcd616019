/**
 * Packet bytes and the Ethernet/IPv4/UDP-TCP fields the dataplane modules read
 * and write (core/modules/fc.c, core/modules/probe.c).
 *
 * A packet is the byte sequence starting at `snb_head_data`.  The header
 * structs are overlaid on those bytes and read on a little-endian machine, so
 * a 16-bit field read from bytes b0 b1 has the value b0 + 256 * b1; the
 * addresses and ports are copied in that form, still in network byte order.
 * The C code never checks the packet length: a read past the end is modelled
 * as reading 0 and a write past the end as no change.
 *
 * Offsets follow the Ethernet header (14 bytes, EtherType at 12) and the IPv4
 * header of section 3.1 of RFC 791 (identification at 4, protocol at 9,
 * source address at 12, destination address at 16, IHL in the low four bits
 * of the first byte, counted in 32-bit words); the UDP and TCP headers both
 * start with the source and the destination port.
 */
module Headers {
  import opened Bits

  type Packet = seq<byte>

  const ETHER_TYPE_OFFSET: nat := 12
  const IP_OFFSET: nat := 14
  const ETHER_TYPE_IPV4: u16 := 0x0800

  // Offsets of the IPv4 fields inside the packet (IP_OFFSET plus the RFC 791 offset).
  const VERSION_IHL: nat := 14
  const PACKET_ID: nat := 18
  const NEXT_PROTO_ID: nat := 23
  const SRC_ADDR: nat := 26
  const DST_ADDR: nat := 30

  const IPV4_HDR_IHL_MASK: nat := 0x0f
  const IPV4_IHL_MULTIPLIER: nat := 4

  const IPPROTO_TCP: byte := 6
  const IPPROTO_UDP: byte := 17

  /** The sentinel the sampler writes into the identification field. */
  const MARK: u16 := 0xBEEF

  function ByteAt(p: Packet, i: nat): byte
  {
    if i < |p| then p[i] else 0
  }

  /** A `uint16_t` load at byte offset `o`. */
  function Load16(p: Packet, o: nat): u16
  {
    ByteAt(p, o) + 0x100 * ByteAt(p, o + 1)
  }

  /** A `uint32_t` load at byte offset `o`. */
  function Load32(p: Packet, o: nat): u32
  {
    Load16(p, o) + 0x1_0000 * Load16(p, o + 2)
  }

  /** A loaded field is the packet's bytes, first byte lowest. */
  lemma Load16Bytes(p: Packet, o: nat)
    ensures LeBytes(Load16(p, o), 2) == [ByteAt(p, o), ByteAt(p, o + 1)]
  {
  }

  lemma Load32Bytes(p: Packet, o: nat)
    ensures LeBytes(Load32(p, o), 4) == [ByteAt(p, o), ByteAt(p, o + 1), ByteAt(p, o + 2), ByteAt(p, o + 3)]
  {
    var x := Load32(p, o);
    var y := x / 0x100;
    assert x % 0x100 == ByteAt(p, o) && y == ByteAt(p, o + 1) + 0x100 * Load16(p, o + 2);
    assert y % 0x100 == ByteAt(p, o + 1) && y / 0x100 == Load16(p, o + 2);
    Load16Bytes(p, o + 2);
    assert LeBytes(x, 4) == [x % 0x100] + LeBytes(y, 3);
    assert LeBytes(y, 3) == [y % 0x100] + LeBytes(Load16(p, o + 2), 2);
  }

  /** A byte store at offset `i`. */
  function Poke(p: Packet, i: nat, v: byte): (r: Packet)
    ensures |r| == |p|
    ensures forall j :: 0 <= j < |p| ==> r[j] == if j == i then v else p[j]
  {
    if i < |p| then p[i := v] else p
  }

  /** A `uint16_t` store at byte offset `o`. */
  function Store16(p: Packet, o: nat, v: u16): (r: Packet)
    ensures |r| == |p|
  {
    Poke(Poke(p, o, v % 0x100), o + 1, v / 0x100)
  }

  /** A store followed by a load at the same offset gives the stored value when the
      field lies inside the packet, and no other byte changes. */
  lemma Store16Load16(p: Packet, o: nat, v: u16)
    requires o + 2 <= |p|
    ensures Load16(Store16(p, o, v), o) == v
    ensures forall j :: 0 <= j < |p| && j != o && j != o + 1 ==> Store16(p, o, v)[j] == p[j]
  {
  }

  /** `rte_cpu_to_be_16` on a little-endian machine: the two bytes swapped. */
  function CpuToBe16(x: u16): (r: u16)
    ensures LeBytes(r, 2) == [x / 0x100, x % 0x100]
  {
    (x % 0x100) * 0x100 + x / 0x100
  }

  /** `eth->ether_type == rte_cpu_to_be_16(ETHER_TYPE_IPv4)`. */
  predicate IsIPv4(p: Packet)
  {
    Load16(p, ETHER_TYPE_OFFSET) == CpuToBe16(ETHER_TYPE_IPV4)
  }

  /** On the wire that is the EtherType bytes 0x08 0x00. */
  lemma IsIPv4Bytes(p: Packet)
    ensures IsIPv4(p) <==> ByteAt(p, 12) == 0x08 && ByteAt(p, 13) == 0x00
  {
  }

  function Protocol(p: Packet): byte
  {
    ByteAt(p, NEXT_PROTO_ID)
  }

  predicate IsTcpOrUdp(p: Packet)
  {
    Protocol(p) == IPPROTO_UDP || Protocol(p) == IPPROTO_TCP
  }

  /** Header length in bytes: `(version_ihl & IPV4_HDR_IHL_MASK) * IPV4_IHL_MULTIPLIER`. */
  function IhlBytes(p: Packet): (r: nat)
    ensures r % 4 == 0 && r <= 60
  {
    (ByteAt(p, VERSION_IHL) % (IPV4_HDR_IHL_MASK + 1)) * IPV4_IHL_MULTIPLIER
  }

  /** The start of the UDP or TCP header: `(char *)ip + ihl`. */
  function L4Offset(p: Packet): nat
  {
    IP_OFFSET + IhlBytes(p)
  }

  function SrcPort(p: Packet): u16
  {
    Load16(p, L4Offset(p))
  }

  function DstPort(p: Packet): u16
  {
    Load16(p, L4Offset(p) + 2)
  }
}
