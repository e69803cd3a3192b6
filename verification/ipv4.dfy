/**
 * IPv4 addresses with their classification predicates, and the read-only
 * accessors of the IPv4 packet view at the fixed offsets of the header of
 * RFC 791, section 3.1.
 */
module Ipv4 {
  import opened Wire
  import Ip

  /** Four address octets. */
  type Octets4 = s: seq<u8> | |s| == 4 witness [0, 0, 0, 0]

  datatype Address = Address(octets: Octets4)

  const UNSPECIFIED := Address([0x00, 0x00, 0x00, 0x00])
  const BROADCAST := Address([0xff, 0xff, 0xff, 0xff])
  /** Spelled `MUILTCAST_ALL_SYSTEMS` in `src/ip/ipv4.rs`. */
  const MULTICAST_ALL_SYSTEMS := Address([224, 0, 0, 1])
  /** Spelled `MUILICAST_ALL_ROUTERS` in `src/ip/ipv4.rs`. */
  const MULTICAST_ALL_ROUTERS := Address([224, 0, 0, 2])

  /** The four octets; wrapping them again gives the same address. */
  function AsBytes(a: Address): (b: seq<u8>)
    ensures |b| == 4 && Address(b) == a
  {
    a.octets
  }

  /** The address `a0.a1.a2.a3`. */
  function New(a0: u8, a1: u8, a2: u8, a3: u8): (a: Address)
    ensures AsBytes(a) == [a0, a1, a2, a3]
  {
    Address([a0, a1, a2, a3])
  }

  /** Copy exactly four bytes into an address. */
  function FromBytes(data: seq<u8>): (a: Address)
    requires |data| == 4
    ensures AsBytes(a) == data
  {
    Address(data)
  }

  /** Equal to 255.255.255.255: every octet is 0xff. */
  predicate IsBroadcast(a: Address)
    ensures IsBroadcast(a) <==> forall i | 0 <= i < 4 :: a.octets[i] == 0xff
  {
    a == BROADCAST
  }

  /** Equal to 0.0.0.0: every octet is zero. */
  predicate IsUnspecified(a: Address)
    ensures IsUnspecified(a) <==> forall i | 0 <= i < 4 :: a.octets[i] == 0
  {
    a == UNSPECIFIED
  }

  /** The first octet is 224; neither broadcast nor unspecified is multicast. */
  predicate IsMulticast(a: Address)
    ensures IsMulticast(a) ==> a != BROADCAST && a != UNSPECIFIED
  {
    a.octets[0] == 224
  }

  /** The first two octets are 169.254. */
  predicate IsLinkLocal(a: Address)
    ensures IsLinkLocal(a) <==> a.octets[0] == 169 && a.octets[1] == 254
  {
    a.octets[0..2] == [169, 254]
  }

  /** The first octet is 127; a loopback address is never broadcast, unspecified or multicast. */
  predicate IsLoopback(a: Address)
    ensures IsLoopback(a) ==> a != BROADCAST && a != UNSPECIFIED && !IsMulticast(a)
  {
    a.octets[0] == 127
  }

  /** Not broadcast, not multicast, not unspecified; stated octet by octet. */
  predicate IsUnicast(a: Address)
    ensures IsUnicast(a) <==>
      a.octets[0] != 224 &&
      (exists i | 0 <= i < 4 :: a.octets[i] != 0xff) &&
      (exists i | 0 <= i < 4 :: a.octets[i] != 0)
  {
    !IsBroadcast(a) && !IsMulticast(a) && !IsUnspecified(a)
  }

  /**
   * The classes are mutually exclusive where they should be: a multicast,
   * loopback or link-local address is neither broadcast nor unspecified, and
   * loopback and link-local addresses count as unicast.
   */
  lemma ClassesDisjoint(a: Address)
    ensures IsMulticast(a) ==> !IsBroadcast(a) && !IsUnspecified(a) && !IsUnicast(a)
    ensures IsLoopback(a) ==> IsUnicast(a) && !IsMulticast(a) && !IsLinkLocal(a)
    ensures IsLinkLocal(a) ==> IsUnicast(a) && !IsMulticast(a)
    ensures IsBroadcast(a) ==> !IsUnspecified(a) && !IsUnicast(a)
  {
  }

  /** The named constants classify as their names say. */
  lemma ConstantsClassified()
    ensures IsBroadcast(BROADCAST) && !IsUnicast(BROADCAST)
    ensures IsUnspecified(UNSPECIFIED) && !IsUnicast(UNSPECIFIED)
    ensures IsMulticast(MULTICAST_ALL_SYSTEMS) && IsMulticast(MULTICAST_ALL_ROUTERS)
  {
  }

  // Field layout of the fixed header.
  const VER_IHL := Field(0, 1)
  const DSCP_ECN := Field(1, 2)
  const LENGTH := Field(2, 4)
  const IDENT := Field(4, 6)
  const FLG_OFF := Field(6, 8)
  const TTL := Field(8, 9)
  const PROTOCOL := Field(9, 10)
  const CHECKSUM := Field(10, 12)
  const SRC_ADDR := Field(12, 16)
  const DST_ADDR := Field(16, 20)

  /**
   * The header's fields in wire order. They tile the fixed header: the first
   * starts at 0, each is non-empty and ends where the next begins, and the
   * last ends at byte 20.
   */
  function Layout(): (fields: seq<Field>)
    ensures |fields| == 10
    ensures fields[0].start == 0 && fields[9].end == 20
    ensures forall i | 0 <= i < 10 :: fields[i].start < fields[i].end
    ensures forall i | 0 <= i < 9 :: fields[i].end == fields[i + 1].start
  {
    [VER_IHL, DSCP_ECN, LENGTH, IDENT, FLG_OFF, TTL, PROTOCOL, CHECKSUM, SRC_ADDR, DST_ADDR]
  }

  /** Fields are pairwise disjoint: an earlier field ends before a later one starts. */
  lemma LayoutDisjoint(i: nat, j: nat)
    requires i < j < 10
    ensures Layout()[i].end <= Layout()[j].start
  {
  }

  /** The field, at position `i` or later, that holds header byte `k`. */
  function FieldFrom(k: nat, i: nat): (f: nat)
    requires i < 10 && Layout()[i].start <= k < 20
    ensures i <= f < 10 && Layout()[f].start <= k < Layout()[f].end
    decreases 10 - i
  {
    if k < Layout()[i].end then i else FieldFrom(k, i + 1)
  }

  /** Every byte of the 20-byte header lies in exactly one field. */
  lemma LayoutCovers(k: nat)
    requires k < 20
    ensures var f := FieldFrom(k, 0);
      f < 10 && Layout()[f].start <= k < Layout()[f].end &&
      forall g | 0 <= g < 10 && g != f :: !(Layout()[g].start <= k < Layout()[g].end)
  {
  }

  /** The source address: bytes 12..16. */
  function SrcAddr(s: seq<u8>): (a: Address)
    requires |s| >= SRC_ADDR.end
    ensures AsBytes(a) == s[12..16]
  {
    FromBytes(s[SRC_ADDR.start..SRC_ADDR.end])
  }

  /** The destination address: bytes 16..20. */
  function DstAddr(s: seq<u8>): (a: Address)
    requires |s| >= DST_ADDR.end
    ensures AsBytes(a) == s[16..20]
  {
    FromBytes(s[DST_ADDR.start..DST_ADDR.end])
  }

  /** The header checksum: the big-endian word at 10..12. */
  function HeaderChecksum(s: seq<u8>): (c: u16)
    requires |s| >= CHECKSUM.end
    ensures c == (s[10] as int) * 0x100 + (s[11] as int)
  {
    ReadU16(s, CHECKSUM.start)
  }

  /** The payload protocol: byte 9, decoded as an IANA protocol number. */
  function ProtocolOf(s: seq<u8>): (p: Ip.Protocol)
    requires |s| > PROTOCOL.start
    ensures p == Ip.ProtocolFromU8(s[9])
  {
    Ip.ProtocolFromU8(s[PROTOCOL.start])
  }
}
