/**
 * IP version sniffing and the IANA protocol-number decoder.
 */
module Ip {
  import opened Wire

  datatype Version = IPv4 | IPv6 | Unsupported

  /**
   * The version of a packet, read from the high nibble of its first byte
   * (the low nibble is the header length). Only 4 and 6 are recognised;
   * `Unsupported` is never returned.
   */
  function OfPacket(data: seq<u8>): (r: Result<Version>)
    requires |data| >= 1
    ensures r == Ok(IPv4) <==> data[0] / 16 == 4
    ensures r == Ok(IPv6) <==> data[0] / 16 == 6
    ensures r.Err? <==> data[0] / 16 !in {4, 6}
    ensures r.Err? ==> r.error == Unrecognized
    ensures r != Ok(Version.Unsupported)
  {
    match (data[0] as bv8 >> 4) as int
    case 4 => Ok(IPv4)
    case 6 => Ok(IPv6)
    case _ => Err(Unrecognized)
  }

  /** Replacing the low (header-length) nibble of byte 0 never changes the version. */
  lemma OfPacketIgnoresIhl(data: seq<u8>, ihl: nat)
    requires |data| >= 1 && ihl < 16
    ensures OfPacket([(data[0] / 16) * 16 + ihl] + data[1..]) == OfPacket(data)
  {
  }

  /** Protocol numbers (IANA) the view names. */
  datatype Protocol =
    | HopByHop
    | ICMP
    | IGMP
    | TCP
    | UDP
    | IPv6Route
    | IPv6Frag
    | ICMPv6
    | IPv6NoNxt
    | IPv6Opts
    | Unsupported

  /** The protocol numbers that decode to a named protocol. */
  const KNOWN_NUMBERS: set<int> := {0x00, 0x01, 0x02, 0x06, 0x11, 0x2B, 0x2C, 0x3A, 0x3B, 0x3C}

  /** Decoding a protocol number is total: every number outside the ten known ones is `Unsupported`. */
  function ProtocolFromU8(b: u8): (p: Protocol)
    ensures p == Protocol.Unsupported <==> b !in KNOWN_NUMBERS
    ensures p == ICMP <==> b == 0x01
    ensures p == TCP <==> b == 0x06
    ensures p == UDP <==> b == 0x11
  {
    match b
    case 0x00 => HopByHop
    case 0x01 => ICMP
    case 0x02 => IGMP
    case 0x06 => TCP
    case 0x11 => UDP
    case 0x2B => IPv6Route
    case 0x2C => IPv6Frag
    case 0x3A => ICMPv6
    case 0x3B => IPv6NoNxt
    case 0x3C => IPv6Opts
    case _ => Protocol.Unsupported
  }

  /** The declared discriminant of a protocol; decoding it gives the protocol back. */
  function Discriminant(p: Protocol): (b: u8)
    ensures ProtocolFromU8(b) == p
    ensures p != Protocol.Unsupported <==> b in KNOWN_NUMBERS
  {
    match p
    case HopByHop => 0x00
    case ICMP => 0x01
    case IGMP => 0x02
    case TCP => 0x06
    case UDP => 0x11
    case IPv6Route => 0x2B
    case IPv6Frag => 0x2C
    case ICMPv6 => 0x3A
    case IPv6NoNxt => 0x3B
    case IPv6Opts => 0x3C
    case Unsupported => 0xFF
  }

  /** Every recognised number is the discriminant of the protocol it decodes to. */
  lemma KnownNumbersRoundTrip(b: u8)
    requires b in KNOWN_NUMBERS
    ensures Discriminant(ProtocolFromU8(b)) == b
  {
  }
}
