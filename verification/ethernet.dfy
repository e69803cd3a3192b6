/**
 * The Ethernet II frame view: destination address at bytes 0..6, source
 * address at 6..12, a big-endian EtherType at 12..14, and the payload from
 * byte 14 to the end of the buffer. Readers are functions of the buffer's
 * contents, writers are methods on the buffer.
 */
module Ethernet {
  import opened Wire

  /** The payload protocols the frame names. */
  datatype EtherType = IPv4 | ARP | IPv6 | ECTP | Unsupported

  /** Decoding a tag never fails. Only IPv4, ARP and IPv6 are recognised; ECTP is never produced. */
  function FromU16(v: u16): (t: EtherType)
    ensures t == IPv4 <==> v == 0x0800
    ensures t == ARP <==> v == 0x0806
    ensures t == IPv6 <==> v == 0x86DD
    ensures t != ECTP
  {
    match v
    case 0x0800 => IPv4
    case 0x0806 => ARP
    case 0x86DD => IPv6
    case _ => Unsupported
  }

  /**
   * The wire value of a type. It decodes back to the same type, except that
   * ECTP (0x9000) decodes as Unsupported; Unsupported itself is sent as 0.
   */
  function Value(t: EtherType): (v: u16)
    ensures FromU16(v) == if t == ECTP then Unsupported else t
    ensures t == Unsupported <==> v == 0
    ensures t == ECTP ==> v == 0x9000
  {
    match t
    case IPv4 => 0x0800
    case ARP => 0x0806
    case IPv6 => 0x86DD
    case ECTP => 0x9000
    case Unsupported => 0
  }

  /** Decode the big-endian tag in the first two bytes; ECTP never results. */
  function FromBytes(data: seq<u8>): (t: EtherType)
    requires |data| >= 2
    ensures t == IPv4 <==> data[0] == 0x08 && data[1] == 0x00
    ensures t == ARP <==> data[0] == 0x08 && data[1] == 0x06
    ensures t == IPv6 <==> data[0] == 0x86 && data[1] == 0xDD
    ensures t != ECTP
  {
    FromU16(ReadU16(data, 0))
  }

  /** The two wire bytes of a type, high byte first; reading them back gives its value. */
  function Bytes(t: EtherType): (b: seq<u8>)
    ensures |b| == 2 && ReadU16(b, 0) == Value(t)
    ensures FromBytes(b) == if t == ECTP then Unsupported else t
  {
    U16Bytes(Value(t))
  }

  /** Six address octets. */
  type Octets6 = s: seq<u8> | |s| == 6 witness [0, 0, 0, 0, 0, 0]

  datatype MacAddress = MacAddress(octets: Octets6)

  const BROADCAST := MacAddress([0xFF, 0xFF, 0xFF, 0xFF, 0xFF, 0xFF])

  /** Copy exactly six bytes into an address. */
  function MacFromBytes(data: seq<u8>): (a: MacAddress)
    requires |data| == 6
    ensures a.octets == data
  {
    MacAddress(data)
  }

  /** Equal to ff:ff:ff:ff:ff:ff: every octet is 0xFF. */
  predicate IsBroadcast(a: MacAddress)
    ensures IsBroadcast(a) <==> forall i | 0 <= i < 6 :: a.octets[i] == 0xFF
  {
    a == BROADCAST
  }

  /** The group bit: the least significant bit (mask 0x01) of the first octet. */
  predicate IsMulticast(a: MacAddress)
    ensures IsMulticast(a) <==> a.octets[0] % 2 == 1
  {
    (a.octets[0] as bv8) & 0x01 == 1
  }

  /**
   * Neither broadcast nor multicast. The broadcast address has its group bit
   * set, so unicast is exactly a clear group bit.
   */
  predicate IsUnicast(a: MacAddress)
    ensures IsUnicast(a) <==> a.octets[0] % 2 == 0
  {
    !IsBroadcast(a) && !IsMulticast(a)
  }

  /** The locally-administered bit: the second bit (mask 0x02) of the first octet. */
  predicate IsLocal(a: MacAddress)
    ensures IsLocal(a) <==> (a.octets[0] / 2) % 2 == 1
  {
    (a.octets[0] as bv8) & 0x02 != 0
  }

  /** The broadcast address is broadcast, multicast and local, and not unicast. */
  lemma BroadcastClassification()
    ensures IsBroadcast(BROADCAST) && IsMulticast(BROADCAST) && IsLocal(BROADCAST)
    ensures !IsUnicast(BROADCAST)
  {
  }

  // Field layout.
  const DESTINATION := Field(0, 6)
  const SOURCE := Field(6, 12)
  const ETHERTYPE := Field(12, 14)
  const PAYLOAD_START: nat := 14
  const HEADER_LEN: nat := PAYLOAD_START

  /** The length check: a buffer shorter than the 14-byte header is truncated. */
  function CheckLen(s: seq<u8>): (r: Result<()>)
    ensures r.Ok? <==> |s| >= 14
    ensures r.Err? ==> r.error == Truncated
  {
    if |s| < HEADER_LEN then Err(Truncated) else Ok(())
  }

  /** The checked constructor: the view over `s` itself when the length check passes. */
  function NewChecked(s: seq<u8>): (r: Result<seq<u8>>)
    ensures r.Ok? <==> |s| >= 14
    ensures r.Ok? ==> r.value == s
    ensures r.Err? ==> r.error == Truncated
  {
    match CheckLen(s)
    case Err(e) => Err(e)
    case Ok(_) => Ok(s)
  }

  /** The header length: the header ends exactly where the payload begins. */
  function HeaderLen(): (n: nat)
    ensures n == ETHERTYPE.end && n == PAYLOAD_START
  {
    HEADER_LEN
  }

  /** The length of a frame carrying `payloadLen` bytes. */
  function FrameLen(payloadLen: nat): (n: nat)
    ensures n >= HeaderLen() && n - PAYLOAD_START == payloadLen
  {
    HEADER_LEN + payloadLen
  }

  /** The destination address: bytes 0..6. */
  function DstAddr(s: seq<u8>): (a: MacAddress)
    requires |s| >= DESTINATION.end
    ensures a.octets == s[0..6]
  {
    MacFromBytes(s[DESTINATION.start..DESTINATION.end])
  }

  /** The source address: bytes 6..12. */
  function SrcAddr(s: seq<u8>): (a: MacAddress)
    requires |s| >= SOURCE.end
    ensures a.octets == s[6..12]
  {
    MacFromBytes(s[SOURCE.start..SOURCE.end])
  }

  /** The type tag: the big-endian word at 12..14, decoded. */
  function EtherTypeOf(s: seq<u8>): (t: EtherType)
    requires |s| >= ETHERTYPE.end
    ensures t == FromU16(ReadU16(s, ETHERTYPE.start))
  {
    FromBytes(s[ETHERTYPE.start..ETHERTYPE.end])
  }

  /** Everything after the 14 header bytes: header and payload make up the frame. */
  function Payload(s: seq<u8>): (p: seq<u8>)
    requires |s| >= PAYLOAD_START
    ensures |p| == |s| - 14 && s == s[..14] + p
  {
    s[PAYLOAD_START..]
  }

  /**
   * A frame of length `FrameLen(p)` passes the length check and carries a
   * payload of exactly `p` bytes; `HeaderLen()` is the 14 header bytes.
   */
  lemma FrameLenFitsPayload(s: seq<u8>, p: nat)
    requires |s| == FrameLen(p)
    ensures HeaderLen() == 14
    ensures CheckLen(s).Ok? && |Payload(s)| == p
  {
  }

  method SetDstAddr(buf: array<u8>, addr: MacAddress)
    requires buf.Length >= DESTINATION.end
    modifies buf
    ensures buf[..] == Overwrite(old(buf[..]), DESTINATION.start, addr.octets)
    ensures DstAddr(buf[..]) == addr
  {
    CopyFromSlice(buf, DESTINATION.start, addr.octets);
  }

  method SetSrcAddr(buf: array<u8>, addr: MacAddress)
    requires buf.Length >= SOURCE.end
    modifies buf
    ensures buf[..] == Overwrite(old(buf[..]), SOURCE.start, addr.octets)
    ensures SrcAddr(buf[..]) == addr
  {
    CopyFromSlice(buf, SOURCE.start, addr.octets);
  }

  method SetEtherType(buf: array<u8>, etherType: EtherType)
    requires buf.Length >= ETHERTYPE.end
    modifies buf
    ensures buf[..] == PutU16(old(buf[..]), ETHERTYPE.start, Value(etherType))
    ensures EtherTypeOf(buf[..]) == if etherType == ECTP then Unsupported else etherType
  {
    CopyFromSlice(buf, ETHERTYPE.start, Bytes(etherType));
  }

  /**
   * `payload_mut().copy_from_slice(src)`: the writable payload is the buffer
   * from byte 14 to its end, so the header is never touched.
   */
  method WritePayload(buf: array<u8>, src: seq<u8>)
    requires buf.Length >= PAYLOAD_START && |src| == buf.Length - PAYLOAD_START
    modifies buf
    ensures buf[..] == old(buf[..PAYLOAD_START]) + src
    ensures Payload(buf[..]) == src
  {
    CopyFromSlice(buf, PAYLOAD_START, src);
  }

  const PAYLOAD_BYTES: seq<u8> := [0xaa] + seq(48, _ => 0) + [0xff]

  const FRAME_BYTES: seq<u8> :=
    [0x01, 0x02, 0x03, 0x04, 0x05, 0x06,
     0x11, 0x12, 0x13, 0x14, 0x15, 0x16,
     0x08, 0x00] + PAYLOAD_BYTES

  /** Reading the reference frame gives its addresses, IPv4 and its payload. */
  lemma DeconstructExample()
    ensures DstAddr(FRAME_BYTES) == MacAddress([0x01, 0x02, 0x03, 0x04, 0x05, 0x06])
    ensures SrcAddr(FRAME_BYTES) == MacAddress([0x11, 0x12, 0x13, 0x14, 0x15, 0x16])
    ensures EtherTypeOf(FRAME_BYTES) == IPv4
    ensures Payload(FRAME_BYTES) == PAYLOAD_BYTES
  {
  }

  /**
   * Writing both addresses, the IPv4 type and the reference payload over a
   * 64-byte buffer filled with 0xa5 yields exactly the reference frame.
   */
  method ConstructExample() returns (frame: seq<u8>)
    ensures frame == FRAME_BYTES
  {
    var bytes := new u8[64](_ => 0xa5);
    SetDstAddr(bytes, MacAddress([0x01, 0x02, 0x03, 0x04, 0x05, 0x06]));
    SetSrcAddr(bytes, MacAddress([0x11, 0x12, 0x13, 0x14, 0x15, 0x16]));
    SetEtherType(bytes, IPv4);
    WritePayload(bytes, PAYLOAD_BYTES);
    frame := bytes[..];
  }
}
