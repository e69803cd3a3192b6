# Zero-copy header views: Ethernet II, IPv4 and ICMPv4

This project models the core of a small Rust network-stack library. The core is a set of zero-copy
"views" over a caller's byte buffer. Each view reads and writes the fixed-offset header fields of one
protocol layer:

- the Ethernet II frame: destination and source MAC addresses, the EtherType, and the payload;
- the ICMPv4 message: type, code, checksum, and the Echo identifier and sequence number, with a body after them;
- the IPv4 address and the read-only IPv4 packet accessors;
- IP version sniffing and protocol-number decoding;
- the Ethernet interface wrapper that copies an upper-layer packet into a frame's payload.

The model mirrors the Rust code's two kinds of views:

- A read view is a set of functions over the buffer's contents (`seq<u8>`).
- A read/write view is a set of methods on the buffer itself (`array<u8>`).
- Each method's `ensures` says what the whole buffer holds afterwards, as a pure function of the old contents. `Wire.Overwrite` and `Wire.PutU16` are these functions. Their contracts say that the written bytes read back and that every other byte is unchanged.

Modules, one per source file:

| module | file | what it holds |
|---|---|---|
| `Wire` | `src/lib.rs`, plus the `byteorder` crate's network-order helpers | `u8`, `u16`, the crate's `Error` enum, `Result`, `Field` ranges, big-endian word read/write, and `copy_from_slice` |
| `InternetChecksum` | (`crate::checksum` is not part of this model) | the checksum of RFC 1071, section 1, as a definition |
| `Ethernet` | `src/ethernet.rs` | `EtherType`, `MacAddress`, and the frame view |
| `Icmpv4` | `src/protocol/icmp/icmpv4.rs` and `src/icmp/icmpv4.rs` | `Message` and the message view |
| `Ip` | `src/ip.rs` | `Version::of_packet` and `Protocol` |
| `Ipv4` | `src/ip/ipv4.rs` | `Address` and the packet getters |
| `Socket` | `src/socket/ethernet.rs` | the `Ethernet` interface |

`src/icmp/icmpv4.rs` matches lines 1-176 of `src/protocol/icmp/icmpv4.rs` line for line. It lacks `AsRef`,
`data_mut` and the test module (lines 192-249 of the `protocol/` file). So one `Icmpv4` module models both files, and each citation of lines
1-176 in one file also holds for the other.

The checksum is a definition, not an algorithm:

- `WordTotal` adds the buffer's big-endian 16-bit words as an unbounded number. An odd trailing byte is the high byte of a last word whose low byte is zero.
- `Fold` applies end-around carry until the value fits in 16 bits.
- `Sum` is their composition. It is the uncomplemented value that the code compares with `!0` and complements before storing.

Quirks of the code that the model keeps:

- `EtherType::ECTP` encodes as 0x9000, but `From<u16>` has no arm for 0x9000. So a frame written with ECTP reads back as `Unsupported`.
- `EtherType::Unsupported` encodes as 0x0000.
- `Ipv4.IsMulticast` tests only for a first octet of 224, as the code does. It does not test the whole 224.0.0.0/4 range.
- `Icmpv4.HeaderLen` depends on the message type, but it is 8 for every type.
- 0xFD has no `Protocol` variant in `src/ip.rs`, so it decodes to `Unsupported`.

Each accessor requires only the bytes that its Rust code indexes, because indexing outside the buffer
panics. For the Ethernet and ICMPv4 views, a buffer accepted by `CheckLen` / `NewChecked` meets every
one of these requirements. The IPv4 getters need 10 to 20 bytes, and `src/ip/ipv4.rs` has no length
check, so their `requires` stand on their own.

## Model

| member | source | states |
|---|---|---|
| `Wire.PutU16` | src/protocol/icmp/icmpv4.rs:153-166 | a big-endian write of `v` at `off` reads back as `v` and leaves every byte other than `off`, `off+1` unchanged |
| `Wire.CopyFromSlice` | src/ethernet.rs:157-170 | copying a slice into the buffer at `start` places it verbatim in `start..start+len`; all other bytes keep their old values |
| `InternetChecksum.Fold` | src/protocol/icmp/icmpv4.rs:136-139 | end-around carry gives a 16-bit value congruent to the total modulo 0xFFFF, and zero only for a zero total |
| `InternetChecksum.Sum` | src/protocol/icmp/icmpv4.rs:136-139 | stands for `checksum::data`: agrees with the word total modulo 0xFFFF and is 0 exactly for an all-zero buffer; `ComplementCloses` and `SingleBitFlipBreaks` prove fill-then-verify and single-bit sensitivity about it |
| `InternetChecksum.WordTotalZero` | src/protocol/icmp/icmpv4.rs:136-139 | the word total is zero exactly when every byte is zero, which is why only an all-zero buffer sums to 0 |
| `InternetChecksum.WordTotalPutWord` | src/protocol/icmp/icmpv4.rs:168-175 | rewriting one aligned word changes the word total by exactly new word minus old word |
| `InternetChecksum.ComplementCloses` | src/protocol/icmp/icmpv4.rs:136-139 | with the checksum word zero, storing the complement of the sum makes the sum of the whole buffer 0xFFFF (RFC 1071 generate/check) |
| `InternetChecksum.WordTotalSetByte` | src/protocol/icmp/icmpv4.rs:136-139 | changing byte `i` moves the word total by the change times 0x100 (high byte) or 1 (low byte) |
| `InternetChecksum.BitFlipIsSingleBitChange` | src/protocol/icmp/icmpv4.rs:136-139 | flipping bit k (k < 8) of a byte changes its value by +2^k or −2^k, one of the changes `SingleBitFlipBreaks` covers |
| `InternetChecksum.MovedOffMultiple` | src/protocol/icmp/icmpv4.rs:136-139 | a total that folds to all ones no longer does after a weighted single-bit change of one byte |
| `InternetChecksum.ComplementUnique` | src/protocol/icmp/icmpv4.rs:136-139 | the only words that bring a total to a non-zero multiple of 0xFFFF are the complement of its fold and, when that is 0, 0xFFFF |
| `InternetChecksum.SingleBitFlipBreaks` | src/protocol/icmp/icmpv4.rs:136-139 | if the sum of a buffer is 0xFFFF, changing any byte by ±2^k (what flipping its bit k does, by `BitFlipIsSingleBitChange`) makes the sum something else |
| `Icmpv4.MessageFromU8` | src/protocol/icmp/icmpv4.rs:41-49 | type 0 is EchoReply, 8 is EchoRequest, and every other byte is Unsupported; decoding never fails |
| `Icmpv4.MessageToU8` | src/protocol/icmp/icmpv4.rs:51-59 | decoding the encoded type gives the same `Message` for every variant |
| `Icmpv4.MsgType` | src/protocol/icmp/icmpv4.rs:103-106 | byte 0 decoded: Echo Request exactly when it is 8, Echo Reply exactly when it is 0; `SetMsgType` reads back through it |
| `Icmpv4.MsgCode` | src/protocol/icmp/icmpv4.rs:108-111 | the code is byte 1; `SetMsgCodeIntended` reads back through it, and `MsgCodeNotWritten` shows the as-written setter does not |
| `Icmpv4.ChecksumField` | src/protocol/icmp/icmpv4.rs:113-116 | the stored checksum is the big-endian word at 2..4; `SetChecksum` reads back through it |
| `Icmpv4.EchoIdent` | src/protocol/icmp/icmpv4.rs:118-121 | the identifier is the big-endian word at 4..6; `SetEchoIdent` reads back through it |
| `Icmpv4.EchoSeqNo` | src/protocol/icmp/icmpv4.rs:123-126 | the sequence number is the big-endian word at 6..8; `SetEchoSeqNo` reads back through it |
| `Icmpv4.CheckLen` | src/icmp/icmpv4.rs:90-97 | `Err(Truncated)` exactly when the buffer is shorter than 8 bytes, `Ok` otherwise |
| `Icmpv4.NewChecked` | src/protocol/icmp/icmpv4.rs:84-88 | succeeds exactly for buffers of at least 8 bytes, wrapping the same bytes; otherwise fails with Truncated |
| `Icmpv4.HeaderLen` | src/icmp/icmpv4.rs:128-134 | the header length is 8 whatever the message type |
| `Icmpv4.VerifyChecksum` | src/protocol/icmp/icmpv4.rs:136-139 | the sum equals 0xFFFF (`!0`) exactly when the word total is a non-zero multiple of 0xFFFF; `ChecksumFilled` and `FlipBreaksVerify` prove fill-then-verify and single-bit sensitivity |
| `Icmpv4.ChecksumFilled` | src/protocol/icmp/icmpv4.rs:168-175 | the filled buffer differs from the input only in bytes 2..4 and passes `verify_checksum` |
| `Icmpv4.VerifyMeansFilled` | src/protocol/icmp/icmpv4.rs:136-139 | the converse of fill-then-verify: a message that passes `verify_checksum` stores exactly what `fill_checksum` would store, or 0xFFFF where fill would store 0 (the two encodings of zero) |
| `Icmpv4.FlipBreaksVerify` | src/protocol/icmp/icmpv4.rs:136-139 | a message that passes `verify_checksum` (as every filled one does) fails it once any single bit is flipped |
| `Icmpv4.FillChecksum` | src/protocol/icmp/icmpv4.rs:168-175 | in place: the buffer becomes `ChecksumFilled` of its old contents, so it verifies, for every length of at least 4 |
| `Icmpv4.SetMsgType` | src/protocol/icmp/icmpv4.rs:143-146 | byte 0 becomes the type's wire value, nothing else changes, and `msg_type` reads the type back |
| `Icmpv4.SetMsgCode` | src/protocol/icmp/icmpv4.rs:148-151 | as written: the buffer is left completely unchanged, because line 150 compares instead of assigning |
| `Icmpv4.MsgCodeNotWritten` | src/protocol/icmp/icmpv4.rs:148-151 | on a zeroed message, `set_msg_code(3)` leaves the code reading 0, not 3 |
| `Icmpv4.SetMsgCodeIntended` | src/protocol/icmp/icmpv4.rs:148-151 | corrected: byte 1 becomes `code`, nothing else changes, and `msg_code` reads it back |
| `Icmpv4.SetChecksum` | src/protocol/icmp/icmpv4.rs:153-156 | writes the big-endian word at 2..4 only; `checksum` reads it back |
| `Icmpv4.SetEchoIdent` | src/protocol/icmp/icmpv4.rs:158-161 | writes the big-endian word at 4..6 only; `echo_ident` reads it back |
| `Icmpv4.SetEchoSeqNo` | src/protocol/icmp/icmpv4.rs:163-166 | writes the big-endian word at 6..8 only; `echo_seq_no` reads it back |
| `Icmpv4.WriteData` | src/protocol/icmp/icmpv4.rs:184-189 | writing through `data_mut` fills exactly bytes 8..end; the 8-byte header is untouched |
| `Icmpv4.BuildEchoRequest` | src/protocol/icmp/icmpv4.rs:217-224 | the Echo Request built field by field reads back type, code 0, ident 0x1234, sequence 0xABCD and body "ABCD", and its checksum verifies |
| `Ethernet.FromU16` | src/ethernet.rs:41-50 | 0x0800, 0x0806 and 0x86DD decode to IPv4, ARP and IPv6 exactly; every other tag, 0x9000 included, decodes to Unsupported; ECTP is never produced |
| `Ethernet.Value` | src/ethernet.rs:18-26 | every type except ECTP decodes back from its value; ECTP encodes as 0x9000 yet decodes as Unsupported; only Unsupported encodes as 0 |
| `Ethernet.FromBytes` | src/ethernet.rs:28-30 | the first two bytes 08 00 give IPv4, 08 06 ARP and 86 DD IPv6, and ECTP never results; `Bytes` states the round trip |
| `Ethernet.Bytes` | src/ethernet.rs:32-38 | the two bytes are the value high byte first, and `from_bytes` of them gives the type back (Unsupported for ECTP) |
| `Ethernet.EtherTypeOf` | src/ethernet.rs:143-148 | the type is the decoding of the big-endian word at 12..14 |
| `Ethernet.MacFromBytes` | src/ethernet.rs:58-62 | a 6-byte slice is copied exactly into the address |
| `Ethernet.IsBroadcast` | src/ethernet.rs:68-70 | holds exactly when all six octets are 0xFF; `BroadcastClassification` and `IsUnicast` relate it to the other classes |
| `Ethernet.IsMulticast` | src/ethernet.rs:72-74 | holds exactly when bit 0 (the least significant bit) of the first octet is set |
| `Ethernet.IsUnicast` | src/ethernet.rs:76-78 | holds exactly when bit 0 of the first octet is clear, because the broadcast address is also multicast |
| `Ethernet.IsLocal` | src/ethernet.rs:80-82 | holds exactly when bit 1 of the first octet is set |
| `Ethernet.BroadcastClassification` | src/ethernet.rs:189-194 | the broadcast address is broadcast, multicast and local, and is not unicast |
| `Ethernet.CheckLen` | src/ethernet.rs:112-119 | `Err(Truncated)` exactly when the buffer is shorter than 14 bytes (13 fails, 14 passes) |
| `Ethernet.NewChecked` | src/ethernet.rs:106-110 | succeeds exactly for buffers of at least 14 bytes, wrapping the same bytes; otherwise fails with Truncated |
| `Ethernet.HeaderLen` | src/ethernet.rs:125-127 | the header ends where the EtherType ends and the payload begins (14); `FrameLenFitsPayload` uses it |
| `Ethernet.FrameLen` | src/ethernet.rs:129-131 | a frame of that length leaves exactly `payload_len` bytes after the header; `FrameLenFitsPayload` proves such a frame passes the length check |
| `Ethernet.DstAddr` | src/ethernet.rs:133-136 | the destination address is bytes 0..6; `SetDstAddr` reads back through it |
| `Ethernet.SrcAddr` | src/ethernet.rs:138-141 | the source address is bytes 6..12; `SetSrcAddr` reads back through it |
| `Ethernet.FrameLenFitsPayload` | src/ethernet.rs:125-131 | `header_len()` is 14, and a buffer of length `frame_len(p)` passes the length check and carries a payload of exactly `p` bytes |
| `Ethernet.Payload` | src/ethernet.rs:150-153 | the payload is everything after byte 14, so header and payload make up the frame; `WritePayload` reads back through it |
| `Ethernet.SetDstAddr` | src/ethernet.rs:157-160 | overwrites bytes 0..6 only, and `dst_addr` reads the address back |
| `Ethernet.SetSrcAddr` | src/ethernet.rs:162-165 | overwrites bytes 6..12 only, and `src_addr` reads the address back |
| `Ethernet.SetEtherType` | src/ethernet.rs:167-170 | writes `value()` big-endian at 12..14 only; reading back gives the same type, except that ECTP reads back as Unsupported |
| `Ethernet.WritePayload` | src/ethernet.rs:172-175 | writing through `payload_mut` fills exactly bytes 14..end, and `payload` reads it back |
| `Ethernet.DeconstructExample` | src/ethernet.rs:223-230 | the reference frame reads as its two addresses, IPv4 and its 50-byte payload |
| `Ethernet.ConstructExample` | src/ethernet.rs:232-241 | writing both addresses, IPv4 and the payload over a 0xa5-filled 64-byte buffer gives exactly the reference frame |
| `Ip.OfPacket` | src/ip.rs:18-25 | `Ok(IPv4)` exactly when the high nibble of byte 0 is 4, `Ok(IPv6)` exactly when it is 6, `Err(Unrecognized)` otherwise; never `Version::Unsupported` |
| `Ip.OfPacketIgnoresIhl` | src/ip.rs:20 | changing the low (IHL) nibble of byte 0 never changes the result |
| `Ip.ProtocolFromU8` | src/ip.rs:43-58 | decoding is total: exactly the ten listed numbers map to named protocols (ICMP=1, TCP=6, UDP=17, ...), all others to Unsupported |
| `Ip.Discriminant` | src/ip.rs:28-41 | decoding each variant's declared discriminant gives the variant back (0xFF gives Unsupported) |
| `Ip.KnownNumbersRoundTrip` | src/ip.rs:28-58 | every recognised number is the discriminant of the protocol it decodes to |
| `Ipv4.New` | src/ip/ipv4.rs:33-35 | `new(a0,a1,a2,a3).as_bytes()` is `[a0,a1,a2,a3]` |
| `Ipv4.AsBytes` | src/ip/ipv4.rs:43-45 | returns the four octets, and wrapping them again gives the same address |
| `Ipv4.FromBytes` | src/ip/ipv4.rs:37-41 | a 4-byte slice is copied exactly |
| `Ipv4.IsBroadcast` | src/ip/ipv4.rs:47-49 | holds exactly when all four octets are 0xff |
| `Ipv4.IsUnspecified` | src/ip/ipv4.rs:51-53 | holds exactly when all four octets are 0 |
| `Ipv4.IsMulticast` | src/ip/ipv4.rs:55-57 | a first octet of 224; a multicast address is neither BROADCAST nor UNSPECIFIED, and `ClassesDisjoint` adds that it is not unicast |
| `Ipv4.IsLinkLocal` | src/ip/ipv4.rs:59-61 | holds exactly when the first two octets are 169.254 |
| `Ipv4.IsLoopback` | src/ip/ipv4.rs:63-65 | a first octet of 127; a loopback address is never BROADCAST, UNSPECIFIED or multicast, and `ClassesDisjoint` adds that it is unicast |
| `Ipv4.IsUnicast` | src/ip/ipv4.rs:67-71 | holds exactly when the first octet is not 224, some octet is not 0xff, and some octet is not 0 |
| `Ipv4.ClassesDisjoint` | src/ip/ipv4.rs:47-71 | multicast, loopback and link-local exclude broadcast and unspecified; loopback and link-local addresses are unicast; broadcast is not unicast |
| `Ipv4.ConstantsClassified` | src/ip/ipv4.rs:28-31 | BROADCAST is broadcast and not unicast, UNSPECIFIED is unspecified and not unicast, and both 224.0.0.x constants are multicast |
| `Ipv4.Layout` | src/ip/ipv4.rs:74-87 | the ten header fields are non-empty and tile bytes 0..20 in wire order |
| `Ipv4.LayoutDisjoint` | src/ip/ipv4.rs:77-86 | any earlier field ends before any later one starts, so the fields are pairwise disjoint |
| `Ipv4.LayoutCovers` | src/ip/ipv4.rs:77-86 | every byte of the 20-byte header lies in exactly one field |
| `Ipv4.SrcAddr` | src/ip/ipv4.rs:94-97 | the source address is bytes 12..16 |
| `Ipv4.DstAddr` | src/ip/ipv4.rs:99-102 | the destination address is bytes 16..20 |
| `Ipv4.HeaderChecksum` | src/ip/ipv4.rs:104-107 | the header checksum is the big-endian word at 10..12 |
| `Ipv4.ProtocolOf` | src/ip/ipv4.rs:109-112 | the protocol is byte 9 decoded by `Protocol::from` |
| `Socket.Ethernet.FromFrame` | src/socket/ethernet.rs:46-58 | wrapping a frame keeps the same buffer, and `as_ref` returns its bytes unchanged |
| `Socket.Ethernet.SetUpperProtocol` | src/socket/ethernet.rs:66-68 | requires the upper packet to be exactly frame length − 14 bytes; the payload becomes its bytes verbatim, and bytes 0..14 (addresses, EtherType) are unchanged |

## Left out

- The implementation of `crate::checksum` is not part of this model. `InternetChecksum.Sum` is the RFC 1071 definition over unbounded integers. A fixed-width accumulator in `crate::checksum` would wrap on very long buffers, and any other entry points of that module are not modelled.
- The IPv4 setters, the bit-packed IPv4 fields (version/IHL, DSCP/ECN, flags/fragment offset), IPv4 `check_len` and IPv4 `fill_checksum` live in a module that is not part of this model. Only the getters of `src/ip/ipv4.rs` are modelled.
- The `ipv6` module declared in `src/ip.rs` is not part of this model.
- The IPv4 half of the ICMPv4 test (lines 226-245) is not modelled, because it uses those setters. The raw-socket sends (`send_raw_socket`, `DST_MAC`, `src_mac`) are device I/O.
- `new_unchecked`, `into_inner`, `AsRef` on `Frame`/`Packet`, and `Deref`/`DerefMut` on the Ethernet interface only hand back the same buffer. A view in this model is the buffer itself.
- `src/socket/ip.rs` and `src/socket.rs` hold only forwarding impls and empty marker traits (`Network`, `Transport`, `Application`).
- Rust's borrow capabilities (read-only vs read/write views) are modelled as functions over `seq<u8>` vs methods with `modifies` on `array<u8>`. Exclusive borrowing is not modelled.
- The model does not produce index-out-of-bounds panics. Each accessor's `requires` states the length its indexing needs instead.
- `Icmpv4.FillChecksum`: proved for every buffer of at least 4 bytes (the code needs only bytes 2..4). The checksum arithmetic uses unbounded integers, so no width of the accumulator in `crate::checksum` is modelled.
- `Ethernet.FrameLen`: `HEADER_LEN + payload_len` is a `usize` addition in `src/ethernet.rs:129-131`, which overflows near `usize::MAX` (a panic in debug builds, wrap-around in release). The model adds `nat`s, so `FrameLen` never overflows and `FrameLenFitsPayload` holds for every payload length.

## Findings

| source | as written | input that shows it | evidently intended | confidence | as-written member | corrected member |
|---|---|---|---|---|---|---|
| src/protocol/icmp/icmpv4.rs:150 (same at src/icmp/icmpv4.rs:150) | `data[field::CODE] == code;` compares byte 1 with `code` and discards the result, so `set_msg_code` writes nothing | a zeroed 8-byte message, then `set_msg_code(3)`: `msg_code()` still returns 0 | assign `code` to byte 1 | high; not executed | `Icmpv4.MsgCodeNotWritten` | `Icmpv4.SetMsgCodeIntended` |

The model keeps the as-written no-op as `Icmpv4.SetMsgCode`. `Icmpv4.BuildEchoRequest` calls it, as the
code's own test does. The code still reads 0 there, only because the buffer starts zeroed and the test
asks for code 0.
