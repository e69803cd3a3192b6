/**
 * The ICMPv4 message view: type at byte 0, code at byte 1, checksum at 2..4,
 * and for Echo / Echo Reply (RFC 792) the identifier at 4..6 and sequence
 * number at 6..8; the body follows from byte 8. Readers are functions of the
 * buffer's contents, writers are methods on the buffer. The checksum covers
 * the whole message, header and body.
 */
module Icmpv4 {
  import opened Wire
  import InternetChecksum

  /** The message types the view names; every other type value is `Unsupported`. */
  datatype Message = EchoReply | EchoRequest | Unsupported

  /** Decoding a type byte never fails: unknown values become `Unsupported`. */
  function MessageFromU8(b: u8): (m: Message)
    ensures m == EchoReply <==> b == 0
    ensures m == EchoRequest <==> b == 8
    ensures m == Unsupported <==> b !in {0, 8}
  {
    match b
    case 0 => EchoReply
    case 8 => EchoRequest
    case _ => Unsupported
  }

  /** The wire value of a type; decoding it gives the type back. */
  function MessageToU8(m: Message): (b: u8)
    ensures MessageFromU8(b) == m
  {
    match m
    case EchoReply => 0
    case EchoRequest => 8
    case Unsupported => 0xFF
  }

  // Field layout.
  const TYPE: nat := 0
  const CODE: nat := 1
  const CHECKSUM := Field(2, 4)
  const UNUSED := Field(4, 8)
  const ECHO_IDENT := Field(4, 6)
  const ECHO_SEQNO := Field(6, 8)
  const HEADER_END: nat := 8

  /** The length check: a buffer shorter than the 8-byte header is truncated. */
  function CheckLen(s: seq<u8>): (r: Result<()>)
    ensures r.Ok? <==> |s| >= HEADER_END
    ensures r.Err? ==> r.error == Truncated
  {
    if |s| < HEADER_END then Err(Truncated) else Ok(())
  }

  /** The checked constructor: the view over `s` itself when the length check passes. */
  function NewChecked(s: seq<u8>): (r: Result<seq<u8>>)
    ensures r.Ok? <==> |s| >= 8
    ensures r.Ok? ==> r.value == s
    ensures r.Err? ==> r.error == Truncated
  {
    match CheckLen(s)
    case Err(e) => Err(e)
    case Ok(_) => Ok(s)
  }

  /** The type byte 0, decoded: 8 is an Echo Request, 0 an Echo Reply. */
  function MsgType(s: seq<u8>): (m: Message)
    requires |s| > TYPE
    ensures m == EchoRequest <==> s[0] == 8
    ensures m == EchoReply <==> s[0] == 0
  {
    MessageFromU8(s[TYPE])
  }

  /** The code: byte 1, undecoded. */
  function MsgCode(s: seq<u8>): (c: u8)
    requires |s| > CODE
    ensures c == s[1]
  {
    s[CODE]
  }

  /** The stored checksum: the big-endian word at 2..4. */
  function ChecksumField(s: seq<u8>): (c: u16)
    requires |s| >= CHECKSUM.end
    ensures c == (s[2] as int) * 0x100 + (s[3] as int)
  {
    ReadU16(s, CHECKSUM.start)
  }

  /** The Echo identifier: the big-endian word at 4..6. */
  function EchoIdent(s: seq<u8>): (id: u16)
    requires |s| >= ECHO_IDENT.end
    ensures id == (s[4] as int) * 0x100 + (s[5] as int)
  {
    ReadU16(s, ECHO_IDENT.start)
  }

  /** The Echo sequence number: the big-endian word at 6..8. */
  function EchoSeqNo(s: seq<u8>): (n: u16)
    requires |s| >= ECHO_SEQNO.end
    ensures n == (s[6] as int) * 0x100 + (s[7] as int)
  {
    ReadU16(s, ECHO_SEQNO.start)
  }

  /** The header length, chosen by message type, is 8 bytes for every type. */
  function HeaderLen(s: seq<u8>): (n: nat)
    requires |s| > TYPE
    ensures n == HEADER_END
  {
    match MsgType(s)
    case EchoRequest => ECHO_SEQNO.end
    case EchoReply => ECHO_SEQNO.end
    case _ => UNUSED.end
  }

  /**
   * The message as received is intact when its one's-complement sum is all
   * ones, that is, when its word total is a non-zero multiple of 0xFFFF.
   */
  predicate VerifyChecksum(s: seq<u8>)
    ensures VerifyChecksum(s) <==>
      InternetChecksum.WordTotal(s) > 0 && InternetChecksum.WordTotal(s) % 0xFFFF == 0
  {
    InternetChecksum.Sum(s) == InternetChecksum.Not16(0)
  }

  /**
   * The buffer `fill_checksum` leaves: the checksum field set to zero, the
   * whole buffer summed, and the complement of the sum written back. Only
   * bytes 2..4 change, and the result verifies.
   */
  function ChecksumFilled(s: seq<u8>): (r: seq<u8>)
    requires |s| >= CHECKSUM.end
    ensures |r| == |s|
    ensures forall i | 0 <= i < |s| && !(CHECKSUM.start <= i < CHECKSUM.end) :: r[i] == s[i]
    ensures VerifyChecksum(r)
  {
    var zeroed := PutU16(s, CHECKSUM.start, 0);
    InternetChecksum.ComplementCloses(zeroed, CHECKSUM.start);
    PutU16(zeroed, CHECKSUM.start, InternetChecksum.Not16(InternetChecksum.Sum(zeroed)))
  }

  /**
   * The converse of `ChecksumFilled`: a message that verifies holds in bytes
   * 2..4 the value `fill_checksum` would store there, the complement of the
   * sum taken with the field zeroed. The one exception is the other encoding
   * of one's-complement zero: where fill would store 0, a stored 0xFFFF
   * verifies too, since 0 and 0xFFFF both stand for zero.
   */
  lemma VerifyMeansFilled(s: seq<u8>)
    requires |s| >= CHECKSUM.end && VerifyChecksum(s)
    ensures var f := InternetChecksum.Not16(InternetChecksum.Sum(PutU16(s, CHECKSUM.start, 0)));
      ChecksumField(s) == f || (f == 0 && ChecksumField(s) == 0xFFFF)
  {
    var stored := ReadU16(s, CHECKSUM.start);
    InternetChecksum.WordTotalPutWord(s, 1, 0);
    var rest := InternetChecksum.WordTotal(PutU16(s, CHECKSUM.start, 0));
    InternetChecksum.ComplementUnique(rest, stored);
  }

  /**
   * A message that verifies stops verifying when any single bit of any byte
   * is flipped, including bits of the checksum field itself; in particular
   * every message `fill_checksum` leaves is caught this way.
   */
  lemma FlipBreaksVerify(s: seq<u8>, i: nat, b: u8)
    requires i < |s| && VerifyChecksum(s)
    requires b - s[i] in InternetChecksum.SINGLE_BIT_CHANGES
    ensures !VerifyChecksum(s[i := b])
  {
    InternetChecksum.SingleBitFlipBreaks(s, i, b);
  }

  method SetMsgType(buf: array<u8>, m: Message)
    requires buf.Length > TYPE
    modifies buf
    ensures buf[..] == old(buf[..])[TYPE := MessageToU8(m)]
    ensures MsgType(buf[..]) == m
  {
    buf[TYPE] := MessageToU8(m);
  }

  /**
   * `set_msg_code` as written: its body compares the code byte with `code`
   * and discards the result, so the buffer is left exactly as it was.
   */
  method SetMsgCode(buf: array<u8>, code: u8)
    requires buf.Length > CODE
    ensures buf[..] == old(buf[..])
  {
    var ignored := buf[CODE] == code;
  }

  /** `set_msg_code` as evidently intended: the code byte is assigned. */
  method SetMsgCodeIntended(buf: array<u8>, code: u8)
    requires buf.Length > CODE
    modifies buf
    ensures buf[..] == old(buf[..])[CODE := code]
    ensures MsgCode(buf[..]) == code
  {
    buf[CODE] := code;
  }

  /**
   * On a zeroed message, `set_msg_code(3)` as written leaves the code
   * reading 0 rather than the 3 that was asked for.
   */
  method MsgCodeNotWritten() returns (read: u8)
    ensures read == 0
  {
    var bytes := new u8[HEADER_END](_ => 0);
    SetMsgCode(bytes, 3);
    read := MsgCode(bytes[..]);
  }

  method SetChecksum(buf: array<u8>, checksum: u16)
    requires buf.Length >= CHECKSUM.end
    modifies buf
    ensures buf[..] == PutU16(old(buf[..]), CHECKSUM.start, checksum)
    ensures ChecksumField(buf[..]) == checksum
  {
    WriteU16(buf, CHECKSUM.start, checksum);
  }

  method SetEchoIdent(buf: array<u8>, ident: u16)
    requires buf.Length >= ECHO_IDENT.end
    modifies buf
    ensures buf[..] == PutU16(old(buf[..]), ECHO_IDENT.start, ident)
    ensures EchoIdent(buf[..]) == ident
  {
    WriteU16(buf, ECHO_IDENT.start, ident);
  }

  method SetEchoSeqNo(buf: array<u8>, number: u16)
    requires buf.Length >= ECHO_SEQNO.end
    modifies buf
    ensures buf[..] == PutU16(old(buf[..]), ECHO_SEQNO.start, number)
    ensures EchoSeqNo(buf[..]) == number
  {
    WriteU16(buf, ECHO_SEQNO.start, number);
  }

  /** Zero the checksum field, sum the whole buffer, and store the complement. */
  method FillChecksum(buf: array<u8>)
    requires buf.Length >= CHECKSUM.end
    modifies buf
    ensures buf[..] == ChecksumFilled(old(buf[..]))
    ensures VerifyChecksum(buf[..])
  {
    SetChecksum(buf, 0);
    var checksum := InternetChecksum.Not16(InternetChecksum.Sum(buf[..]));
    SetChecksum(buf, checksum);
  }

  /**
   * `data_mut().copy_from_slice(src)`: the writable body is the buffer from
   * `header_len()` (byte 8) to its end, so the header is never touched.
   */
  method WriteData(buf: array<u8>, src: seq<u8>)
    requires buf.Length >= HEADER_END
    requires |src| == buf.Length - HeaderLen(buf[..])
    modifies buf
    ensures buf[..] == old(buf[..HEADER_END]) + src
  {
    var start := HeaderLen(buf[..]);
    CopyFromSlice(buf, start, src);
  }

  /**
   * The Echo Request the view's own test builds: a zeroed 12-byte buffer,
   * type Echo Request, code 0, identifier 0x1234, sequence number 0xABCD,
   * body "ABCD", then the checksum filled in. Every field reads back and the
   * message verifies; the code reads 0 only because the buffer started
   * zeroed, since `set_msg_code` as written stores nothing.
   */
  method BuildEchoRequest() returns (msg: seq<u8>)
    ensures |msg| == 12
    ensures MsgType(msg) == EchoRequest && MsgCode(msg) == 0
    ensures EchoIdent(msg) == 0x1234 && EchoSeqNo(msg) == 0xABCD
    ensures msg[HEADER_END..] == [0x41, 0x42, 0x43, 0x44]
    ensures VerifyChecksum(msg)
  {
    var bytes := new u8[12](_ => 0);
    SetMsgType(bytes, EchoRequest);
    SetMsgCode(bytes, 0);
    SetEchoIdent(bytes, 0x1234);
    SetEchoSeqNo(bytes, 0xABCD);
    WriteData(bytes, [0x41, 0x42, 0x43, 0x44]);
    FillChecksum(bytes);
    msg := bytes[..];
  }
}
