/**
 * Shared vocabulary of the header views: octets and 16-bit words, the
 * crate-wide error type, byte ranges, the network-order (big-endian) word
 * codec every view uses, and the in-place slice copy the setters are built on.
 */
module Wire {

  /** An octet, the element type of every buffer. */
  type u8 = b: int | 0 <= b < 0x100

  /** An unsigned 16-bit word. */
  type u16 = w: int | 0 <= w < 0x1_0000

  /** The closed set of failure causes shared by all layers. */
  datatype Error =
    | Exhausted
    | Illegal
    | Unaddressable
    | Finished
    | Truncated
    | Checksum
    | Unrecognized
    | Fragmented
    | Malformed
    | Dropped

  datatype Result<T> = Ok(value: T) | Err(error: Error)

  /** A half-open byte range `start..end` of a header. */
  datatype Field = Field(start: nat, end: nat)

  /** The big-endian word stored at `off`, `off + 1`. */
  function ReadU16(s: seq<u8>, off: nat): u16
    requires off + 2 <= |s|
  {
    (s[off] as int) * 0x100 + (s[off + 1] as int)
  }

  /** The two network-order bytes of `v`: high byte first. */
  function U16Bytes(v: u16): (b: seq<u8>)
    ensures |b| == 2 && ReadU16(b, 0) == v
  {
    [(v / 0x100) % 0x100, v % 0x100]
  }

  /** `s` with `src` copied over the bytes starting at `start`. */
  function Overwrite(s: seq<u8>, start: nat, src: seq<u8>): (r: seq<u8>)
    requires start + |src| <= |s|
    ensures |r| == |s|
    ensures r[start..start + |src|] == src
    ensures forall i | 0 <= i < |s| && !(start <= i < start + |src|) :: r[i] == s[i]
  {
    s[..start] + src + s[start + |src|..]
  }

  /** `s` with the big-endian word `v` written at `off`; the word reads back and no other byte moves. */
  function PutU16(s: seq<u8>, off: nat, v: u16): (r: seq<u8>)
    requires off + 2 <= |s|
    ensures |r| == |s|
    ensures ReadU16(r, off) == v
    ensures forall i | 0 <= i < |s| && i != off && i != off + 1 :: r[i] == s[i]
  {
    Overwrite(s, off, U16Bytes(v))
  }

  /** `buf[start..start + |src|].copy_from_slice(src)`. */
  method CopyFromSlice(buf: array<u8>, start: nat, src: seq<u8>)
    requires start + |src| <= buf.Length
    modifies buf
    ensures buf[..] == Overwrite(old(buf[..]), start, src)
  {
    for i := 0 to |src|
      invariant forall k | 0 <= k < buf.Length && !(start <= k < start + i) :: buf[k] == old(buf[k])
      invariant forall k | 0 <= k < i :: buf[start + k] == src[k]
    {
      buf[start + i] := src[i];
    }
    assert buf[..] == Overwrite(old(buf[..]), start, src) by {
      var want := Overwrite(old(buf[..]), start, src);
      forall k | 0 <= k < buf.Length ensures buf[k] == want[k] {
        if start <= k < start + |src| {
          assert want[k] == want[start..start + |src|][k - start];
        }
      }
    }
  }

  /** `NetworkEndian::write_u16(&mut buf[off..off + 2], v)`. */
  method WriteU16(buf: array<u8>, off: nat, v: u16)
    requires off + 2 <= buf.Length
    modifies buf
    ensures buf[..] == PutU16(old(buf[..]), off, v)
  {
    CopyFromSlice(buf, off, U16Bytes(v));
  }
}
