/**
 * The Ethernet interface: a wrapper around a frame view that places an
 * upper-layer packet's bytes into the frame payload. Layering is explicit:
 * nothing here inspects the EtherType or the packet it carries.
 */
module Socket {
  import opened Wire
  import Frame = Ethernet

  class Ethernet {
    /** The frame buffer the interface borrows; it is never copied. */
    const frame: array<u8>

    /** Wrapping a frame keeps the very same buffer, so its bytes read back unchanged. */
    constructor FromFrame(frame: array<u8>)
      ensures this.frame == frame
      ensures AsRef() == frame[..]
    {
      this.frame := frame;
    }

    function AsRef(): seq<u8>
      reads frame
    {
      frame[..]
    }

    /**
     * Copy the upper packet's bytes verbatim into the payload (bytes 14 to
     * the end). The copy demands the packet fill the payload exactly; the
     * addresses and EtherType in bytes 0..14 are left as they were.
     */
    method SetUpperProtocol(upper: seq<u8>)
      requires frame.Length >= Frame.PAYLOAD_START
      requires |upper| == frame.Length - Frame.PAYLOAD_START
      modifies frame
      ensures frame[..] == old(frame[..Frame.PAYLOAD_START]) + upper
      ensures Frame.Payload(AsRef()) == upper
      ensures Frame.DstAddr(AsRef()) == old(Frame.DstAddr(AsRef()))
      ensures Frame.SrcAddr(AsRef()) == old(Frame.SrcAddr(AsRef()))
      ensures Frame.EtherTypeOf(AsRef()) == old(Frame.EtherTypeOf(AsRef()))
    {
      Frame.WritePayload(frame, upper);
      assert frame[..Frame.PAYLOAD_START] == old(frame[..Frame.PAYLOAD_START]);
    }
  }
}
