/** The memory segments through which the framebuffer server hands images to the client. */
module SharedMemory {
  import opened Options
  import opened Masking

  type Segment = nat
  /** A segment spans whole pages, so the 64-bit signature at its start can always be read. */
  type Contents = c: seq<byte> | |c| >= 8 witness [0, 0, 0, 0, 0, 0, 0, 0]
  type Memory = map<Segment, Contents>
  type Signature = s: seq<byte> | |s| == 8 witness [0, 0, 0, 0, 0, 0, 0, 0]

  function SignatureOf(m: Memory, seg: Segment): Option<Signature> {
    if seg in m then Some(m[seg][..8]) else None
  }

  /** The first n bytes of a segment. */
  function Read(m: Memory, seg: Segment, n: nat): seq<byte>
    requires seg in m && n <= |m[seg]|
  {
    m[seg][..n]
  }

  /** Copies bytes to the start of a segment. */
  function Write(m: Memory, seg: Segment, bytes: seq<byte>): (r: Memory)
    requires seg in m && |bytes| <= |m[seg]|
    ensures r.Keys == m.Keys && |r[seg]| == |m[seg]|
    ensures Read(r, seg, |bytes|) == bytes
    ensures forall s :: s in m && s != seg ==> r[s] == m[s]
  {
    m[seg := bytes + m[seg][|bytes|..]]
  }

  datatype Size = Size(width: nat, height: nat)

  /** Bytes of an image of this size. */
  function Bytes(size: Size): nat {
    size.width * size.height * 4
  }

  /** The segments that both programs have mapped. */
  class Segments {
    var segments: Memory

    constructor (segments: Memory)
      ensures this.segments == segments
    {
      this.segments := segments;
    }
  }
}
