/**
  The wire framing of `write_msg`: a 4-byte little-endian length prefix
  followed by the serialized message. The serialized message is opaque here.
*/
module Framing {
  import opened Types
  import opened LittleEndian

  /** The prefix holds the payload length cast `as u32`, i.e. its low 32 bits. */
  const LengthModulus: nat := 0x1_0000_0000

  /** The bytes one `write_msg` call puts on the stream. */
  function Frame(payload: seq<byte>): (r: seq<byte>)
    ensures |r| == 4 + |payload|
    ensures r[4..] == payload
    ensures AsU32Le(r) == |payload| % LengthModulus
  {
    var prefix := U32AsU8Le(|payload| % LengthModulus);
    U32RoundTrip(|payload| % LengthModulus);
    assert (prefix + payload)[..4] == prefix;
    prefix + payload
  }

  /** The bytes of consecutive `write_msg` calls, in call order. */
  function FrameAll(payloads: seq<seq<byte>>): (r: seq<byte>)
  {
    if |payloads| == 0 then [] else Frame(payloads[0]) + FrameAll(payloads[1..])
  }

  /**
    Reference decoder of a frame stream: split off one length prefix and that
    many bytes at a time. A stream that ends inside a frame decodes to None.
  */
  function Unframe(stream: seq<byte>): (r: Option<seq<seq<byte>>>)
    decreases |stream|
  {
    if |stream| == 0 then Some([])
    else if |stream| < 4 then None
    else
      var n := AsU32Le(stream);
      if |stream| - 4 < n then None
      else match Unframe(stream[4 + n..])
        case None => None
        case Some(rest) => Some([stream[4..4 + n]] + rest)
  }

  /** Decoding a frame followed by more bytes splits off exactly that frame's payload. */
  lemma UnframeFirst(p: seq<byte>, rest: seq<byte>)
    requires |p| < LengthModulus
    ensures Unframe(Frame(p) + rest) ==
      match Unframe(rest)
      case None => None
      case Some(ps) => Some([p] + ps)
  {
    var f := Frame(p);
    var stream := f + rest;
    assert stream[..4] == f[..4];
    assert AsU32Le(stream) == |p|;
    assert stream[4..4 + |p|] == p;
    assert stream[4 + |p|..] == rest;
  }

  /** The framed stream of any sequence of payloads below 4 GiB decodes to those payloads. */
  lemma {:induction false} UnframeFrameAll(payloads: seq<seq<byte>>)
    requires forall i :: 0 <= i < |payloads| ==> |payloads[i]| < LengthModulus
    ensures Unframe(FrameAll(payloads)) == Some(payloads)
  {
    if |payloads| > 0 {
      UnframeFrameAll(payloads[1..]);
      UnframeFirst(payloads[0], FrameAll(payloads[1..]));
      assert [payloads[0]] + payloads[1..] == payloads;
    }
  }
}
