/**
  The routed envelope (`protos::comms::Message`). Every field has the
  protobuf default (zero or empty) unless an operation sets it. The
  handshake-only fields `parent_address` and `your_address` are not modelled.
*/
module Messages {
  import opened Types

  datatype Message = Message(
    from: u64,
    to: u64,
    data: seq<byte>,
    spawn: string,
    spawnAddress: u64,
    exit: i32)

  /** `Message::new()`: every field at its default. */
  const Blank := Message(0, 0, [], "", 0, 0)

  /** The payload bytes of a queue of messages, in queue order. */
  function Stream(q: seq<Message>): (r: seq<byte>)
  {
    if |q| == 0 then [] else q[0].data + Stream(q[1..])
  }
}
