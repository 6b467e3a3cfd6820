# Embly host-side message broker, modelled in Dafny

This project models `EmblyCtx`, the host-side broker of one sandboxed embly
function. Its source is `embly-wrapper-rs/src/main.rs`. The broker gives the
function four calls: `read`, `write`, `spawn` and `events`. It translates
between small local descriptors (`i32`) and global addresses (`u64`). It
relays every message over one connection to the master. Descriptor 1 is
bound to the `master` address given to `new` (the parent's address,
`embly-wrapper-rs/src/main.rs:384-388`), which need not be 1. Only the
`spawn` and `exit` messages go to the literal address 1.

The model is functional. The broker state is an immutable record, `Broker.Ctx`:

- `address`: this unit's own address.
- `dir`: the address directory. It holds `address_map` as two maps kept in
  step, plus `address_count`.
- `buffers`: one FIFO of messages per descriptor (`read_buffers`).
- `pending`: the event queue (`pending_events`).
- `outbox`: every message sent on the socket, in send order.

Each operation is a pure function from a state to a new state and a result.

Stand-ins for the parts that are not pure:

- The mpsc channel is the `arrivals` parameter. It is the sequence of
  messages that a call drains from the channel. This covers the non-blocking
  drain and the one blocking receive, whatever the timeout.
- `rand::random::<u64>()` in `spawn` is the parameter `spawnAddr`.
- The protobuf encoding is opaque. `outbox` holds messages. `Framing.Frame`
  frames an opaque serialized payload.

Modules, one per component:

- `Types`: machine integer widths as subset types, plus `Result` and `Error`.
- `LittleEndian`: `as_u32_le`, `u32_as_u8_le`, `u64_as_u8_le`, checked
  against one reference little-endian definition (`FromLe`/`ToLe`).
- `Framing`: the `write_msg` framing, and a reference decoder for a stream of frames.
- `Messages`: the message record and the byte stream of a queue.
- `Directory`: `add_address` and the directory bijection.
- `Broker`: the state and the operations `new`, `save_msg`,
  `process_messages`, `read`, `events_limited`, `events`, `write`, `spawn`, `exit`.
- `BrokerProperties`: properties that span several operations.
- `Drains`: a mailbox read dry, and the event queue paged through.
- `Hostcalls`: the zero-padding tail of `__events`.

`Broker.Valid` is the state invariant:

- the directory is a bijection between descriptors `1..count` and addresses;
- descriptor 1, bound to the `master` address given to `new`, is registered;
- every descriptor that has a mailbox or a pending event is registered.

`New` establishes it, and every operation keeps it.

## Model

| member | source | states |
|---|---|---|
| LittleEndian.AsU32Le | embly-wrapper-rs/src/main.rs:27-32 | the result is the little-endian number held in the first four bytes (byte i weighs 256^i) |
| LittleEndian.U32AsU8Le | embly-wrapper-rs/src/main.rs:33-40 | the result is the 4-byte little-endian encoding of x |
| LittleEndian.U32RoundTrip | embly-wrapper-rs/src/main.rs:27-40 | decoding the encoding of any u32 gives it back |
| LittleEndian.U32BytesRoundTrip | embly-wrapper-rs/src/main.rs:27-40 | encoding the decoding of any 4 bytes gives them back |
| LittleEndian.U64AsU8Le | embly-wrapper-rs/src/main.rs:42-53 | the result is the 8-byte little-endian encoding of x |
| LittleEndian.U64Byte | embly-wrapper-rs/src/main.rs:42-53 | byte i of the encoding is (x >> 8*i) & 0xff |
| LittleEndian.U64Decodes | embly-wrapper-rs/src/main.rs:42-53 | the eight bytes denote x again, so the handshake address is encoded losslessly |
| LittleEndian.FromToLe | embly-wrapper-rs/src/main.rs:27-53 | for any width n, decoding the n-byte encoding of a number below 256^n gives it back |
| Framing.Frame | embly-wrapper-rs/src/main.rs:307-312 | a frame is 4 prefix bytes then the payload; the prefix decodes to the payload length modulo 2^32 (the `as u32` cast) |
| Framing.UnframeFrameAll | embly-wrapper-rs/src/main.rs:307-312 | the bytes of consecutive frames, each payload under 4 GiB, split back into exactly those payloads in order |
| Directory.AddAddress | embly-wrapper-rs/src/main.rs:267-274 | a known address returns its descriptor and leaves the directory unchanged; an unseen one gets count+1, a descriptor not used before; afterwards the address and descriptor map to each other; the bijection is kept and no binding is lost |
| Directory.AddAddressIdempotent | embly-wrapper-rs/src/main.rs:267-274 | registering the same address twice returns the same descriptor and directory both times |
| Directory.DistinctAddressesDistinctIds | embly-wrapper-rs/src/main.rs:267-274 | two distinct addresses never share a descriptor |
| Broker.New | embly-wrapper-rs/src/main.rs:152-170 | the `master` address given to `new` is bound to descriptor 1, the only binding; mailboxes, events and outbox are empty; the invariant holds |
| Broker.SaveMsg | embly-wrapper-rs/src/main.rs:208-226 | the sender is registered exactly as `add_address` registers it, so the directory gains at most that one binding (descriptor count+1 for an unseen sender); the message goes to the back of its descriptor's queue, which is created if absent; every other queue, the event queue, the outbox and the address are unchanged |
| Broker.ProcessMessages | embly-wrapper-rs/src/main.rs:228-250 | draining adds one event per arrival, never removes an address binding, and sends nothing |
| Broker.SaveAndNotify | embly-wrapper-rs/src/main.rs:245-248 | one pass of the drain loop: the directory is exactly what `add_address` makes of the sender; the message is appended to the queue of the sender's descriptor and to no other queue; that descriptor is pushed onto the back of the event queue; the address and the outbox are unchanged |
| Broker.ProcessMessagesSpec | embly-wrapper-rs/src/main.rs:245-248 | the event queue gains the descriptor of each arrival, in arrival order, with no coalescing; each queue gains exactly the arrivals filed under it, in arrival order; every sender is registered |
| Broker.ProcessMessagesValid | embly-wrapper-rs/src/main.rs:228-250 | draining keeps the state invariant and only adds directory bindings |
| Broker.ProcessMessagesBindsOnlySenders | embly-wrapper-rs/src/main.rs:218 | a drain binds no address except the senders of the arrivals: every address bound afterwards was bound before or sent one of the arrivals |
| Broker.ReadMailbox | embly-wrapper-rs/src/main.rs:189-205 | a missing or empty queue gives 0 and changes nothing; otherwise min(buf.len, head.data.len) bytes, a prefix of the head's data, go to the front of buf; the rest of buf is untouched; the head loses those bytes and is popped exactly when its data is used up; later messages and other queues are untouched; bytes read plus bytes still queued equal the bytes queued before |
| Broker.Read | embly-wrapper-rs/src/main.rs:186-206 | after the non-blocking drain, a queue that is missing or empty gives 0 and leaves buf as it was; otherwise min(buf.len, head.data.len) bytes of the head message go to the front of buf and the rest of buf is untouched; the head is popped exactly when all its data has been read, and otherwise stays at the front with its remaining bytes, ahead of the untouched later messages; other queues, the directory, the events, the outbox and the address are as the drain left them; bytes returned plus bytes still queued for the descriptor equal its old queue followed by the new arrivals from its address |
| Broker.EventsLimited | embly-wrapper-rs/src/main.rs:252-260 | returns min(len, limit) events; the returned events followed by the events left queued are the old queue followed by the arrivals' descriptors; every returned event is a registered descriptor |
| Broker.Events | embly-wrapper-rs/src/main.rs:262-265 | returns the whole event queue plus the arrivals' descriptors in order, and leaves the queue empty |
| Broker.Write | embly-wrapper-rs/src/main.rs:172-184 | fails with DescriptorDoesntExist exactly when the descriptor is unbound, and then the state (outbox included) is unchanged; otherwise it appends one message (to the bound address, from this unit, data = buf) and returns buf.len; the state invariant is kept |
| Broker.Spawn | embly-wrapper-rs/src/main.rs:276-293 | appends one message to address 1 (to 1, from this unit, spawn = name, spawn_address = the drawn address); the drawn address is registered exactly as `add_address` registers it, so the directory gains at most that one binding; the returned descriptor maps to that address and is count+1 when the address was unseen |
| Broker.Exit | embly-wrapper-rs/src/main.rs:295-301 | appends one message with to = 1, from = 1 and exit = code, and changes nothing else |
| BrokerProperties.ArrivalsLandInSendersMailbox | embly-wrapper-rs/src/main.rs:218-224 | after a drain, the queue of a registered descriptor is its old queue followed by every new message from the bound address, in arrival order |
| BrokerProperties.EventsIsUnlimited | embly-wrapper-rs/src/main.rs:252-265 | `events` equals `events_limited` with a limit at least the queue length |
| BrokerProperties.LimitedComposes | embly-wrapper-rs/src/main.rs:252-260 | a limited call taking a events, then, with nothing new arriving, one taking b, returns the same events, in order, as one call taking a + b, and leaves the same state |
| BrokerProperties.SpawnThenArrival | embly-wrapper-rs/src/main.rs:466-477 | after `spawn`, a message from the spawned address lands at the back of the returned descriptor's queue, and that descriptor is the event raised |
| BrokerProperties.ArrivalIsReadable | embly-wrapper-rs/src/main.rs:432-452 | a message with data, from a known sender with an empty queue or from a sender never seen before, is announced by `events` under the sender's descriptor; the `read` that follows, with a non-empty buffer, returns a non-empty prefix of its data |
| BrokerProperties.EmptyArrivalReadsZero | embly-wrapper-rs/src/main.rs:189-201 | a message with no data, from a known sender with an empty queue or from a new sender, still raises an event, but the read that follows returns 0 and only pops it |
| Drains.DrainMailbox | embly-wrapper-rs/src/main.rs:186-206 | repeated `read` calls with any non-empty buffer size, while nothing new arrives, empty the queue; the bytes collected are exactly the queued messages' data, in order; nothing else changes |
| Drains.PageEvents | embly-wrapper-rs/src/main.rs:252-260 | repeated limited calls, with nothing new arriving, return pages that concatenate to the original event queue; every page is non-empty and at most limit long, and every page but the last is full; the queue ends empty and nothing else changes |
| Hostcalls.PadEvents | embly-wrapper-rs/src/main.rs:134 | `resize(n, 0)` keeps the first n events and fills the remaining slots with 0 |
| Hostcalls.HostEvents | embly-wrapper-rs/src/main.rs:130-136 | the reported length is ids_len, not the event count; the region starts with the taken events, and every slot after them is 0 |
| Hostcalls.SentinelMarksEnd | embly-wrapper-rs/src/main.rs:130-136 | descriptors are at least 1, so the first 0 in the region falls right after the real events |

## Behaviour worth knowing

All line numbers refer to `embly-wrapper-rs/src/main.rs`.

- `__events` writes `events.len()` after `resize` (lines 134-135). That is
  `ids_len`, the padded length, not the number of real events.
  `Hostcalls.HostEvents` reports `ids_len`. `Hostcalls.SentinelMarksEnd`
  shows that the guest can still find the real count: it is the position of
  the first 0.
- An event does not promise that the next read returns bytes. A message with
  empty data is queued and raises an event (lines 218-224 and 245-248), but
  reading it returns 0 (lines 189-201,
  `BrokerProperties.EmptyArrivalReadsZero`). An empty buffer also reads 0.
- Reads never remove events (lines 186-206). So the event queue can list a
  descriptor more often than that descriptor has unread messages.
- `events_limited` returns `min(len, limit)` events from the front of the
  queue and leaves the rest queued (lines 257-259). A second call with the
  same limit again returns at most `limit` events
  (`BrokerProperties.LimitedComposes`, `Drains.PageEvents`).
- Outbound frames carry `len as u32` (line 309). A payload of 4 GiB or more
  gets a wrong length prefix. `Framing.Frame` states the truncation.
  `Framing.UnframeFrameAll` needs every payload below 4 GiB.

## Left out

- The `lucet_hostcalls!` glue (`__read`, `__write`, `__spawn` and most of
  `__events`) copies bytes to and from guest memory through an unsafe
  boundary. Only the zero-padding of `__events` is modelled.
- `main()` is left out: environment variables, module loading, memory limits,
  the socket connect and the reader thread. This includes the start-up
  handshake (the `InvalidStartup` check on `parent_address` and
  `your_address`) and the final exit message sent after the instance stops.
  These fields are not part of `Messages.Message`.
- `next_message` is socket I/O, so it is not modelled. `Framing.Unframe` is a
  reference decoder for the frame format, not a model of that function.
- Protobuf `write_to_bytes`/`parse_from_bytes` are a foreign library.
  Payloads are opaque, and serialization never fails in the model.
- Socket write errors, and the byte count that `stream.write` returns
  (ignored by the code), are not modelled. Every frame is taken to be
  written whole.
- If sending the spawn request failed, the spawn address would stay
  registered. This is not modelled.
- Timeouts, blocking and the channel become the `arrivals` sequence. The rule
  of at most one blocking receive per call is not modelled.
- The `rand::random` draw is a parameter. Its collision with a known address
  is modelled as the code behaves: `add_address` returns the existing
  descriptor.
- `println!` logging, and the checks for a zero `from` or `to` that only
  print, are not modelled. They have no effect on behaviour.
- Directory.AddAddress: `address_count` is an `i32`, but the model counts
  with an unbounded integer. It does not model the overflow that would come
  after 2^31 - 1 distinct addresses.
- The `id as i32` and `addr as usize` casts in the host-call glue are not
  modelled.
- The `bimap` module is not part of this model. It is modelled as two maps
  kept in step. Its behaviour when an insert clashes can only arise from a
  state that breaks the invariant.
- `pkg/embly/homedir.go` does filesystem and user lookup only. It holds no
  broker logic.
