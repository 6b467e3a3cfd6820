/**
  The broker state `EmblyCtx` and its operations, as pure transitions.

  The inbound channel is replaced by the sequence of messages a call drains
  from it (`arrivals`); the socket write half is the append-only `outbox` of
  messages sent, in send order; the random spawn address is a parameter.
*/
module Broker {
  import opened Types
  import opened Messages
  import D = Directory

  datatype Ctx = Ctx(
    address: u64,
    dir: D.Directory,
    buffers: map<int, seq<Message>>,
    pending: seq<int>,
    outbox: seq<Message>)

  datatype Saved = Saved(ctx: Ctx, id: int)
  datatype ReadOut = ReadOut(ctx: Ctx, filled: seq<byte>, len: nat)
  datatype EventsOut = EventsOut(ctx: Ctx, events: seq<int>)
  datatype WriteOut = WriteOut(ctx: Ctx, result: Result<nat>)
  datatype SpawnOut = SpawnOut(ctx: Ctx, id: int)

  /**
    The state invariant: the directory is a bijection holding the master's
    descriptor 1, and every descriptor with a mailbox or a pending event is
    registered.
  */
  ghost predicate Valid(c: Ctx)
  {
    && D.Valid(c.dir)
    && 1 in c.dir.byId
    && (forall id :: id in c.buffers ==> id in c.dir.byId)
    && (forall k :: 0 <= k < |c.pending| ==> c.pending[k] in c.dir.byId)
  }

  /** The queue of a descriptor; a descriptor without a queue reads as an empty one. */
  function Mailbox(c: Ctx, id: int): seq<Message>
  {
    if id in c.buffers then c.buffers[id] else []
  }

  /** The descriptor a message is filed under: the one bound to its sender. */
  function Route(d: D.Directory, m: Message): int
  {
    if m.from in d.byAddr then d.byAddr[m.from] else 0
  }

  /** The descriptor of each message, in order. */
  function Routes(d: D.Directory, ms: seq<Message>): (r: seq<int>)
    ensures |r| == |ms|
  {
    if |ms| == 0 then [] else [Route(d, ms[0])] + Routes(d, ms[1..])
  }

  /** The messages, in order, that are filed under descriptor id. */
  function ArrivalsFor(d: D.Directory, ms: seq<Message>, id: int): seq<Message>
  {
    if |ms| == 0 then []
    else (if Route(d, ms[0]) == id then [ms[0]] else []) + ArrivalsFor(d, ms[1..], id)
  }

  /** `EmblyCtx::new`: the master is registered first and so gets descriptor 1. */
  function New(address: u64, master: u64): (c: Ctx)
    ensures Valid(c)
    ensures c.dir.byId == map[1 := master] && c.dir.byAddr == map[master := 1]
    ensures c.address == address
    ensures c.buffers == map[] && c.pending == [] && c.outbox == []
  {
    var r := D.AddAddress(D.Empty, master);
    Ctx(address, r.dir, map[], [], [])
  }

  /**
    `save_msg`: register the sender and append the message to the back of
    its descriptor's queue, creating the queue if there is none.
  */
  function SaveMsg(c: Ctx, m: Message): (r: Saved)
    ensures m.from in r.ctx.dir.byAddr && r.id == Route(r.ctx.dir, m)
    ensures Mailbox(r.ctx, r.id) == Mailbox(c, r.id) + [m]
    ensures forall j :: j != r.id ==> Mailbox(r.ctx, j) == Mailbox(c, j)
    ensures r.ctx.buffers.Keys == c.buffers.Keys + {r.id}
    ensures D.KeepsAddresses(c.dir, r.ctx.dir)
    ensures r.ctx.address == c.address && r.ctx.pending == c.pending && r.ctx.outbox == c.outbox
    ensures r.ctx.dir == D.AddAddress(c.dir, m.from).dir && r.id == D.AddAddress(c.dir, m.from).id
    ensures Valid(c) ==> Valid(r.ctx) && D.Extends(c.dir, r.ctx.dir) && r.id in r.ctx.dir.byId
  {
    var reg := D.AddAddress(c.dir, m.from);
    var queue := if reg.id in c.buffers then c.buffers[reg.id] else [];
    Saved(c.(dir := reg.dir, buffers := c.buffers[reg.id := queue + [m]]), reg.id)
  }

  /**
    `process_messages`: every drained message, in arrival order, is saved
    and its descriptor pushed onto the event queue (one event per message).
  */
  function ProcessMessages(c: Ctx, arrivals: seq<Message>): (r: Ctx)
    decreases |arrivals|
    ensures r.address == c.address && r.outbox == c.outbox
    ensures |r.pending| == |c.pending| + |arrivals|
    ensures D.KeepsAddresses(c.dir, r.dir)
  {
    if |arrivals| == 0 then c
    else
      ProcessMessages(SaveAndNotify(c, arrivals[0]), arrivals[1..])
  }

  /**
    The mailbox part of `read`: copy `min(|buf|, |head.data|)` bytes of the
    head message into the front of buf, remove them from the head message,
    and pop the head once its data is empty. A missing or empty queue gives 0.
  */
  function ReadMailbox(c: Ctx, id: int, buf: seq<byte>): (r: ReadOut)
    ensures r.len <= |buf| && |r.filled| == |buf| && r.filled[r.len..] == buf[r.len..]
         && r.filled[..r.len] + Stream(Mailbox(r.ctx, id)) == Stream(Mailbox(c, id))
    ensures Mailbox(c, id) == [] ==> r.ctx == c && r.len == 0 && r.filled == buf
    ensures Mailbox(c, id) != [] ==>
      var q, after := Mailbox(c, id), Mailbox(r.ctx, id);
      && r.len == Min(|buf|, |q[0].data|)
      && r.filled == q[0].data[..r.len] + buf[r.len..]
      && (r.len == |q[0].data| ==> after == q[1..])
      && (r.len < |q[0].data| ==> after == [q[0].(data := q[0].data[r.len..])] + q[1..])
    ensures forall j :: j != id ==> Mailbox(r.ctx, j) == Mailbox(c, j)
    ensures r.ctx.buffers.Keys == c.buffers.Keys
    ensures r.ctx.(buffers := c.buffers) == c
    ensures Valid(c) ==> Valid(r.ctx)
  {
    if id !in c.buffers || |c.buffers[id]| == 0 then ReadOut(c, buf, 0)
    else
      var q := c.buffers[id];
      var head := q[0];
      var n := Min(|buf|, |head.data|);
      var left := head.data[n..];
      var q' := if |left| == 0 then q[1..] else [head.(data := left)] + q[1..];
      assert Stream(q) == head.data + Stream(q[1..]);
      assert Stream(q') == left + Stream(q[1..]) by {
        if |left| > 0 {
          assert q'[0] == head.(data := left) && q'[1..] == q[1..];
        }
      }
      assert head.data == head.data[..n] + left;
      ReadOut(c.(buffers := c.buffers[id := q']), head.data[..n] + buf[n..], n)
  }

  /** Concatenating two queues concatenates their byte streams. */
  lemma {:induction false} StreamAppend(a: seq<Message>, b: seq<Message>)
    ensures Stream(a + b) == Stream(a) + Stream(b)
  {
    if |a| > 0 {
      assert (a + b)[1..] == a[1..] + b;
      StreamAppend(a[1..], b);
    } else {
      assert a + b == b;
    }
  }

  /** One step of `process_messages`: save the first arrival and queue its event. */
  function SaveAndNotify(c: Ctx, m: Message): (r: Ctx)
    ensures m.from in r.dir.byAddr
    ensures r.pending == c.pending + [Route(r.dir, m)]
    ensures forall j :: Mailbox(r, j) == Mailbox(c, j) + (if j == Route(r.dir, m) then [m] else [])
    ensures D.KeepsAddresses(c.dir, r.dir)
    ensures r.dir == D.AddAddress(c.dir, m.from).dir && r.address == c.address && r.outbox == c.outbox
  {
    var s := SaveMsg(c, m);
    s.ctx.(pending := s.ctx.pending + [s.id])
  }

  /** `save_msg` and the event it queues keep the state invariant. */
  lemma SaveAndNotifyValid(c: Ctx, m: Message)
    requires Valid(c)
    ensures Valid(SaveAndNotify(c, m)) && D.Extends(c.dir, SaveAndNotify(c, m).dir)
  {
  }

  /** `process_messages` keeps the state invariant and only adds directory bindings. */
  lemma {:induction false} ProcessMessagesValid(c: Ctx, arrivals: seq<Message>)
    ensures Valid(c) ==>
      Valid(ProcessMessages(c, arrivals)) && D.Extends(c.dir, ProcessMessages(c, arrivals).dir)
    decreases |arrivals|
  {
    if Valid(c) && |arrivals| > 0 {
      var c1 := SaveAndNotify(c, arrivals[0]);
      SaveAndNotifyValid(c, arrivals[0]);
      ProcessMessagesValid(c1, arrivals[1..]);
      D.ExtendsTransitive(c.dir, c1.dir, ProcessMessages(c, arrivals).dir);
    }
  }

  /**
    `process_messages` registers no address but the arrivals' senders: every
    address bound afterwards was bound before or sent one of the arrivals.
  */
  lemma {:induction false} ProcessMessagesBindsOnlySenders(c: Ctx, arrivals: seq<Message>)
    ensures forall a :: a in ProcessMessages(c, arrivals).dir.byAddr ==>
      a in c.dir.byAddr || exists k :: 0 <= k < |arrivals| && arrivals[k].from == a
    decreases |arrivals|
  {
    if |arrivals| > 0 {
      var c1 := SaveAndNotify(c, arrivals[0]);
      var rest := arrivals[1..];
      var r := ProcessMessages(c1, rest);
      assert r == ProcessMessages(c, arrivals);
      ProcessMessagesBindsOnlySenders(c1, rest);
      forall a | a in r.dir.byAddr
        ensures a in c.dir.byAddr || exists k :: 0 <= k < |arrivals| && arrivals[k].from == a
      {
        if a !in c1.dir.byAddr {
          var k :| 0 <= k < |rest| && rest[k].from == a;
          assert arrivals[k + 1] == rest[k];
        } else if a !in c.dir.byAddr {
          assert a == arrivals[0].from;
        }
      }
    }
  }

  /** After `process_messages` every sender is registered. */
  lemma {:induction false} ProcessMessagesRegisters(c: Ctx, arrivals: seq<Message>)
    ensures forall k :: 0 <= k < |arrivals| ==> arrivals[k].from in ProcessMessages(c, arrivals).dir.byAddr
    decreases |arrivals|
  {
    if |arrivals| > 0 {
      var c1 := SaveAndNotify(c, arrivals[0]);
      var rest := arrivals[1..];
      var r := ProcessMessages(c1, rest);
      assert r == ProcessMessages(c, arrivals);
      ProcessMessagesRegisters(c1, rest);
      forall k | 0 < k < |arrivals|
        ensures arrivals[k].from in r.dir.byAddr
      {
        assert arrivals[k] == rest[k - 1];
      }
    }
  }

  /** After `process_messages` one event per arrival is queued, in arrival order. */
  lemma {:induction false} ProcessMessagesEvents(c: Ctx, arrivals: seq<Message>)
    ensures var r := ProcessMessages(c, arrivals);
      r.pending == c.pending + Routes(r.dir, arrivals)
    decreases |arrivals|
  {
    if |arrivals| > 0 {
      var m, rest := arrivals[0], arrivals[1..];
      var c1 := SaveAndNotify(c, m);
      var r := ProcessMessages(c1, rest);
      assert r == ProcessMessages(c, arrivals);
      ProcessMessagesEvents(c1, rest);
      PendingStep(c, c1, r, m, rest);
      assert [m] + rest == arrivals;
    }
  }

  /** The inductive step of `ProcessMessagesEvents`. */
  lemma PendingStep(c: Ctx, c1: Ctx, r: Ctx, m: Message, rest: seq<Message>)
    requires c1 == SaveAndNotify(c, m) && r == ProcessMessages(c1, rest)
    requires r.pending == c1.pending + Routes(r.dir, rest)
    ensures r.pending == c.pending + Routes(r.dir, [m] + rest)
  {
    var e := Route(c1.dir, m);
    assert ([m] + rest)[0] == m && ([m] + rest)[1..] == rest;
    assert Route(r.dir, m) == e;
    assert Routes(r.dir, [m] + rest) == [e] + Routes(r.dir, rest);
    AppendAssoc(c.pending, [e], Routes(r.dir, rest));
  }

  /** After `process_messages` each queue has gained exactly its arrivals, in arrival order. */
  lemma {:induction false} ProcessMessagesMailbox(c: Ctx, arrivals: seq<Message>, id: int)
    ensures var r := ProcessMessages(c, arrivals);
      Mailbox(r, id) == Mailbox(c, id) + ArrivalsFor(r.dir, arrivals, id)
    decreases |arrivals|
  {
    if |arrivals| > 0 {
      var m, rest := arrivals[0], arrivals[1..];
      var c1 := SaveAndNotify(c, m);
      var r := ProcessMessages(c1, rest);
      var here := if id == Route(c1.dir, m) then [m] else [];
      var later := ArrivalsFor(r.dir, rest, id);
      assert r == ProcessMessages(c, arrivals);
      assert Mailbox(r, id) == Mailbox(c1, id) + later by {
        ProcessMessagesMailbox(c1, rest, id);
      }
      assert Mailbox(c1, id) == Mailbox(c, id) + here;
      assert ArrivalsFor(r.dir, arrivals, id) == here + later by {
        assert Route(r.dir, m) == Route(c1.dir, m);
      }
      AppendAssoc(Mailbox(c, id), here, later);
    }
  }

  /**
    Message order and content after `process_messages`: the event queue
    gains the descriptor of every arrival in arrival order, and each queue
    gains exactly the arrivals filed under it, in arrival order.
  */
  lemma ProcessMessagesSpec(c: Ctx, arrivals: seq<Message>)
    ensures var r := ProcessMessages(c, arrivals);
      && r.pending == c.pending + Routes(r.dir, arrivals)
      && (forall id :: Mailbox(r, id) == Mailbox(c, id) + ArrivalsFor(r.dir, arrivals, id))
      && (forall k :: 0 <= k < |arrivals| ==> arrivals[k].from in r.dir.byAddr)
  {
    ProcessMessagesEvents(c, arrivals);
    ProcessMessagesRegisters(c, arrivals);
    forall id
      ensures Mailbox(ProcessMessages(c, arrivals), id)
        == Mailbox(c, id) + ArrivalsFor(ProcessMessages(c, arrivals).dir, arrivals, id)
    {
      ProcessMessagesMailbox(c, arrivals, id);
    }
  }

  /**
    `read`: drain the channel without blocking, then read from the head of
    the descriptor's queue. The bytes returned and the bytes still queued are
    together the bytes queued before plus those of the new arrivals.
  */
  function Read(c: Ctx, arrivals: seq<Message>, id: int, buf: seq<byte>): (r: ReadOut)
    ensures r.len <= |buf| && |r.filled| == |buf| && r.filled[r.len..] == buf[r.len..]
         && r.filled[..r.len] + Stream(Mailbox(r.ctx, id))
            == Stream(Mailbox(c, id)) + Stream(ArrivalsFor(r.ctx.dir, arrivals, id))
    ensures Valid(c) ==> Valid(r.ctx)
    ensures r.ctx.pending == c.pending + Routes(r.ctx.dir, arrivals)
    ensures var p := ProcessMessages(c, arrivals);
      && r.ctx.(buffers := p.buffers) == p
      && (forall j :: j != id ==> Mailbox(r.ctx, j) == Mailbox(p, j))
      && (Mailbox(p, id) == [] ==> r.len == 0 && r.filled == buf && r.ctx == p)
      && (Mailbox(p, id) != [] ==>
            && r.len == Min(|buf|, |Mailbox(p, id)[0].data|)
            && r.filled == Mailbox(p, id)[0].data[..r.len] + buf[r.len..]
            && var q := Mailbox(p, id);
               && (r.len == |q[0].data| ==> Mailbox(r.ctx, id) == q[1..])
               && (r.len < |q[0].data| ==> Mailbox(r.ctx, id) == [q[0].(data := q[0].data[r.len..])] + q[1..]))
  {
    var p := ProcessMessages(c, arrivals);
    ProcessMessagesSpec(c, arrivals);
    ProcessMessagesValid(c, arrivals);
    StreamAppend(Mailbox(c, id), ArrivalsFor(p.dir, arrivals, id));
    ReadMailbox(p, id, buf)
  }

  /**
    `events_limited`: drain the channel (blocking as the timeout says), then
    take the first `min(len, limit)` pending events, leaving the rest queued.
  */
  function EventsLimited(c: Ctx, arrivals: seq<Message>, limit: nat): (r: EventsOut)
    ensures |r.events| == Min(|c.pending| + |arrivals|, limit)
    ensures r.events + r.ctx.pending == c.pending + Routes(r.ctx.dir, arrivals)
    ensures r.ctx.(pending := []) == ProcessMessages(c, arrivals).(pending := [])
    ensures Valid(c) ==> Valid(r.ctx)
    ensures Valid(c) ==> forall k :: 0 <= k < |r.events| ==> r.events[k] in r.ctx.dir.byId
  {
    var p := ProcessMessages(c, arrivals);
    ProcessMessagesSpec(c, arrivals);
    ProcessMessagesValid(c, arrivals);
    var k := Min(|p.pending|, limit);
    SplitAt(p.pending, k);
    SplitPending(p, k);
    EventsOut(p.(pending := p.pending[k..]), p.pending[..k])
  }

  /** Splitting the event queue of a valid state keeps both parts registered. */
  lemma SplitPending(c: Ctx, k: nat)
    requires k <= |c.pending|
    ensures Valid(c) ==> Valid(c.(pending := c.pending[k..]))
    ensures Valid(c) ==> forall i :: 0 <= i < k ==> c.pending[..k][i] in c.dir.byId
  {
  }

  /** `events`: drain the channel, then take and clear every pending event. */
  function Events(c: Ctx, arrivals: seq<Message>): (r: EventsOut)
    ensures r.events == c.pending + Routes(r.ctx.dir, arrivals)
    ensures r.ctx == ProcessMessages(c, arrivals).(pending := [])
    ensures Valid(c) ==> Valid(r.ctx)
  {
    var p := ProcessMessages(c, arrivals);
    ProcessMessagesSpec(c, arrivals);
    ProcessMessagesValid(c, arrivals);
    EventsOut(p.(pending := []), p.pending)
  }

  /**
    `write`: an unknown descriptor fails with `DescriptorDoesntExist` and
    sends nothing; otherwise one data message from this unit to the bound
    address is sent and the whole buffer length is reported.
  */
  function Write(c: Ctx, id: i32, buf: seq<byte>): (r: WriteOut)
    ensures r.result.Err? <==> id !in c.dir.byId
    ensures r.result.Err? ==> r.ctx == c && r.result.error == DescriptorDoesntExist
    ensures r.result.Ok? ==>
      && r.result.value == |buf|
      && r.ctx.(outbox := c.outbox) == c
      && |r.ctx.outbox| == |c.outbox| + 1 && r.ctx.outbox[..|c.outbox|] == c.outbox
      && var m := r.ctx.outbox[|c.outbox|];
         m.to == c.dir.byId[id] && m.from == c.address && m.data == buf
         && m.spawn == "" && m.spawnAddress == 0 && m.exit == 0
    ensures Valid(c) ==> Valid(r.ctx)
  {
    if id !in c.dir.byId then WriteOut(c, Err(DescriptorDoesntExist))
    else
      var m := Blank.(to := c.dir.byId[id], from := c.address, data := buf);
      WriteOut(c.(outbox := c.outbox + [m]), Ok(|buf|))
  }

  /**
    `spawn`: bind the (randomly drawn) spawn address to a descriptor and ask
    the master, address 1, to start the named unit at that address.
  */
  function Spawn(c: Ctx, name: string, spawnAddr: u64): (r: SpawnOut)
    ensures spawnAddr in r.ctx.dir.byAddr && r.ctx.dir.byAddr[spawnAddr] == r.id
    ensures Valid(c) ==> Valid(r.ctx) && D.Extends(c.dir, r.ctx.dir)
    ensures Valid(c) ==> r.id in r.ctx.dir.byId && r.ctx.dir.byId[r.id] == spawnAddr
    ensures Valid(c) && spawnAddr !in c.dir.byAddr ==> r.id == c.dir.count + 1 && r.id !in c.dir.byId
    ensures r.ctx.dir == D.AddAddress(c.dir, spawnAddr).dir && r.id == D.AddAddress(c.dir, spawnAddr).id
    ensures r.ctx.(dir := c.dir, outbox := c.outbox) == c
    ensures |r.ctx.outbox| == |c.outbox| + 1 && r.ctx.outbox[..|c.outbox|] == c.outbox
    ensures var m := r.ctx.outbox[|c.outbox|];
      m.to == 1 && m.from == c.address && m.spawn == name && m.spawnAddress == spawnAddr
      && m.data == [] && m.exit == 0
  {
    var reg := D.AddAddress(c.dir, spawnAddr);
    var m := Blank.(spawn := name, to := 1, from := c.address, spawnAddress := spawnAddr);
    SpawnOut(c.(dir := reg.dir, outbox := c.outbox + [m]), reg.id)
  }

  /** `exit`: tell the master the exit code, from the fixed sender 1. */
  function Exit(c: Ctx, code: i32): (r: Ctx)
    ensures r.(outbox := c.outbox) == c
    ensures |r.outbox| == |c.outbox| + 1 && r.outbox[..|c.outbox|] == c.outbox
    ensures var m := r.outbox[|c.outbox|];
      m.to == 1 && m.from == 1 && m.exit == code
      && m.data == [] && m.spawn == "" && m.spawnAddress == 0
    ensures Valid(c) ==> Valid(r)
  {
    c.(outbox := c.outbox + [Blank.(to := 1, from := 1, exit := code)])
  }
}
