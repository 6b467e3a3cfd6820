/**
  Properties that relate several broker operations: descriptor routing,
  pagination of the event queue, the spawn handshake and what a read after
  an event sees.
*/
module BrokerProperties {
  import opened Types
  import opened Messages
  import D = Directory
  import opened Broker

  /** The messages, in order, sent from address a. */
  function FromSender(ms: seq<Message>, a: u64): (r: seq<Message>)
    ensures |r| <= |ms|
    ensures forall k :: 0 <= k < |r| ==> r[k].from == a
  {
    if |ms| == 0 then []
    else (if ms[0].from == a then [ms[0]] else []) + FromSender(ms[1..], a)
  }

  /**
    In a bijective directory that knows every sender, the messages filed
    under descriptor id are exactly those sent from the address bound to id.
  */
  lemma {:induction false} ArrivalsForIsFromSender(d: D.Directory, ms: seq<Message>, id: int)
    requires D.Valid(d)
    requires id in d.byId
    requires forall k :: 0 <= k < |ms| ==> ms[k].from in d.byAddr
    ensures ArrivalsFor(d, ms, id) == FromSender(ms, d.byId[id])
  {
    if |ms| > 0 {
      assert Route(d, ms[0]) == id <==> ms[0].from == d.byId[id];
      ArrivalsForIsFromSender(d, ms[1..], id);
    }
  }

  /**
    A mailbox keeps the per-sender order: after the channel is drained, the
    queue of a registered descriptor is its old queue followed by every new
    message from the bound address, in arrival order.
  */
  lemma ArrivalsLandInSendersMailbox(c: Ctx, arrivals: seq<Message>, id: int)
    requires Valid(c)
    requires id in c.dir.byId
    ensures var r := ProcessMessages(c, arrivals);
      Mailbox(r, id) == Mailbox(c, id) + FromSender(arrivals, c.dir.byId[id])
  {
    var r := ProcessMessages(c, arrivals);
    ProcessMessagesSpec(c, arrivals);
    ProcessMessagesValid(c, arrivals);
    ArrivalsForIsFromSender(r.dir, arrivals, id);
  }

  /** Draining a single message is saving it and queueing its event. */
  lemma ProcessOne(c: Ctx, m: Message)
    ensures ProcessMessages(c, [m]) == SaveAndNotify(c, m)
  {
    assert [m][1..] == [];
    assert ProcessMessages(c, [m]) == ProcessMessages(SaveAndNotify(c, m), []);
  }

  /** `events` is `events_limited` with a limit no smaller than the queue. */
  lemma EventsIsUnlimited(c: Ctx, arrivals: seq<Message>, limit: nat)
    requires limit >= |c.pending| + |arrivals|
    ensures Events(c, arrivals) == EventsLimited(c, arrivals, limit)
  {
    var p := ProcessMessages(c, arrivals);
    assert p.pending[..|p.pending|] == p.pending;
  }

  /**
    Pagination: taking `a` events and then, with nothing new arrived, `b`
    more gives the same events and the same state as taking `a + b` at once.
  */
  lemma LimitedComposes(c: Ctx, arrivals: seq<Message>, a: nat, b: nat)
    ensures var first := EventsLimited(c, arrivals, a);
      var second := EventsLimited(first.ctx, [], b);
      var both := EventsLimited(c, arrivals, a + b);
      first.events + second.events == both.events && second.ctx == both.ctx
  {
    var p := ProcessMessages(c, arrivals);
    var first := EventsLimited(c, arrivals, a);
    var k := Min(|p.pending|, a);
    assert first.ctx == p.(pending := p.pending[k..]);
    assert ProcessMessages(first.ctx, []) == first.ctx;
    TakeTwice(p.pending, k, Min(|p.pending| - k, b));
  }

  /**
    The spawn handshake: once `spawn` has bound its address, a message the
    spawned unit later sends is queued under the descriptor spawn returned,
    and that descriptor is the event it raises.
  */
  lemma SpawnThenArrival(c: Ctx, name: string, spawnAddr: u64, m: Message)
    requires Valid(c)
    requires m.from == spawnAddr
    ensures var s := Spawn(c, name, spawnAddr);
      var p := ProcessMessages(s.ctx, [m]);
      && Mailbox(p, s.id) == Mailbox(s.ctx, s.id) + [m]
      && p.pending == s.ctx.pending + [s.id]
      && p.dir == s.ctx.dir
  {
    var s := Spawn(c, name, spawnAddr);
    var p := ProcessMessages(s.ctx, [m]);
    ProcessOne(s.ctx, m);
  }

  /**
    A message with data that arrives into an empty queue is seen by the
    read that follows the `events` call announcing it: with a non-empty
    buffer the read returns a non-empty prefix of the message. The sender
    may be one the broker has never seen; its queue is then created.
  */
  lemma ArrivalIsReadable(c: Ctx, m: Message, buf: seq<byte>)
    requires Valid(c)
    requires m.from !in c.dir.byAddr || Mailbox(c, c.dir.byAddr[m.from]) == []
    requires |m.data| > 0 && |buf| > 0
    ensures var e := Events(c, [m]);
      && m.from in e.ctx.dir.byAddr
      && var id := e.ctx.dir.byAddr[m.from];
         var r := Read(e.ctx, [], id, buf);
         && e.events == c.pending + [id]
         && r.len > 0 && r.len == Min(|buf|, |m.data|) && r.filled[..r.len] == m.data[..r.len]
  {
    var p := ProcessMessages(c, [m]);
    ProcessOne(c, m);
    var reg := D.AddAddress(c.dir, m.from);
    assert p.dir == reg.dir;
    var id := p.dir.byAddr[m.from];
    assert id == reg.id;
    assert Mailbox(c, id) == [];
    assert Mailbox(p, id) == [m];
  }

  /**
    An arrival with no data still raises an event, yet the read it invites
    returns 0 and only removes the empty message: an event does not promise
    a non-empty read.
  */
  lemma EmptyArrivalReadsZero(c: Ctx, m: Message, buf: seq<byte>)
    requires Valid(c)
    requires m.from !in c.dir.byAddr || Mailbox(c, c.dir.byAddr[m.from]) == []
    requires m.data == []
    ensures var e := Events(c, [m]);
      && m.from in e.ctx.dir.byAddr
      && var id := e.ctx.dir.byAddr[m.from];
         var r := Read(e.ctx, [], id, buf);
         && e.events == c.pending + [id]
         && r.len == 0 && Mailbox(r.ctx, id) == []
  {
    var p := ProcessMessages(c, [m]);
    ProcessOne(c, m);
    var reg := D.AddAddress(c.dir, m.from);
    assert p.dir == reg.dir;
    var id := p.dir.byAddr[m.from];
    assert id == reg.id;
    assert Mailbox(c, id) == [];
    assert Mailbox(p, id) == [m];
  }
}
