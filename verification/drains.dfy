/**
  Repeated calls the compute unit makes: reading a mailbox dry with a
  fixed-size buffer, and paging through the event queue with a fixed limit.
*/
module Drains {
  import opened Types
  import opened Messages
  import opened Broker

  /**
    Call `read` on descriptor id with a buffer of `size` bytes until its
    queue is empty, with nothing new arriving on the channel meanwhile,
    collecting the bytes each call returns. The bytes come
    out exactly as the queued messages hold them, in order, and nothing
    else in the state changes.
  */
  method DrainMailbox(c: Ctx, id: int, size: nat) returns (bytes: seq<byte>, calls: nat, last: Ctx)
    requires size > 0
    ensures bytes == Stream(Mailbox(c, id))
    ensures Mailbox(last, id) == []
    ensures forall j :: j != id ==> Mailbox(last, j) == Mailbox(c, j)
    ensures last.(buffers := c.buffers) == c
    ensures calls >= |Mailbox(c, id)|
  {
    var buf := seq(size, _ => 0);
    bytes, calls, last := [], 0, c;
    while Mailbox(last, id) != []
      invariant bytes + Stream(Mailbox(last, id)) == Stream(Mailbox(c, id))
      invariant forall j :: j != id ==> Mailbox(last, j) == Mailbox(c, j)
      invariant last.(buffers := c.buffers) == c
      invariant calls + |Mailbox(last, id)| >= |Mailbox(c, id)|
      decreases |Stream(Mailbox(last, id))| + |Mailbox(last, id)|
    {
      var r := Read(last, [], id, buf);
      assert ProcessMessages(last, []) == last;
      assert r == ReadMailbox(last, id, buf);
      assert (bytes + r.filled[..r.len]) + Stream(Mailbox(r.ctx, id)) == bytes + Stream(Mailbox(last, id));
      bytes, calls, last := bytes + r.filled[..r.len], calls + 1, r.ctx;
    }
    assert Stream(Mailbox(last, id)) == [];
  }

  /**
    Call `events_limited` with `limit` until the event queue is empty, with
    nothing new arriving on the channel meanwhile, collecting the pages. The pages concatenate to the queue as it was, and
    every page but the last is full.
  */
  method PageEvents(c: Ctx, limit: nat) returns (pages: seq<seq<int>>, last: Ctx)
    requires limit > 0
    ensures Concat(pages) == c.pending
    ensures last.pending == []
    ensures last.(pending := c.pending) == c
    ensures forall i :: 0 <= i < |pages| ==> 0 < |pages[i]| <= limit
    ensures forall i :: 0 <= i < |pages| - 1 ==> |pages[i]| == limit
  {
    pages, last := [], c;
    while last.pending != []
      invariant Concat(pages) + last.pending == c.pending
      invariant last.(pending := c.pending) == c
      invariant forall i :: 0 <= i < |pages| ==> 0 < |pages[i]| <= limit
      invariant forall i :: 0 <= i < |pages| - 1 ==> |pages[i]| == limit
      invariant |pages| > 0 && |pages[|pages| - 1]| < limit ==> last.pending == []
      decreases |last.pending|
    {
      var r := EventsLimited(last, [], limit);
      ConcatAppend(pages, r.events);
      assert Routes(r.ctx.dir, []) == [];
      if |r.events| < limit {
        assert r.ctx.pending == [];
      }
      pages, last := pages + [r.events], r.ctx;
    }
  }

  /** The concatenation of a list of pages. */
  function Concat(pages: seq<seq<int>>): (r: seq<int>)
  {
    if |pages| == 0 then [] else Concat(pages[..|pages| - 1]) + pages[|pages| - 1]
  }

  lemma ConcatAppend(pages: seq<seq<int>>, page: seq<int>)
    ensures Concat(pages + [page]) == Concat(pages) + page
  {
    assert (pages + [page])[..|pages|] == pages;
  }
}
