/**
  The pure tail of the `__events` host call: the events taken by
  `events_limited` are written into a caller region of `ids_len` slots,
  padded with the sentinel 0, and the reported length is `ids_len`.
  Copying into and out of guest memory is not part of this model.
*/
module Hostcalls {
  import opened Types
  import opened Messages
  import opened Broker

  datatype HostEventsOut = HostEventsOut(ctx: Ctx, ln: nat, ids: seq<int>)

  /** `Vec::resize(n, 0)`: cut to n items, or fill up to n with zeros. */
  function PadEvents(events: seq<int>, n: nat): (r: seq<int>)
    ensures |r| == n
    ensures forall k :: 0 <= k < n ==> r[k] == (if k < |events| then events[k] else 0)
  {
    if |events| >= n then events[..n] else events + seq(n - |events|, _ => 0)
  }

  /**
    `__events`: take at most `ids_len` events, pad them to `ids_len` slots
    with 0 and report `ids_len` as the length, whatever the real count.
  */
  function HostEvents(c: Ctx, arrivals: seq<Message>, idsLen: u32): (r: HostEventsOut)
    ensures r.ln == idsLen && |r.ids| == idsLen
    ensures var e := EventsLimited(c, arrivals, idsLen);
      && r.ctx == e.ctx
      && r.ids[..|e.events|] == e.events
      && forall k :: |e.events| <= k < idsLen ==> r.ids[k] == 0
  {
    var e := EventsLimited(c, arrivals, idsLen);
    var ids := PadEvents(e.events, idsLen);
    HostEventsOut(e.ctx, |ids|, ids)
  }

  /** How many slots precede the first 0 (all of them if there is none). */
  function LeadingNonZero(s: seq<int>): (n: nat)
    ensures n <= |s|
  {
    if |s| == 0 || s[0] == 0 then 0 else 1 + LeadingNonZero(s[1..])
  }

  /**
    Since descriptors start at 1, the first 0 in the region marks the end of
    the real events: the guest can recover the count the length does not give.
  */
  lemma SentinelMarksEnd(c: Ctx, arrivals: seq<Message>, idsLen: u32)
    requires Valid(c)
    ensures LeadingNonZero(HostEvents(c, arrivals, idsLen).ids)
      == |EventsLimited(c, arrivals, idsLen).events|
  {
    var e := EventsLimited(c, arrivals, idsLen);
    var ids := HostEvents(c, arrivals, idsLen).ids;
    forall k | 0 <= k < |e.events|
      ensures ids[k] >= 1
    {
      assert ids[k] == e.events[k];
    }
    LeadingNonZeroRun(ids, |e.events|);
  }

  lemma {:induction false} LeadingNonZeroRun(s: seq<int>, n: nat)
    requires n <= |s|
    requires forall k :: 0 <= k < n ==> s[k] != 0
    requires n < |s| ==> s[n] == 0
    ensures LeadingNonZero(s) == n
  {
    if n > 0 {
      LeadingNonZeroRun(s[1..], n - 1);
    }
  }
}
