/** The bounded queue between a channel's worker and its caller
    (crates/jackstay/src/affordances.rs, `events` and `event_bytes`). */
module EventQueue {
  import opened Options

  const MAX_BYTES := 524288
  const MAX_EVENTS := 1024

  ghost function Total<E>(size: E -> nat, events: seq<E>): nat {
    if events == [] then 0 else size(events[0]) + Total(size, events[1..])
  }

  lemma {:induction false} TotalAppend<E>(size: E -> nat, events: seq<E>, e: E)
    ensures Total(size, events + [e]) == Total(size, events) + size(e)
  {
    if events == [] {
      assert Total(size, [e][1..]) == 0;
    } else {
      TotalAppend(size, events[1..], e);
      assert (events + [e])[1..] == events[1..] + [e];
    }
  }

  predicate RoomFor<E>(size: E -> nat, e: E, bytes: nat, count: nat) {
    bytes + size(e) <= MAX_BYTES && count < MAX_EVENTS
  }

  function SaturatingSub(a: nat, b: nat): nat {
    if a < b then 0 else a - b
  }

  /** Each event carries a tag that says where it came from. */
  class EventQueue<E, T> {
    const size: E -> nat
    var events: seq<E>
    var bytes: nat
    /** History: events given to the caller; `all` adds those still waiting, and `tags` are
        the tags of all of them. */
    ghost var polled: seq<E>
    ghost var all: seq<E>
    ghost var tags: seq<T>

    ghost predicate Valid()
      reads this
    {
      && bytes == Total(size, events) <= MAX_BYTES && |events| <= MAX_EVENTS
      && all == polled + events && |tags| == |all|
    }

    constructor (size: E -> nat)
      ensures Valid() && this.size == size && events == [] && polled == [] && all == [] && tags == []
    {
      this.size := size;
      events, bytes, polled, all, tags := [], 0, [], [], [];
    }

    /** Queue an event exactly while there is room. */
    method Push(e: E, ghost tag: T) returns (ok: bool)
      requires Valid()
      modifies this`events, this`bytes, this`all, this`tags
      ensures Valid() && ok == RoomFor(size, e, old(bytes), |old(events)|)
      ensures ok <==> old(bytes) + size(e) <= 524288 && |old(events)| < 1024
      ensures events == if ok then old(events) + [e] else old(events)
      ensures all == if ok then old(all) + [e] else old(all)
      ensures tags == if ok then old(tags) + [tag] else old(tags)
    {
      if bytes + size(e) > MAX_BYTES || |events| >= MAX_EVENTS {
        return false;
      }
      TotalAppend(size, events, e);
      bytes, events := bytes + size(e), events + [e];
      all, tags := all + [e], tags + [tag];
      return true;
    }

    /** Drop what waits and leave one last event, which takes no room. */
    method End(e: E, ghost tag: T)
      requires Valid() && size(e) == 0
      modifies this`events, this`bytes, this`all, this`tags
      ensures Valid() && events == [e] && all == old(all)[..|polled|] + [e] && tags == old(tags)[..|polled|] + [tag]
      ensures |polled| <= |old(all)|
    {
      tags := tags[..|polled|] + [tag];
      all := all[..|polled|] + [e];
      events, bytes := [e], 0;
    }

    /** Events come out in the order they were queued. */
    method Poll() returns (e: Option<E>)
      requires Valid()
      modifies this`events, this`bytes, this`polled
      ensures Valid()
      ensures if old(events) == [] then e == None && events == [] && polled == old(polled)
              else e == Some(old(events[0])) && events == old(events[1..]) && polled == old(polled) + [e.value]
    {
      if events == [] {
        return None;
      }
      e := Some(events[0]);
      polled := polled + [events[0]];
      events := events[1..];
      bytes := SaturatingSub(bytes, size(e.value));
    }
  }
}
