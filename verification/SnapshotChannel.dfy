/** One end of a channel that replicates snapshots and carries verbs: its outgoing queue, the
    snapshot cache both ends keep, and the event queue
    (crates/jackstay/src/affordances.rs, `Channel`, `drive`). Each method is one critical
    section of the channel's lock; any sequence of calls on the channel and its outbox is a
    run. What the values on the wire mean is a parameter that keeps three laws. */
module SnapshotChannel {
  import opened Options
  import opened Snapshots
  import opened AffordanceMessages
  import Framing
  import opened Outbox
  import opened EventQueue

  // ---- The protocol ----

  datatype Item = Snap(snapshot: Snapshot) | Command(verb: Verb)

  /** Values of type V on the wire: their text, what an end may send and how it is written,
      and what a received value means to an end with a given cache. */
  datatype Protocol<!V> = Protocol(
    encode: V -> Framing.Message,
    decode: Framing.Message -> Option<V>,
    prepare: (bool, Snapshot) -> Option<Snapshot>,
    proper: (bool, Item) -> bool,
    wire: Item -> V,
    meaning: (V, Cache, bool) -> Meaning,
    size: Event -> nat)

  /** What a proper item means to the peer: a snapshot always arrives, a verb exactly when
      the peer's cache enables it. */
  function MeansToPeer(item: Item, cache: Cache): Meaning {
    match item
    case Snap(s) => Means(Changed(s))
    case Command(v) => if Enabled(cache, v) then Means(Invoked(v)) else Ignored
  }

  function SnapshotOf(m: Meaning): Option<Snapshot> {
    if m.Means? && m.event.Changed? then Some(m.event.snapshot) else None
  }

  /** An event is a snapshot of a domain the peer owns, or a verb this end's cache enables. */
  predicate SafeMeaning(m: Meaning, cache: Cache, producer: bool) {
    m.Means? ==>
      match m.event
      case Changed(s) => !Owns(producer, DomainOf(s))
      case Invoked(v) => producer && Enabled(cache, v) && Owns(producer, v.domain)
      case Closed => false
  }

  ghost predicate ItemAt<V>(p: Protocol<V>, producer: bool, item: Item, cache: Cache) {
    p.proper(producer, item) ==>
      && p.meaning(p.wire(item), cache, !producer) == MeansToPeer(item, cache)
      && (item.Snap? ==> Owns(producer, DomainOf(item.snapshot)))
  }

  ghost predicate PreparedAt<V>(p: Protocol<V>, producer: bool, s: Snapshot) {
    p.prepare(producer, s).Some? ==> p.proper(producer, Snap(p.prepare(producer, s).value))
  }

  /** For any value whatever: its meaning is safe, and the snapshot in it does not depend on
      the receiver's cache. */
  ghost predicate ValueAt<V>(p: Protocol<V>, v: V, cache: Cache, producer: bool) {
    && SafeMeaning(p.meaning(v, cache, producer), cache, producer)
    && SnapshotOf(p.meaning(v, cache, producer)) == SnapshotOf(p.meaning(v, map[], producer))
  }

  ghost predicate ItemLaw<V>(p: Protocol<V>) {
    && (forall producer, item, cache :: ItemAt(p, producer, item, cache))
    && (forall producer, s :: PreparedAt(p, producer, s))
  }

  ghost predicate ValueLaw<V(!new)>(p: Protocol<V>) {
    forall v, cache, producer :: ValueAt(p, v, cache, producer)
  }

  ghost predicate Lawful<V(!new)>(p: Protocol<V>) {
    ItemLaw(p) && ValueLaw(p) && p.size(Closed) == 0
  }

  /** The value's text is not empty and reads back as the value. */
  ghost predicate Faithful<V>(p: Protocol<V>, v: V) {
    p.encode(v) != [] && p.decode(p.encode(v)) == Some(v)
  }

  // ---- What was sent and what it means ----

  /** The snapshots among the items, in order. */
  ghost function Snaps(log: seq<Item>): seq<Snapshot> {
    if log == [] then []
    else
      var before := Snaps(log[..|log| - 1]);
      match log[|log| - 1]
      case Snap(s) => before + [s]
      case Command(_) => before
  }

  lemma SnapsAppend(log: seq<Item>, item: Item)
    ensures Snaps(log + [item]) == if item.Snap? then Snaps(log) + [item.snapshot] else Snaps(log)
  {
    assert (log + [item])[..|log|] == log;
  }

  /** The snapshots among received values, in order. */
  ghost function Observed<V>(p: Protocol<V>, taken: seq<V>, producer: bool): seq<Snapshot> {
    if taken == [] then []
    else
      var before := Observed(p, taken[..|taken| - 1], producer);
      match SnapshotOf(p.meaning(taken[|taken| - 1], map[], producer))
      case Some(s) => before + [s]
      case None => before
  }

  lemma ObservedAppend<V(!new)>(p: Protocol<V>, taken: seq<V>, v: V, cache: Cache, producer: bool)
    requires ValueLaw(p)
    ensures Observed(p, taken + [v], producer) ==
            match SnapshotOf(p.meaning(v, cache, producer))
            case Some(s) => Observed(p, taken, producer) + [s]
            case None => Observed(p, taken, producer)
  {
    assert (taken + [v])[..|taken|] == taken;
    assert ValueAt(p, v, cache, producer);
  }

  /** The state of a domain after a list of snapshots: the last one for it, unless it
      withdraws the domain. */
  ghost function Latest(snaps: seq<Snapshot>, d: Domain): Option<Snapshot> {
    if snaps == [] then None
    else
      var last := snaps[|snaps| - 1];
      if DomainOf(last) != d then Latest(snaps[..|snaps| - 1], d)
      else if last.Withdraw? then None else Some(last)
  }

  function Slot(cache: Cache, d: Domain): Option<Snapshot> {
    if d in cache then Some(cache[d]) else None
  }

  function Update(cache: Cache, s: Snapshot): Cache {
    if s.Withdraw? then cache - {DomainOf(s)} else cache[DomainOf(s) := s]
  }

  /** Both ends' view of the channel state in one cache. */
  ghost predicate CacheInv(cache: Cache, own: seq<Snapshot>, peer: seq<Snapshot>, producer: bool) {
    forall d :: Slot(cache, d) == Latest(if Owns(producer, d) then own else peer, d)
  }

  lemma LatestAppend(snaps: seq<Snapshot>, s: Snapshot, d: Domain)
    ensures Latest(snaps + [s], d) ==
            if DomainOf(s) != d then Latest(snaps, d) else if s.Withdraw? then None else Some(s)
  {
    assert (snaps + [s])[..|snaps|] == snaps;
  }

  lemma UpdateKeepsCache(cache: Cache, own: seq<Snapshot>, peer: seq<Snapshot>, producer: bool, s: Snapshot)
    requires CacheInv(cache, own, peer, producer)
    ensures Owns(producer, DomainOf(s)) ==> CacheInv(Update(cache, s), own + [s], peer, producer)
    ensures !Owns(producer, DomainOf(s)) ==> CacheInv(Update(cache, s), own, peer + [s], producer)
  {
    forall d
      ensures Slot(Update(cache, s), d) ==
              var snaps := if Owns(producer, d) then own else peer;
              Latest(if Owns(producer, d) == Owns(producer, DomainOf(s)) then snaps + [s] else snaps, d)
    {
      assert Slot(cache, d) == Latest(if Owns(producer, d) then own else peer, d);
      LatestAppend(own, s, d);
      LatestAppend(peer, s, d);
    }
  }

  /** The peer of a proper sender observes exactly the snapshots sent. */
  lemma {:induction false} ObservedIsSent<V>(p: Protocol<V>, log: seq<Item>, taken: seq<V>, producer: bool)
    requires ItemLaw(p) && |taken| <= |log|
    requires forall i | 0 <= i < |taken| :: p.proper(producer, log[i]) && taken[i] == p.wire(log[i])
    ensures Observed(p, taken, !producer) == Snaps(log[..|taken|])
  {
    if taken != [] {
      var n := |taken| - 1;
      ObservedIsSent(p, log, taken[..n], producer);
      assert log[..n + 1][..n] == log[..n];
      assert ItemAt(p, producer, log[n], map[]);
    }
  }

  // ---- The state of one end ----

  /** Every frame delivered is a value acted on, or the one read last and still pending. */
  ghost predicate TakenInv<V>(p: Protocol<V>, delivered: seq<Framing.Message>, taken: seq<V>, pending: Option<V>) {
    && |delivered| == |taken| + (if pending.Some? then 1 else 0)
    && (forall i | 0 <= i < |taken| :: p.decode(delivered[i]) == Some(taken[i]))
    && (pending.Some? ==> p.decode(delivered[|taken|]) == pending)
  }

  /** Where an event came from: how much this end had sent by then, the received value it
      came in, and the cache that value met. */
  datatype Origin = Origin(at: nat, from: nat, cache: Cache)

  predicate EnabledBy(s: Option<Snapshot>, v: Verb) {
    s.Some? && Offers(s.value, v.name) && AxisMoves(s.value, v)
  }

  /** The event is what its value meant to an end with that cache; and a verb was, at that
      moment, enabled by the latest snapshot sent for its domain. */
  ghost predicate Rightly<V>(p: Protocol<V>, producer: bool, log: seq<Item>, taken: seq<V>, e: Event, tag: Origin) {
    !e.Closed? ==>
      && tag.at <= |log| && tag.from < |taken| && p.meaning(taken[tag.from], tag.cache, producer) == Means(e)
      && (e.Invoked? ==> EnabledBy(Latest(Snaps(log[..tag.at]), e.verb.domain), e.verb))
  }

  ghost predicate AllRightly<V>(
    p: Protocol<V>, producer: bool, log: seq<Item>, taken: seq<V>, all: seq<Event>, tags: seq<Origin>)
  {
    |tags| == |all| && forall i | 0 <= i < |all| :: Rightly(p, producer, log, taken, all[i], tags[i])
  }

  /** Each event came in a value of its own, in the order of the values. */
  ghost predicate InOrder(tags: seq<Origin>, n: nat) {
    && (forall i, j | 0 <= i < j < |tags| :: tags[i].from < tags[j].from)
    && (forall i | 0 <= i < |tags| :: tags[i].from < n)
  }

  lemma RightlyStays<V>(p: Protocol<V>, producer: bool, log: seq<Item>, more: seq<Item>, taken: seq<V>,
                        later: seq<V>, e: Event, tag: Origin)
    requires Rightly(p, producer, log, taken, e, tag)
    ensures Rightly(p, producer, log + more, taken + later, e, tag)
  {
    if !e.Closed? {
      assert (log + more)[..tag.at] == log[..tag.at];
    }
  }

  lemma AllStay<V>(p: Protocol<V>, producer: bool, log: seq<Item>, more: seq<Item>, taken: seq<V>, later: seq<V>,
                   all: seq<Event>, tags: seq<Origin>)
    requires AllRightly(p, producer, log, taken, all, tags)
    ensures AllRightly(p, producer, log + more, taken + later, all, tags)
  {
    forall i | 0 <= i < |all|
      ensures Rightly(p, producer, log + more, taken + later, all[i], tags[i])
    {
      RightlyStays(p, producer, log, more, taken, later, all[i], tags[i]);
    }
  }

  lemma LogStays<V>(p: Protocol<V>, producer: bool, log: seq<Item>, item: Item, taken: seq<V>,
                    all: seq<Event>, tags: seq<Origin>)
    requires AllRightly(p, producer, log, taken, all, tags)
    ensures AllRightly(p, producer, log + [item], taken, all, tags)
  {
    AllStay(p, producer, log, [item], taken, [], all, tags);
    assert taken + [] == taken;
  }

  lemma TakenStays<V>(p: Protocol<V>, producer: bool, log: seq<Item>, taken: seq<V>, v: V,
                      all: seq<Event>, tags: seq<Origin>)
    requires AllRightly(p, producer, log, taken, all, tags)
    ensures AllRightly(p, producer, log, taken + [v], all, tags)
  {
    AllStay(p, producer, log, [], taken, [v], all, tags);
    assert log + [] == log;
  }

  lemma AllNext<V>(p: Protocol<V>, producer: bool, log: seq<Item>, taken: seq<V>, all: seq<Event>, tags: seq<Origin>,
                   e: Event, tag: Origin)
    requires AllRightly(p, producer, log, taken, all, tags) && Rightly(p, producer, log, taken, e, tag)
    ensures AllRightly(p, producer, log, taken, all + [e], tags + [tag])
  {
    forall i | 0 <= i < |all + [e]|
      ensures Rightly(p, producer, log, taken, (all + [e])[i], (tags + [tag])[i])
    {
      if i < |all| {
        assert Rightly(p, producer, log, taken, all[i], tags[i]);
      }
    }
  }

  lemma AllPrefix<V>(
    p: Protocol<V>, producer: bool, log: seq<Item>, taken: seq<V>, all: seq<Event>, tags: seq<Origin>, n: nat)
    requires AllRightly(p, producer, log, taken, all, tags) && n <= |all|
    ensures AllRightly(p, producer, log, taken, all[..n], tags[..n])
  {
    forall i | 0 <= i < n
      ensures Rightly(p, producer, log, taken, all[..n][i], tags[..n][i])
    {
      assert Rightly(p, producer, log, taken, all[i], tags[i]);
    }
  }

  lemma OrderNext(tags: seq<Origin>, n: nat, tag: Origin)
    requires InOrder(tags, n) && tag.from == n
    ensures InOrder(tags + [tag], n + 1)
  {
  }

  lemma OrderPrefix(tags: seq<Origin>, n: nat, k: nat, tag: Origin)
    requires InOrder(tags, n) && k <= |tags| && tag.from == n
    ensures InOrder(tags[..k] + [tag], n + 1)
  {
  }

  /** An event that the law lets through is rightly raised now. */
  lemma RaisedNow<V>(p: Protocol<V>, producer: bool, log: seq<Item>, taken: seq<V>, v: V, cache: Cache, e: Event)
    requires p.meaning(v, cache, producer) == Means(e) && ValueAt(p, v, cache, producer)
    requires CacheInv(cache, Snaps(log), Observed(p, taken, producer), producer)
    ensures Rightly(p, producer, log, taken + [v], e, Origin(|log|, |taken|, cache))
  {
    assert log[..|log|] == log;
    if e.Invoked? {
      CacheEnables(cache, Snaps(log), Observed(p, taken, producer), e.verb);
    }
  }

  lemma CacheEnables(cache: Cache, own: seq<Snapshot>, peer: seq<Snapshot>, v: Verb)
    requires CacheInv(cache, own, peer, true) && Enabled(cache, v) && Owns(true, v.domain)
    ensures EnabledBy(Latest(own, v.domain), v)
  {
    assert Slot(cache, v.domain) == Latest(own, v.domain);
  }

  /** The values queued are those of the items sent, which are proper for this end and read
      back from their text. */
  ghost predicate ItemsInv<V>(p: Protocol<V>, producer: bool, log: seq<Item>, values: seq<V>) {
    && |values| == |log|
    && forall i | 0 <= i < |log| ::
         p.proper(producer, log[i]) && values[i] == p.wire(log[i]) && Faithful(p, values[i])
  }

  lemma ItemsGrow<V>(p: Protocol<V>, producer: bool, log: seq<Item>, values: seq<V>, item: Item)
    requires ItemsInv(p, producer, log, values) && p.proper(producer, item) && Faithful(p, p.wire(item))
    ensures ItemsInv(p, producer, log + [item], values + [p.wire(item)])
  {
  }

  /** The worker goes on after this value: it is not malformed, and its event has room. */
  predicate Takes<V>(p: Protocol<V>, v: V, cache: Cache, producer: bool, eventBytes: nat, count: nat) {
    match p.meaning(v, cache, producer)
    case Malformed => false
    case Ignored => true
    case Means(e) => RoomFor(p.size, e, eventBytes, count)
  }

  /** What a caller can see of an end, with the origins of the events so far. */
  datatype View = View(events: seq<Event>, snapshots: Cache, tags: seq<Origin>)

  /** What acting on a value that does not end the channel leaves: an event is queued, and a
      snapshot changes the cache; anything else changes nothing. */
  ghost function Acted<V>(p: Protocol<V>, producer: bool, v: V, at: nat, from: nat, was: View): View {
    match p.meaning(v, was.snapshots, producer)
    case Malformed => was
    case Ignored => was
    case Means(e) =>
      View(was.events + [e], if e.Changed? then Update(was.snapshots, e.snapshot) else was.snapshots,
           was.tags + [Origin(at, from, was.snapshots)])
  }

  datatype Next = Value | NoValue | WireLost

  /** The bytes or the transport themselves give out. */
  ghost predicate WireFailed<V>(p: Protocol<V>, input: seq<Framing.byte>, results: seq<Framing.ReadResult>) {
    || (|input| >= 4 && !(0 < Framing.FromBe(input[..4]) <= Framing.MAX_FRAME))
    || (Framing.Whole(input) && p.decode(Framing.Head(input)).None?)
    || exists k | 0 <= k < |results| :: results[k].ReadFailed? || results[k] == Framing.Got([])
  }

  /** What was enqueued are the values of the items sent. */
  ghost predicate SentInv<V>(p: Protocol<V>, producer: bool, log: seq<Item>, outbox: Outbox<V>)
    reads outbox
  {
    outbox.encode == p.encode && ItemsInv(p, producer, log, outbox.log)
  }

  class Channel<V(!new)> {
    const producer: bool
    const p: Protocol<V>
    const outbox: Outbox<V>
    const queue: EventQueue<Event, Origin>
    var snapshots: Cache
    var alive: bool
    var stop: bool
    /** A value read off the wire and not yet acted on. */
    var pending: Option<V>
    /** History: items sent, values acted on. */
    ghost var log: seq<Item>
    ghost var taken: seq<V>

    ghost function Now(): View
      reads this, queue
    {
      View(queue.events, snapshots, queue.tags)
    }

    ghost predicate EventsInv()
      reads this, queue
    {
      && queue.Valid() && queue.size == p.size && InOrder(queue.tags, |taken| + if alive then 0 else 1)
      && Origins()
    }

    ghost predicate Origins()
      reads this, queue
    {
      AllRightly(p, producer, log, taken, queue.all, queue.tags)
    }

    ghost predicate CachedInv()
      reads this
    {
      alive ==> CacheInv(snapshots, Snaps(log), Observed(p, taken, producer), producer)
    }

    ghost predicate Valid()
      reads this, queue, outbox, outbox.wire
    {
      && outbox.Valid() && SentInv(p, producer, log, outbox)
      && TakenInv(p, outbox.wire.delivered, taken, pending) && EventsInv() && CachedInv()
    }

    constructor (producer: bool, p: Protocol<V>)
      ensures Valid() && fresh(queue) && fresh(outbox) && fresh(outbox.wire)
      ensures alive && !stop && pending == None && this.producer == producer && this.p == p
      ensures log == [] && taken == [] && snapshots == map[] && queue.all == []
      ensures outbox.wire.sent == [] && outbox.wire.received == []
    {
      this.producer, this.p := producer, p;
      outbox := new Outbox(p.encode);
      queue := new EventQueue(p.size);
      snapshots, alive, stop, pending := map[], true, false, None;
      log, taken := [], [];
    }

    /** The channel is open and both layers together have room for the value. */
    predicate Admits(v: V)
      reads this, outbox
    {
      && alive && !stop && Cost(p.encode, v) <= MAX_MESSAGE
      && outbox.bytes + outbox.wireBytes + Cost(p.encode, v) <= MAX_QUEUED
    }

    /** Queue an item's value, or stop the channel when it does not fit. */
    method Enqueue(item: Item) returns (ok: bool)
      requires outbox.Valid() && SentInv(p, producer, log, outbox) && Origins()
      requires p.proper(producer, item) && Faithful(p, p.wire(item))
      modifies this`stop, this`log, outbox`outgoing, outbox`bytes, outbox`log
      ensures outbox.Valid() && SentInv(p, producer, log, outbox) && Origins()
      ensures ok == old(Admits(p.wire(item))) && stop == (old(stop) || (alive && !ok))
      ensures log == if ok then old(log) + [item] else old(log)
    {
      if !alive || stop {
        return false;
      }
      ItemsGrow(p, producer, log, outbox.log, item);
      LogStays(p, producer, log, item, taken, queue.all, queue.tags);
      ok := outbox.Enqueue(p.wire(item));
      if ok {
        log := log + [item];
      } else {
        stop := true;
      }
    }

    /** Replace or drop the cached state of the snapshot's domain. */
    method Store(s: Snapshot, ghost own: seq<Snapshot>, ghost peer: seq<Snapshot>)
      requires CacheInv(snapshots, own, peer, producer)
      modifies this`snapshots
      ensures snapshots == Update(old(snapshots), s)
      ensures if Owns(producer, DomainOf(s)) then CacheInv(snapshots, own + [s], peer, producer)
              else CacheInv(snapshots, own, peer + [s], producer)
    {
      UpdateKeepsCache(snapshots, own, peer, producer, s);
      if s.Withdraw? {
        snapshots := snapshots - {DomainOf(s)};
      } else {
        snapshots := snapshots[DomainOf(s) := s];
      }
    }

    /** Publish a snapshot: refused unless it can be prepared; otherwise the prepared form
        is sent and cached, both or neither. */
    method Publish(s: Snapshot) returns (ok: bool)
      requires Valid() && ItemLaw(p)
      requires p.prepare(producer, s).Some? ==> Faithful(p, p.wire(Snap(p.prepare(producer, s).value)))
      modifies this`stop, this`log, this`snapshots, outbox`outgoing, outbox`bytes, outbox`log
      ensures Valid()
      ensures match p.prepare(producer, s)
              case None => !ok && log == old(log) && snapshots == old(snapshots)
              case Some(prepared) =>
                && ok == old(Admits(p.wire(Snap(prepared))))
                && log == (if ok then old(log) + [Snap(prepared)] else old(log))
                && snapshots == if ok then Update(old(snapshots), prepared) else old(snapshots)
    {
      var prepared := p.prepare(producer, s);
      if prepared.None? {
        return false;
      }
      assert PreparedAt(p, producer, s) && ItemAt(p, producer, Snap(prepared.value), map[]);
      ok := Announce(prepared.value);
    }

    /** Send a prepared snapshot and cache it, both or neither. */
    method Announce(s: Snapshot) returns (ok: bool)
      requires outbox.Valid() && SentInv(p, producer, log, outbox) && Origins() && CachedInv()
      requires p.proper(producer, Snap(s)) && Faithful(p, p.wire(Snap(s))) && Owns(producer, DomainOf(s))
      modifies this`stop, this`log, this`snapshots, outbox`outgoing, outbox`bytes, outbox`log
      ensures outbox.Valid() && SentInv(p, producer, log, outbox) && Origins() && CachedInv()
      ensures ok == old(Admits(p.wire(Snap(s))))
      ensures log == if ok then old(log) + [Snap(s)] else old(log)
      ensures snapshots == if ok then Update(old(snapshots), s) else old(snapshots)
    {
      SnapsAppend(log, Snap(s));
      ghost var own := Snaps(log);
      ok := Enqueue(Snap(s));
      if ok {
        Store(s, own, Observed(p, taken, producer));
      }
    }

    /** Send a verb an end of this role may send. */
    method Send(v: Verb) returns (ok: bool)
      requires Valid() && (p.proper(producer, Command(v)) ==> Faithful(p, p.wire(Command(v))))
      modifies this`stop, this`log, outbox`outgoing, outbox`bytes, outbox`log
      ensures Valid() && ok == (p.proper(producer, Command(v)) && old(Admits(p.wire(Command(v)))))
      ensures log == if ok then old(log) + [Command(v)] else old(log)
    {
      if !p.proper(producer, Command(v)) {
        return false;
      }
      ok := Post(v);
    }

    method Post(v: Verb) returns (ok: bool)
      requires outbox.Valid() && SentInv(p, producer, log, outbox) && Origins() && CachedInv()
      requires p.proper(producer, Command(v)) && Faithful(p, p.wire(Command(v)))
      modifies this`stop, this`log, outbox`outgoing, outbox`bytes, outbox`log
      ensures outbox.Valid() && SentInv(p, producer, log, outbox) && Origins() && CachedInv()
      ensures ok == old(Admits(p.wire(Command(v))))
      ensures log == if ok then old(log) + [Command(v)] else old(log)
    {
      SnapsAppend(log, Command(v));
      ok := Enqueue(Command(v));
    }

    /** Act on a value taken off the wire: a snapshot changes the cache, an event is queued
        while there is room, and a malformed value ends the channel. */
    method Act(v: V) returns (ok: bool)
      requires alive && ValueLaw(p) && EventsInv() && CachedInv()
      modifies this`taken, this`snapshots, queue`events, queue`bytes, queue`all, queue`tags
      ensures taken == old(taken) + [v] && EventsInv() && (ok ==> CachedInv())
      ensures ok == Takes(p, v, old(snapshots), producer, old(queue.bytes), |old(queue.events)|)
      ensures ok ==> Now() == Acted(p, producer, v, |log|, |old(taken)|, old(Now()))
    {
      TakenStays(p, producer, log, taken, v, queue.all, queue.tags);
      ObservedAppend(p, taken, v, snapshots, producer);
      match p.meaning(v, snapshots, producer) {
        case Malformed =>
          taken := taken + [v];
          ok := false;
        case Ignored =>
          taken := taken + [v];
          ok := true;
        case Means(e) =>
          assert ValueAt(p, v, snapshots, producer);
          RaisedNow(p, producer, log, taken, v, snapshots, e);
          ok := Raise(e, v, Origin(|log|, |taken|, snapshots));
          if ok && e.Changed? {
            Store(e.snapshot, Snaps(log), Observed(p, old(taken), producer));
          }
      }
    }

    /** Queue an event if there is room. */
    method Raise(e: Event, ghost v: V, ghost tag: Origin) returns (ok: bool)
      requires alive && queue.Valid() && queue.size == p.size && InOrder(queue.tags, |taken|) && tag.from == |taken|
      requires AllRightly(p, producer, log, taken + [v], queue.all, queue.tags)
      requires Rightly(p, producer, log, taken + [v], e, tag)
      modifies this`taken, queue`events, queue`bytes, queue`all, queue`tags
      ensures taken == old(taken) + [v] && EventsInv()
      ensures ok == RoomFor(queue.size, e, old(queue.bytes), |old(queue.events)|)
      ensures ok ==> queue.events == old(queue.events) + [e] && queue.tags == old(queue.tags) + [tag]
    {
      AllNext(p, producer, log, taken + [v], queue.all, queue.tags, e, tag);
      OrderNext(queue.tags, |taken|, tag);
      ok := queue.Push(e, tag);
      taken := taken + [v];
    }

    /** Read the next value off the wire, if one is whole, outside the lock. */
    method NextValue(results: seq<Framing.ReadResult>) returns (next: Next)
      requires Valid() && pending == None
      modifies this`pending, outbox.wire`input, outbox.wire`received, outbox.wire`delivered
      ensures Valid() && old(outbox.wire.received) <= outbox.wire.received && (next.Value? <==> pending.Some?)
      ensures match next
              case Value => true
              case NoValue => Framing.Stuck(outbox.wire.input)
              case WireLost => WireFailed(p, outbox.wire.input, results)
    {
      var r, used := outbox.wire.Receive(results, m => p.decode(m).Some?);
      match r {
        case Delivery(m) =>
          pending := p.decode(m);
          next := Value;
        case Nothing => next := NoValue;
        case _ => next := WireLost;
      }
    }

    /** Under the lock, act on the value read; an error in doing so ends the worker. */
    method Handle() returns (ok: bool)
      requires Valid() && alive && pending.Some? && Lawful(p)
      modifies this`pending, this`taken, this`snapshots, this`alive, queue`events, queue`bytes, queue`all, queue`tags
      ensures Valid() && pending == None && alive == ok && taken == old(taken) + [old(pending).value]
      ensures ok == Takes(p, old(pending).value, old(snapshots), producer, old(queue.bytes), |old(queue.events)|)
      ensures if ok then Now() == Acted(p, producer, old(pending).value, |log|, |old(taken)|, old(Now()))
              else queue.events == [Closed] && snapshots == map[]
    {
      ok := Act(pending.value);
      pending := None;
      if !ok {
        Fail();
      }
    }

    /** The worker ended: the cache is gone and the only event left says so. */
    method Fail()
      requires alive && p.size(Closed) == 0 && EventsInv()
      modifies this`alive, this`snapshots, queue`events, queue`bytes, queue`all, queue`tags
      ensures EventsInv() && CachedInv() && !alive && snapshots == map[] && queue.events == [Closed]
    {
      ghost var n, tag := |queue.polled|, Origin(|log|, |taken|, snapshots);
      AllPrefix(p, producer, log, taken, queue.all, queue.tags, n);
      AllNext(p, producer, log, taken, queue.all[..n], queue.tags[..n], Closed, tag);
      OrderPrefix(queue.tags, |taken|, n, tag);
      queue.End(Closed, tag);
      alive, snapshots := false, map[];
    }

    /** The next event for the caller. */
    method Poll() returns (e: Option<Event>)
      requires Valid()
      modifies queue`events, queue`bytes, queue`polled
      ensures Valid()
      ensures var was := old(queue.events);
              if was == [] then e == None && queue.events == [] && queue.polled == old(queue.polled)
              else e == Some(was[0]) && queue.events == was[1..] && queue.polled == old(queue.polled) + [was[0]]
    {
      e := queue.Poll();
    }
  }

  // ---- Two ends ----

  /** Two ends joined by a transport that has brought one a prefix of what the other handed
      over. */
  ghost predicate Joined<V(!new)>(a: Channel<V>, b: Channel<V>)
    reads a, a.queue, a.outbox, a.outbox.wire, b, b.queue, b.outbox, b.outbox.wire
  {
    && a.Valid() && b.Valid() && a.producer != b.producer && a.p == b.p && Lawful(a.p)
    && b.outbox.wire.received <= a.outbox.wire.sent
  }

  /** What one end has taken is a prefix of what the other sent. */
  lemma TakenIsPrefix<V(!new)>(a: Channel<V>, b: Channel<V>)
    requires Joined(a, b)
    ensures |b.taken| <= |a.log|
    ensures forall i | 0 <= i < |b.taken| :: a.p.proper(a.producer, a.log[i]) && b.taken[i] == a.p.wire(a.log[i])
  {
    Framing.RoundTrip(a.outbox.wire, b.outbox.wire);
    forall i | 0 <= i < |b.taken|
      ensures a.p.proper(a.producer, a.log[i]) && b.taken[i] == a.p.wire(a.log[i])
    {
      assert b.outbox.wire.delivered[i] == a.outbox.wire.accepted[i] == a.p.encode(a.outbox.log[i]);
      assert a.outbox.log[i] == a.p.wire(a.log[i]) && Faithful(a.p, a.outbox.log[i]);
    }
  }

  /** Replication: for every domain the sender owns, the receiver's cache is the state
      after exactly the items it has taken. */
  lemma Replicates<V(!new)>(a: Channel<V>, b: Channel<V>, d: Domain)
    requires Joined(a, b) && b.alive && Owns(a.producer, d)
    ensures |b.taken| <= |a.log| && Slot(b.snapshots, d) == Latest(Snaps(a.log[..|b.taken|]), d)
  {
    TakenIsPrefix(a, b);
    ObservedIsSent(a.p, a.log, b.taken, a.producer);
  }

  /** Once everything sent has been taken, the two caches agree on that domain. */
  lemma CachesAgree<V(!new)>(a: Channel<V>, b: Channel<V>, d: Domain)
    requires Joined(a, b) && a.alive && b.alive && Owns(a.producer, d) && |b.taken| == |a.log|
    ensures Slot(b.snapshots, d) == Slot(a.snapshots, d)
  {
    Replicates(a, b, d);
    assert a.log[..|a.log|] == a.log;
  }

  /** Between conforming ends, the next whole frame always parses and never means a
      protocol error. */
  lemma NeverMalformed<V(!new)>(a: Channel<V>, b: Channel<V>)
    requires Joined(a, b) && b.pending == None
    ensures Framing.Stuck(b.outbox.wire.input) || Framing.Whole(b.outbox.wire.input)
    ensures Framing.Whole(b.outbox.wire.input) ==>
              var v := b.p.decode(Framing.Head(b.outbox.wire.input));
              && |b.taken| < |a.log| && v == Some(b.p.wire(a.log[|b.taken|]))
              && b.p.meaning(v.value, b.snapshots, b.producer) == MeansToPeer(a.log[|b.taken|], b.snapshots)
  {
    Framing.RoundTrip(a.outbox.wire, b.outbox.wire);
    if Framing.Whole(b.outbox.wire.input) {
      var n := |b.taken|;
      assert a.outbox.wire.accepted[n] == a.p.encode(a.outbox.log[n]);
      assert a.p.proper(a.producer, a.log[n]) && a.outbox.log[n] == a.p.wire(a.log[n]);
      assert Faithful(a.p, a.outbox.log[n]) && ItemAt(a.p, a.producer, a.log[n], b.snapshots);
    }
  }

  /** Every event `Poll` ever returned, other than the closing one, is an item the peer
      sent, each sending given out at most once and in order; and a verb was, when it was
      queued, enabled by the latest snapshot this end had published for its domain. */
  lemma PolledWasSentAndEnabled<V(!new)>(peer: Channel<V>, c: Channel<V>, i: nat)
    requires Joined(peer, c) && i < |c.queue.polled| && !c.queue.polled[i].Closed?
    ensures i < |c.queue.tags|
    ensures var tag := c.queue.tags[i];
            && tag.from < |peer.log| && tag.at <= |c.log|
            && (i > 0 ==> c.queue.tags[i - 1].from < tag.from)
            && match c.queue.polled[i]
               case Changed(s) => peer.log[tag.from] == Snap(s)
               case Invoked(v) =>
                 && peer.log[tag.from] == Command(v)
                 && EnabledBy(Latest(Snaps(c.log[..tag.at]), v.domain), v)
               case Closed => false
  {
    var tag := c.queue.tags[i];
    assert c.queue.all[i] == c.queue.polled[i];
    assert Rightly(c.p, c.producer, c.log, c.taken, c.queue.all[i], tag);
    TakenIsPrefix(peer, c);
    assert ItemAt(c.p, peer.producer, peer.log[tag.from], tag.cache);
  }
}
