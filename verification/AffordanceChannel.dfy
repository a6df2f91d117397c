/** The affordances protocol as carried by a snapshot channel
    (crates/jackstay/src/affordances.rs). The JSON text codec is a parameter. */
module AffordanceChannel {
  import opened Options
  import opened Snapshots
  import opened AffordanceMessages
  import opened SnapshotChannel
  import Framing

  datatype Codec = Codec(encode: Json -> Framing.Message, decode: Framing.Message -> Option<Json>)

  function JsonOf(item: Item): Json {
    match item
    case Snap(s) => Wire(s)
    case Command(v) => VerbWire(v)
  }

  /** What an end of this role may put on the wire. */
  predicate Proper(producer: bool, item: Item) {
    match item
    case Snap(s) => Canonical(s) && Owns(producer, DomainOf(s))
    case Command(v) => !producer && Sendable(v)
  }

  function EventSize(codec: Codec, e: Event): nat {
    match e
    case Changed(s) => |codec.encode(Wire(s))| + 4
    case Invoked(v) => |codec.encode(v.body)| + |v.name| + 64
    case Closed => 0
  }

  /** An event takes the room of its message, and a verb that of its text, its name and 64
      bytes; only the closing event is free. */
  lemma EventCosts(codec: Codec, e: Event)
    ensures e.Changed? ==> EventSize(codec, e) == 4 + |codec.encode(JsonOf(Snap(e.snapshot)))|
    ensures e.Invoked? ==> EventSize(codec, e) == 64 + |e.verb.name| + |codec.encode(e.verb.body)|
    ensures EventSize(codec, e) == 0 <==> e.Closed?
  {
  }

  function Affordances(codec: Codec): Protocol<Json> {
    Protocol(codec.encode, codec.decode,
             (producer, s) => Prepare(producer, s),
             (producer, item) => Proper(producer, item),
             item => JsonOf(item),
             (v, cache, producer) => Decode(v, cache, producer),
             e => EventSize(codec, e))
  }

  /** What a proper item means to the peer is that item. */
  lemma ItemArrives(producer: bool, item: Item, cache: Cache)
    requires Proper(producer, item)
    ensures Decode(JsonOf(item), cache, !producer) == MeansToPeer(item, cache)
  {
    match item
    case Snap(s) => DecodeInvertsWire(s, cache, !producer);
    case Command(v) => VerbArrives(v, cache);
  }

  lemma PreparedIsProper(producer: bool, s: Snapshot)
    requires Prepare(producer, s).Some?
    ensures Proper(producer, Snap(Prepare(producer, s).value))
  {
    PrepareNormalises(producer, s);
    NormalIsFixed(s);
  }

  /** Any JSON at all means something safe, and the snapshot in it does not depend on the
      receiver's cache. */
  lemma AnyJsonIsSafe(v: Json, cache: Cache, producer: bool)
    ensures SafeMeaning(Decode(v, cache, producer), cache, producer)
    ensures SnapshotOf(Decode(v, cache, producer)) == SnapshotOf(Decode(v, map[], producer))
  {
    if Decode(v, cache, producer).Means? {
      DecodeIsSafe(v, cache, producer);
    }
  }

  /** The affordances messages keep the laws, so everything proved of a channel holds of an
      affordances channel, whatever its codec. */
  lemma AffordancesAreLawful(codec: Codec)
    ensures Lawful(Affordances(codec))
  {
    var p := Affordances(codec);
    forall producer, item, cache
      ensures ItemAt(p, producer, item, cache)
    {
      if Proper(producer, item) {
        ItemArrives(producer, item, cache);
      }
    }
    forall producer, s
      ensures PreparedAt(p, producer, s)
    {
      if Prepare(producer, s).Some? {
        PreparedIsProper(producer, s);
      }
    }
    forall v, cache, producer
      ensures ValueAt(p, v, cache, producer)
    {
      AnyJsonIsSafe(v, cache, producer);
    }
  }

  /** Start one end of an affordances channel. */
  method Start(producer: bool, codec: Codec) returns (c: Channel<Json>)
    ensures c.Valid() && c.alive && !c.stop && c.producer == producer && c.p == Affordances(codec)
    ensures c.log == [] && c.taken == [] && c.snapshots == map[] && c.queue.all == []
  {
    c := new Channel(producer, Affordances(codec));
  }

  /** What publishing does on an affordances channel: exactly the sound snapshots of this
      end's domains go out, in their normal form. */
  method Publish(c: Channel<Json>, ghost codec: Codec, s: Snapshot) returns (ok: bool)
    requires c.Valid() && c.p == Affordances(codec)
    requires Owns(c.producer, DomainOf(s)) && Sound(s) ==> Faithful(c.p, Wire(Normal(s)))
    modifies c`stop, c`log, c`snapshots, c.outbox`outgoing, c.outbox`bytes, c.outbox`log
    ensures c.Valid()
    ensures ok == (Owns(c.producer, DomainOf(s)) && Sound(s) && old(c.Admits(Wire(Normal(s)))))
    ensures c.log == if ok then old(c.log) + [Snap(Normal(s))] else old(c.log)
    ensures c.snapshots == if ok then Update(old(c.snapshots), Normal(s)) else old(c.snapshots)
  {
    AffordancesAreLawful(codec);
    PrepareNormalises(c.producer, s);
    ok := c.Publish(s);
  }
}
