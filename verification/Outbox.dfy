/** The two layers of outgoing bytes of an affordances channel: a queue of values counted
    by their encoded size, drained in batches into the framed wire
    (crates/jackstay/src/affordances.rs, `enqueue_locked` and the sending half of
    `drive`). Callers enqueue between any two of the worker's steps. */
module Outbox {
  import Framing

  const MAX_MESSAGE := 131076
  const MAX_QUEUED := 524288
  const BATCH := 8

  function Cost<T>(encode: T -> Framing.Message, v: T): nat {
    |encode(v)| + 4
  }

  /** A value whose text is not empty and fits a frame. */
  predicate Fits<T>(encode: T -> Framing.Message, v: T) {
    encode(v) != [] && Cost(encode, v) <= MAX_MESSAGE
  }

  ghost function Total<T>(encode: T -> Framing.Message, values: seq<T>): nat {
    if values == [] then 0 else Cost(encode, values[0]) + Total(encode, values[1..])
  }

  lemma {:induction false} TotalAppend<T>(encode: T -> Framing.Message, values: seq<T>, v: T)
    ensures Total(encode, values + [v]) == Total(encode, values) + Cost(encode, v)
  {
    if values == [] {
      assert Total(encode, [v][1..]) == 0;
    } else {
      TotalAppend(encode, values[1..], v);
      assert (values + [v])[1..] == values[1..] + [v];
    }
  }

  /** The queue's byte count is exact, and with what the wire still holds it fits the bound;
      `wireBytes` may lag above the wire's own count but never below. */
  ghost predicate BudgetInv<T>(
    encode: T -> Framing.Message, outgoing: seq<T>, bytes: nat, queued: nat, wireBytes: nat)
  {
    bytes == Total(encode, outgoing) && queued <= wireBytes && bytes + wireBytes <= MAX_QUEUED
  }

  ghost predicate AllFit<T>(encode: T -> Framing.Message, log: seq<T>) {
    forall i | 0 <= i < |log| :: Fits(encode, log[i])
  }

  ghost predicate Encoded<T>(encode: T -> Framing.Message, texts: seq<Framing.Message>, log: seq<T>) {
    |texts| <= |log| && forall i | 0 <= i < |texts| :: texts[i] == encode(log[i])
  }

  /** Everything enqueued is on the wire or still queued, in order. */
  ghost predicate LogInv<T>(
    encode: T -> Framing.Message, log: seq<T>, accepted: seq<Framing.Message>, outgoing: seq<T>)
  {
    AllFit(encode, log) && Encoded(encode, accepted, log) && outgoing == log[|accepted|..]
  }

  lemma LogMoves<T>(encode: T -> Framing.Message, log: seq<T>, accepted: seq<Framing.Message>, outgoing: seq<T>)
    requires LogInv(encode, log, accepted, outgoing) && outgoing != []
    ensures Fits(encode, outgoing[0])
    ensures LogInv(encode, log, accepted + [encode(outgoing[0])], outgoing[1..])
  {
    assert outgoing[0] == log[|accepted|];
    assert Fits(encode, log[|accepted|]);
  }

  lemma LogGrows<T>(encode: T -> Framing.Message, log: seq<T>, accepted: seq<Framing.Message>, outgoing: seq<T>, v: T)
    requires LogInv(encode, log, accepted, outgoing) && Fits(encode, v)
    ensures LogInv(encode, log + [v], accepted, outgoing + [v])
  {
  }

  class Outbox<T> {
    const encode: T -> Framing.Message
    const wire: Framing.Framed
    var outgoing: seq<T>
    var bytes: nat
    var wireBytes: nat
    /** History: every value enqueued. */
    ghost var log: seq<T>

    ghost predicate Valid()
      reads this, wire
    {
      && wire.Valid() && LogInv(encode, log, wire.accepted, outgoing)
      && BudgetInv(encode, outgoing, bytes, wire.queued, wireBytes)
    }

    constructor (encode: T -> Framing.Message)
      ensures Valid() && fresh(wire) && this.encode == encode && log == []
      ensures wire.sent == [] && wire.received == [] && wire.delivered == []
    {
      this.encode := encode;
      wire := new Framing.Framed();
      outgoing, bytes, wireBytes, log := [], 0, 0, [];
    }

    /** Queue a value whole, unless it or the two layers together would grow too big. */
    method Enqueue(v: T) returns (ok: bool)
      requires Valid() && encode(v) != []
      modifies this`outgoing, this`bytes, this`log
      ensures Valid()
      ensures ok <==> Fits(encode, v) && old(bytes) + wireBytes + Cost(encode, v) <= MAX_QUEUED
      ensures ok <==> |encode(v)| <= 131072 && old(bytes) + wireBytes + |encode(v)| + 4 <= 524288
      ensures if ok then log == old(log) + [v] && bytes == old(bytes) + Cost(encode, v)
              else log == old(log) && bytes == old(bytes)
    {
      var n := Cost(encode, v);
      if n > MAX_MESSAGE || bytes + wireBytes + n > MAX_QUEUED {
        return false;
      }
      TotalAppend(encode, outgoing, v);
      LogGrows(encode, log, wire.accepted, outgoing, v);
      bytes, outgoing, log := bytes + n, outgoing + [v], log + [v];
      return true;
    }

    /** Under the lock, move up to eight values to the wire, oldest first. The wire never
        rejects one. */
    method Drain() returns (ok: bool)
      requires Valid()
      modifies this`outgoing, this`bytes, this`wireBytes, wire`output, wire`queued, wire`accepted
      ensures Valid() && ok && wireBytes == wire.queued
      ensures outgoing == old(outgoing)[if |old(outgoing)| < 8 then |old(outgoing)| else 8..]
      ensures bytes + wire.queued == old(bytes + wire.queued)
    {
      var k := 0;
      while k < BATCH && outgoing != []
        invariant k <= BATCH && k <= |old(outgoing)| && outgoing == old(outgoing)[k..]
        invariant wire.Valid() && LogInv(encode, log, wire.accepted, outgoing)
        invariant bytes == Total(encode, outgoing) && bytes + wire.queued == old(bytes + wire.queued)
      {
        ok := Move();
        if !ok {
          return;
        }
        k := k + 1;
      }
      wireBytes := wire.queued;
      return true;
    }

    method Move() returns (ok: bool)
      requires wire.Valid() && LogInv(encode, log, wire.accepted, outgoing) && outgoing != []
      requires bytes == Total(encode, outgoing) && bytes + wire.queued <= MAX_QUEUED
      modifies this`outgoing, this`bytes, wire`output, wire`queued, wire`accepted
      ensures wire.Valid() && LogInv(encode, log, wire.accepted, outgoing)
      ensures ok && outgoing == old(outgoing)[1..]
      ensures bytes == Total(encode, outgoing) && bytes + wire.queued == old(bytes + wire.queued)
    {
      LogMoves(encode, log, wire.accepted, outgoing);
      var v := outgoing[0];
      outgoing := outgoing[1..];
      bytes := bytes - Cost(encode, v);
      ok := wire.Send(encode(v));
    }

    /** The worker's flush, outside the lock: `wireBytes` lags behind the wire. */
    method Flush(results: seq<Framing.WriteResult>) returns (ok: bool, ghost used: nat)
      requires Valid()
      modifies wire`output, wire`offset, wire`queued, wire`sent
      ensures Valid() && wire.queued <= old(wire.queued) && old(wire.sent) <= wire.sent && used <= |results|
      ensures wire.queued + Framing.Writes(results, used) <= old(wire.queued)
      ensures ok ==> wire.output == [] || used == |results| || results[used].WriteBlocked?
    {
      ok, used := wire.Flush(results);
    }

    method AfterFlush()
      requires Valid()
      modifies this`wireBytes
      ensures Valid() && wireBytes == wire.queued
    {
      wireBytes := wire.queued;
    }
  }

  /** In every reachable state the two layers together hold at most the bound, and the
      queue's count is that of the encoded sizes. */
  lemma BudgetHolds<T>(outbox: Outbox<T>)
    requires outbox.Valid()
    ensures outbox.bytes == Total(outbox.encode, outbox.outgoing)
    ensures outbox.bytes + outbox.wire.queued <= MAX_QUEUED
  {
  }

  /** A value that is queued will be taken by the wire whatever is ahead of it. */
  lemma WireHasRoom<T>(outbox: Outbox<T>, n: nat)
    requires outbox.Valid() && n < |outbox.outgoing|
    ensures var v := outbox.outgoing[n];
            && Framing.Sendable(outbox.encode(v))
            && outbox.wire.queued + Total(outbox.encode, outbox.outgoing[..n]) + Cost(outbox.encode, v)
               <= Framing.MAX_BUFFER
  {
    assert outbox.outgoing[n] == outbox.log[|outbox.wire.accepted| + n];
    assert Fits(outbox.encode, outbox.log[|outbox.wire.accepted| + n]);
    BudgetHolds(outbox);
    TotalPrefix(outbox.encode, outbox.outgoing, n);
  }

  lemma {:induction false} TotalPrefix<T>(encode: T -> Framing.Message, values: seq<T>, n: nat)
    requires n < |values|
    ensures Total(encode, values[..n]) + Cost(encode, values[n]) <= Total(encode, values)
  {
    if n > 0 {
      TotalPrefix(encode, values[1..], n - 1);
      assert values[..n][0] == values[0] && values[..n][1..] == values[1..][..n - 1];
    }
  }
}
