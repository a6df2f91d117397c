/** Bounded length-prefixed framing over a byte transport that accepts and yields bytes
    in arbitrary pieces (crates/jackstay/src/framing.rs). A message is its JSON text. */
module Framing {
  import opened Options

  const MAX_FRAME := 131072
  const MAX_BUFFER := 524288

  type byte = n: nat | n < 256

  type Message = seq<byte>

  // ---- The byte format ----

  /** The big-endian length prefix, most significant byte first. */
  function ToBe(n: nat): (s: seq<byte>)
    requires n < 0x1_0000_0000
    ensures |s| == 4
  {
    [n / 256 / 256 / 256, n / 256 / 256 % 256, n / 256 % 256, n % 256]
  }

  function FromBe(s: seq<byte>): (n: nat)
    requires |s| == 4
    ensures n < 0x1_0000_0000
  {
    var a: nat, b: nat, c: nat, d: nat := s[0], s[1], s[2], s[3];
    256 * (256 * (256 * a + b) + c) + d
  }

  lemma LengthRoundTrip(n: nat)
    requires n < 0x1_0000_0000
    ensures FromBe(ToBe(n)) == n
  {
    assert n == 256 * (n / 256) + n % 256;
    var q := n / 256;
    assert q == 256 * (q / 256) + q % 256;
    var p := q / 256;
    assert p == 256 * (p / 256) + p % 256;
  }

  /** The most significant byte comes first: prefixes order as their bytes do. */
  lemma PrefixOrder(a: seq<byte>, b: seq<byte>, i: nat)
    requires |a| == |b| == 4 && i < 4 && a[..i] == b[..i] && a[i] < b[i]
    ensures FromBe(a) < FromBe(b)
  {
    assert forall j | 0 <= j < i :: a[j] == a[..i][j] == b[j];
  }

  lemma Digit(q: nat, d: nat)
    requires d < 256
    ensures (256 * q + d) / 256 == q && (256 * q + d) % 256 == d
  {
  }

  lemma BytesRoundTrip(s: seq<byte>)
    requires |s| == 4
    ensures ToBe(FromBe(s)) == s
  {
    var a: nat, b: nat, c: nat, d: nat := s[0], s[1], s[2], s[3];
    Digit(256 * (256 * a + b) + c, d);
    Digit(256 * a + b, c);
    Digit(a, b);
  }

  /** A message `send` accepts. */
  predicate Sendable(m: Message) {
    0 < |m| <= MAX_FRAME
  }

  function Frame(m: Message): (f: seq<byte>)
    requires Sendable(m)
    ensures |f| == |m| + 4
  {
    ToBe(|m|) + m
  }

  ghost predicate AllSendable(ms: seq<Message>) {
    forall i | 0 <= i < |ms| :: Sendable(ms[i])
  }

  /** The bytes of a list of messages on the wire. */
  ghost function Stream(ms: seq<Message>): seq<byte>
    requires AllSendable(ms)
  {
    if ms == [] then [] else Frame(ms[0]) + Stream(ms[1..])
  }

  lemma {:induction false} StreamAppend(ms: seq<Message>, m: Message)
    requires AllSendable(ms) && Sendable(m)
    ensures AllSendable(ms + [m]) && Stream(ms + [m]) == Stream(ms) + Frame(m)
  {
    if ms == [] {
      assert Stream([m][1..]) == [];
    } else {
      StreamAppend(ms[1..], m);
      assert (ms + [m])[1..] == ms[1..] + [m];
    }
  }

  /** A frame at the head of a stream is the head of the list it encodes. */
  lemma HeadIsFirst(m: Message, rest: seq<byte>, ms: seq<Message>)
    requires Sendable(m) && AllSendable(ms) && Frame(m) + rest <= Stream(ms)
    ensures ms != [] && ms[0] == m && rest <= Stream(ms[1..])
  {
    var stream := Stream(ms);
    assert stream == Frame(ms[0]) + Stream(ms[1..]);
    assert Frame(m)[..4] == stream[..4] == Frame(ms[0])[..4];
    LengthRoundTrip(|m|);
    LengthRoundTrip(|ms[0]|);
    assert |m| == |ms[0]|;
    assert Frame(m) == stream[..|m| + 4] == Frame(ms[0]);
    assert m == Frame(m)[4..] && ms[0] == Frame(ms[0])[4..];
    assert rest == (Frame(m) + rest)[|m| + 4..];
    assert Stream(ms[1..]) == stream[|m| + 4..];
  }

  /** What was cut off the front of the stream is the front of the message list. */
  lemma {:induction false} DeliveredIsPrefix(delivered: seq<Message>, input: seq<byte>, accepted: seq<Message>)
    requires AllSendable(delivered) && AllSendable(accepted) && Stream(delivered) + input <= Stream(accepted)
    ensures delivered <= accepted && input <= Stream(accepted[|delivered|..])
  {
    if delivered == [] {
      assert Stream(delivered) + input == input;
      assert accepted[0..] == accepted;
    } else {
      var rest := Stream(delivered[1..]) + input;
      assert Stream(delivered) + input == Frame(delivered[0]) + rest;
      HeadIsFirst(delivered[0], rest, accepted);
      DeliveredIsPrefix(delivered[1..], input, accepted[1..]);
      assert accepted[1..][|delivered| - 1..] == accepted[|delivered|..];
    }
  }

  /** The first four bytes of a stream give the length of its first message. */
  lemma HeadLength(input: seq<byte>, ms: seq<Message>)
    requires AllSendable(ms) && input <= Stream(ms) && |input| >= 4
    ensures ms != [] && FromBe(input[..4]) == |ms[0]|
  {
    assert input[..4] == Stream(ms)[..4];
    assert Stream(ms) == Frame(ms[0]) + Stream(ms[1..]);
    assert Stream(ms)[..4] == ToBe(|ms[0]|);
    LengthRoundTrip(|ms[0]|);
  }

  lemma HeadMessage(input: seq<byte>, ms: seq<Message>)
    requires AllSendable(ms) && input <= Stream(ms) && Whole(input)
    ensures ms != [] && Head(input) == ms[0]
  {
    HeadLength(input, ms);
    var n := |ms[0]|;
    assert Stream(ms) == Frame(ms[0]) + Stream(ms[1..]);
    assert input[..n + 4] == Stream(ms)[..n + 4] == Frame(ms[0]);
    assert Head(input) == input[..n + 4][4..] == Frame(ms[0])[4..];
  }

  lemma {:induction false} StreamConcat(a: seq<Message>, b: seq<Message>)
    requires AllSendable(a) && AllSendable(b)
    ensures AllSendable(a + b) && Stream(a + b) == Stream(a) + Stream(b)
  {
    if a == [] {
      assert a + b == b;
    } else {
      StreamConcat(a[1..], b);
      assert (a + b)[1..] == a[1..] + b;
      Regroup(Frame(a[0]), Stream(a[1..]), Stream(b));
    }
  }

  // ---- The two directions of one end ----

  datatype WriteResult = Wrote(n: nat) | WriteBlocked | WriteInterrupted | WriteFailed

  datatype ReadResult = Got(bytes: seq<byte>) | ReadBlocked | ReadInterrupted | ReadFailed

  datatype Received = Delivery(message: Message) | Nothing | BadSize | Malformed | Lost

  ghost function Flat(frames: seq<seq<byte>>): seq<byte> {
    if frames == [] then [] else frames[0] + Flat(frames[1..])
  }

  lemma {:induction false} FlatAppend(frames: seq<seq<byte>>, f: seq<byte>)
    ensures Flat(frames + [f]) == Flat(frames) + f
  {
    if frames == [] {
      assert Flat([f][1..]) == [];
    } else {
      FlatAppend(frames[1..], f);
      assert (frames + [f])[1..] == frames[1..] + [f];
    }
  }

  /** No whole frame is waiting at the front of the input, and its length so far is sane. */
  predicate Stuck(input: seq<byte>) {
    |input| < 4 || (0 < FromBe(input[..4]) <= MAX_FRAME && |input| < FromBe(input[..4]) + 4)
  }

  /** A whole frame is waiting, and the message in it. */
  predicate Whole(input: seq<byte>) {
    |input| >= 4 && 0 < FromBe(input[..4]) <= MAX_FRAME && |input| >= FromBe(input[..4]) + 4
  }

  function Head(input: seq<byte>): Message
    requires Whole(input)
  {
    input[4..FromBe(input[..4]) + 4]
  }

  predicate Headed(frame: seq<byte>) {
    |frame| > 4
  }

  /** Every queued frame has a header and the position is inside the first one. */
  ghost predicate QueueInv(output: seq<seq<byte>>, offset: nat) {
    && (forall i | 0 <= i < |output| :: Headed(output[i]))
    && (output == [] ==> offset == 0)
    && (output != [] ==> offset < |output[0]|)
  }

  /** Bytes of the output queue not yet handed to the transport. */
  ghost function UnsentOf(output: seq<seq<byte>>, offset: nat): seq<byte>
    requires QueueInv(output, offset)
  {
    if output == [] then [] else output[0][offset..] + Flat(output[1..])
  }

  lemma UnsentAppend(output: seq<seq<byte>>, offset: nat, f: seq<byte>)
    requires QueueInv(output, offset) && Headed(f)
    ensures QueueInv(output + [f], offset) && UnsentOf(output + [f], offset) == UnsentOf(output, offset) + f
  {
    var longer := output + [f];
    if output == [] {
      assert longer[0][0..] == f && longer[1..] == [];
    } else {
      assert longer[0] == output[0] && longer[1..] == output[1..] + [f];
      FlatAppend(output[1..], f);
      var head := output[0][offset..];
      assert head + (Flat(output[1..]) + f) == (head + Flat(output[1..])) + f;
    }
  }

  lemma PrefixGrows(a: seq<byte>, b: seq<byte>, c: seq<byte>)
    requires a <= b <= c
    ensures a <= c
  {
  }

  lemma Regroup(a: seq<byte>, b: seq<byte>, c: seq<byte>)
    ensures (a + b) + c == a + (b + c)
  {
  }

  lemma Cut(s: seq<byte>, i: nat, j: nat)
    requires i <= j <= |s|
    ensures s[i..] == s[i..j] + s[j..]
  {
  }

  /** The queue once `offset` bytes of its first frame are gone: a whole frame is dropped. */
  function QueueAfter(output: seq<seq<byte>>, offset: nat): (seq<seq<byte>>, nat) {
    if output != [] && offset == |output[0]| then (output[1..], 0) else (output, offset)
  }

  /** Writing `n` bytes of the first frame takes exactly the first `n` unsent bytes. */
  lemma UnsentAdvance(output: seq<seq<byte>>, offset: nat, n: nat)
    requires QueueInv(output, offset) && output != [] && offset + n <= |output[0]|
    ensures var (left, from) := QueueAfter(output, offset + n);
            && QueueInv(left, from)
            && UnsentOf(output, offset) == output[0][offset..offset + n] + UnsentOf(left, from)
  {
    var frame, rest := output[0], Flat(output[1..]);
    var piece := frame[offset..offset + n];
    Cut(frame, offset, offset + n);
    Regroup(piece, frame[offset + n..], rest);
    if offset + n == |frame| {
      assert frame[offset + n..] == [];
      assert [] + rest == rest;
      UnsentWhole(output[1..]);
    }
  }

  lemma UnsentWhole(output: seq<seq<byte>>)
    ensures QueueInv(output, 0) ==> UnsentOf(output, 0) == Flat(output)
  {
    if output != [] {
      assert output[0][0..] == output[0];
    }
  }

  /** What was handed over and what is queued are together the stream of everything
      accepted, and `queued` counts the second part. */
  ghost predicate SendInv(
    output: seq<seq<byte>>, offset: nat, queued: nat, accepted: seq<Message>, sent: seq<byte>)
  {
    && QueueInv(output, offset) && queued == |UnsentOf(output, offset)| <= MAX_BUFFER
    && AllSendable(accepted) && sent + UnsentOf(output, offset) == Stream(accepted)
  }

  /** What came in is the stream of everything given out, then what waits. */
  ghost predicate ReceiveInv(input: seq<byte>, received: seq<byte>, delivered: seq<Message>) {
    AllSendable(delivered) && received == Stream(delivered) + input
  }

  lemma SendKeepsInv(
    output: seq<seq<byte>>, offset: nat, queued: nat, accepted: seq<Message>, sent: seq<byte>, m: Message)
    requires SendInv(output, offset, queued, accepted, sent)
    requires Sendable(m) && queued + |m| + 4 <= MAX_BUFFER
    ensures SendInv(output + [Frame(m)], offset, queued + |m| + 4, accepted + [m], sent)
  {
    UnsentAppend(output, offset, Frame(m));
    StreamAppend(accepted, m);
    Regroup(sent, UnsentOf(output, offset), Frame(m));
  }

  lemma HandOverKeepsInv(
    output: seq<seq<byte>>, offset: nat, queued: nat, accepted: seq<Message>, sent: seq<byte>, n: nat)
    requires SendInv(output, offset, queued, accepted, sent) && output != [] && offset + n <= |output[0]|
    ensures n <= queued
    ensures var (left, from) := QueueAfter(output, offset + n);
            SendInv(left, from, queued - n, accepted, sent + output[0][offset..offset + n])
  {
    UnsentAdvance(output, offset, n);
    var (left, from) := QueueAfter(output, offset + n);
    Regroup(sent, output[0][offset..offset + n], UnsentOf(left, from));
  }

  lemma CutKeepsInv(input: seq<byte>, received: seq<byte>, delivered: seq<Message>, size: nat)
    requires ReceiveInv(input, received, delivered) && Whole(input) && size == FromBe(input[..4])
    ensures ReceiveInv(input[size + 4..], received, delivered + [input[4..size + 4]])
  {
    var message := input[4..size + 4];
    BytesRoundTrip(input[..4]);
    assert Frame(message) == input[..size + 4];
    StreamAppend(delivered, message);
    assert input == Frame(message) + input[size + 4..];
    Regroup(Stream(delivered), Frame(message), input[size + 4..]);
  }

  /** The bytes the first `k` reads brought. */
  ghost function Brought(results: seq<ReadResult>, k: nat): seq<byte>
    requires k <= |results|
  {
    if k == 0 then []
    else Brought(results, k - 1) + if results[k - 1].Got? then results[k - 1].bytes else []
  }

  /** How many of the first `k` writes took something, and how much they took at most. */
  ghost function Writes(results: seq<WriteResult>, k: nat): nat
    requires k <= |results|
  {
    if k == 0 then 0 else Writes(results, k - 1) + if results[k - 1].Wrote? then 1 else 0
  }

  ghost function MostWritten(results: seq<WriteResult>, k: nat): nat
    requires k <= |results|
  {
    if k == 0 then 0 else MostWritten(results, k - 1) + if results[k - 1].Wrote? then results[k - 1].n else 0
  }

  class Framed {
    var input: seq<byte>
    var output: seq<seq<byte>>
    var offset: nat
    var queued: nat
    /** History: messages accepted and bytes handed over; bytes taken in and messages given out. */
    ghost var accepted: seq<Message>
    ghost var sent: seq<byte>
    ghost var received: seq<byte>
    ghost var delivered: seq<Message>

    ghost predicate Valid()
      reads this
    {
      SendInv(output, offset, queued, accepted, sent) && ReceiveInv(input, received, delivered)
    }

    constructor ()
      ensures Valid() && accepted == [] && delivered == [] && sent == [] && received == []
    {
      input, output, offset, queued := [], [], 0, 0;
      accepted, sent, received, delivered := [], [], [], [];
    }

    /** A message is queued whole exactly when its size and the queue's stay in bounds. */
    method Send(json: Message) returns (ok: bool)
      requires Valid()
      modifies this`output, this`queued, this`accepted
      ensures Valid()
      ensures ok <==> 0 < |json| <= 131072 && old(queued) + |json| + 4 <= 524288
      ensures if ok then accepted == old(accepted) + [json] && queued == old(queued) + |json| + 4 else unchanged(this)
    {
      if !(0 < |json| <= MAX_FRAME) || queued + |json| + 4 > MAX_BUFFER {
        return false;
      }
      var frame := Frame(json);
      SendKeepsInv(output, offset, queued, accepted, sent, json);
      queued := queued + |frame|;
      output := output + [frame];
      accepted := accepted + [json];
      return true;
    }

    /** Hand over what the transport takes, piece by piece. Whatever it takes, the bytes
        go out in order and none twice. */
    method Flush(results: seq<WriteResult>) returns (ok: bool, ghost used: nat)
      requires Valid()
      modifies this`output, this`offset, this`queued, this`sent
      ensures Valid() && queued <= old(queued) && old(sent) <= sent && used <= |results|
      ensures queued + Writes(results, used) <= old(queued) <= queued + MostWritten(results, used)
      ensures ok ==> output == [] || used == |results| || results[used].WriteBlocked?
      ensures !ok ==> used < |results| && (results[used] == Wrote(0) || results[used].WriteFailed?)
    {
      var k, stop: Option<bool> := 0, None;
      while stop.None? && output != [] && k < |results|
        invariant Valid() && old(sent) <= sent && k <= |results|
        invariant queued + Writes(results, k) <= old(queued) <= queued + MostWritten(results, k)
        invariant stop.Some? ==>
            && k < |results|
            && if stop.value then results[k].WriteBlocked? else results[k] == Wrote(0) || results[k].WriteFailed?
        decreases |results| - k, if stop.None? then 1 else 0
      {
        ghost var before := sent;
        stop := TakeWrite(results[k]);
        PrefixGrows(old(sent), before, sent);
        if stop.None? {
          k := k + 1;
        }
      }
      ok, used := stop.None? || stop.value, k;
    }

    /** One answer of the transport to an offered frame: what it took is handed over, an
        interruption is retried, and anything else ends the call. */
    method TakeWrite(result: WriteResult) returns (stop: Option<bool>)
      requires Valid() && output != []
      modifies this`output, this`offset, this`queued, this`sent
      ensures Valid() && old(sent) <= sent
      ensures stop == match result
                      case Wrote(n) => if n == 0 then Some(false) else None
                      case WriteBlocked => Some(true)
                      case WriteInterrupted => None
                      case WriteFailed => Some(false)
      ensures if stop.None? && result.Wrote? then queued + 1 <= old(queued) <= queued + result.n
              else queued == old(queued) && sent == old(sent) && output == old(output)
    {
      match result {
        case Wrote(n) =>
          if n == 0 {
            return Some(false);
          }
          HandOver(if n < |output[0]| - offset then n else |output[0]| - offset);
          return None;
        case WriteBlocked => return Some(true);
        case WriteInterrupted => return None;
        case WriteFailed => return Some(false);
      }
    }

    /** The transport took `n` bytes of the first frame. */
    method HandOver(n: nat)
      requires Valid() && output != [] && 0 < n <= |output[0]| - offset
      modifies this`output, this`offset, this`queued, this`sent
      ensures Valid() && queued == old(queued) - n && sent == old(sent) + old(output[0][offset..offset + n])
    {
      HandOverKeepsInv(output, offset, queued, accepted, sent, n);
      var (left, from) := QueueAfter(output, offset + n);
      sent := sent + output[0][offset..offset + n];
      output, offset, queued := left, from, queued - n;
    }

    /** The next message in order, whatever pieces the bytes arrive in. */
    method Receive(results: seq<ReadResult>, parses: Message -> bool)
      returns (r: Received, ghost used: nat)
      requires Valid()
      modifies this`input, this`received, this`delivered
      ensures Valid() && used <= |results| && received == old(received) + Brought(results, used)
      ensures r.Delivery? ==> delivered == old(delivered) + [r.message] && parses(r.message)
      ensures r.Malformed? ==> Whole(input) && !parses(Head(input))
      ensures !r.Delivery? ==> delivered == old(delivered)
      ensures r.BadSize? ==> |input| >= 4 && !(0 < FromBe(input[..4]) <= MAX_FRAME)
      ensures r.Nothing? ==> Stuck(input) && (used == |results| || results[used].ReadBlocked?)
      ensures r.Lost? ==> used < |results| && (results[used] == Got([]) || results[used].ReadFailed?)
    {
      var k := 0;
      used := 0;
      while true
        invariant Valid() && delivered == old(delivered) && used == k <= |results|
        invariant received == old(received) + Brought(results, k)
        decreases |results| - k
      {
        r := NextFrame(parses);
        if !r.Nothing? {
          return r, k;
        }
        if k == |results| {
          return Nothing, k;
        }
        var stop := TakeRead(results[k]);
        if stop.Some? {
          return stop.value, k;
        }
        k := k + 1;
        used := k;
        Regroup(old(received), Brought(results, k - 1), if results[k - 1].Got? then results[k - 1].bytes else []);
      }
    }

    /** One answer of the transport: bytes are kept, an interruption is retried, and anything
        else ends the call. */
    method TakeRead(result: ReadResult) returns (stop: Option<Received>)
      requires Valid()
      modifies this`input, this`received
      ensures Valid()
      ensures stop == match result
                      case Got(bytes) => if bytes == [] then Some(Lost) else None
                      case ReadBlocked => Some(Nothing)
                      case ReadInterrupted => None
                      case ReadFailed => Some(Lost)
      ensures received == old(received) + if stop.None? && result.Got? then result.bytes else []
      ensures !result.Got? ==> input == old(input)
    {
      match result {
        case Got(bytes) =>
          if bytes == [] {
            return Some(Lost);
          }
          TakeIn(bytes);
          return None;
        case ReadBlocked => return Some(Nothing);
        case ReadInterrupted => return None;
        case ReadFailed => return Some(Lost);
      }
    }

    method TakeIn(bytes: seq<byte>)
      requires Valid()
      modifies this`input, this`received
      ensures Valid() && input == old(input) + bytes && received == old(received) + bytes
    {
      Regroup(Stream(delivered), input, bytes);
      input, received := input + bytes, received + bytes;
    }

    /** The message at the front of the input, if its frame is whole. */
    method NextFrame(parses: Message -> bool) returns (r: Received)
      requires Valid()
      modifies this`input, this`delivered
      ensures Valid() && !r.Lost?
      ensures r.Delivery? ==> delivered == old(delivered) + [r.message] && parses(r.message)
      ensures !r.Delivery? ==> delivered == old(delivered) && input == old(input)
      ensures r.Malformed? ==> Whole(input) && !parses(Head(input))
      ensures r.BadSize? ==> |input| >= 4 && !(0 < FromBe(input[..4]) <= MAX_FRAME)
      ensures r.Nothing? ==> Stuck(input)
    {
      if |input| < 4 {
        return Nothing;
      }
      var size := FromBe(input[..4]);
      if size == 0 || size > MAX_FRAME {
        return BadSize;
      }
      if |input| < size + 4 {
        return Nothing;
      }
      if !parses(input[4..size + 4]) {
        return Malformed;
      }
      r := CutFrame(size);
    }

    method CutFrame(size: nat) returns (r: Received)
      requires Valid() && |input| >= size + 4 && 0 < size <= MAX_FRAME && size == FromBe(input[..4])
      modifies this`input, this`delivered
      ensures Valid() && r == Delivery(old(input[4..size + 4])) && delivered == old(delivered) + [r.message]
    {
      var message := input[4..size + 4];
      CutKeepsInv(input, received, delivered, size);
      input := input[size + 4..];
      delivered := delivered + [message];
      return Delivery(message);
    }
  }

  // ---- Two ends ----

  /** For any messages accepted, any partial writes and any chunking: when the receiver
      has taken in a prefix of what the sender handed over, it has delivered exactly a
      prefix of the messages in order, and what waits in its buffer is the beginning of
      the rest, so it never reports a size error and the next message it parses is the
      next one sent. */
  lemma RoundTrip(sender: Framed, receiver: Framed)
    requires sender.Valid() && receiver.Valid() && receiver.received <= sender.sent
    ensures receiver.delivered <= sender.accepted
    ensures Stuck(receiver.input) || Whole(receiver.input)
    ensures Whole(receiver.input) ==>
              && |receiver.delivered| < |sender.accepted|
              && Head(receiver.input) == sender.accepted[|receiver.delivered|]
  {
    DeliveredIsPrefix(receiver.delivered, receiver.input, sender.accepted);
    var rest := sender.accepted[|receiver.delivered|..];
    if |receiver.input| >= 4 {
      HeadLength(receiver.input, rest);
      if Whole(receiver.input) {
        HeadMessage(receiver.input, rest);
      }
    }
  }

  /** Once every byte has arrived and no whole frame is left, every message has. */
  lemma AllArrive(sender: Framed, receiver: Framed)
    requires sender.Valid() && receiver.Valid() && sender.output == [] && receiver.received == sender.sent
    requires Stuck(receiver.input)
    ensures receiver.delivered == sender.accepted
  {
    var n := |receiver.delivered|;
    DeliveredIsPrefix(receiver.delivered, receiver.input, sender.accepted);
    if n < |sender.accepted| {
      var rest := sender.accepted[n..];
      assert sender.accepted == receiver.delivered + rest;
      StreamConcat(receiver.delivered, rest);
      assert |receiver.input| == |Stream(rest)|;
      assert receiver.input == Stream(rest);
      assert Stream(rest) == Frame(rest[0]) + Stream(rest[1..]);
      HeadLength(receiver.input, rest);
    }
  }
}
