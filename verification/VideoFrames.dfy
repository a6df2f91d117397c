/** The records of the video control page: a frame as a producer pushes it, the words
    of the two ring slots it is split into, and the merged entry a reader gets back
    (crates/jackstay/src/control_page.rs). */
module VideoFrames {
  import opened Modular

  const CONFIG_RING_CAPACITY := 4
  const SLOT_WORDS := 14
  const CONFIG_WORDS := 8

  /** The slot carries its config generation in 32 bits. */
  const GENERATION_RANGE := U32_RANGE

  /** Per-frame values. */
  datatype Frame = Frame(
    sequence: nat, timestampNs: nat, poolId: nat, payloadOffset: nat, payloadLen: nat,
    fenceValue: nat, damageBaseSequence: nat, producerDropCount: nat, slotId: nat,
    payloadKind: nat, damageKind: nat, droppedBeforePublish: nat, flags: nat)

  /** Stream-level values, which change only on reconfiguration. */
  datatype Stream = Stream(
    width: nat, height: nat, stride: nat, pixelFormat: nat,
    colorSpace: nat, syncKind: nat, modifier: nat, fenceId: nat)

  datatype Pending = Pending(frame: Frame, stream: Stream)

  datatype Entry = Entry(cursor: nat, generation: nat, frame: Frame, stream: Stream)

  datatype ReadError =
    | Empty
    | NotPublished(requested: nat, latest: nat)
    | Lapped(requested: nat, oldest: nat, latest: nat)
    | SlotSequenceMismatch(requested: nat, first: nat, second: nat)
    | ConfigOverwritten(requested: nat, generation: nat, first: nat, second: nat)

  datatype ReadResult = Ok(entry: Entry) | Err(error: ReadError)

  function SlotWords(f: Frame, generation: nat): (w: seq<nat>)
    ensures |w| == SLOT_WORDS
  {
    [f.sequence, f.timestampNs, f.poolId, f.payloadOffset, f.payloadLen, f.fenceValue,
     f.damageBaseSequence, f.producerDropCount, f.slotId, generation % GENERATION_RANGE,
     f.payloadKind, f.damageKind, f.droppedBeforePublish, f.flags]
  }

  function FrameOf(w: seq<nat>): Frame
    requires |w| == SLOT_WORDS
  {
    Frame(w[0], w[1], w[2], w[3], w[4], w[5], w[6], w[7], w[8], w[10], w[11], w[12], w[13])
  }

  function GenerationOf(w: seq<nat>): nat
    requires |w| == SLOT_WORDS
  {
    w[9]
  }

  function ConfigWords(s: Stream): (w: seq<nat>)
    ensures |w| == CONFIG_WORDS
  {
    [s.width, s.height, s.stride, s.pixelFormat, s.colorSpace, s.syncKind, s.modifier, s.fenceId]
  }

  function StreamOf(w: seq<nat>): Stream
    requires |w| == CONFIG_WORDS
  {
    Stream(w[0], w[1], w[2], w[3], w[4], w[5], w[6], w[7])
  }

  lemma SlotRoundTrip(f: Frame, generation: nat)
    ensures FrameOf(SlotWords(f, generation)) == f
    ensures GenerationOf(SlotWords(f, generation)) == generation % GENERATION_RANGE
  {
  }

  lemma ConfigRoundTrip(s: Stream)
    ensures StreamOf(ConfigWords(s)) == s
  {
  }

  /** The oldest cursor the ring still holds when `cursor` is its latest. */
  function OldestLive(cursor: nat, capacity: nat): (oldest: nat)
    ensures 1 <= oldest <= cursor + 1 && (capacity >= 1 && cursor >= 1 ==> oldest <= cursor)
  {
    cursor - (if cursor < capacity then cursor else capacity) + 1
  }

  /** A published cursor is live exactly while fewer than a ring's worth came after it. */
  lemma LiveWindow(cursor: nat, capacity: nat, c: nat)
    requires capacity >= 1 && 1 <= c <= cursor
    ensures OldestLive(cursor, capacity) <= c <==> cursor < c + capacity
  {
  }

  /** Truncating a generation to 32 bits keeps its place in the four-entry ring. */
  lemma TruncationKeepsSlot(g: nat)
    ensures (g % GENERATION_RANGE) % CONFIG_RING_CAPACITY == g % CONFIG_RING_CAPACITY
  {
  }

  // ---- Generations ----

  /** The stream generation frame `k` is published under: one more than its
      predecessor's when the stream values changed. */
  function GenerationAt(pushed: seq<Pending>, k: nat): (g: nat)
    requires k < |pushed|
    ensures g >= 1
  {
    if k == 0 then 1
    else GenerationAt(pushed, k - 1) + (if pushed[k].stream == pushed[k - 1].stream then 0 else 1)
  }

  function Generations(pushed: seq<Pending>): nat {
    if pushed == [] then 0 else GenerationAt(pushed, |pushed| - 1)
  }

  function AllGenerations(pushed: seq<Pending>): (g: seq<nat>) {
    seq(|pushed|, k requires 0 <= k < |pushed| => GenerationAt(pushed, k))
  }

  lemma {:induction false} GenerationMonotone(pushed: seq<Pending>, j: nat, k: nat)
    requires j <= k < |pushed|
    ensures GenerationAt(pushed, j) <= GenerationAt(pushed, k)
  {
    if j < k {
      GenerationMonotone(pushed, j, k - 1);
    }
  }

  lemma {:induction false} GenerationOfPrefix(pushed: seq<Pending>, e: Pending, k: nat)
    requires k < |pushed|
    ensures GenerationAt(pushed + [e], k) == GenerationAt(pushed, k)
  {
    if k > 0 {
      GenerationOfPrefix(pushed, e, k - 1);
    }
  }
}
