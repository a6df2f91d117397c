/** Audio formats, ring geometry and block records (crates/jackstay/src/audio.rs). */
module AudioFormat {
  import opened Options
  import opened Modular

  const NANOS := 1_000_000_000
  const MIN_DEPTH := 250_000_000
  const HEADER_LEN := 256
  const BLOCK_ALIGN := 64

  datatype Layout = Mono | Stereo | Surround21 | Quad | Surround51 | Surround71 | Discrete

  datatype Sample = U8 | S16 | S32 | F32

  datatype Format = Format(rate: nat, channels: nat, layout: Layout, sample: Sample)

  function SampleBytes(s: Sample): nat {
    match s
    case U8 => 1
    case S16 => 2
    case S32 => 4
    case F32 => 4
  }

  function FrameBytes(f: Format): nat {
    f.channels * SampleBytes(f.sample)
  }

  /** The channel count a positioned layout needs; a discrete one takes any. */
  predicate ValidFormat(f: Format) {
    && f.rate > 0 && f.channels > 0
    && match f.layout
       case Mono => f.channels == 1
       case Stereo => f.channels == 2
       case Surround21 => f.channels == 3
       case Quad => f.channels == 4
       case Surround51 => f.channels == 6
       case Surround71 => f.channels == 8
       case Discrete => true
  }

  /** A frame is as many bytes as its samples take, and a positioned layout has as many
      channels as its name says. */
  lemma FrameSizes(f: Format)
    ensures f.sample == U8 ==> FrameBytes(f) == f.channels
    ensures f.sample == S16 ==> FrameBytes(f) == f.channels + f.channels
    ensures f.sample == S32 || f.sample == F32 ==> FrameBytes(f) == 4 * f.channels
    ensures ValidFormat(f) && !f.layout.Discrete? ==>
              (f.layout, f.channels) in
                {(Mono, 1), (Stereo, 2), (Surround21, 3), (Quad, 4), (Surround51, 6), (Surround71, 8)}
    ensures f.layout.Discrete? ==> (ValidFormat(f) <==> f.rate > 0 && f.channels > 0)
  {
  }

  function LayoutCode(l: Layout): nat {
    match l
    case Mono => 1
    case Stereo => 2
    case Surround21 => 3
    case Quad => 4
    case Surround51 => 5
    case Surround71 => 6
    case Discrete => 7
  }

  function SampleCode(s: Sample): nat {
    match s
    case U8 => 1
    case S16 => 2
    case S32 => 3
    case F32 => 4
  }

  const LAYOUTS := [Mono, Stereo, Surround21, Quad, Surround51, Surround71, Discrete]
  const SAMPLES := [U8, S16, S32, F32]

  /** Read a format back from the codes of a block header. */
  function FormatOf(rate: nat, channels: nat, layout: nat, sample: nat): (f: Option<Format>)
    ensures f.Some? ==>
              && ValidFormat(f.value) && f.value.rate == rate && f.value.channels == channels
              && LayoutCode(f.value.layout) == layout && SampleCode(f.value.sample) == sample
  {
    if 1 <= layout <= |LAYOUTS| && 1 <= sample <= |SAMPLES| then
      var f := Format(rate, channels, LAYOUTS[layout - 1], SAMPLES[sample - 1]);
      if ValidFormat(f) then Some(f) else None
    else None
  }

  /** Every valid format survives its codes. */
  lemma FormatRoundTrip(f: Format)
    requires ValidFormat(f)
    ensures FormatOf(f.rate, f.channels, LayoutCode(f.layout), SampleCode(f.sample)) == Some(f)
  {
    match f.layout
    case Mono => assert LAYOUTS[0] == Mono;
    case Stereo => assert LAYOUTS[1] == Stereo;
    case Surround21 => assert LAYOUTS[2] == Surround21;
    case Quad => assert LAYOUTS[3] == Quad;
    case Surround51 => assert LAYOUTS[4] == Surround51;
    case Surround71 => assert LAYOUTS[5] == Surround71;
    case Discrete => assert LAYOUTS[6] == Discrete;
  }

  // ---- Geometry ----

  datatype Descriptor = Descriptor(format: Format, blockFrames: nat, blocks: nat)

  datatype Settings = Settings(format: Format, blockFrames: nat, depth: nat)

  /** A ring's shape: how many blocks, and the sample bytes one block holds. */
  datatype Geometry = Geometry(blocks: nat, payloadLen: nat) {
    function BlockLen(): nat {
      (BLOCK_ALIGN + payloadLen + BLOCK_ALIGN - 1) / BLOCK_ALIGN * BLOCK_ALIGN
    }

    function MapLen(): nat {
      blocks * BlockLen() + HEADER_LEN
    }

    /** The byte offset of cursor `c`'s block. */
    function Block(c: nat): nat
      requires c >= 1 && blocks >= 1
    {
      HEADER_LEN + (c - 1) % blocks * BlockLen()
    }
  }

  datatype Header = Header(magicOk: bool, blocks: nat, blockLen: nat, payloadLen: nat, mapLen: nat)

  function DivCeil(a: nat, b: nat): nat
    requires b >= 1
  {
    (a + b - 1) / b
  }

  lemma CeilBounds(a: nat, b: nat)
    requires b >= 1
    ensures var q := DivCeil(a, b); q * b >= a && (q == 0 || (q - 1) * b < a)
  {
    var q, r := (a + b - 1) / b, (a + b - 1) % b;
    assert a + b - 1 == b * q + r;
    assert q * b == b * q;
    assert (q - 1) * b == q * b - b;
  }

  /** Blocks needed to hold `nanos` of sound. */
  function BlocksFor(nanos: nat, rate: nat, blockFrames: nat): nat
    requires blockFrames >= 1
  {
    DivCeil(nanos * rate, blockFrames * NANOS)
  }

  /** The ring a producer's settings ask for, or None when they are refused. */
  function RingFor(s: Settings): (g: Option<Geometry>) {
    if !ValidFormat(s.format) || s.blockFrames == 0 then None
    else if s.depth < MIN_DEPTH then None
    else
      var blocks := BlocksFor(s.depth, s.format.rate, s.blockFrames);
      var g := Geometry(if blocks < 2 then 2 else blocks, s.blockFrames * FrameBytes(s.format));
      if blocks > U32_MAX || g.MapLen() > U64_MAX then None else Some(g)
  }

  /** The descriptor a ring offers in `format`. */
  function Describe(g: Geometry, format: Format): Descriptor
    requires FrameBytes(format) >= 1
  {
    Descriptor(format, Quotient(g.payloadLen, FrameBytes(format)), g.blocks)
  }

  /** A descriptor names the ring's depth and exactly the frames one block holds. */
  predicate Fits(g: Geometry, d: Descriptor) {
    && ValidFormat(d.format)
    && d.blockFrames != 0
    && g.blocks == d.blocks
    && FrameBytes(d.format) >= 1 && d.blockFrames == Quotient(g.payloadLen, FrameBytes(d.format))
  }

  /** Formats a ring can be switched to. */
  predicate Usable(g: Geometry, f: Format) {
    && ValidFormat(f)
    && 1 <= FrameBytes(f) <= g.payloadLen
    && Quotient(g.payloadLen, FrameBytes(f)) <= U32_MAX
  }

  lemma FrameBytesPositive(f: Format)
    requires ValidFormat(f)
    ensures FrameBytes(f) >= 1
  {
    assert f.channels * SampleBytes(f.sample) >= f.channels * 1;
  }

  /** Settings are refused exactly for an invalid format, empty blocks, a depth below 250 ms,
      or a ring whose block count or size no header can carry. */
  lemma RingForIff(s: Settings)
    ensures RingFor(s).Some? <==>
            && ValidFormat(s.format) && s.blockFrames > 0 && s.depth >= 250_000_000
            && var blocks := BlocksFor(s.depth, s.format.rate, s.blockFrames);
               && blocks < 0x1_0000_0000
               && Geometry(if blocks < 2 then 2 else blocks, s.blockFrames * FrameBytes(s.format)).MapLen()
                  < 0x1_0000_0000_0000_0000
  {
  }

  /** A descriptor fits when its frames fill a block as far as whole frames can. */
  lemma FitsMeans(g: Geometry, d: Descriptor)
    requires ValidFormat(d.format)
    ensures var frame := FrameBytes(d.format);
            Fits(g, d) <==>
            && g.blocks == d.blocks && 0 < d.blockFrames
            && frame * d.blockFrames <= g.payloadLen < frame * d.blockFrames + frame
  {
    FrameBytesPositive(d.format);
    var frame := FrameBytes(d.format);
    if frame * d.blockFrames <= g.payloadLen < frame * d.blockFrames + frame {
      DivModUnique(g.payloadLen, frame, d.blockFrames, g.payloadLen - frame * d.blockFrames);
    }
  }

  /** A ring can be switched to a format when at least one whole frame fits a block, and no
      more of them than 32 bits count. */
  lemma UsableMeans(g: Geometry, f: Format)
    requires ValidFormat(f)
    ensures FrameBytes(f) >= 1
    ensures Usable(g, f) <==>
            exists n: nat | 0 < n < 0x1_0000_0000 :: Fits(g, Descriptor(f, n, g.blocks))
  {
    FrameBytesPositive(f);
    if Usable(g, f) {
      assert Fits(g, Descriptor(f, Quotient(g.payloadLen, FrameBytes(f)), g.blocks));
    } else if exists n: nat | 0 < n < 0x1_0000_0000 :: Fits(g, Descriptor(f, n, g.blocks)) {
      var n: nat :| 0 < n < 0x1_0000_0000 && Fits(g, Descriptor(f, n, g.blocks));
      FitsMeans(g, Descriptor(f, n, g.blocks));
      MulMonotone(1, n, FrameBytes(f));
      assert n * FrameBytes(f) == FrameBytes(f) * n;
    }
  }

  /** What a consumer accepts when it maps a received ring. */
  function MapRing(h: Header): (g: Option<Geometry>) {
    if !h.magicOk || h.blocks < 2 || h.blockLen % BLOCK_ALIGN != 0 || h.blockLen < BLOCK_ALIGN + h.payloadLen
       || h.blocks * h.blockLen + HEADER_LEN > U64_MAX || h.mapLen != h.blocks * h.blockLen + HEADER_LEN
    then None
    else Some(Geometry(h.blocks, h.payloadLen))
  }

  function HeaderOf(g: Geometry): Header {
    Header(true, g.blocks, g.BlockLen(), g.payloadLen, g.MapLen())
  }

  lemma AlignedLength(n: nat)
    ensures var m := (n + BLOCK_ALIGN - 1) / BLOCK_ALIGN * BLOCK_ALIGN; m % BLOCK_ALIGN == 0 && n <= m < n + BLOCK_ALIGN
  {
  }

  /** A header that is accepted describes aligned blocks that hold their payload and exactly
      fill the mapping; a header off in any of these is refused. */
  lemma MapRingIff(h: Header)
    ensures MapRing(h).Some? <==>
            && h.magicOk && h.blocks >= 2 && h.blockLen % 64 == 0 && h.payloadLen + 64 <= h.blockLen
            && h.mapLen == 256 + h.blocks * h.blockLen < 0x1_0000_0000_0000_0000
    ensures MapRing(h).Some? ==> MapRing(h).value == Geometry(h.blocks, h.payloadLen)
  {
  }

  /** Accepted settings give a ring that holds the requested depth with no more blocks
      than that takes (two at least), that every consumer can map, and whose own
      descriptor fits it. */
  lemma RingServesSettings(s: Settings)
    requires RingFor(s).Some?
    ensures var g := RingFor(s).value;
            && g.blocks * (s.blockFrames * NANOS) >= s.depth * s.format.rate
            && (g.blocks == 2 || (g.blocks - 1) * (s.blockFrames * NANOS) < s.depth * s.format.rate)
            && MapRing(HeaderOf(g)) == Some(g)
    ensures s.blockFrames <= U32_MAX ==> Usable(RingFor(s).value, s.format)
  {
    var g := RingFor(s).value;
    var perBlock := s.blockFrames * NANOS;
    CeilBounds(s.depth * s.format.rate, perBlock);
    MulMonotone(BlocksFor(s.depth, s.format.rate, s.blockFrames), g.blocks, perBlock);
    AlignedLength(BLOCK_ALIGN + g.payloadLen);
    WholeBlock(s.blockFrames, s.format);
  }

  /** A block of whole frames holds exactly those frames. */
  lemma WholeBlock(frames: nat, f: Format)
    requires ValidFormat(f) && frames >= 1
    ensures 1 <= FrameBytes(f) <= frames * FrameBytes(f) && Quotient(frames * FrameBytes(f), FrameBytes(f)) == frames
  {
    FrameBytesPositive(f);
    var n := FrameBytes(f);
    MulMonotone(1, frames, n);
    assert frames * n == n * frames;
    DivModUnique(frames * n, n, frames, 0);
  }

  /** Whatever usable format a ring is switched to, its descriptor fits it. */
  lemma DescriptionFits(g: Geometry, f: Format)
    requires Usable(g, f)
    ensures FrameBytes(f) >= 1 && Fits(g, Describe(g, f)) && Describe(g, f).blockFrames <= U32_MAX
  {
  }

  /** Blocks lie inside the mapping, and different slots never overlap. */
  lemma BlocksAreDisjoint(g: Geometry, b: nat, c: nat)
    requires g.blocks >= 1 && b >= 1 && c >= 1
    ensures HEADER_LEN <= g.Block(b) && g.Block(b) + g.BlockLen() <= g.MapLen()
    ensures (b - 1) % g.blocks != (c - 1) % g.blocks ==>
              g.Block(b) + g.BlockLen() <= g.Block(c) || g.Block(c) + g.BlockLen() <= g.Block(b)
  {
    var i, j, n := (b - 1) % g.blocks, (c - 1) % g.blocks, g.BlockLen();
    ScaledApart(i, g.blocks, n);
    if i < j {
      ScaledApart(i, j, n);
    } else if j < i {
      ScaledApart(j, i, n);
    }
  }

  lemma ScaledApart(i: nat, j: nat, n: nat)
    requires i < j
    ensures i * n + n <= j * n
  {
    MulMonotone(i + 1, j, n);
    assert (i + 1) * n == i * n + n;
  }

  /** How many blocks behind the writer a reader plays. */
  function LatencyBlocks(nanos: nat, d: Descriptor): nat
    requires d.blockFrames >= 1 && d.blocks >= 1
  {
    var wanted := BlocksFor(nanos, d.format.rate, d.blockFrames);
    if wanted < d.blocks - 1 then wanted else d.blocks - 1
  }

  /** The reader's latency is the least number of blocks that covers the request, unless it
      is capped below the depth. */
  lemma LatencyCovers(nanos: nat, d: Descriptor)
    requires d.blockFrames >= 1 && d.blocks >= 1
    ensures var n := LatencyBlocks(nanos, d);
            && n <= d.blocks - 1
            && (n * (d.blockFrames * NANOS) >= nanos * d.format.rate || n == d.blocks - 1)
            && (n == 0 || (n - 1) * (d.blockFrames * NANOS) < nanos * d.format.rate)
  {
    var perBlock, wanted := d.blockFrames * NANOS, BlocksFor(nanos, d.format.rate, d.blockFrames);
    CeilBounds(nanos * d.format.rate, perBlock);
    var n := LatencyBlocks(nanos, d);
    if n >= 1 {
      MulMonotone(n - 1, wanted - 1, perBlock);
    }
  }

  // ---- Blocks ----

  const BLOCK_WORDS := 9

  /** One published block. */
  datatype Block = Block(
    position: nat, hostTimeNs: nat, frames: nat, discontinuity: bool, reconfiguration: bool,
    generation: nat, format: Format, samples: seq<nat>)

  function Flags(b: Block): nat {
    (if b.discontinuity then 1 else 0) + (if b.reconfiguration then 2 else 0)
  }

  /** The header words of a block, then its samples. */
  function BlockWords(b: Block): (w: seq<nat>)
    ensures |w| == BLOCK_WORDS + |b.samples|
  {
    [b.position, b.hostTimeNs, b.frames, Flags(b), b.generation,
     b.format.rate, b.format.channels, LayoutCode(b.format.layout), SampleCode(b.format.sample)] + b.samples
  }

  /** What a conforming writer publishes: whole frames of a valid format that fit. */
  predicate Conforms(b: Block, payloadLen: nat) {
    ValidFormat(b.format) && b.frames > 0 && |b.samples| == b.frames * FrameBytes(b.format) <= payloadLen
  }

  /** A reader's decoding of one copied body, stale bytes past the block included. */
  function Decode(w: seq<nat>, payloadLen: nat): (b: Option<Block>)
    requires |w| == BLOCK_WORDS + payloadLen
  {
    var format := FormatOf(w[5], w[6], w[7], w[8]);
    if format.None? || w[2] == 0 || w[2] * FrameBytes(format.value) > payloadLen then None
    else Some(Block(w[0], w[1], w[2], w[3] % 2 == 1, w[3] / 2 % 2 == 1, w[4], format.value,
                    w[BLOCK_WORDS..BLOCK_WORDS + w[2] * FrameBytes(format.value)]))
  }

  /** Decoding inverts publishing, whatever the slot held past the block before. */
  lemma DecodeInverts(b: Block, w: seq<nat>, payloadLen: nat)
    requires Conforms(b, payloadLen) && |w| == BLOCK_WORDS + payloadLen && BlockWords(b) <= w
    ensures Decode(w, payloadLen) == Some(b)
  {
    FormatRoundTrip(b.format);
    forall k | 0 <= k < BLOCK_WORDS ensures w[k] == BlockWords(b)[k] {
    }
    var n := |b.samples|;
    assert w[BLOCK_WORDS..BLOCK_WORDS + n] == b.samples by {
      forall k | 0 <= k < n ensures w[BLOCK_WORDS + k] == b.samples[k] {
        assert BlockWords(b)[BLOCK_WORDS + k] == b.samples[k];
      }
    }
  }

  /** Only a conforming block is ever decoded. */
  lemma DecodedConforms(w: seq<nat>, payloadLen: nat)
    requires |w| == BLOCK_WORDS + payloadLen && Decode(w, payloadLen).Some?
    ensures Conforms(Decode(w, payloadLen).value, payloadLen)
  {
  }

  // ---- Sample positions ----

  /** Where the block after these starts. */
  function NextPosition(blocks: seq<Block>): nat {
    if blocks == [] then 0 else blocks[|blocks| - 1].position + blocks[|blocks| - 1].frames
  }

  /** Block `k` starts where its predecessor ended. */
  ghost predicate StartsRight(blocks: seq<Block>, k: nat)
    requires k < |blocks|
  {
    blocks[k].position == NextPosition(blocks[..k])
  }

  ghost predicate Chained(blocks: seq<Block>) {
    forall k | 0 <= k < |blocks| :: StartsRight(blocks, k)
  }

  lemma ChainedAppend(blocks: seq<Block>, b: Block)
    requires Chained(blocks) && b.position == NextPosition(blocks)
    ensures Chained(blocks + [b])
  {
    var all := blocks + [b];
    forall k | 0 <= k < |all|
      ensures StartsRight(all, k)
    {
      if k < |blocks| {
        assert StartsRight(blocks, k) && all[..k] == blocks[..k];
      } else {
        assert all[..k] == blocks;
      }
    }
  }

  ghost function FrameTotal(blocks: seq<Block>): nat {
    if blocks == [] then 0 else FrameTotal(blocks[..|blocks| - 1]) + blocks[|blocks| - 1].frames
  }

  /** The positions of two blocks differ by the frames of every block from the first up
      to the second, whatever lies between them. */
  lemma {:induction false} PositionsConserve(blocks: seq<Block>, i: nat, j: nat)
    requires Chained(blocks) && i <= j < |blocks|
    ensures blocks[j].position - blocks[i].position == FrameTotal(blocks[i..j])
  {
    if i < j {
      PositionsConserve(blocks, i, j - 1);
      var part, before := blocks[i..j], blocks[..j];
      assert part[..|part| - 1] == blocks[i..j - 1] && part[|part| - 1] == blocks[j - 1];
      assert before[|before| - 1] == blocks[j - 1];
      assert StartsRight(blocks, j);
    }
  }
}
