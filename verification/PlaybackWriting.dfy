/** The writer of one audio ring: block stamping, format switches and one-shot flags
    (crates/jackstay/src/audio.rs, `PlaybackWriter`). */
module PlaybackWriting {
  import opened Options
  import opened Modular
  import opened AudioFormat
  import Seqlock

  /** What the history of a writer must satisfy: conforming, chained blocks whose flags
      sit exactly where they were requested. `marks` and `switches` list, per request,
      how many blocks had been written when it was made. */
  ghost predicate HistoryInv(blocks: seq<Block>, payloadLen: nat, marks: seq<nat>, switches: seq<nat>) {
    && Chained(blocks)
    && (forall k | 0 <= k < |blocks| :: BlockInv(blocks[k], k, payloadLen, marks, switches))
    && (forall m | m in marks :: m <= |blocks|) && (forall m | m in switches :: m <= |blocks|)
  }

  ghost predicate BlockInv(b: Block, k: nat, payloadLen: nat, marks: seq<nat>, switches: seq<nat>) {
    && Conforms(b, payloadLen)
    && (b.discontinuity <==> k in marks)
    && (b.reconfiguration <==> k in switches)
  }

  lemma HistoryAppend(blocks: seq<Block>, payloadLen: nat, marks: seq<nat>, switches: seq<nat>, b: Block)
    requires HistoryInv(blocks, payloadLen, marks, switches)
    requires b.position == NextPosition(blocks) && BlockInv(b, |blocks|, payloadLen, marks, switches)
    ensures HistoryInv(blocks + [b], payloadLen, marks, switches)
  {
    ChainedAppend(blocks, b);
    var all := blocks + [b];
    forall k | 0 <= k < |all|
      ensures BlockInv(all[k], k, payloadLen, marks, switches)
    {
      assert k < |blocks| ==> BlockInv(blocks[k], k, payloadLen, marks, switches);
    }
  }

  /** The ring's records are the blocks' words. */
  ghost predicate Logged(log: seq<seq<nat>>, blocks: seq<Block>) {
    |log| == |blocks| && forall k | 0 <= k < |blocks| :: log[k] == BlockWords(blocks[k])
  }

  lemma LoggedAppend(log: seq<seq<nat>>, blocks: seq<Block>, b: Block)
    requires Logged(log, blocks)
    ensures Logged(log + [BlockWords(b)], blocks + [b])
  {
  }

  /** Requesting a flag for the block to come leaves the written ones alone. */
  lemma HistoryMark(blocks: seq<Block>, payloadLen: nat, marks: seq<nat>, switches: seq<nat>)
    requires HistoryInv(blocks, payloadLen, marks, switches)
    ensures HistoryInv(blocks, payloadLen, marks + [|blocks|], switches)
  {
    forall k | 0 <= k < |blocks|
      ensures BlockInv(blocks[k], k, payloadLen, marks + [|blocks|], switches)
    {
      assert BlockInv(blocks[k], k, payloadLen, marks, switches);
    }
  }

  lemma HistorySwitch(blocks: seq<Block>, payloadLen: nat, marks: seq<nat>, switches: seq<nat>)
    requires HistoryInv(blocks, payloadLen, marks, switches)
    ensures HistoryInv(blocks, payloadLen, marks, switches + [|blocks|])
  {
    forall k | 0 <= k < |blocks|
      ensures BlockInv(blocks[k], k, payloadLen, marks, switches + [|blocks|])
    {
      assert BlockInv(blocks[k], k, payloadLen, marks, switches);
    }
  }

  function Generation(switches: nat): nat {
    (1 + switches) % U32_RANGE
  }

  lemma GenerationWraps(switches: nat)
    ensures (Generation(switches) + 1) % U32_RANGE == Generation(switches + 1)
  {
  }

  class PlaybackWriter {
    const ring: Seqlock.SharedRing
    const geometry: Geometry
    var format: Format
    var generation: nat
    var position: nat
    var discontinuous: bool
    var reconfigured: bool
    ghost var blocks: seq<Block>
    ghost var marks: seq<nat>
    ghost var switches: seq<nat>

    ghost predicate Valid()
      reads this, ring, ring.words, ring.bodies
    {
      && ring.Valid() && ring.writer.Idle?
      && ring.first == 0 && ring.width == BLOCK_WORDS + geometry.payloadLen && ring.words.Length == geometry.blocks
      && Usable(geometry, format)
      && Logged(ring.log, blocks)
      && HistoryInv(blocks, geometry.payloadLen, marks, switches)
      && position == NextPosition(blocks)
      && (discontinuous <==> |blocks| in marks)
      && (reconfigured <==> |blocks| in switches)
      && generation == Generation(|switches|)
    }

    /** A fresh ring's writer. A recording writer's first block marks the change of
        writer; a playback writer's does not. */
    constructor (geometry: Geometry, format: Format, recording: bool)
      requires Usable(geometry, format) && geometry.blocks >= 2
      ensures Valid() && fresh(ring) && fresh(ring.words) && fresh(ring.bodies)
      ensures blocks == [] && marks == (if recording then [0] else []) && switches == []
      ensures this.geometry == geometry && this.format == format
    {
      ring := new Seqlock.SharedRing(geometry.blocks, 0, BLOCK_WORDS + geometry.payloadLen);
      this.geometry, this.format := geometry, format;
      generation, position, discontinuous, reconfigured := 1, 0, recording, false;
      blocks, marks, switches := [], if recording then [0] else [], [];
    }

    /** Flag the next block, whenever it is written. */
    method Discontinuity()
      requires Valid()
      modifies this`discontinuous, this`marks
      ensures Valid() && marks == old(marks) + [|blocks|]
    {
      HistoryMark(blocks, geometry.payloadLen, marks, switches);
      discontinuous := true;
      marks := marks + [|blocks|];
    }

    /** Switch format at the next block, or change nothing when the ring cannot hold it. */
    method Reconfigure(f: Format) returns (ok: bool)
      requires Valid()
      modifies this`format, this`generation, this`reconfigured, this`switches
      ensures Valid() && ok == Usable(geometry, f)
      ensures ok ==> format == f && switches == old(switches) + [|blocks|]
      ensures !ok ==> unchanged(this)
    {
      if !Usable(geometry, f) {
        return false;
      }
      SwitchTo(f);
      return true;
    }

    method SwitchTo(f: Format)
      requires Valid() && Usable(geometry, f)
      modifies this`format, this`generation, this`reconfigured, this`switches
      ensures Valid() && format == f && switches == old(switches) + [|blocks|]
    {
      HistorySwitch(blocks, geometry.payloadLen, marks, switches);
      GenerationWraps(|switches|);
      format := f;
      generation := (generation + 1) % U32_RANGE;
      reconfigured := true;
      switches := switches + [|blocks|];
    }

    /** The descriptor to offer; it fits the ring after any run of switches. */
    method Descriptor() returns (d: Descriptor)
      requires Valid()
      ensures Fits(geometry, d) && d.format == format
    {
      DescriptionFits(geometry, format);
      d := Describe(geometry, format);
    }

    /** Publish one block of whole frames. A refused block changes nothing. */
    method Write(samples: seq<nat>, hostTimeNs: nat) returns (cursor: Option<nat>)
      requires Valid()
      modifies this`position, this`discontinuous, this`reconfigured, this`blocks,
               ring`cursor, ring`writer, ring`log, ring.words, ring.bodies
      ensures Valid()
      ensures cursor.Some? <==> samples != [] && |samples| % FrameBytes(format) == 0 && |samples| <= geometry.payloadLen
      ensures cursor.None? ==> blocks == old(blocks) && ring.View() == old(ring.View())
      ensures cursor.Some? ==>
                && cursor.value == |blocks| == |old(blocks)| + 1 && blocks[..|old(blocks)|] == old(blocks)
                && var b := blocks[|old(blocks)|];
                   && b.samples == samples && b.hostTimeNs == hostTimeNs
                   && b.format == format && b.generation == generation
    {
      var frame := FrameBytes(format);
      if samples == [] || |samples| % frame != 0 || |samples| > geometry.payloadLen {
        return None;
      }
      var frames := Quotient(|samples|, frame) % U32_RANGE;
      WholeFrames(|samples|, geometry.payloadLen, frame);
      var b := Block(position, hostTimeNs, frames, discontinuous, reconfigured, generation, format, samples);
      var c := Append(b);
      return Some(c);
    }

    /** Publish a stamped block and clear the flags it carried. */
    method Append(b: Block) returns (c: nat)
      requires Valid() && b.position == position
      requires BlockInv(b, |blocks|, geometry.payloadLen, marks, switches)
      modifies this`position, this`discontinuous, this`reconfigured, this`blocks,
               ring`cursor, ring`writer, ring`log, ring.words, ring.bodies
      ensures Valid() && blocks == old(blocks) + [b] && c == |blocks|
    {
      HistoryAppend(blocks, geometry.payloadLen, marks, switches, b);
      LoggedAppend(ring.log, blocks, b);
      c := ring.Publish(BlockWords(b));
      blocks := blocks + [b];
      position := position + b.frames;
      discontinuous, reconfigured := false, false;
    }
  }

  /** Whole frames that fit a ring are counted exactly by their 32-bit field. */
  lemma WholeFrames(length: nat, payloadLen: nat, frame: nat)
    requires 0 < length <= payloadLen && frame >= 1 && length % frame == 0 && Quotient(payloadLen, frame) <= U32_MAX
    ensures var frames := Quotient(length, frame); 0 < frames <= U32_MAX && frames * frame == length
  {
    QuotientMonotone(length, payloadLen, frame);
    assert length == frame * Quotient(length, frame) == Quotient(length, frame) * frame;
  }
}
