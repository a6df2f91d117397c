/** A playback reader racing a conforming writer, word by word
    (crates/jackstay/src/audio.rs, `PlaybackReader::read`, `Ring::publish`, `Ring::copy`).
    The reader's cursor is private and readers store nothing shared, so what one reader
    sees is independent of how many others there are. */
module PlaybackReading {
  import opened Options
  import opened Seqlock
  import opened AudioFormat

  /** Where the reader stands inside `read`; `attempt` counts its two tries. */
  datatype Phase =
    | Resting
    | Trying(attempt: nat)
    | Opening(attempt: nat)
    | Copying(attempt: nat, copy: Copy)
    | GivingUp(attempt: nat)

  datatype Delivered = Delivered(cursor: nat, gap: bool, block: Block)

  /** `blocks` is what the writer has begun to publish; `delivered` and `resyncs` are
      the reader's history, a resynchronisation as the cursors it moved between, and
      `calledAt` how many there were when the current call began. */
  datatype State = State(
    ring: Ring,
    payloadLen: nat,
    latency: nat,
    blocks: seq<Block>,
    phase: Phase,
    next: nat,
    gap: bool,
    delivered: seq<Delivered>,
    resyncs: seq<(nat, nat)>,
    calledAt: nat)

  datatype Step =
    | WriteBlock(block: Block)
    | WriteMore(write: WriteStep)
    | Call
    | LoadLatest
    | Open
    | CopyOne(i: nat)
    | Check
    | Resync

  predicate Init(s: State) {
    && s.ring.Laid() && s.ring.first == 0 && s.ring.width == BLOCK_WORDS + s.payloadLen
    && (forall i | 0 <= i < |s.ring.words| :: s.ring.words[i] == 0)
    && s.ring.cursor == 0 && s.ring.writer.Idle? && s.ring.log == []
    && s.latency <= |s.ring.words| - 1
    && s.blocks == [] && s.phase.Resting? && s.next == 0 && !s.gap && s.delivered == [] && s.resyncs == []
    && s.calledAt == 0
  }

  /** The cursor a reader starts or restarts at, `latency` behind the writer. */
  function Start(latest: nat, latency: nat): (c: nat)
    ensures 1 <= c <= latest + 1
    ensures latest + 1 - c == if latency <= latest then latency else latest
  {
    if latest + 1 > latency + 1 then latest + 1 - latency else 1
  }

  predicate Laid(s: State) {
    s.ring.Laid() && s.ring.width == BLOCK_WORDS + s.payloadLen
  }

  /** A conforming writer publishes blocks that fit, each starting where the last ended. */
  predicate Enabled(s: State, step: Step) {
    && Laid(s)
    && match step
       case WriteBlock(b) =>
         s.ring.writer.Idle? && Conforms(b, s.payloadLen) && b.position == NextPosition(s.blocks)
       case WriteMore(write) => !write.Begin? && CanWrite(s.ring, write)
       case Call => s.phase.Resting?
       case LoadLatest => s.phase.Trying?
       case Open => s.phase.Opening? && s.next >= 1
       case CopyOne(i) => s.phase.Copying? && i < s.ring.width
       case Check => s.phase.Copying? && Complete(s.phase.copy, s.ring.width)
       case Resync => s.phase.GivingUp?
  }

  function AfterLatest(s: State): State
    requires s.phase.Trying?
  {
    var latest := s.ring.cursor;
    var next := if s.next == 0 && latest > 0 then Start(latest, s.latency) else s.next;
    if s.phase.attempt >= 2 then s.(phase := Resting)
    else if next == 0 || next > latest then s.(phase := Resting, next := next)
    else if latest - next < |s.ring.words| then s.(phase := Opening(s.phase.attempt), next := next)
    else s.(phase := GivingUp(s.phase.attempt), next := next)
  }

  function AfterCheck(s: State): State
    requires Laid(s) && s.phase.Copying? && Complete(s.phase.copy, s.ring.width)
  {
    var block := Decode(CopiedWords(s.phase.copy, s.ring.width), s.payloadLen);
    if !Intact(s.ring, s.phase.copy) || block.None? then s.(phase := GivingUp(s.phase.attempt))
    else s.(phase := Resting, next := s.next + 1, gap := false,
            delivered := s.delivered + [Delivered(s.next, s.gap, block.value)])
  }

  function Apply(s: State, step: Step): State
    requires Enabled(s, step)
  {
    match step
    case WriteBlock(b) => s.(ring := Write(s.ring, Begin(BlockWords(b))), blocks := s.blocks + [b])
    case WriteMore(write) => s.(ring := Write(s.ring, write))
    case Call => s.(phase := Trying(0), calledAt := |s.resyncs|)
    case LoadLatest => AfterLatest(s)
    case Open => s.(phase := Copying(s.phase.attempt, OpenCopy(s.ring, s.next)))
    case CopyOne(i) => s.(phase := Copying(s.phase.attempt, CopyWord(s.ring, s.phase.copy, i)))
    case Check => AfterCheck(s)
    case Resync =>
      var next := Start(s.ring.cursor, s.latency);
      s.(phase := Trying(s.phase.attempt + 1), gap := true, next := next, resyncs := s.resyncs + [(s.next, next)])
  }

  // ---- Invariant ----

  ghost predicate RingInv(s: State) {
    && Inv(s.ring) && s.ring.first == 0 && s.ring.width == BLOCK_WORDS + s.payloadLen
    && s.latency <= |s.ring.words| - 1
    && |s.blocks| == |s.ring.log|
    && (forall k | 0 <= k < |s.blocks| :: Recorded(s, k))
    && Chained(s.blocks)
  }

  ghost predicate Recorded(s: State, k: nat)
    requires k < |s.blocks| == |s.ring.log|
  {
    s.ring.log[k] == BlockWords(s.blocks[k]) && Conforms(s.blocks[k], s.payloadLen)
  }

  /** The writer has begun to overwrite the block the reader wants. */
  predicate Overtaken(s: State) {
    s.next >= 1 && |s.ring.log| >= s.next + |s.ring.words|
  }

  ghost predicate PhaseInv(s: State)
    requires RingInv(s)
  {
    match s.phase
    case Resting => true
    case Trying(_) => true
    case Opening(_) => 1 <= s.next <= s.ring.cursor
    case Copying(_, copy) =>
      && copy.want == s.next <= s.ring.cursor && CopyInv(s.ring, copy)
      && (copy.seen != copy.want ==> Overtaken(s))
    case GivingUp(_) => Overtaken(s)
  }

  /** The `k`-th delivery is the block published at its cursor, later than the one
      before it, and its successor unless the gap flag says otherwise. */
  ghost predicate DeliveredInv(s: State, k: nat)
    requires k < |s.delivered|
  {
    var d := s.delivered[k];
    && 1 <= d.cursor <= |s.blocks| && d.block == s.blocks[d.cursor - 1]
    && (k > 0 ==> s.delivered[k - 1].cursor < d.cursor)
    && (k > 0 && !d.gap ==> d.cursor == s.delivered[k - 1].cursor + 1)
  }

  ghost predicate HistoryInv(s: State) {
    && (forall k | 0 <= k < |s.delivered| :: DeliveredInv(s, k))
    && (forall k | 0 <= k < |s.resyncs| :: s.resyncs[k].0 < s.resyncs[k].1)
    && (s.delivered != [] ==>
          var last := s.delivered[|s.delivered| - 1].cursor;
          last < s.next && (!s.gap ==> s.next == last + 1))
  }

  ghost predicate FullInv(s: State) {
    RingInv(s) && PhaseInv(s) && HistoryInv(s)
  }

  // ---- Preservation ----

  predicate WriterStep(step: Step) {
    step.WriteBlock? || step.WriteMore?
  }

  function WriteOf(step: Step): WriteStep
    requires WriterStep(step)
  {
    if step.WriteBlock? then Begin(BlockWords(step.block)) else step.write
  }

  lemma WriterKeepsRing(s: State, step: Step)
    requires FullInv(s) && Enabled(s, step) && WriterStep(step)
    ensures RingInv(Apply(s, step))
  {
    var s' := Apply(s, step);
    WriteKeepsInv(s.ring, WriteOf(step));
    forall k | 0 <= k < |s'.blocks| ensures |s'.blocks| == |s'.ring.log| && Recorded(s', k) {
      assert k < |s.blocks| ==> Recorded(s, k);
    }
    if step.WriteBlock? {
      ChainedAppend(s.blocks, step.block);
    }
  }

  lemma WriterKeepsPhase(s: State, step: Step)
    requires FullInv(s) && Enabled(s, step) && WriterStep(step) && RingInv(Apply(s, step))
    ensures PhaseInv(Apply(s, step))
  {
    if s.phase.Copying? {
      WriteKeepsCopy(s.ring, WriteOf(step), s.phase.copy);
    }
  }

  lemma WriterKeepsHistory(s: State, step: Step)
    requires HistoryInv(s) && Enabled(s, step) && WriterStep(step)
    ensures HistoryInv(Apply(s, step))
  {
    var s' := Apply(s, step);
    forall k | 0 <= k < |s'.delivered| ensures DeliveredInv(s', k) {
      assert DeliveredInv(s, k);
    }
  }

  lemma WriterKeepsInv(s: State, step: Step)
    requires FullInv(s) && Enabled(s, step) && WriterStep(step)
    ensures FullInv(Apply(s, step))
  {
    WriterKeepsRing(s, step);
    WriterKeepsPhase(s, step);
    WriterKeepsHistory(s, step);
  }

  /** A reader step changes nothing shared. */
  lemma RingUntouched(s: State, s': State)
    requires RingInv(s) && s'.ring == s.ring && s'.blocks == s.blocks
    requires s'.payloadLen == s.payloadLen && s'.latency == s.latency
    ensures RingInv(s')
  {
    forall k | 0 <= k < |s'.blocks| ensures Recorded(s', k) {
      assert Recorded(s, k);
    }
  }

  /** A copy that validates is the block published there, so a conforming writer never
      makes the reader give up for any reason but being overtaken. */
  lemma CheckDelivers(s: State)
    requires FullInv(s) && s.phase.Copying? && Complete(s.phase.copy, s.ring.width)
    ensures var block := Decode(CopiedWords(s.phase.copy, s.ring.width), s.payloadLen);
            if Intact(s.ring, s.phase.copy) then block == Some(s.blocks[s.next - 1]) else Overtaken(s)
  {
    WordNames(s.ring, s.next);
    if Intact(s.ring, s.phase.copy) {
      assert Recorded(s, s.next - 1);
      IntactCopyIsRecord(s.ring, s.phase.copy);
      DecodeInverts(s.blocks[s.next - 1], CopiedWords(s.phase.copy, s.ring.width), s.payloadLen);
    }
  }

  /** Giving a block up moves the reader strictly past it. */
  lemma ResyncMovesOn(s: State)
    requires FullInv(s) && s.phase.GivingUp?
    ensures Start(s.ring.cursor, s.latency) > s.next
  {
  }

  /** Deliveries already made stay what they are. */
  lemma DeliveredStays(s: State, s': State)
    requires HistoryInv(s) && s'.blocks == s.blocks && s.delivered <= s'.delivered
    ensures forall k | 0 <= k < |s.delivered| :: DeliveredInv(s', k)
  {
    forall k | 0 <= k < |s.delivered| ensures DeliveredInv(s', k) {
      assert DeliveredInv(s, k);
    }
  }

  lemma TryKeepsInv(s: State, step: Step)
    requires FullInv(s) && Enabled(s, step) && (step.Call? || step.CopyOne?)
    ensures FullInv(Apply(s, step))
  {
    var s' := Apply(s, step);
    RingUntouched(s, s');
    DeliveredStays(s, s');
  }

  lemma LoadKeepsInv(s: State)
    requires FullInv(s) && Enabled(s, LoadLatest)
    ensures FullInv(Apply(s, LoadLatest))
  {
    var s' := Apply(s, LoadLatest);
    RingUntouched(s, s');
    DeliveredStays(s, s');
  }

  lemma OpenKeepsInv(s: State)
    requires FullInv(s) && Enabled(s, Open)
    ensures FullInv(Apply(s, Open))
  {
    var s' := Apply(s, Open);
    RingUntouched(s, s');
    DeliveredStays(s, s');
    WordNames(s.ring, s.next);
  }

  lemma CheckKeepsInv(s: State)
    requires FullInv(s) && Enabled(s, Check)
    ensures FullInv(Apply(s, Check))
  {
    var s' := Apply(s, Check);
    RingUntouched(s, s');
    DeliveredStays(s, s');
    CheckDelivers(s);
    if Intact(s.ring, s.phase.copy) {
      assert DeliveredInv(s', |s.delivered|);
    }
  }

  lemma ResyncKeepsInv(s: State)
    requires FullInv(s) && Enabled(s, Resync)
    ensures FullInv(Apply(s, Resync))
  {
    var s' := Apply(s, Resync);
    RingUntouched(s, s');
    DeliveredStays(s, s');
    ResyncMovesOn(s);
  }

  lemma StepKeepsInv(s: State, step: Step)
    requires FullInv(s) && Enabled(s, step)
    ensures FullInv(Apply(s, step))
  {
    if step.WriteBlock? || step.WriteMore? {
      WriterKeepsInv(s, step);
    } else if step.Check? {
      CheckKeepsInv(s);
    } else if step.Resync? {
      ResyncKeepsInv(s);
    } else if step.LoadLatest? {
      LoadKeepsInv(s);
    } else if step.Open? {
      OpenKeepsInv(s);
    } else {
      TryKeepsInv(s, step);
    }
  }

  // ---- Runs ----

  ghost predicate Run(states: seq<State>, steps: seq<Step>) {
    && |states| == |steps| + 1
    && Init(states[0])
    && (forall k {:trigger steps[k]} | 0 <= k < |steps| ::
          Enabled(states[k], steps[k]) && states[k + 1] == Apply(states[k], steps[k]))
  }

  lemma {:induction false} RunKeepsInv(states: seq<State>, steps: seq<Step>, k: nat)
    requires Run(states, steps) && k < |states|
    ensures FullInv(states[k])
  {
    if k > 0 {
      RunKeepsInv(states, steps, k - 1);
      StepKeepsInv(states[k - 1], steps[k - 1]);
    }
  }

  /** In every interleaving with a conforming writer: delivered cursors strictly
      increase, each delivered block is the one the writer published at that cursor, a
      block without the gap flag follows the previous one directly, and every
      resynchronisation moves strictly past the block it gave up on. */
  lemma DeliveriesFollowWriter(states: seq<State>, steps: seq<Step>, k: nat, i: nat, j: nat)
    requires Run(states, steps) && k < |states| && i < j < |states[k].delivered|
    ensures var s := states[k];
            && s.delivered[i].cursor < s.delivered[j].cursor <= |s.blocks|
            && s.delivered[j].block == s.blocks[s.delivered[j].cursor - 1]
            && (!s.delivered[j].gap ==> s.delivered[j].cursor == s.delivered[j - 1].cursor + 1)
    ensures forall r | 0 <= r < |states[k].resyncs| :: states[k].resyncs[r].0 < states[k].resyncs[r].1
  {
    RunKeepsInv(states, steps, k);
    Increasing(states[k], i, j);
    assert DeliveredInv(states[k], j);
  }

  lemma {:induction false} Increasing(s: State, i: nat, j: nat)
    requires HistoryInv(s) && i < j < |s.delivered|
    ensures s.delivered[i].cursor < s.delivered[j].cursor
  {
    assert DeliveredInv(s, j);
    if i < j - 1 {
      Increasing(s, i, j - 1);
    }
  }

  lemma PositionsOf(blocks: seq<Block>, a: Delivered, b: Delivered)
    requires Chained(blocks) && 1 <= a.cursor <= b.cursor <= |blocks|
    requires a.block == blocks[a.cursor - 1] && b.block == blocks[b.cursor - 1]
    ensures b.block.position - a.block.position == FrameTotal(blocks[a.cursor - 1..b.cursor - 1])
  {
    PositionsConserve(blocks, a.cursor - 1, b.cursor - 1);
  }

  lemma PositionsBetween(s: State, i: nat, j: nat)
    requires HistoryInv(s) && Chained(s.blocks) && i < j < |s.delivered|
    ensures var a, b := s.delivered[i], s.delivered[j];
            && 1 <= a.cursor <= b.cursor <= |s.blocks|
            && b.block.position - a.block.position == FrameTotal(s.blocks[a.cursor - 1..b.cursor - 1])
  {
    Increasing(s, i, j);
    assert DeliveredInv(s, i) && DeliveredInv(s, j);
    PositionsOf(s.blocks, s.delivered[i], s.delivered[j]);
  }

  /** Between two delivered blocks the sample position advances by the frames of every
      block the writer published from the first up to the second, read or missed. */
  lemma DeliveredPositionsConserve(states: seq<State>, steps: seq<Step>, k: nat, i: nat, j: nat)
    requires Run(states, steps) && k < |states| && i < j < |states[k].delivered|
    ensures var s := states[k]; var a, b := s.delivered[i], s.delivered[j];
            && 1 <= a.cursor <= b.cursor <= |s.blocks|
            && b.block.position - a.block.position == FrameTotal(s.blocks[a.cursor - 1..b.cursor - 1])
  {
    RunKeepsInv(states, steps, k);
    PositionsBetween(states[k], i, j);
  }

  // ---- When a call comes back empty ----

  /** A block given up has begun to be overwritten. */
  ghost predicate GivenUpRightly(s: State, r: nat)
    requires r < |s.resyncs|
  {
    1 <= s.resyncs[r].0 && s.resyncs[r].0 + |s.ring.words| <= |s.ring.log|
  }

  /** The attempts of the call under way are the resynchronisations since it began. */
  ghost predicate CallInv(s: State) {
    && (forall r | 0 <= r < |s.resyncs| :: GivenUpRightly(s, r))
    && s.calledAt <= |s.resyncs|
    && (!s.phase.Resting? ==> |s.resyncs| == s.calledAt + s.phase.attempt)
    && (s.phase.Trying? ==> s.phase.attempt <= 2)
    && (!s.phase.Resting? && !s.phase.Trying? ==> s.phase.attempt <= 1)
  }

  lemma StepKeepsCall(s: State, step: Step)
    requires FullInv(s) && CallInv(s) && Enabled(s, step)
    ensures CallInv(Apply(s, step))
  {
    var s' := Apply(s, step);
    forall r | 0 <= r < |s'.resyncs|
      ensures GivenUpRightly(s', r)
    {
      assert r < |s.resyncs| ==> GivenUpRightly(s, r);
    }
  }

  lemma {:induction false} RunKeepsCall(states: seq<State>, steps: seq<Step>, k: nat)
    requires Run(states, steps) && k < |states|
    ensures CallInv(states[k])
  {
    if k > 0 {
      RunKeepsCall(states, steps, k - 1);
      RunKeepsInv(states, steps, k - 1);
      StepKeepsCall(states[k - 1], steps[k - 1]);
    }
  }

  /** The call delivered the block its cursor wanted and moved on by one; or the ring had
      nothing at that cursor yet; or it gave up twice, each time on a block the writer had
      begun to overwrite. */
  ghost predicate EndsRightly(s: State, s': State) {
    if s'.delivered != s.delivered then
      && 1 <= s.next <= |s.blocks| && s'.next == s.next + 1 && !s'.gap
      && s'.delivered == s.delivered + [Delivered(s.next, s.gap, s.blocks[s.next - 1])]
    else
      || s.ring.cursor < s'.next
      || s'.next == s.ring.cursor == 0
      || (|s.resyncs| == s.calledAt + 2 && forall r | s.calledAt <= r < |s.resyncs| :: GivenUpRightly(s, r))
  }

  lemma StepEnds(s: State, step: Step)
    requires FullInv(s) && CallInv(s) && Enabled(s, step)
    requires !s.phase.Resting? && Apply(s, step).phase.Resting?
    ensures EndsRightly(s, Apply(s, step))
  {
    if step.Check? {
      CheckDelivers(s);
    }
  }

  /** How every call ends, in every run. */
  lemma CallEnds(states: seq<State>, steps: seq<Step>, k: nat)
    requires Run(states, steps) && k < |steps|
    requires !states[k].phase.Resting? && states[k + 1].phase.Resting?
    ensures EndsRightly(states[k], states[k + 1])
  {
    RunKeepsInv(states, steps, k);
    RunKeepsCall(states, steps, k);
    StepEnds(states[k], steps[k]);
  }

  /** Where the cursor goes: a reader starts, and restarts after giving up, as far behind
      the writer as its latency asks and the ring has blocks, and stays where it is
      otherwise. */
  lemma CursorMoves(states: seq<State>, steps: seq<Step>, k: nat)
    requires Run(states, steps) && k < |steps|
    ensures var s, s' := states[k], states[k + 1];
            var behind := if s.latency <= s.ring.cursor then s.latency else s.ring.cursor;
            match steps[k]
            case LoadLatest =>
              if s.next == 0 && s.ring.cursor > 0 && s.phase.attempt < 2 then s.ring.cursor + 1 - s'.next == behind
              else s'.next == s.next
            case Resync => s.ring.cursor + 1 - s'.next == behind
            case Check => s'.next == s.next || s'.next == s.next + 1
            case _ => s'.next == s.next
  {
    assert Enabled(states[k], steps[k]) && states[k + 1] == Apply(states[k], steps[k]);
  }

  /** Nobody is ever stuck: the writer can go on, and so can a reader inside a call. */
  lemma NeverStuck(s: State, b: Block) returns (write: Step, read: Step)
    requires FullInv(s) && Conforms(b, s.payloadLen) && b.position == NextPosition(s.blocks)
    ensures WriterStep(write) && Enabled(s, write)
    ensures !WriterStep(read) && Enabled(s, read)
  {
    write := if s.ring.writer.Idle? then WriteBlock(b) else WriteMore(NextWrite(s.ring));
    match s.phase
    case Resting => read := Call;
    case Trying(_) => read := LoadLatest;
    case Opening(_) => read := Open;
    case Copying(_, copy) =>
      if i :| 0 <= i < s.ring.width && i !in copy.words { read := CopyOne(i); } else { read := Check; }
    case GivingUp(_) => read := Resync;
  }
}
