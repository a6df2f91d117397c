/** One producer pushing frames and any number of readers fetching them by cursor, as
    interleaved single loads and stores (crates/jackstay/src/control_page.rs, `push`,
    `ensure_stream_config`, `read_entry_for_cursor`). A read merges a frame slot with a
    stream config that lives in a second, independently overwritten ring. */
module VideoRing {
  import opened Options
  import opened Seqlock
  import opened VideoFrames

  /** Where the producer stands inside `push`. */
  datatype Producer =
    | Ready
    | Configuring(entry: Pending)
    | Selected(entry: Pending, generation: nat)
    | Publishing

  /** Where a reader stands inside `read_entry_for_cursor`. */
  datatype Reader =
    | Asked(c: nat)
    | Found(c: nat, latest: nat)
    | Live(at: Cursor)
    | CopyingSlot(copy: Copy)
    | HaveSlot(at: Cursor, frame: Frame, generation: Cursor)
    | CopyingConfig(at: Cursor, frame: Frame, copy: Copy)
    | Done(c: nat, result: ReadResult)

  /** `pushed` and `generations` are history: what each cursor was pushed with. */
  datatype State = State(
    slots: Ring,
    configs: Ring,
    cached: Option<(nat, Stream)>,
    producer: Producer,
    readers: map<nat, Reader>,
    pushed: seq<Pending>,
    generations: seq<nat>)

  datatype ReadStep =
    | LoadLatest | LoadOldest
    | OpenSlot | CopySlot(i: nat) | CheckSlot
    | OpenConfig | CopyConfig(i: nat) | CheckConfig

  datatype Step =
    | Push(entry: Pending)
    | StoreConfig(write: WriteStep)
    | BeginSlot
    | StoreSlot(write: WriteStep)
    | Ask(r: nat, c: nat)
    | Read(r: nat, read: ReadStep)

  predicate Init(s: State) {
    && |s.slots.words| >= 1
    && s.slots == EmptyRing(|s.slots.words|, 0, SLOT_WORDS)
    && s.configs == EmptyRing(CONFIG_RING_CAPACITY, 1, CONFIG_WORDS)
    && s.cached.None? && s.producer.Ready? && s.readers == map[] && s.pushed == [] && s.generations == []
  }

  function EmptyRing(n: nat, first: nat, width: nat): Ring {
    Ring(first, width, seq(n, _ => 0), seq(n, _ => seq(width, _ => 0)), 0, Idle, [])
  }

  // ---- Steps ----

  /** The page layout, fixed at creation. */
  predicate Laid(s: State) {
    && s.slots.Laid() && s.slots.width == SLOT_WORDS
    && s.configs.Laid() && s.configs.width == CONFIG_WORDS
  }

  predicate CanRead(reader: Reader, read: ReadStep) {
    match read
    case LoadLatest => reader.Asked?
    case LoadOldest => reader.Found?
    case OpenSlot => reader.Live?
    case CopySlot(i) => reader.CopyingSlot? && i < SLOT_WORDS
    case CheckSlot => reader.CopyingSlot? && Complete(reader.copy, SLOT_WORDS)
    case OpenConfig => reader.HaveSlot?
    case CopyConfig(i) => reader.CopyingConfig? && i < CONFIG_WORDS
    case CheckConfig => reader.CopyingConfig? && Complete(reader.copy, CONFIG_WORDS)
  }

  predicate Enabled(s: State, step: Step) {
    && Laid(s)
    && match step
       case Push(_) => s.producer.Ready? && CanWrite(s.configs, Begin([]))
       case StoreConfig(write) => s.producer.Configuring? && !write.Begin? && CanWrite(s.configs, write)
       case BeginSlot => s.producer.Selected? && CanWrite(s.slots, Begin([]))
       case StoreSlot(write) => s.producer.Publishing? && !write.Begin? && CanWrite(s.slots, write)
       case Ask(r, _) => r in s.readers ==> s.readers[r].Done?
       case Read(r, read) => r in s.readers && CanRead(s.readers[r], read)
  }

  function AfterRead(s: State, reader: Reader, read: ReadStep): Reader
    requires Laid(s) && CanRead(reader, read)
  {
    match read
    case LoadLatest =>
      var latest := s.slots.cursor;
      if latest == 0 then Done(reader.c, Err(Empty))
      else if reader.c > latest then Done(reader.c, Err(NotPublished(reader.c, latest)))
      else Found(reader.c, latest)
    case LoadOldest =>
      var oldest := OldestLive(s.slots.cursor, |s.slots.words|);
      if reader.c < oldest then Done(reader.c, Err(Lapped(reader.c, oldest, reader.latest)))
      else Live(reader.c)
    case OpenSlot => CopyingSlot(OpenCopy(s.slots, reader.at))
    case CopySlot(i) => CopyingSlot(CopyWord(s.slots, reader.copy, i))
    case CheckSlot =>
      var c := reader.copy.want;
      if !Intact(s.slots, reader.copy) then
        Done(c, Err(SlotSequenceMismatch(c, reader.copy.seen, s.slots.words[s.slots.Index(c)])))
      else
        var words := CopiedWords(reader.copy, SLOT_WORDS);
        if GenerationOf(words) == 0 then Done(c, Err(ConfigOverwritten(c, 0, 0, 0)))
        else HaveSlot(c, FrameOf(words), GenerationOf(words))
    case OpenConfig => CopyingConfig(reader.at, reader.frame, OpenCopy(s.configs, reader.generation))
    case CopyConfig(i) => CopyingConfig(reader.at, reader.frame, CopyWord(s.configs, reader.copy, i))
    case CheckConfig =>
      var g := reader.copy.want;
      if !Intact(s.configs, reader.copy) then
        Done(reader.at, Err(ConfigOverwritten(reader.at, g, reader.copy.seen, s.configs.words[s.configs.Index(g)])))
      else
        Done(reader.at, Ok(Entry(reader.at, g, reader.frame, StreamOf(CopiedWords(reader.copy, CONFIG_WORDS)))))
  }

  function Apply(s: State, step: Step): State
    requires Enabled(s, step)
  {
    match step
    case Push(entry) =>
      if s.cached.Some? && s.cached.value.1 == entry.stream then s.(producer := Selected(entry, s.cached.value.0))
      else s.(configs := Write(s.configs, Begin(ConfigWords(entry.stream))), producer := Configuring(entry))
    case StoreConfig(write) =>
      var configs := Write(s.configs, write);
      if write.Announce? then
        var entry := s.producer.entry;
        s.(configs := configs, cached := Some((configs.cursor, entry.stream)),
           producer := Selected(entry, configs.cursor))
      else s.(configs := configs)
    case BeginSlot =>
      var Selected(entry, generation) := s.producer;
      s.(slots := Write(s.slots, Begin(SlotWords(entry.frame, generation))), producer := Publishing,
         pushed := s.pushed + [entry], generations := s.generations + [generation])
    case StoreSlot(write) =>
      s.(slots := Write(s.slots, write), producer := if write.Announce? then Ready else Publishing)
    case Ask(r, c) => s.(readers := s.readers[r := Asked(c)])
    case Read(r, read) => s.(readers := s.readers[r := AfterRead(s, s.readers[r], read)])
  }

  // ---- Invariant ----

  /** Generation `g` was written with the values of `stream`. */
  ghost predicate Names(configs: Ring, g: nat, stream: Stream) {
    1 <= g <= configs.cursor <= |configs.log| && configs.log[g - 1] == ConfigWords(stream)
  }

  ghost predicate HistoryInv(s: State) {
    && |s.pushed| == |s.generations| == |s.slots.log|
    && (forall k | 0 <= k < |s.pushed| :: Recorded(s, k))
  }

  /** Frame `k` is in the slot log under the generation its stream values were given. */
  ghost predicate Recorded(s: State, k: nat)
    requires k < |s.pushed| == |s.generations| == |s.slots.log|
  {
    && s.slots.log[k] == SlotWords(s.pushed[k].frame, s.generations[k])
    && Names(s.configs, s.generations[k], s.pushed[k].stream)
  }

  ghost predicate ProducerInv(s: State)
    requires RingsInv(s)
  {
    && (s.producer.Publishing? <==> !s.slots.writer.Idle?)
    && (s.producer.Configuring? <==> !s.configs.writer.Idle?)
    && (s.producer.Configuring? ==> s.configs.log[s.configs.cursor] == ConfigWords(s.producer.entry.stream))
    && (s.producer.Selected? ==> Names(s.configs, s.producer.generation, s.producer.entry.stream))
    && (s.cached.Some? ==> Names(s.configs, s.cached.value.0, s.cached.value.1))
  }

  ghost predicate RingsInv(s: State) {
    && Seqlock.Inv(s.slots) && s.slots.first == 0 && s.slots.width == SLOT_WORDS
    && Seqlock.Inv(s.configs) && s.configs.first == 1 && s.configs.width == CONFIG_WORDS
    && |s.configs.words| == CONFIG_RING_CAPACITY
  }

  ghost predicate Inv(s: State) {
    && RingsInv(s)
    && ProducerInv(s)
    && HistoryInv(s)
    && (forall r | r in s.readers :: ReaderInv(s, s.readers[r]))
  }

  /** What an answered read promises. A value is exactly what was pushed at that
      cursor; a refusal has its cause: the cursor was not there, or the producer has
      begun to overwrite the slot or the config, or the generation does not fit. */
  ghost predicate Answer(s: State, c: nat, result: ReadResult) {
    match result
    case Ok(e) =>
      && 1 <= c <= s.slots.cursor && c <= |s.pushed| == |s.generations|
      && e == Entry(c, s.generations[c - 1], s.pushed[c - 1].frame, s.pushed[c - 1].stream)
    case Err(Empty) => true
    case Err(NotPublished(requested, latest)) => requested == c && latest < c && latest <= s.slots.cursor
    case Err(Lapped(requested, oldest, latest)) =>
      requested == c && c < oldest && latest <= s.slots.cursor && (c == 0 || c + |s.slots.words| <= s.slots.cursor)
    case Err(SlotSequenceMismatch(requested, _, _)) => requested == c && c + |s.slots.words| <= |s.slots.log|
    case Err(ConfigOverwritten(requested, generation, _, _)) =>
      && requested == c && 1 <= c <= |s.generations|
      && generation == s.generations[c - 1] % GENERATION_RANGE
      && (s.generations[c - 1] >= GENERATION_RANGE
          || s.generations[c - 1] + CONFIG_RING_CAPACITY <= |s.configs.log|)
  }

  /** The reader holds the frame part of what was pushed at its cursor. */
  ghost predicate HasSlot(s: State, c: nat, frame: Frame, generation: nat) {
    && 1 <= c <= s.slots.cursor && c <= |s.pushed| == |s.generations|
    && frame == s.pushed[c - 1].frame
    && 1 <= generation == s.generations[c - 1] % GENERATION_RANGE
  }

  ghost predicate ReaderInv(s: State, reader: Reader)
    requires RingsInv(s)
  {
    match reader
    case Asked(c) => true
    case Found(c, latest) => c <= latest <= s.slots.cursor && latest >= 1
    case Live(at) => at <= s.slots.cursor
    case CopyingSlot(copy) =>
      && copy.want <= s.slots.cursor && CopyInv(s.slots, copy)
      && (copy.seen != copy.want ==> copy.want + |s.slots.words| <= |s.slots.log|)
    case HaveSlot(at, frame, generation) => HasSlot(s, at, frame, generation)
    case CopyingConfig(at, frame, copy) =>
      && HasSlot(s, at, frame, copy.want) && CopyInv(s.configs, copy)
      && (copy.seen != copy.want ==> copy.want + CONFIG_RING_CAPACITY <= |s.configs.log|)
    case Done(c, result) => Answer(s, c, result)
  }

  // ---- Preservation ----

  /** The two rings only gain records, and copies under way stay sound. */
  ghost predicate Grows(s: State, s': State) {
    && RingsInv(s) && RingsInv(s')
    && |s'.slots.words| == |s.slots.words|
    && s.slots.cursor <= s'.slots.cursor && s.slots.log <= s'.slots.log && s.configs.log <= s'.configs.log
    && s.configs.cursor <= s'.configs.cursor
    && s.pushed <= s'.pushed && s.generations <= s'.generations && |s'.pushed| == |s'.generations|
    && (forall copy: Copy | CopyInv(s.slots, copy) :: CopyInv(s'.slots, copy))
    && (forall copy: Copy | CopyInv(s.configs, copy) :: CopyInv(s'.configs, copy))
  }

  lemma ReaderStable(s: State, s': State, reader: Reader)
    requires Grows(s, s') && ReaderInv(s, reader)
    ensures ReaderInv(s', reader)
  {
    assert reader.CopyingSlot? ==> CopyInv(s.slots, reader.copy);
    assert reader.CopyingConfig? ==> CopyInv(s.configs, reader.copy);
  }

  lemma WriteGrows(r: Ring, write: WriteStep)
    requires Seqlock.Inv(r) && CanWrite(r, write)
    ensures Seqlock.Inv(Write(r, write))
    ensures r.log <= Write(r, write).log && r.cursor <= Write(r, write).cursor
    ensures |Write(r, write).words| == |r.words|
    ensures forall copy: Copy | CopyInv(r, copy) :: CopyInv(Write(r, write), copy)
  {
    WriteKeepsInv(r, write);
    forall copy: Copy | CopyInv(r, copy) ensures CopyInv(Write(r, write), copy) {
      WriteKeepsCopy(r, write, copy);
    }
  }

  predicate ProducerStep(step: Step) {
    !step.Ask? && !step.Read?
  }

  lemma ProducerGrows(s: State, step: Step)
    requires Inv(s) && Enabled(s, step) && ProducerStep(step)
    ensures Grows(s, Apply(s, step))
  {
    match step
    case Push(entry) =>
      if !(s.cached.Some? && s.cached.value.1 == entry.stream) {
        WriteGrows(s.configs, Begin(ConfigWords(entry.stream)));
      }
    case StoreConfig(write) => WriteGrows(s.configs, write);
    case BeginSlot => WriteGrows(s.slots, Begin(SlotWords(s.producer.entry.frame, s.producer.generation)));
    case StoreSlot(write) => WriteGrows(s.slots, write);
  }

  lemma ProducerKeepsHistory(s: State, step: Step)
    requires Inv(s) && Enabled(s, step) && ProducerStep(step)
    ensures RingsInv(Apply(s, step)) && ProducerInv(Apply(s, step)) && HistoryInv(Apply(s, step))
  {
    ProducerGrows(s, step);
    var s' := Apply(s, step);
    forall k | 0 <= k < |s'.pushed| ensures |s'.slots.log| == |s'.pushed| && Recorded(s', k) {
      assert k < |s.pushed| ==> Recorded(s, k);
    }
  }

  /** A copy of a config that validates is the config the frame named: a truncated
      generation can only survive in the ring when nothing was cut off. */
  lemma ValidConfigIsNamed(s: State, reader: Reader)
    requires Inv(s) && reader.CopyingConfig? && ReaderInv(s, reader)
    requires Complete(reader.copy, CONFIG_WORDS) && Intact(s.configs, reader.copy)
    ensures reader.copy.want == s.generations[reader.at - 1]
    ensures StreamOf(CopiedWords(reader.copy, CONFIG_WORDS)) == s.pushed[reader.at - 1].stream
  {
    var g := s.generations[reader.at - 1];
    assert Recorded(s, reader.at - 1);
    WordNames(s.configs, reader.copy.want);
    TruncationKeepsSlot(g);
    assert reader.copy.want <= g < reader.copy.want + CONFIG_RING_CAPACITY;
    IntactCopyIsRecord(s.configs, reader.copy);
    assert CopiedWords(reader.copy, CONFIG_WORDS) == ConfigWords(s.pushed[reader.at - 1].stream);
    ConfigRoundTrip(s.pushed[reader.at - 1].stream);
  }

  lemma ValidSlotIsPushed(s: State, reader: Reader)
    requires Inv(s) && reader.CopyingSlot? && ReaderInv(s, reader)
    requires Complete(reader.copy, SLOT_WORDS) && Intact(s.slots, reader.copy)
    ensures var k, words := reader.copy.want - 1, CopiedWords(reader.copy, SLOT_WORDS);
            && k < |s.pushed| == |s.generations|
            && FrameOf(words) == s.pushed[k].frame && GenerationOf(words) == s.generations[k] % GENERATION_RANGE
  {
    IntactCopyIsRecord(s.slots, reader.copy);
    var k := reader.copy.want - 1;
    assert Recorded(s, k);
    assert CopiedWords(reader.copy, SLOT_WORDS) == SlotWords(s.pushed[k].frame, s.generations[k]);
    SlotRoundTrip(s.pushed[k].frame, s.generations[k]);
  }

  lemma CheckSlotKeepsInv(s: State, reader: Reader)
    requires Inv(s) && ReaderInv(s, reader) && CanRead(reader, CheckSlot)
    ensures ReaderInv(s, AfterRead(s, reader, CheckSlot))
  {
    var copy := reader.copy;
    if Intact(s.slots, copy) {
      ValidSlotIsPushed(s, reader);
      var k, words := copy.want - 1, CopiedWords(copy, SLOT_WORDS);
      assert Recorded(s, k);
      if GenerationOf(words) == 0 {
        assert s.generations[k] >= GENERATION_RANGE;
        assert Answer(s, copy.want, Err(ConfigOverwritten(copy.want, 0, 0, 0)));
      } else {
        assert HasSlot(s, copy.want, FrameOf(words), GenerationOf(words));
      }
    } else {
      WordNames(s.slots, copy.want);
    }
  }

  lemma SlotReadKeepsInv(s: State, reader: Reader, read: ReadStep)
    requires Inv(s) && ReaderInv(s, reader) && CanRead(reader, read)
    requires read.OpenSlot? || read.CopySlot? || read.CheckSlot?
    ensures ReaderInv(s, AfterRead(s, reader, read))
  {
    if read.OpenSlot? {
      WordNames(s.slots, reader.at);
    } else if read.CheckSlot? {
      CheckSlotKeepsInv(s, reader);
    }
  }

  lemma ConfigReadKeepsInv(s: State, reader: Reader, read: ReadStep)
    requires Inv(s) && ReaderInv(s, reader) && CanRead(reader, read)
    requires read.OpenConfig? || read.CopyConfig? || read.CheckConfig?
    ensures ReaderInv(s, AfterRead(s, reader, read))
  {
    WordNames(s.configs, if read.OpenConfig? then reader.generation else reader.copy.want);
    var g := s.generations[reader.at - 1];
    assert Recorded(s, reader.at - 1);
    TruncationKeepsSlot(g);
    if read.CheckConfig? && Intact(s.configs, reader.copy) {
      ValidConfigIsNamed(s, reader);
    }
  }

  lemma ReadKeepsInv(s: State, reader: Reader, read: ReadStep)
    requires Inv(s) && ReaderInv(s, reader) && CanRead(reader, read)
    ensures ReaderInv(s, AfterRead(s, reader, read))
  {
    if read.OpenSlot? || read.CopySlot? || read.CheckSlot? {
      SlotReadKeepsInv(s, reader, read);
    } else if read.OpenConfig? || read.CopyConfig? || read.CheckConfig? {
      ConfigReadKeepsInv(s, reader, read);
    }
  }

  lemma StepKeepsInv(s: State, step: Step)
    requires Inv(s) && Enabled(s, step)
    ensures Inv(Apply(s, step))
  {
    var s' := Apply(s, step);
    if ProducerStep(step) {
      ProducerGrows(s, step);
      ProducerKeepsHistory(s, step);
      forall r | r in s'.readers ensures ReaderInv(s', s'.readers[r]) {
        ReaderStable(s, s', s.readers[r]);
      }
    } else {
      if step.Read? {
        ReadKeepsInv(s, s.readers[step.r], step.read);
      }
      SameHistory(s, s');
      forall r | r in s'.readers ensures ReaderInv(s', s'.readers[r]) {
        SameRings(s, s', s'.readers[r]);
      }
    }
  }

  lemma SameHistory(s: State, s': State)
    requires HistoryInv(s) && s' == s.(readers := s'.readers)
    ensures HistoryInv(s')
  {
    forall k | 0 <= k < |s'.pushed| ensures Recorded(s', k) {
      assert Recorded(s, k);
    }
  }

  lemma SameRings(s: State, s': State, reader: Reader)
    requires RingsInv(s) && s' == s.(readers := s'.readers)
    ensures RingsInv(s') && (ReaderInv(s, reader) <==> ReaderInv(s', reader))
  {
  }

  // ---- Runs ----

  /** An interleaving of the producer's stores with the loads of any readers. */
  ghost predicate Run(states: seq<State>, steps: seq<Step>) {
    && |states| == |steps| + 1
    && Init(states[0])
    && (forall k {:trigger steps[k]} | 0 <= k < |steps| ::
          Enabled(states[k], steps[k]) && states[k + 1] == Apply(states[k], steps[k]))
  }

  lemma {:induction false} RunKeepsInv(states: seq<State>, steps: seq<Step>, k: nat)
    requires Run(states, steps) && k < |states|
    ensures Inv(states[k])
  {
    if k > 0 {
      RunKeepsInv(states, steps, k - 1);
      StepKeepsInv(states[k - 1], steps[k - 1]);
    }
  }

  /** Some state of the run, no later than state `k`, had this value to load. */
  ghost predicate CursorWas(states: seq<State>, k: nat, cursor: nat)
    requires k < |states|
  {
    exists j | 0 <= j <= k :: states[j].slots.cursor == cursor
  }

  ghost predicate OldestWas(states: seq<State>, k: nat, oldest: nat)
    requires k < |states|
  {
    exists j | 0 <= j <= k :: OldestLive(states[j].slots.cursor, |states[j].slots.words|) == oldest
  }

  ghost predicate SlotWas(states: seq<State>, k: nat, c: Cursor, word: nat)
    requires k < |states|
  {
    exists j | 0 <= j <= k ::
      states[j].slots.Laid() && states[j].slots.words[states[j].slots.Index(c)] == word
  }

  ghost predicate ConfigWas(states: seq<State>, k: nat, g: Cursor, word: nat)
    requires k < |states|
  {
    exists j | 0 <= j <= k ::
      states[j].configs.Laid() && states[j].configs.words[states[j].configs.Index(g)] == word
  }

  /** Everything a reader remembers or reports of the cursors and sequence words was there
      to be loaded. */
  ghost predicate Seen(states: seq<State>, k: nat, reader: Reader)
    requires k < |states|
  {
    match reader
    case Asked(_) => true
    case Found(_, latest) => CursorWas(states, k, latest)
    case Live(_) => true
    case CopyingSlot(copy) => SlotWas(states, k, copy.want, copy.seen)
    case HaveSlot(_, _, _) => true
    case CopyingConfig(_, _, copy) => ConfigWas(states, k, copy.want, copy.seen)
    case Done(c, result) => ReportSeen(states, k, c, result)
  }

  ghost predicate ReportSeen(states: seq<State>, k: nat, c: nat, result: ReadResult)
    requires k < |states|
  {
    match result
    case Ok(_) => true
    case Err(Empty) => CursorWas(states, k, 0)
    case Err(NotPublished(_, latest)) => CursorWas(states, k, latest)
    case Err(Lapped(_, oldest, latest)) => CursorWas(states, k, latest) && OldestWas(states, k, oldest)
    case Err(SlotSequenceMismatch(_, first, second)) =>
      c >= 1 && SlotWas(states, k, c, first) && SlotWas(states, k, c, second)
    case Err(ConfigOverwritten(_, g, first, second)) =>
      if g == 0 then first == second == 0 else ConfigWas(states, k, g, first) && ConfigWas(states, k, g, second)
  }

  lemma SeenStays(states: seq<State>, k: nat, reader: Reader)
    requires k + 1 < |states| && Seen(states, k, reader)
    ensures Seen(states, k + 1, reader)
  {
  }

  /** A load sees the state it is made in. */
  lemma LoadSeen(states: seq<State>, k: nat, reader: Reader, read: ReadStep)
    requires k < |states| && Laid(states[k]) && CanRead(reader, read) && Seen(states, k, reader)
    ensures Seen(states, k, AfterRead(states[k], reader, read))
  {
    var s := states[k];
    assert CursorWas(states, k, s.slots.cursor);
    assert OldestWas(states, k, OldestLive(s.slots.cursor, |s.slots.words|));
    match read
    case OpenSlot => assert SlotWas(states, k, reader.at, s.slots.words[s.slots.Index(reader.at)]);
    case CheckSlot =>
      var c := reader.copy.want;
      assert SlotWas(states, k, c, s.slots.words[s.slots.Index(c)]);
    case OpenConfig =>
      assert ConfigWas(states, k, reader.generation, s.configs.words[s.configs.Index(reader.generation)]);
    case CheckConfig =>
      var g := reader.copy.want;
      assert ConfigWas(states, k, g, s.configs.words[s.configs.Index(g)]);
    case _ =>
  }

  lemma {:induction false} EveryReportSeen(states: seq<State>, steps: seq<Step>, k: nat, r: nat)
    requires Run(states, steps) && k < |states| && r in states[k].readers
    ensures Seen(states, k, states[k].readers[r])
  {
    if k > 0 {
      var s, step := states[k - 1], steps[k - 1];
      assert Enabled(s, step) && states[k] == Apply(s, step);
      if r in s.readers {
        EveryReportSeen(states, steps, k - 1, r);
        if step.Read? && step.r == r {
          LoadSeen(states, k - 1, s.readers[r], step.read);
        }
        if !(step.Ask? && step.r == r) {
          SeenStays(states, k - 1, states[k].readers[r]);
        }
      }
    }
  }

  /** In any run, a read that returns a value returns, field for field, the entry
      pushed at its cursor, stream values included; no bound on the generations is
      needed. A read that fails asked for a cursor outside the ring, has been
      overtaken, or named a generation that does not fit 32 bits; and every cursor and
      sequence word it reports stood there at some moment of the run. */
  lemma EveryReadAnswers(states: seq<State>, steps: seq<Step>, k: nat, r: nat)
    requires Run(states, steps) && k < |states|
    requires r in states[k].readers && states[k].readers[r].Done?
    ensures Answer(states[k], states[k].readers[r].c, states[k].readers[r].result)
    ensures ReportSeen(states, k, states[k].readers[r].c, states[k].readers[r].result)
  {
    RunKeepsInv(states, steps, k);
    EveryReportSeen(states, steps, k, r);
  }

  // ---- Generations count the stream changes ----

  /** The generation a further entry is to be published under. */
  function NextGeneration(s: State, entry: Pending): nat
    requires |s.pushed| == |s.generations|
  {
    if s.pushed == [] then 1
    else
      var last := |s.pushed| - 1;
      s.generations[last] + if s.pushed[last].stream == entry.stream then 0 else 1
  }

  /** The cache is the configuration of the last entry pushed. */
  ghost predicate CacheIsLast(s: State)
    requires |s.pushed| == |s.generations|
  {
    if s.pushed == [] then s.cached.None? && s.configs.cursor == 0
    else s.cached == Some((s.generations[|s.pushed| - 1], s.pushed[|s.pushed| - 1].stream))
         && s.generations[|s.pushed| - 1] == s.configs.cursor
  }

  ghost predicate GenerationsInv(s: State) {
    && |s.pushed| == |s.generations|
    && (forall k | 0 <= k < |s.pushed| :: CountedAt(s, k))
    && match s.producer
       case Ready => CacheIsLast(s)
       case Publishing => CacheIsLast(s)
       case Configuring(entry) => CacheIsLast(s) && NextGeneration(s, entry) == s.configs.cursor + 1
       case Selected(entry, g) =>
         s.cached == Some((g, entry.stream)) && g == s.configs.cursor && g == NextGeneration(s, entry)
  }

  ghost predicate CountedAt(s: State, k: nat)
    requires k < |s.pushed| == |s.generations|
  {
    s.generations[k] == GenerationAt(s.pushed, k)
  }

  lemma StepKeepsGenerations(s: State, step: Step)
    requires Inv(s) && GenerationsInv(s) && Enabled(s, step)
    ensures GenerationsInv(Apply(s, step))
  {
    var s' := Apply(s, step);
    forall k | 0 <= k < |s'.pushed| && |s'.pushed| == |s'.generations|
      ensures CountedAt(s', k)
    {
      if k < |s.pushed| {
        assert CountedAt(s, k);
        if step.BeginSlot? {
          GenerationOfPrefix(s.pushed, s.producer.entry, k);
        }
      } else if k > 0 {
        assert CountedAt(s, k - 1);
        GenerationOfPrefix(s.pushed, s.producer.entry, k - 1);
      }
    }
  }

  /** In every run the generation of an entry counts the stream changes up to it, so an
      unchanged stream is never given a new configuration. */
  lemma {:induction false} GenerationsCountChanges(states: seq<State>, steps: seq<Step>, k: nat)
    requires Run(states, steps) && k < |states|
    ensures GenerationsInv(states[k])
    ensures states[k].generations == AllGenerations(states[k].pushed)
  {
    if k > 0 {
      GenerationsCountChanges(states, steps, k - 1);
      RunKeepsInv(states, steps, k - 1);
      StepKeepsGenerations(states[k - 1], steps[k - 1]);
    }
    var s := states[k];
    forall i | 0 <= i < |s.pushed|
      ensures s.generations[i] == AllGenerations(s.pushed)[i]
    {
      assert CountedAt(s, i);
    }
  }

  // ---- Nobody is stuck ----

  /** The producer can always go on, and so can every reader that has not finished. */
  lemma NeverStuck(s: State, r: nat, entry: Pending) returns (produce: Step, read: ReadStep)
    requires Inv(s)
    ensures ProducerStep(produce) && Enabled(s, produce)
    ensures r in s.readers && !s.readers[r].Done? ==> Enabled(s, Read(r, read))
  {
    produce := match s.producer
      case Ready => Push(entry)
      case Configuring(_) => StoreConfig(NextWrite(s.configs))
      case Selected(_, _) => BeginSlot
      case Publishing => StoreSlot(NextWrite(s.slots));
    read := LoadLatest;
    if r in s.readers {
      match s.readers[r]
      case Asked(_) =>
      case Found(_, _) => read := LoadOldest;
      case Live(_) => read := OpenSlot;
      case CopyingSlot(copy) =>
        if i :| 0 <= i < SLOT_WORDS && i !in copy.words { read := CopySlot(i); } else { read := CheckSlot; }
      case HaveSlot(_, _, _) => read := OpenConfig;
      case CopyingConfig(_, _, copy) =>
        if i :| 0 <= i < CONFIG_WORDS && i !in copy.words { read := CopyConfig(i); } else { read := CheckConfig; }
      case Done(_, _) =>
    }
  }
}
