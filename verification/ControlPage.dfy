/** The video track control page between operations: the two seqlock rings behave as
    one append-only log of pushed frames (crates/jackstay/src/control_page.rs). */
module ControlPage {
  import opened Options
  import opened Modular
  import opened Seqlock
  import opened VideoFrames
  import VideoRing

  // ---- Geometry ----

  function Pow2(k: nat): (p: nat)
    ensures p >= 1
  {
    if k == 0 then 1 else 2 * Pow2(k - 1)
  }

  ghost predicate PowerOfTwo(n: nat) {
    exists k: nat :: n == Pow2(k)
  }

  function RoundUp(n: nat, power: nat): nat
    requires power >= 1
    decreases n - power
  {
    if power >= n then power else RoundUp(n, 2 * power)
  }

  /** The ring capacity a request is rounded up to. */
  function RingCapacityFor(requested: nat): nat {
    RoundUp(if requested == 0 then 1 else requested, 1)
  }

  lemma {:induction false} RoundUpIsLeastPower(n: nat, k: nat)
    requires n >= 1 && (k == 0 || Pow2(k - 1) < n)
    ensures var p := RoundUp(n, Pow2(k)); p >= n && PowerOfTwo(p) && p < 2 * n
    decreases n - Pow2(k)
  {
    if Pow2(k) >= n {
      assert k > 0 ==> Pow2(k) == 2 * Pow2(k - 1);
    } else {
      assert Pow2(k + 1) == 2 * Pow2(k);
      RoundUpIsLeastPower(n, k + 1);
    }
  }

  /** The rounded capacity is the least power of two that holds the request. */
  lemma CapacityIsLeastPower(requested: nat)
    ensures var p := RingCapacityFor(requested); p >= 1 && p >= requested && PowerOfTwo(p)
    ensures requested >= 1 ==> RingCapacityFor(requested) < 2 * requested
  {
    RoundUpIsLeastPower(if requested == 0 then 1 else requested, 0);
  }

  /** Bitwise conjunction of two natural numbers. */
  function BitAnd(a: nat, b: nat): nat {
    if a == 0 || b == 0 then 0
    else 2 * BitAnd(a / 2, b / 2) + (if a % 2 == 1 && b % 2 == 1 then 1 else 0)
  }

  lemma HalvedRemainder(a: nat, half: nat)
    requires half >= 1
    ensures a % (2 * half) == 2 * (a / 2 % half) + a % 2
  {
    var q, r := a / 2 / half, a / 2 % half;
    assert a / 2 == half * q + r;
    assert 2 * (half * q) == (2 * half) * q;
    DivModUnique(a, 2 * half, q, 2 * r + a % 2);
  }

  /** The lowest `k` bits of a number. */
  function LowBits(a: nat, k: nat): nat {
    if k == 0 then 0 else 2 * LowBits(a / 2, k - 1) + a % 2
  }

  lemma {:induction false} MaskIsLowBits(a: nat, k: nat)
    ensures BitAnd(a, Pow2(k) - 1) == LowBits(a, k)
  {
    if k > 0 {
      var m := Pow2(k - 1) - 1;
      MaskIsLowBits(a / 2, k - 1);
      assert Pow2(k) - 1 == 2 * m + 1 && (2 * m + 1) / 2 == m && (2 * m + 1) % 2 == 1;
    }
  }

  lemma {:induction false} LowBitsAreRemainder(a: nat, k: nat)
    ensures LowBits(a, k) == a % Pow2(k)
  {
    if k > 0 {
      LowBitsAreRemainder(a / 2, k - 1);
      HalvedRemainder(a, Pow2(k - 1));
    }
  }

  /** Masking with a power of two less one is the remainder the slot index needs. */
  lemma MaskIsRemainder(a: nat, k: nat)
    ensures BitAnd(a, Pow2(k) - 1) == a % Pow2(k)
  {
    MaskIsLowBits(a, k);
    LowBitsAreRemainder(a, k);
  }

  // ---- The log ----

  function EntryAt(pushed: seq<Pending>, c: Cursor): Entry
    requires c <= |pushed|
  {
    Entry(c, GenerationAt(pushed, c - 1), pushed[c - 1].frame, pushed[c - 1].stream)
  }

  /** Generation `g` still sits in the config ring and fits a frame slot. */
  predicate Readable(g: nat, latest: nat) {
    g < GENERATION_RANGE && latest < g + CONFIG_RING_CAPACITY
  }

  /** What reading cursor `c` of the log answers, error values included. */
  function Lookup(pushed: seq<Pending>, capacity: nat, c: nat): ReadResult
    requires capacity >= 1
  {
    var latest := |pushed|;
    if latest == 0 then Err(Empty)
    else if c > latest then Err(NotPublished(c, latest))
    else if c < OldestLive(latest, capacity) then Err(Lapped(c, OldestLive(latest, capacity), latest))
    else
      GenerationMonotone(pushed, c - 1, latest - 1);
      var g := GenerationAt(pushed, c - 1);
      if Readable(g, Generations(pushed)) then Ok(EntryAt(pushed, c))
      else
        var named := g % GENERATION_RANGE;
        var seen := if named == 0 then 0 else Latest(Generations(pushed), named, CONFIG_RING_CAPACITY);
        Err(ConfigOverwritten(c, named, seen, seen))
  }

  /** The readable entries of cursors `from` to `end`, oldest first. */
  function Collect(pushed: seq<Pending>, capacity: nat, from: nat, end: nat): seq<Entry>
    requires capacity >= 1
    decreases end - from
  {
    if from >= end then []
    else
      var last := Lookup(pushed, capacity, end - 1);
      Collect(pushed, capacity, from, end - 1) + (if last.Ok? then [last.entry] else [])
  }

  function Snapshot(pushed: seq<Pending>, capacity: nat): seq<Entry>
    requires capacity >= 1
  {
    if pushed == [] then [] else Collect(pushed, capacity, OldestLive(|pushed|, capacity), |pushed| + 1)
  }

  /** Where the readable part of the log starts: a frame of the live window is
      readable exactly from here on. */
  lemma {:induction false} ReadableFrom(pushed: seq<Pending>, capacity: nat, from: Cursor) returns (start: Cursor)
    requires capacity >= 1 && OldestLive(|pushed|, capacity) <= from <= |pushed| + 1
    requires Generations(pushed) < GENERATION_RANGE
    ensures from <= start <= |pushed| + 1
    ensures forall c: Cursor | from <= c <= |pushed| :: Lookup(pushed, capacity, c).Ok? <==> c >= start
    decreases |pushed| - from
  {
    start := from;
    if from <= |pushed| {
      forall k | from - 1 <= k < |pushed|
        ensures GenerationAt(pushed, from - 1) <= GenerationAt(pushed, k) <= Generations(pushed)
      {
        GenerationMonotone(pushed, from - 1, k);
        GenerationMonotone(pushed, k, |pushed| - 1);
      }
      if !Lookup(pushed, capacity, from).Ok? {
        start := ReadableFrom(pushed, capacity, from + 1);
      }
    }
  }

  /** The entries of cursors `start` to `end`, none missing. */
  ghost predicate IsTail(s: seq<Entry>, pushed: seq<Pending>, start: Cursor, end: Cursor) {
    && end <= |pushed| + 1
    && |s| == (if start <= end then end - start else 0)
    && forall i | 0 <= i < |s| :: s[i] == EntryAt(pushed, start + i)
  }

  lemma TailGrows(s: seq<Entry>, pushed: seq<Pending>, start: Cursor, end: Cursor)
    requires IsTail(s, pushed, start, end) && end <= |pushed|
    ensures start <= end ==> IsTail(s + [EntryAt(pushed, end)], pushed, start, end + 1)
    ensures end < start ==> IsTail(s, pushed, start, end + 1)
  {
  }

  lemma {:induction false} CollectIsTail(
    pushed: seq<Pending>, capacity: nat, from: Cursor, end: Cursor, start: Cursor)
    requires capacity >= 1 && OldestLive(|pushed|, capacity) <= from <= end <= |pushed| + 1
    requires forall c: Cursor | from <= c < end :: Lookup(pushed, capacity, c).Ok? <==> c >= start
    requires from <= start
    ensures IsTail(Collect(pushed, capacity, from, end), pushed, start, end)
    decreases end
  {
    if from < end {
      CollectIsTail(pushed, capacity, from, end - 1, start);
      var fewer, last := Collect(pushed, capacity, from, end - 1), Lookup(pushed, capacity, end - 1);
      TailGrows(fewer, pushed, start, end - 1);
      if !last.Ok? {
        assert fewer + [] == fewer;
      }
    }
  }

  /** A snapshot is the tail of the log: the entries of the live window whose config
      is among the last four generations, oldest to newest with none missing. */
  lemma SnapshotIsTail(pushed: seq<Pending>, capacity: nat) returns (start: Cursor)
    requires capacity >= 1 && Generations(pushed) < GENERATION_RANGE
    ensures var s := Snapshot(pushed, capacity);
            && OldestLive(|pushed|, capacity) <= start == |pushed| - |s| + 1
            && (forall i | 0 <= i < |s| :: s[i] == EntryAt(pushed, start + i))
    ensures forall k | OldestLive(|pushed|, capacity) - 1 <= k < |pushed| ::
              k + 1 >= start <==> Generations(pushed) < GenerationAt(pushed, k) + CONFIG_RING_CAPACITY
  {
    var oldest := OldestLive(|pushed|, capacity);
    start := ReadableFrom(pushed, capacity, oldest);
    if pushed != [] {
      CollectIsTail(pushed, capacity, oldest, |pushed| + 1, start);
    }
    forall k | oldest - 1 <= k < |pushed|
      ensures k + 1 >= start <==> Generations(pushed) < GenerationAt(pushed, k) + CONFIG_RING_CAPACITY
    {
      GenerationMonotone(pushed, k, |pushed| - 1);
      assert Lookup(pushed, capacity, k + 1).Ok? <==> k + 1 >= start;
    }
  }

  /** A live cursor whose config is among the last four generations is readable if and
      only if its generation fits the slot's 32 bits. */
  lemma RecentIsReadableIffItFits(pushed: seq<Pending>, capacity: nat, c: Cursor)
    requires capacity >= 1 && OldestLive(|pushed|, capacity) <= c <= |pushed|
    requires Generations(pushed) < GenerationAt(pushed, c - 1) + CONFIG_RING_CAPACITY
    ensures Lookup(pushed, capacity, c).Ok? <==> GenerationAt(pushed, c - 1) < GENERATION_RANGE
  {
  }

  /** A stream that changes with every frame. */
  function Restless(n: nat): seq<Pending> {
    seq(n, (k: nat) => Pending(Frame(0, 0, 0, 0, 0, 0, 0, 0, 0, 0, 0, 0, 0), Stream(k, 0, 0, 0, 0, 0, 0, 0)))
  }

  lemma {:induction false} RestlessGeneration(n: nat, k: nat)
    requires k < n
    ensures GenerationAt(Restless(n), k) == k + 1
  {
    var pushed := Restless(n);
    if k > 0 {
      RestlessGeneration(n, k - 1);
      assert pushed[k].stream.width != pushed[k - 1].stream.width;
    }
  }

  /** After 2^32 configurations the newest frame, just pushed, cannot be read. */
  lemma WideGenerationFails(capacity: nat)
    requires capacity >= 1
    ensures var pushed := Restless(GENERATION_RANGE);
            Lookup(pushed, capacity, |pushed|) == Err(ConfigOverwritten(|pushed|, 0, 0, 0))
  {
    var n := GENERATION_RANGE;
    RestlessGeneration(n, n - 1);
  }

  // ---- The page ----

  /** A state of the concurrent model with nobody mid-operation, read as a log. */
  ghost predicate IsLog(s: VideoRing.State) {
    && VideoRing.Inv(s)
    && s.producer.Ready? && s.readers == map[]
    && s.generations == AllGenerations(s.pushed)
    && s.configs.cursor == Generations(s.pushed)
    && s.cached == (if s.pushed == [] then None else Some((Generations(s.pushed), s.pushed[|s.pushed| - 1].stream)))
  }

  /** A cursor of the live window is in its slot, body and all. */
  lemma SlotHolds(s: VideoRing.State, c: Cursor)
    requires IsLog(s) && OldestLive(|s.pushed|, |s.slots.words|) <= c <= |s.pushed|
    ensures var at := s.slots.Index(c);
            && s.slots.words[at] == c
            && s.slots.bodies[at] == SlotWords(s.pushed[c - 1].frame, GenerationAt(s.pushed, c - 1))
  {
    assert VideoRing.Recorded(s, c - 1);
    WordNames(s.slots, c);
    HeldBody(s.slots, c);
  }

  /** The newest generation in a truncated generation's slot is that very number exactly
      when the generation is readable, and then nothing was cut off. */
  lemma TruncatedLatest(g: nat, top: nat, named: Cursor)
    requires named == g % GENERATION_RANGE && g <= top
    ensures var last := Latest(top, named, CONFIG_RING_CAPACITY);
            (last == named <==> Readable(g, top)) && (last == named ==> named == g)
  {
    TruncationKeepsSlot(g);
    var last := Latest(top, named, CONFIG_RING_CAPACITY);
    if last == named {
      assert named <= g < named + CONFIG_RING_CAPACITY;
    }
    if Readable(g, top) {
      assert named == g <= last <= top < g + CONFIG_RING_CAPACITY;
    }
  }

  lemma TruncatedHolds(configs: Ring, g: nat, named: Cursor)
    requires Inv(configs) && configs.writer.Idle? && configs.first == 1 && |configs.words| == CONFIG_RING_CAPACITY
    requires named == g % GENERATION_RANGE && g <= configs.cursor
    requires |configs.log[g - 1]| == configs.width
    ensures var at := configs.Index(named);
            && configs.words[at] == Latest(configs.cursor, named, CONFIG_RING_CAPACITY)
            && (configs.words[at] == named <==> Readable(g, configs.cursor))
            && (configs.words[at] == named ==> configs.bodies[at] == configs.log[g - 1])
  {
    var last := Latest(configs.cursor, named, CONFIG_RING_CAPACITY);
    TruncatedLatest(g, configs.cursor, named);
    WordNames(configs, last);
    assert configs.Index(last) == last % CONFIG_RING_CAPACITY == named % CONFIG_RING_CAPACITY == configs.Index(named);
    if last == named {
      HeldBody(configs, named);
    }
  }

  /** The config slot of a frame's truncated generation holds that generation exactly
      when it is readable, and otherwise the newest one that shares the slot. */
  lemma ConfigHolds(s: VideoRing.State, c: Cursor, named: Cursor)
    requires IsLog(s) && c <= |s.pushed| && named == GenerationAt(s.pushed, c - 1) % GENERATION_RANGE
    ensures named <= GenerationAt(s.pushed, c - 1) <= s.configs.cursor
    ensures var at, g := s.configs.Index(named), GenerationAt(s.pushed, c - 1);
            && s.configs.words[at] == Latest(s.configs.cursor, named, CONFIG_RING_CAPACITY)
            && (s.configs.words[at] == named <==> Readable(g, s.configs.cursor))
            && (s.configs.words[at] == named ==> s.configs.bodies[at] == ConfigWords(s.pushed[c - 1].stream))
  {
    GenerationMonotone(s.pushed, c - 1, |s.pushed| - 1);
    assert VideoRing.Recorded(s, c - 1);
    TruncatedHolds(s.configs, GenerationAt(s.pushed, c - 1), named);
  }

  /** What the log answers for a live cursor, in terms of the truncated generation and the
      newest one in its slot. */
  lemma LookupLive(pushed: seq<Pending>, capacity: nat, c: Cursor, named: nat)
    requires capacity >= 1 && OldestLive(|pushed|, capacity) <= c <= |pushed|
    requires named == GenerationAt(pushed, c - 1) % GENERATION_RANGE
    ensures named <= Generations(pushed)
    ensures Lookup(pushed, capacity, c) ==
            if named == 0 then Err(ConfigOverwritten(c, 0, 0, 0))
            else
              var seen := Latest(Generations(pushed), named, CONFIG_RING_CAPACITY);
              if seen == named then Ok(Entry(c, named, pushed[c - 1].frame, pushed[c - 1].stream))
              else Err(ConfigOverwritten(c, named, seen, seen))
  {
    GenerationMonotone(pushed, c - 1, |pushed| - 1);
    if named >= 1 {
      TruncatedLatest(GenerationAt(pushed, c - 1), Generations(pushed), named);
    }
  }

  /** Appending one frame to both rings appends it to the log. */
  lemma PushIsAppend(s: VideoRing.State, s': VideoRing.State, entry: Pending)
    requires IsLog(s) && VideoRing.RingsInv(s')
    requires s'.pushed == s.pushed + [entry] && s'.generations == AllGenerations(s'.pushed)
    requires s'.slots.writer.Idle? && s'.configs.writer.Idle? && s'.producer.Ready? && s'.readers == map[]
    requires s'.cached == Some((s'.configs.cursor, entry.stream))
    requires if s.cached.Some? && s.cached.value.1 == entry.stream then s'.configs == s.configs
             else
               && s'.configs.cursor == s.configs.cursor + 1
               && s'.configs.log == s.configs.log + [ConfigWords(entry.stream)]
    requires s'.slots.log == s.slots.log + [SlotWords(entry.frame, s'.configs.cursor)]
    ensures IsLog(s')
  {
    var last := |s.pushed|;
    assert s'.generations[last] == Generations(s'.pushed) == s'.configs.cursor by {
      if last > 0 {
        GenerationOfPrefix(s.pushed, entry, last - 1);
      }
    }
    forall k | 0 <= k <= last ensures VideoRing.Recorded(s', k) {
      if k < last {
        assert VideoRing.Recorded(s, k);
        GenerationOfPrefix(s.pushed, entry, k);
      }
    }
  }

  /** The oldest live cursor is in its slot, and no slot names an older one. */
  lemma OldestIsHeld(s: VideoRing.State)
    requires IsLog(s) && s.pushed != []
    ensures var oldest: Cursor := OldestLive(|s.pushed|, |s.slots.words|);
            && s.slots.words[s.slots.Index(oldest)] == oldest
            && forall i | 0 <= i < |s.slots.words| :: s.slots.words[i] == 0 || s.slots.words[i] >= oldest
  {
    var oldest: Cursor := OldestLive(|s.pushed|, |s.slots.words|);
    WordNames(s.slots, oldest);
    forall i | 0 <= i < |s.slots.words| && s.slots.words[i] != 0
      ensures s.slots.words[i] >= oldest
    {
      WordNames(s.slots, s.slots.words[i]);
    }
  }

  /** The config slot of generation `g` names another, and the error reports both. */
  ghost predicate Overwritten(configs: seq<nat>, c: nat, g: nat, error: ReadError) {
    && error.ConfigOverwritten? && error.requested == c && error.generation == g && error.first == error.second
    && |configs| == CONFIG_RING_CAPACITY
    && if g == 0 then error.first == 0 else error.first == configs[g % CONFIG_RING_CAPACITY] != g
  }

  /** The answer to reading cursor `c`, in terms of the entries pushed and the sequence words
      on the page. */
  ghost predicate Answers(pushed: seq<Pending>, words: seq<nat>, configs: seq<nat>, c: nat, result: ReadResult) {
    var n := |pushed|;
    && |words| >= 1
    && match result
       case Ok(e) =>
         && 1 <= c <= n && words[(c - 1) % |words|] == c
         && e == Entry(c, GenerationAt(pushed, c - 1), pushed[c - 1].frame, pushed[c - 1].stream)
       case Err(Empty) => n == 0
       case Err(NotPublished(asked, latest)) => asked == c && latest == n && 0 < n < c
       case Err(Lapped(asked, oldest, latest)) =>
         && asked == c && latest == n && c < oldest <= n && words[(oldest - 1) % |words|] == oldest
         && forall i | 0 <= i < |words| :: words[i] == 0 || words[i] >= oldest
       case Err(SlotSequenceMismatch(_, _, _)) => false
       case Err(ConfigOverwritten(_, g, _, _)) =>
         && 1 <= c <= n && words[(c - 1) % |words|] == c
         && g == GenerationAt(pushed, c - 1) % GENERATION_RANGE && Overwritten(configs, c, g, result.error)
  }

  class VideoTrackControlPage {
    const slots: SharedRing
    const configs: SharedRing
    var cached: Option<(nat, Stream)>
    ghost var pushed: seq<Pending>

    ghost function Repr(): set<object> {
      {this, slots, slots.words, slots.bodies, configs, configs.words, configs.bodies}
    }

    ghost function View(): VideoRing.State
      reads this, slots, slots.words, slots.bodies, configs, configs.words, configs.bodies
    {
      VideoRing.State(slots.View(), configs.View(), cached, VideoRing.Ready, map[], pushed, AllGenerations(pushed))
    }

    ghost predicate Valid()
      reads this, slots, slots.words, slots.bodies, configs, configs.words, configs.bodies
    {
      && slots != configs && slots.words != configs.words && slots.bodies != configs.bodies
      && IsLog(View())
      && PowerOfTwo(slots.words.Length)
    }

    constructor (requested: nat)
      ensures Valid() && fresh(Repr()) && pushed == []
      ensures slots.words.Length == RingCapacityFor(requested)
    {
      CapacityIsLeastPower(requested);
      slots := new SharedRing(RingCapacityFor(requested), 0, SLOT_WORDS);
      configs := new SharedRing(CONFIG_RING_CAPACITY, 1, CONFIG_WORDS);
      cached, pushed := None, [];
    }

    /** The slot index is a mask of the cursor; it names the ring's own slot. */
    method SlotIndex(c: Cursor) returns (index: nat)
      requires Valid()
      ensures index == slots.View().Index(c)
    {
      index := BitAnd(c - 1, slots.words.Length - 1);
      ghost var k: nat :| slots.words.Length == Pow2(k);
      MaskIsRemainder(c - 1, k);
    }

    /** Reuse the cached generation, or publish a new config. */
    method EnsureStreamConfig(stream: Stream) returns (generation: nat)
      requires Valid()
      modifies this`cached, configs`cursor, configs`writer, configs`log, configs.words, configs.bodies
      ensures configs.Valid() && configs.writer.Idle?
      ensures cached == Some((generation, stream)) && generation == configs.cursor
      ensures if old(cached).Some? && old(cached).value.1 == stream
              then configs.View() == old(configs.View())
              else configs.cursor == old(configs.cursor) + 1 && configs.log == old(configs.log) + [ConfigWords(stream)]
    {
      if cached.Some? && cached.value.1 == stream {
        return cached.value.0;
      }
      generation := configs.Publish(ConfigWords(stream));
      cached := Some((generation, stream));
    }

    /** Pushing appends to the log and returns the new entry's cursor. */
    method Push(entry: Pending) returns (c: nat)
      requires Valid()
      modifies Repr()
      ensures Valid() && pushed == old(pushed) + [entry] && c == |pushed|
    {
      ghost var before := View();
      var generation := EnsureStreamConfig(entry.stream);
      c := slots.Publish(SlotWords(entry.frame, generation));
      pushed := pushed + [entry];
      PushIsAppend(before, View(), entry);
    }

    /** Reading answers exactly what the log says, for every cursor and every cause
        of refusal. In terms of the page: a value is the entry pushed at a cursor its slot
        names; a lapped cursor is older than the oldest one any slot names; an overwritten
        config is one whose slot names another generation. */
    method ReadEntryForCursor(c: nat) returns (result: ReadResult)
      requires Valid()
      ensures result == Lookup(pushed, slots.words.Length, c)
      ensures Answers(pushed, slots.words[..], configs.words[..], c, result)
    {
      var latest := slots.cursor;
      assert latest == |pushed|;
      if latest == 0 {
        return Err(Empty);
      }
      if c > latest {
        return Err(NotPublished(c, latest));
      }
      var oldest := OldestLive(slots.cursor, slots.words.Length);
      OldestIsHeld(View());
      if c < oldest {
        return Err(Lapped(c, oldest, latest));
      }
      var at := SlotIndex(c);
      SlotHolds(View(), c);
      var seen, words := slots.words[at], slots.bodies[at];
      if seen != c {
        return Err(SlotSequenceMismatch(c, seen, seen));
      }
      result := ReadConfig(c, FrameOf(words), GenerationOf(words));
    }

    method ReadConfig(c: Cursor, frame: Frame, generation: nat) returns (result: ReadResult)
      requires Valid() && OldestLive(|pushed|, slots.words.Length) <= c <= |pushed|
      requires frame == pushed[c - 1].frame && generation == GenerationAt(pushed, c - 1) % GENERATION_RANGE
      ensures result == Lookup(pushed, slots.words.Length, c)
      ensures result.Ok? ==>
                result.entry == Entry(c, GenerationAt(pushed, c - 1), pushed[c - 1].frame, pushed[c - 1].stream)
      ensures result.Err? ==> Overwritten(configs.words[..], c, generation, result.error)
    {
      LookupLive(pushed, slots.words.Length, c, generation);
      if generation == 0 {
        return Err(ConfigOverwritten(c, 0, 0, 0));
      }
      ConfigHolds(View(), c, generation);
      var at := generation % CONFIG_RING_CAPACITY;
      var seen, words := configs.words[at], configs.bodies[at];
      if seen != generation {
        return Err(ConfigOverwritten(c, generation, seen, seen));
      }
      ConfigRoundTrip(pushed[c - 1].stream);
      result := Ok(Entry(c, generation, frame, StreamOf(words)));
    }

    /** The readable entries of the live window, oldest to newest. */
    method RingSnapshot() returns (entries: seq<Entry>)
      requires Valid()
      ensures entries == Snapshot(pushed, slots.words.Length)
    {
      entries := [];
      if slots.cursor == 0 {
        return;
      }
      var oldest, latest := OldestLive(slots.cursor, slots.words.Length), slots.cursor;
      for c := oldest to latest + 1
        invariant entries == Collect(pushed, slots.words.Length, oldest, c)
      {
        var result := ReadEntryForCursor(c);
        if result.Ok? {
          entries := entries + [result.entry];
        }
      }
    }
  }
}
