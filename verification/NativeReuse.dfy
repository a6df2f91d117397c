/** Reuse of native surfaces under readers that hold them: the ordering rule of
    crates/jackstay/include/jackstay_ring.h and the allocator of
    crates/jackstay/src/native.rs, with the fake backend as the operating system. One
    producer publishes, fails and reconfigures; any number of readers pick a published
    cursor, increment the surface's use count, re-check that the cursor is still live,
    sample and release. Every load, store and count change is one step. */
module NativeReuse {
  import opened VideoFrames

  /** The documented order, and the reversed one it forbids. */
  datatype Order = CountFirst | CheckFirst

  datatype Surface = Surface(pool: nat, slot: nat)

  datatype Published = Published(surface: Surface, bytes: seq<nat>)

  datatype Producer = Ready | Staging(slot: nat, frame: seq<nat>, done: set<nat>) | Recording(slot: nat)

  /** `Waiting` has done the first half of the acquisition, `Expired` failed the check
      while holding a count. */
  datatype Reader = Picked(c: nat) | Waiting(c: nat) | Sampling(c: nat) | Expired(c: nat)

  datatype State = State(
    capacity: nat,
    extent: nat,
    contents: map<Surface, seq<nat>>,
    counts: map<Surface, nat>,
    cursor: nat,
    entries: seq<Published>,
    pool: nat,
    slotCursors: seq<nat>,
    lastCursor: nat,
    producer: Producer,
    readers: map<nat, Reader>)

  datatype Step =
    | Claim(slot: nat, frame: seq<nat>)
    | Stage(i: nat)
    | Fail
    | Push
    | Record
    | Reconfigure(slotCount: nat)
    | Pick(r: nat, c: nat)
    | First(r: nat)
    | Second(r: nat)
    | Release(r: nat)

  /** A slot the ring still names: its last cursor is inside the live window. */
  predicate Reachable(slotCursors: seq<nat>, lastCursor: nat, capacity: nat, slot: nat)
    requires slot < |slotCursors|
  {
    slotCursors[slot] != 0 && slotCursors[slot] >= OldestLive(lastCursor, capacity)
  }

  function FreshPool(pool: nat, slotCount: nat): (surfaces: set<Surface>)
    ensures forall x :: x in surfaces <==> x.pool == pool && x.slot < slotCount
  {
    if slotCount == 0 then {} else FreshPool(pool, slotCount - 1) + {Surface(pool, slotCount - 1)}
  }

  predicate Init(s: State) {
    && s.capacity >= 1
    && |s.slotCursors| > s.capacity
    && s == State(s.capacity, s.extent,
                  map x | x in FreshPool(1, |s.slotCursors|) :: seq(s.extent, _ => 0),
                  map x | x in FreshPool(1, |s.slotCursors|) :: 0,
                  0, [], 1, seq(|s.slotCursors|, _ => 0), 0, Ready, map[])
  }

  /** The surface a cursor was published on. */
  function SurfaceOf(s: State, c: nat): Surface {
    if 1 <= c <= |s.entries| then s.entries[c - 1].surface else Surface(0, 0)
  }

  predicate Holding(order: Order, reader: Reader) {
    reader.Sampling? || reader.Expired? || (reader.Waiting? && order.CountFirst?)
  }

  predicate IsLive(s: State, c: nat) {
    s.cursor < c + s.capacity
  }

  predicate Enabled(order: Order, s: State, step: Step) {
    match step
    case Claim(slot, frame) =>
      && s.producer.Ready? && |frame| == s.extent && slot < |s.slotCursors|
      && !Reachable(s.slotCursors, s.lastCursor, s.capacity, slot)
      && Surface(s.pool, slot) in s.counts && s.counts[Surface(s.pool, slot)] == 0
    case Stage(i) =>
      && s.producer.Staging? && i < |s.producer.frame|
      && Surface(s.pool, s.producer.slot) in s.contents && i < |s.contents[Surface(s.pool, s.producer.slot)]|
    case Fail => s.producer.Staging?
    case Push => s.producer.Staging? && forall i | 0 <= i < |s.producer.frame| :: i in s.producer.done
    case Record => s.producer.Recording? && s.producer.slot < |s.slotCursors|
    case Reconfigure(slotCount) => s.producer.Ready? && slotCount > s.capacity
    case Pick(r, c) => r !in s.readers && 1 <= c <= s.cursor
    case First(r) => r in s.readers && s.readers[r].Picked? && SurfaceOf(s, s.readers[r].c) in s.counts
    case Second(r) => r in s.readers && s.readers[r].Waiting? && SurfaceOf(s, s.readers[r].c) in s.counts
    case Release(r) =>
      && r in s.readers && (s.readers[r].Sampling? || s.readers[r].Expired?)
      && SurfaceOf(s, s.readers[r].c) in s.counts && s.counts[SurfaceOf(s, s.readers[r].c)] >= 1
  }

  function Count(s: State, x: Surface, delta: int): map<Surface, nat>
    requires x in s.counts && s.counts[x] + delta >= 0
  {
    s.counts[x := s.counts[x] + delta]
  }

  function Apply(order: Order, s: State, step: Step): State
    requires Enabled(order, s, step)
  {
    match step
    case Claim(slot, frame) => s.(producer := Staging(slot, frame, {}))
    case Stage(i) =>
      var Staging(slot, frame, done) := s.producer;
      var x := Surface(s.pool, slot);
      s.(contents := s.contents[x := s.contents[x][i := frame[i]]], producer := Staging(slot, frame, done + {i}))
    case Fail => s.(producer := Ready)
    case Push =>
      s.(entries := s.entries + [Published(Surface(s.pool, s.producer.slot), s.producer.frame)],
         cursor := s.cursor + 1, producer := Recording(s.producer.slot))
    case Record =>
      s.(slotCursors := s.slotCursors[s.producer.slot := s.cursor], lastCursor := s.cursor, producer := Ready)
    case Reconfigure(slotCount) =>
      var added := FreshPool(s.pool + 1, slotCount);
      s.(pool := s.pool + 1, slotCursors := seq(slotCount, _ => 0),
         contents := s.contents + map x | x in added :: seq(s.extent, _ => 0),
         counts := s.counts + map x | x in added :: 0)
    case Pick(r, c) => s.(readers := s.readers[r := Picked(c)])
    case First(r) =>
      var c := s.readers[r].c;
      if order.CountFirst? then s.(counts := Count(s, SurfaceOf(s, c), 1), readers := s.readers[r := Waiting(c)])
      else if IsLive(s, c) then s.(readers := s.readers[r := Waiting(c)])
      else s.(readers := s.readers - {r})
    case Second(r) =>
      var c := s.readers[r].c;
      if order.CheckFirst? then s.(counts := Count(s, SurfaceOf(s, c), 1), readers := s.readers[r := Sampling(c)])
      else s.(readers := s.readers[r := if IsLive(s, c) then Sampling(c) else Expired(c)])
    case Release(r) =>
      s.(counts := Count(s, SurfaceOf(s, s.readers[r].c), -1), readers := s.readers - {r})
  }

  // ---- Invariant of the documented order ----

  ghost function Holders(s: State, x: Surface): set<nat> {
    set r | r in s.readers && Holding(CountFirst, s.readers[r]) && SurfaceOf(s, s.readers[r].c) == x
  }

  /** The entry of cursor `c`: its surface exists, and if it is in the current pool the
      allocator's record of that slot is at least as recent. */
  ghost predicate EntryInv(s: State, c: nat)
    requires 1 <= c <= |s.entries|
  {
    var x := s.entries[c - 1].surface;
    && x in s.contents && x.pool <= s.pool && |s.entries[c - 1].bytes| == s.extent
    && (x.pool == s.pool ==>
          && x.slot < |s.slotCursors|
          && (c <= s.slotCursors[x.slot] || (s.producer == Recording(x.slot) && c == s.cursor)))
  }

  /** The surface still shows what was staged for cursor `c`. */
  ghost predicate Shows(s: State, c: nat) {
    && 1 <= c <= |s.entries|
    && SurfaceOf(s, c) in s.contents
    && s.contents[SurfaceOf(s, c)] == s.entries[c - 1].bytes
  }

  ghost predicate PoolInv(s: State) {
    && s.capacity >= 1
    && s.contents.Keys == s.counts.Keys
    && (forall x | x in s.contents :: x.pool <= s.pool && |s.contents[x]| == s.extent)
    && (forall i | 0 <= i < |s.slotCursors| :: Surface(s.pool, i) in s.contents && s.slotCursors[i] <= s.lastCursor)
    && s.cursor == |s.entries|
    && s.lastCursor == (if s.producer.Recording? then s.cursor - 1 else s.cursor)
  }

  /** Nobody samples the surface being staged, and no live cursor names it. */
  ghost predicate StagingInv(s: State) {
    match s.producer
    case Ready => true
    case Recording(slot) => slot < |s.slotCursors| && s.cursor >= 1 && SurfaceOf(s, s.cursor) == Surface(s.pool, slot)
    case Staging(slot, frame, done) =>
      && slot < |s.slotCursors| && |frame| == s.extent
      && !Reachable(s.slotCursors, s.lastCursor, s.capacity, slot)
      && (forall r | r in s.readers && s.readers[r].Sampling? :: SurfaceOf(s, s.readers[r].c) != Surface(s.pool, slot))
      && Surface(s.pool, slot) in s.contents && |s.contents[Surface(s.pool, slot)]| == s.extent
      && (forall i | 0 <= i < |frame| && i in done :: s.contents[Surface(s.pool, slot)][i] == frame[i])
  }

  ghost predicate ReaderInv(s: State, r: nat)
    requires r in s.readers
  {
    var reader := s.readers[r];
    1 <= reader.c <= |s.entries| && (reader.Sampling? ==> Shows(s, reader.c))
  }

  ghost predicate ReadersInv(s: State) {
    forall r | r in s.readers :: ReaderInv(s, r)
  }

  ghost predicate EntriesInv(s: State) {
    forall c | 1 <= c <= |s.entries| :: EntryInv(s, c)
  }

  ghost predicate LiveInv(s: State) {
    forall c | 1 <= c <= |s.entries| && IsLive(s, c) :: Shows(s, c)
  }

  ghost predicate Counted(s: State, x: Surface)
    requires x in s.counts
  {
    s.counts[x] == |Holders(s, x)|
  }

  ghost predicate CountsInv(s: State) {
    forall x | x in s.counts :: Counted(s, x)
  }

  ghost predicate Inv(s: State) {
    PoolInv(s) && EntriesInv(s) && LiveInv(s) && StagingInv(s) && ReadersInv(s) && CountsInv(s)
  }

  // ---- Preservation ----

  predicate ProducerStep(step: Step) {
    step.Claim? || step.Stage? || step.Fail? || step.Push? || step.Record? || step.Reconfigure?
  }

  lemma ProducerKeepsPool(s: State, step: Step)
    requires Inv(s) && Enabled(CountFirst, s, step) && ProducerStep(step)
    ensures PoolInv(Apply(CountFirst, s, step))
  {
    assert s.producer.Recording? ==> StagingInv(s);
  }

  lemma ProducerKeepsEntries(s: State, step: Step)
    requires Inv(s) && Enabled(CountFirst, s, step) && ProducerStep(step)
    ensures EntriesInv(Apply(CountFirst, s, step))
  {
    var s' := Apply(CountFirst, s, step);
    forall c | 1 <= c <= |s'.entries| ensures EntryInv(s', c) {
      assert c <= |s.entries| ==> EntryInv(s, c);
    }
  }

  /** Surfaces change only under the slot being staged, which no live cursor and no
      sampling reader names. */
  lemma ProducerKeepsShown(s: State, step: Step)
    requires Inv(s) && Enabled(CountFirst, s, step) && ProducerStep(step)
    ensures LiveInv(Apply(CountFirst, s, step)) && ReadersInv(Apply(CountFirst, s, step))
  {
    var s' := Apply(CountFirst, s, step);
    forall c | 1 <= c <= |s'.entries| && IsLive(s', c) ensures Shows(s', c) {
      if c <= |s.entries| {
        assert EntryInv(s, c) && IsLive(s, c) && Shows(s, c);
      }
    }
    forall r | r in s'.readers ensures ReaderInv(s', r) {
      assert ReaderInv(s, r) && EntryInv(s, s.readers[r].c);
    }
  }

  lemma ProducerKeepsStaging(s: State, step: Step)
    requires Inv(s) && Enabled(CountFirst, s, step) && ProducerStep(step)
    ensures StagingInv(Apply(CountFirst, s, step))
  {
    if step.Claim? {
      forall r | r in s.readers && s.readers[r].Sampling?
        ensures SurfaceOf(s, s.readers[r].c) != Surface(s.pool, step.slot)
      {
        HeldIsCounted(s, r);
      }
    }
  }

  /** The producer moves no reader, so every count still matches its holders. */
  lemma ProducerKeepsCounts(s: State, step: Step)
    requires Inv(s) && Enabled(CountFirst, s, step) && ProducerStep(step)
    ensures CountsInv(Apply(CountFirst, s, step))
  {
    var s' := Apply(CountFirst, s, step);
    forall x | x in s'.counts ensures Counted(s', x) {
      ProducerKeepsHolders(s, step, x);
      if x in s.counts {
        assert Counted(s, x);
      } else {
        NobodyHoldsAbsent(s, x);
      }
    }
  }

  lemma ProducerKeepsHolders(s: State, step: Step, x: Surface)
    requires Inv(s) && Enabled(CountFirst, s, step) && ProducerStep(step)
    ensures Holders(Apply(CountFirst, s, step), x) == Holders(s, x)
  {
    var s' := Apply(CountFirst, s, step);
    forall r | r in s.readers ensures SurfaceOf(s', s.readers[r].c) == SurfaceOf(s, s.readers[r].c) {
      assert ReaderInv(s, r);
    }
  }

  lemma NobodyHoldsAbsent(s: State, x: Surface)
    requires EntriesInv(s) && ReadersInv(s) && x !in s.contents
    ensures Holders(s, x) == {}
  {
    forall r | r in s.readers ensures r !in Holders(s, x) {
      assert ReaderInv(s, r) && EntryInv(s, s.readers[r].c);
    }
  }

  lemma HeldIsCounted(s: State, r: nat)
    requires Inv(s) && r in s.readers && Holding(CountFirst, s.readers[r])
    ensures var x := SurfaceOf(s, s.readers[r].c); x in s.counts && s.counts[x] >= 1
  {
    var x := SurfaceOf(s, s.readers[r].c);
    assert ReaderInv(s, r) && EntryInv(s, s.readers[r].c);
    assert r in Holders(s, x) && Counted(s, x);
  }

  lemma HoldersMoved(s: State, s': State, r: nat, x: Surface)
    requires s.entries == s'.entries && s.readers - {r} == s'.readers - {r}
    ensures Holders(s, x) - {r} == Holders(s', x) - {r}
  {
    forall q | q != r ensures q in Holders(s, x) <==> q in Holders(s', x) {
      assert q in s.readers <==> q in s.readers - {r};
      assert q in s'.readers <==> q in s'.readers - {r};
      assert q in s.readers ==> s.readers[q] == (s.readers - {r})[q] == s'.readers[q];
    }
  }

  lemma WithoutOne(a: set<nat>, r: nat)
    ensures |a| == |a - {r}| + (if r in a then 1 else 0)
  {
    if r in a {
      assert a == (a - {r}) + {r};
    } else {
      assert a == a - {r};
    }
  }

  lemma HolderCount(s: State, s': State, r: nat, x: Surface)
    requires s.entries == s'.entries && s.readers - {r} == s'.readers - {r}
    ensures |Holders(s', x)| - |Holders(s, x)|
         == (if r in Holders(s', x) then 1 else 0) - (if r in Holders(s, x) then 1 else 0)
  {
    HoldersMoved(s, s', r, x);
    WithoutOne(Holders(s, x), r);
    WithoutOne(Holders(s', x), r);
  }

  /** Each reader step moves the count of its surface with the set of its holders. */
  lemma ReaderKeepsCounts(s: State, step: Step)
    requires Inv(s) && Enabled(CountFirst, s, step) && !ProducerStep(step)
    ensures CountsInv(Apply(CountFirst, s, step))
  {
    var s' := Apply(CountFirst, s, step);
    OthersStay(s, step);
    forall x | x in s'.counts ensures Counted(s', x) {
      assert Counted(s, x);
      HolderCount(s, s', step.r, x);
    }
  }

  lemma OthersStay(s: State, step: Step)
    requires Enabled(CountFirst, s, step) && !ProducerStep(step)
    ensures Apply(CountFirst, s, step).readers - {step.r} == s.readers - {step.r}
  {
  }

  lemma ReaderKeepsEntries(s: State, step: Step)
    requires Inv(s) && Enabled(CountFirst, s, step) && !ProducerStep(step)
    ensures var s' := Apply(CountFirst, s, step); PoolInv(s') && EntriesInv(s') && LiveInv(s')
  {
    var s' := Apply(CountFirst, s, step);
    forall c | 1 <= c <= |s'.entries| ensures EntryInv(s', c) {
      assert EntryInv(s, c);
    }
    forall c | 1 <= c <= |s'.entries| && IsLive(s', c) ensures Shows(s', c) {
      assert IsLive(s, c) && Shows(s, c);
    }
  }

  lemma ReaderKeepsReaders(s: State, step: Step)
    requires Inv(s) && Enabled(CountFirst, s, step) && !ProducerStep(step)
    ensures ReadersInv(Apply(CountFirst, s, step))
  {
    var s' := Apply(CountFirst, s, step);
    forall r | r in s'.readers ensures ReaderInv(s', r) {
      if r != step.r {
        OthersStay(s, step);
        assert r in s'.readers - {step.r} && s'.readers[r] == (s'.readers - {step.r})[r] == s.readers[r];
        assert ReaderInv(s, r);
      } else if !step.Pick? {
        assert ReaderInv(s, r);
      }
    }
  }

  /** A reader passes its re-check only on a live cursor, and none is being restaged. */
  lemma ReaderKeepsStaging(s: State, step: Step)
    requires Inv(s) && Enabled(CountFirst, s, step) && !ProducerStep(step)
    ensures StagingInv(Apply(CountFirst, s, step))
  {
    var s' := Apply(CountFirst, s, step);
    if s.producer.Staging? {
      forall r | r in s'.readers && s'.readers[r].Sampling?
        ensures SurfaceOf(s', s'.readers[r].c) != Surface(s'.pool, s'.producer.slot)
      {
        if step.Second? && r == step.r {
          assert ReaderInv(s, r) && EntryInv(s, s.readers[r].c);
        }
      }
    }
  }

  lemma StepKeepsInv(s: State, step: Step)
    requires Inv(s) && Enabled(CountFirst, s, step)
    ensures Inv(Apply(CountFirst, s, step))
  {
    if ProducerStep(step) {
      ProducerKeepsPool(s, step);
      ProducerKeepsEntries(s, step);
      ProducerKeepsShown(s, step);
      ProducerKeepsStaging(s, step);
      ProducerKeepsCounts(s, step);
    } else {
      ReaderKeepsEntries(s, step);
      ReaderKeepsReaders(s, step);
      ReaderKeepsStaging(s, step);
      ReaderKeepsCounts(s, step);
    }
  }

  // ---- Runs ----

  ghost predicate Taken(order: Order, s: State, step: Step, s': State) {
    Enabled(order, s, step) && s' == Apply(order, s, step)
  }

  /** Consecutive states of a run, starting anywhere. */
  ghost predicate Segment(order: Order, states: seq<State>, steps: seq<Step>) {
    && |states| == |steps| + 1
    && (forall k {:trigger steps[k]} | 0 <= k < |steps| :: Taken(order, states[k], steps[k], states[k + 1]))
  }

  ghost predicate Run(order: Order, states: seq<State>, steps: seq<Step>) {
    Segment(order, states, steps) && Init(states[0])
  }

  lemma TakenKeepsInv(s: State, step: Step, s': State)
    requires Inv(s) && Taken(CountFirst, s, step, s')
    ensures Inv(s')
  {
    StepKeepsInv(s, step);
  }

  lemma InitInv(s: State)
    requires Init(s)
    ensures Inv(s)
  {
    forall x | x in s.counts ensures Counted(s, x) {
      assert Holders(s, x) == {};
    }
  }

  lemma {:induction false} RunKeepsInv(states: seq<State>, steps: seq<Step>, k: nat)
    requires Run(CountFirst, states, steps) && k < |states|
    ensures Inv(states[k])
  {
    if k == 0 {
      InitInv(states[0]);
    } else {
      RunKeepsInv(states, steps, k - 1);
      TakenKeepsInv(states[k - 1], steps[k - 1], states[k]);
    }
  }

  /** In every interleaving, across publishes, failures and reconfigurations, a surface
      whose re-check succeeded shows exactly the bytes staged for that cursor until its
      reader releases it; and every holder is counted, so a release finds its hold. */
  lemma SampledBytesAreStaged(states: seq<State>, steps: seq<Step>, k: nat, r: nat)
    requires Run(CountFirst, states, steps) && k < |states| && r in states[k].readers
    ensures states[k].readers[r].Sampling? ==> Shows(states[k], states[k].readers[r].c)
    ensures Holding(CountFirst, states[k].readers[r]) ==>
              var x := SurfaceOf(states[k], states[k].readers[r].c);
              x in states[k].counts && states[k].counts[x] >= 1
  {
    RunKeepsInv(states, steps, k);
    var s := states[k];
    assert ReaderInv(s, r);
    if Holding(CountFirst, s.readers[r]) {
      HeldIsCounted(s, r);
    }
  }

  /** The re-check admits a reader exactly while fewer than a ring's worth of cursors came
      after its own, counts included: it takes its hold before and keeps it either way. */
  lemma RecheckIsExact(states: seq<State>, steps: seq<Step>, k: nat)
    requires Run(CountFirst, states, steps) && k < |steps| && steps[k].Second?
    ensures var s, s', r := states[k], states[k + 1], steps[k].r;
            && r in s.readers && r in s'.readers && s'.readers[r].c == s.readers[r].c
            && (s'.readers[r].Sampling? <==> s.cursor - s.readers[r].c < s.capacity)
            && (s'.readers[r].Sampling? || s'.readers[r].Expired?) && s'.counts == s.counts
  {
    assert Taken(CountFirst, states[k], steps[k], states[k + 1]);
  }

  /** Taking and giving back a hold changes the count of that one surface by one. */
  lemma HoldsAreCounted(states: seq<State>, steps: seq<Step>, k: nat)
    requires Run(CountFirst, states, steps) && k < |steps| && (steps[k].First? || steps[k].Release?)
    ensures var s, s', r := states[k], states[k + 1], steps[k].r;
            && r in s.readers
            && var x := SurfaceOf(s, s.readers[r].c);
               && x in s.counts && s'.counts.Keys == s.counts.Keys
               && s'.counts[x] == s.counts[x] + (if steps[k].First? then 1 else -1)
               && forall y | y in s.counts && y != x :: s'.counts[y] == s.counts[y]
  {
    assert Taken(CountFirst, states[k], steps[k], states[k + 1]);
  }

  // ---- A publish with nobody in between ----

  lemma Joined(order: Order, a: seq<State>, s: seq<Step>, b: seq<State>, t: seq<Step>)
    requires Segment(order, a, s) && Segment(order, b, t) && a[|s|] == b[0]
    ensures Segment(order, a + b[1..], s + t) && (a + b[1..])[|s + t|] == b[|t|]
  {
    var c, u := a + b[1..], s + t;
    forall k | 0 <= k < |u| ensures Taken(order, c[k], u[k], c[k + 1]) {
      if k < |s| {
        assert Taken(order, a[k], s[k], a[k + 1]);
      } else {
        assert Taken(order, b[k - |s|], t[k - |s|], b[k - |s| + 1]);
      }
    }
  }

  /** The slot being staged exists and its first `k` words are the frame's. */
  ghost predicate Staged(s: State, k: nat) {
    && s.producer.Staging? && |s.producer.frame| == s.extent && k <= s.extent
    && var x := Surface(s.pool, s.producer.slot);
       && x in s.contents && |s.contents[x]| == s.extent
       && forall i | 0 <= i < k :: i in s.producer.done && s.contents[x][i] == s.producer.frame[i]
  }

  /** Staging the rest of the frame word by word. */
  lemma {:induction false} StageRun(order: Order, s: State, k: nat) returns (states: seq<State>, steps: seq<Step>)
    requires Staged(s, k)
    ensures Segment(order, states, steps) && states[0] == s
    ensures var Staging(slot, frame, _), last := s.producer, states[|steps|];
            && Staged(last, s.extent)
            && last == s.(contents := s.contents[Surface(s.pool, slot) := frame], producer := last.producer)
            && last.producer == Staging(slot, frame, last.producer.done)
    decreases s.extent - k
  {
    states, steps := [s], [];
    var x := Surface(s.pool, s.producer.slot);
    if k == s.extent {
      assert s.contents[x] == s.producer.frame;
      assert s.contents[x := s.producer.frame] == s.contents;
    } else {
      var s' := Apply(order, s, Stage(k));
      var more, rest := StageRun(order, s', k + 1);
      assert s'.contents[x := s.producer.frame] == s.contents[x := s.producer.frame];
      assert Segment(order, [s, s'], [Stage(k)]);
      Joined(order, [s, s'], [Stage(k)], more, rest);
      states, steps := [s, s'] + more[1..], [Stage(k)] + rest;
    }
  }

  /** Claiming, staging, pushing and recording a frame with nobody in between. */
  lemma PublishRun(order: Order, s: State, slot: nat, frame: seq<nat>) returns (states: seq<State>, steps: seq<Step>)
    requires Enabled(order, s, Claim(slot, frame))
    requires Surface(s.pool, slot) in s.contents && |s.contents[Surface(s.pool, slot)]| == s.extent
    ensures Segment(order, states, steps) && states[0] == s
    ensures states[|steps|] == s.(contents := s.contents[Surface(s.pool, slot) := frame],
                                  entries := s.entries + [Published(Surface(s.pool, slot), frame)],
                                  cursor := s.cursor + 1, lastCursor := s.cursor + 1,
                                  slotCursors := s.slotCursors[slot := s.cursor + 1])
  {
    var claimed := Apply(order, s, Claim(slot, frame));
    assert Segment(order, [s, claimed], [Claim(slot, frame)]);
    var stages, writes := StageRun(order, claimed, 0);
    Joined(order, [s, claimed], [Claim(slot, frame)], stages, writes);
    var staged := stages[|writes|];
    var pushed := Apply(order, staged, Push);
    var recorded := Apply(order, pushed, Record);
    assert Segment(order, [staged, pushed, recorded], [Push, Record]);
    var front, taken := [s, claimed] + stages[1..], [Claim(slot, frame)] + writes;
    Joined(order, front, taken, [staged, pushed, recorded], [Push, Record]);
    states := front + [staged, pushed, recorded][1..];
    steps := taken + [Push, Record];
  }

  // ---- The reversed order ----

  const TWO_SLOTS :=
    State(1, 1, map[Surface(1, 0) := [0], Surface(1, 1) := [0]], map[Surface(1, 0) := 0, Surface(1, 1) := 0],
          0, [], 1, [0, 0], 0, Ready, map[])

  lemma TwoSlotStart()
    ensures Init(TWO_SLOTS)
  {
    var pool := FreshPool(1, 2);
    assert pool == {Surface(1, 0), Surface(1, 1)};
    assert (map x | x in pool :: seq(1, _ => 0)) == TWO_SLOTS.contents by {
      assert seq(1, _ => 0) == [0];
    }
    assert (map x | x in pool :: 0) == TWO_SLOTS.counts;
    assert seq(2, _ => 0) == [0, 0];
  }

  /** Cursor 1 is on slot 0 and a reader has checked it but not yet counted itself. */
  lemma CheckedEarly() returns (states: seq<State>, steps: seq<Step>)
    ensures Run(CheckFirst, states, steps)
    ensures states[|steps|] == State(1, 1, map[Surface(1, 0) := [7], Surface(1, 1) := [0]],
                                     map[Surface(1, 0) := 0, Surface(1, 1) := 0], 1, [Published(Surface(1, 0), [7])],
                                     1, [1, 0], 1, Ready, map[0 := Waiting(1)])
  {
    TwoSlotStart();
    states, steps := PublishRun(CheckFirst, TWO_SLOTS, 0, [7]);
    var first := states[|steps|];
    var picked := Apply(CheckFirst, first, Pick(0, 1));
    var checked := Apply(CheckFirst, picked, First(0));
    var more := [first, picked, checked];
    assert Segment(CheckFirst, more, [Pick(0, 1), First(0)]);
    Joined(CheckFirst, states, steps, more, [Pick(0, 1), First(0)]);
    states, steps := states + more[1..], steps + [Pick(0, 1), First(0)];
  }

  /** Re-checking before taking the hold is not enough: the surface can be claimed and
      restaged in between, and the reader then samples another frame's bytes. */
  lemma CheckFirstFails() returns (states: seq<State>, steps: seq<Step>)
    ensures Run(CheckFirst, states, steps)
    ensures var s := states[|steps|]; 0 in s.readers && s.readers[0].Sampling? && !Shows(s, s.readers[0].c)
  {
    states, steps := CheckedEarly();
    var second, one := PublishRun(CheckFirst, states[|steps|], 1, [8]);
    Joined(CheckFirst, states, steps, second, one);
    states, steps := states + second[1..], steps + one;
    var third, two := PublishRun(CheckFirst, states[|steps|], 0, [9]);
    Joined(CheckFirst, states, steps, third, two);
    states, steps := states + third[1..], steps + two;
    var last := states[|steps|];
    var held := Apply(CheckFirst, last, Second(0));
    assert Segment(CheckFirst, [last, held], [Second(0)]);
    Joined(CheckFirst, states, steps, [last, held], [Second(0)]);
    states, steps := states + [last, held][1..], steps + [Second(0)];
  }
}
