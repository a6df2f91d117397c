/** The native track producer as one object: slot selection, publishing, pool
    replacement and drop accounting (crates/jackstay/src/native.rs). Consumers' holds are
    the use counts handed to each publish; staging and fence signalling may fail. */
module NativeProducer {
  import opened Options
  import opened Modular
  import opened VideoFrames
  import NativeReuse

  function Saturate(n: nat): nat {
    if n <= U32_MAX then n else U32_MAX
  }

  datatype Policy = DropFrame | FailPublish

  datatype Outcome =
    | Published(cursor: nat)
    | Dropped
    | PoolExhausted(slotCount: nat)
    | StageFailed
    | SignalFailed

  /** The accounting and placement fields of a pushed entry. */
  datatype NativeEntry = NativeEntry(
    sequence: nat, droppedBeforePublish: nat, producerDropCount: nat, fenceValue: nat, pool: nat, slot: nat)

  // ---- Slot selection ----

  function Rotate(next: nat, offset: nat, count: nat): (slot: nat)
    requires count >= 1
    ensures slot < count
  {
    (next + offset) % count
  }

  /** The rotation goes up from where it starts and wraps once to the slots below. */
  lemma RotationOrder(next: nat, offset: nat, count: nat)
    requires next < count && offset < count
    ensures Rotate(next, offset, count) ==
            if offset < count - next then next + offset else offset - (count - next)
  {
    if offset < count - next {
      DivModUnique(next + offset, count, 0, next + offset);
    } else {
      DivModUnique(next + offset, count, 1, next + offset - count);
    }
  }

  /** The slot chosen is free, follows the hint if there is one, and every free slot that
      the rotation visits before it is still named by the ring. */
  ghost predicate Chosen(cursors: seq<nat>, last: nat, capacity: nat, hint: Option<nat>, next: nat,
                         useCounts: seq<nat>, slot: nat) {
    && slot < |cursors| == |useCounts| && useCounts[slot] == 0
    && (hint.Some? ==> slot == hint.value)
    && (cursors[slot] == 0 || cursors[slot] + capacity <= last)
    && (hint.None? ==>
          forall other | 0 <= other < |cursors| && useCounts[other] == 0 && Before(next, other, slot) ::
            cursors[other] != 0 && last < cursors[other] + capacity)
  }

  /** Starting at `next` and wrapping, `a` comes before `b`. */
  predicate Before(next: nat, a: nat, b: nat) {
    if a >= next then b < next || a < b else b < next && a < b
  }

  /** Every free slot the hint allows is still named by the ring. */
  ghost predicate NoneFree(cursors: seq<nat>, last: nat, capacity: nat, hint: Option<nat>, useCounts: seq<nat>) {
    && |useCounts| == |cursors|
    && forall i | 0 <= i < |cursors| && useCounts[i] == 0 && (hint.Some? ==> i == hint.value) ::
         cursors[i] != 0 && last < cursors[i] + capacity
  }

  lemma NothingFits(search: Search, useCounts: seq<nat>)
    requires |useCounts| == |search.cursors| && search.capacity >= 1
    requires forall i | 0 <= i < |search.cursors| :: search.cursors[i] <= search.last
    requires forall slot | 0 <= slot < |search.cursors| && search.Fits(slot) :: useCounts[slot] > 0
    ensures NoneFree(search.cursors, search.last, search.capacity, search.hint, useCounts)
  {
    forall i | 0 <= i < |search.cursors| && useCounts[i] == 0 && (search.hint.Some? ==> i == search.hint.value)
      ensures search.cursors[i] != 0 && search.last < search.cursors[i] + search.capacity
    {
      assert !search.Fits(i);
    }
  }

  lemma FirstFreeIsChosen(search: Search, useCounts: seq<nat>, first: nat, slot: nat)
    requires FirstFree(search, useCounts, first, slot) && search.next < |search.cursors| && search.capacity >= 1
    requires forall i | 0 <= i < |search.cursors| :: search.cursors[i] <= search.last
    ensures Chosen(search.cursors, search.last, search.capacity, search.hint, search.next, useCounts, slot)
  {
    var next, count := search.next, |search.cursors|;
    RotationOrder(next, first, count);
    forall other | 0 <= other < count && useCounts[other] == 0 && Before(next, other, slot) && search.hint.None?
      ensures search.cursors[other] != 0 && search.last < search.cursors[other] + search.capacity
    {
      var o := RotationCovers(next, other, count);
      RotationOrder(next, o, count);
      if search.Fits(other) {
        assert At(search, other, o);
      }
    }
  }

  /** Every slot comes up in one round of the rotation. */
  lemma RotationCovers(next: nat, slot: nat, count: nat) returns (offset: nat)
    requires next < count && slot < count
    ensures offset < count && Rotate(next, offset, count) == slot
  {
    offset := if slot >= next then slot - next else slot + count - next;
    RotationOrder(next, offset, count);
  }

  predicate Eligible(cursors: seq<nat>, last: nat, capacity: nat, hint: Option<nat>, slot: nat)
    requires slot < |cursors|
  {
    (hint.Some? ==> hint.value == slot) && !NativeReuse.Reachable(cursors, last, capacity, slot)
  }

  /** One search for a slot: the allocator's view, the capture API's choice if it made
      one, and where the rotation starts. */
  datatype Search = Search(cursors: seq<nat>, last: nat, capacity: nat, hint: Option<nat>, next: nat) {
    predicate Fits(slot: nat)
      requires slot < |cursors|
    {
      Eligible(cursors, last, capacity, hint, slot)
    }
  }

  /** `slot` is an eligible slot `offset` places into the rotation. */
  ghost predicate At(search: Search, slot: nat, offset: nat) {
    offset < |search.cursors| && slot == Rotate(search.next, offset, |search.cursors|) && search.Fits(slot)
  }

  /** The slot at `offset` is eligible and unheld, and no earlier one is. */
  ghost predicate FirstFree(search: Search, useCounts: seq<nat>, offset: nat, slot: nat) {
    && |useCounts| == |search.cursors| && At(search, slot, offset) && useCounts[slot] == 0
    && forall o: nat, other: nat | o < offset && At(search, other, o) :: useCounts[other] > 0
  }

  /** The candidates are the eligible slots of the first `upTo` places, in order. */
  ghost predicate Listed(search: Search, candidates: seq<nat>, offsets: seq<nat>, upTo: nat) {
    && |candidates| == |offsets| && upTo <= |search.cursors|
    && (forall i | 0 <= i < |offsets| :: At(search, candidates[i], offsets[i]) && offsets[i] < upTo)
    && (forall i, j | 0 <= i < j < |offsets| :: offsets[i] < offsets[j])
    && (forall slot: nat, o: nat | o < upTo && At(search, slot, o) :: o in offsets)
  }

  lemma ListMore(search: Search, candidates: seq<nat>, offsets: seq<nat>, upTo: nat)
    requires Listed(search, candidates, offsets, upTo) && upTo < |search.cursors|
    requires search.Fits(Rotate(search.next, upTo, |search.cursors|))
    ensures Listed(search, candidates + [Rotate(search.next, upTo, |search.cursors|)], offsets + [upTo], upTo + 1)
  {
  }

  lemma ListSkip(search: Search, candidates: seq<nat>, offsets: seq<nat>, upTo: nat)
    requires Listed(search, candidates, offsets, upTo) && upTo < |search.cursors|
    requires !search.Fits(Rotate(search.next, upTo, |search.cursors|))
    ensures Listed(search, candidates, offsets, upTo + 1)
  {
  }

  lemma ListedAll(search: Search, candidates: seq<nat>, offsets: seq<nat>, useCounts: seq<nat>)
    requires Listed(search, candidates, offsets, |search.cursors|) && |useCounts| == |search.cursors|
    requires search.next < |search.cursors|
    requires forall i | 0 <= i < |candidates| :: candidates[i] < |useCounts| && useCounts[candidates[i]] > 0
    ensures forall slot | 0 <= slot < |search.cursors| && search.Fits(slot) :: useCounts[slot] > 0
  {
    forall slot | 0 <= slot < |search.cursors| && search.Fits(slot) ensures useCounts[slot] > 0 {
      var o := RotationCovers(search.next, slot, |search.cursors|);
      assert At(search, slot, o);
      var i :| 0 <= i < |offsets| && offsets[i] == o;
      assert At(search, candidates[i], offsets[i]);
    }
  }

  lemma ListedFirst(search: Search, candidates: seq<nat>, offsets: seq<nat>, useCounts: seq<nat>, at: nat)
    requires Listed(search, candidates, offsets, |search.cursors|) && |useCounts| == |search.cursors|
    requires at < |candidates| && candidates[at] < |useCounts| && useCounts[candidates[at]] == 0
    requires forall i | 0 <= i < at :: candidates[i] < |useCounts| && useCounts[candidates[i]] > 0
    ensures FirstFree(search, useCounts, offsets[at], candidates[at])
  {
    forall o: nat, other: nat | o < offsets[at] && At(search, other, o) ensures useCounts[other] > 0 {
      var i :| 0 <= i < |offsets| && offsets[i] == o;
      assert At(search, candidates[i], offsets[i]);
      assert i < at;
    }
  }

  // ---- Pigeonhole ----

  /** Slots whose last cursor lies in [low, high). */
  ghost function Within(cursors: seq<nat>, low: nat, high: nat): set<nat> {
    set i | 0 <= i < |cursors| && low <= cursors[i] < high
  }

  ghost predicate DistinctCursors(cursors: seq<nat>) {
    forall i, j | 0 <= i < j < |cursors| && cursors[i] != 0 :: cursors[i] != cursors[j]
  }

  lemma {:induction false} WindowHoldsFew(cursors: seq<nat>, low: nat, high: nat)
    requires DistinctCursors(cursors) && 1 <= low <= high
    ensures |Within(cursors, low, high)| <= high - low
    decreases high
  {
    if low == high {
      assert Within(cursors, low, high) == {};
    } else {
      WindowHoldsFew(cursors, low, high - 1);
      OneMoreCursor(cursors, low, high - 1);
    }
  }

  /** A cursor more in the window is at most a slot more. */
  lemma OneMoreCursor(cursors: seq<nat>, low: nat, high: nat)
    requires DistinctCursors(cursors) && 1 <= low <= high
    ensures |Within(cursors, low, high + 1)| <= |Within(cursors, low, high)| + 1
  {
    var fewer, more := Within(cursors, low, high), Within(cursors, low, high + 1);
    if newest :| 0 <= newest < |cursors| && cursors[newest] == high {
      forall i | i in more
        ensures i in fewer + {newest}
      {
        assert i < newest ==> cursors[i] != cursors[newest];
        assert newest < i ==> cursors[newest] != cursors[i];
      }
      assert more <= fewer + {newest};
      FewerSlots(more, fewer + {newest});
    } else {
      assert more == fewer;
    }
  }

  lemma FewerSlots(a: set<nat>, b: set<nat>)
    requires a <= b
    ensures |a| <= |b|
  {
    assert b == a + (b - a);
  }

  ghost function HeldSlots(useCounts: seq<nat>): set<nat> {
    set i | 0 <= i < |useCounts| && useCounts[i] > 0
  }

  lemma {:induction false} AllSlots(all: set<nat>, n: nat)
    requires forall i | 0 <= i < n :: i in all
    ensures |all| >= n
  {
    if n > 0 {
      assert n - 1 in all;
      AllSlots(all - {n - 1}, n - 1);
    }
  }

  /** If no slot is both out of the live window and unheld, consumers hold at least
      `slots - capacity` surfaces. */
  lemma ExhaustionNeedsHolds(cursors: seq<nat>, last: nat, capacity: nat, useCounts: seq<nat>)
    requires DistinctCursors(cursors) && |useCounts| == |cursors| && capacity >= 1
    requires forall i | 0 <= i < |cursors| :: cursors[i] <= last
    requires forall i | 0 <= i < |cursors| && !NativeReuse.Reachable(cursors, last, capacity, i) :: useCounts[i] > 0
    ensures |HeldSlots(useCounts)| + capacity >= |cursors|
  {
    var live := Within(cursors, OldestLive(last, capacity), last + 1);
    WindowHoldsFew(cursors, OldestLive(last, capacity), last + 1);
    var held := HeldSlots(useCounts);
    forall i | 0 <= i < |cursors| ensures i in live + held {
      assert NativeReuse.Reachable(cursors, last, capacity, i) ==> i in live;
    }
    AllSlots(live + held, |cursors|);
    assert |live + held| <= |live| + |held|;
  }

  // ---- Allocation over the entries published so far ----

  /** A slot's cursor names the entry that was last staged into it. */
  ghost predicate SlotInv(pool: nat, cursors: seq<nat>, entries: seq<NativeEntry>, i: nat)
    requires i < |cursors|
  {
    cursors[i] != 0 ==>
      cursors[i] <= |entries| && entries[cursors[i] - 1].pool == pool && entries[cursors[i] - 1].slot == i
  }

  /** A live entry of the current pool is the newest on its slot. */
  ghost predicate LiveInv(pool: nat, cursors: seq<nat>, entries: seq<NativeEntry>, c: nat)
    requires 1 <= c <= |entries|
  {
    var e := entries[c - 1];
    e.pool <= pool && (e.pool == pool ==> e.slot < |cursors| && cursors[e.slot] == c)
  }

  ghost predicate AllocInv(capacity: nat, pool: nat, cursors: seq<nat>, entries: seq<NativeEntry>) {
    && 1 <= capacity < |cursors|
    && DistinctCursors(cursors)
    && (forall i | 0 <= i < |cursors| :: SlotInv(pool, cursors, entries, i))
    && (forall c | OldestLive(|entries|, capacity) <= c <= |entries| :: LiveInv(pool, cursors, entries, c))
  }

  /** Publishing on a slot the live window does not name keeps the allocation sound. */
  lemma PublishKeepsAlloc(capacity: nat, pool: nat, cursors: seq<nat>, entries: seq<NativeEntry>, e: NativeEntry)
    requires AllocInv(capacity, pool, cursors, entries)
    requires e.pool == pool && e.slot < |cursors| && !NativeReuse.Reachable(cursors, |entries|, capacity, e.slot)
    ensures AllocInv(capacity, pool, cursors[e.slot := |entries| + 1], entries + [e])
  {
    var cursors', entries' := cursors[e.slot := |entries| + 1], entries + [e];
    forall i | 0 <= i < |cursors'| ensures SlotInv(pool, cursors', entries', i) {
      assert SlotInv(pool, cursors, entries, i);
    }
    forall c | OldestLive(|entries'|, capacity) <= c <= |entries'| ensures LiveInv(pool, cursors', entries', c) {
      if c <= |entries| {
        assert LiveInv(pool, cursors, entries, c);
      }
    }
    forall i, j | 0 <= i < j < |cursors'| && cursors'[i] != 0 ensures cursors'[i] != cursors'[j] {
      assert SlotInv(pool, cursors, entries, i) && SlotInv(pool, cursors, entries, j);
    }
  }

  lemma ReplaceKeepsAlloc(capacity: nat, pool: nat, cursors: seq<nat>, entries: seq<NativeEntry>, count: nat)
    requires AllocInv(capacity, pool, cursors, entries) && count > capacity
    ensures AllocInv(capacity, pool + 1, seq(count, _ => 0), entries)
  {
    var next, restarted := pool + 1, seq(count, _ => 0);
    forall c | OldestLive(|entries|, capacity) <= c <= |entries| ensures LiveInv(next, restarted, entries, c) {
      assert LiveInv(pool, cursors, entries, c);
    }
  }

  /** Live entries of the active pool name pairwise distinct slots. */
  lemma LiveSlotsDistinct(capacity: nat, pool: nat, cursors: seq<nat>, entries: seq<NativeEntry>, b: nat, c: nat)
    requires AllocInv(capacity, pool, cursors, entries)
    requires OldestLive(|entries|, capacity) <= b < c <= |entries|
    requires entries[b - 1].pool == entries[c - 1].pool == pool
    ensures entries[b - 1].slot != entries[c - 1].slot
  {
    assert LiveInv(pool, cursors, entries, b) && LiveInv(pool, cursors, entries, c);
  }

  /** With no slot hint, exhaustion needs consumers to hold `slots - capacity` surfaces. */
  lemma NoneMeansHeld(capacity: nat, pool: nat, cursors: seq<nat>, entries: seq<NativeEntry>, useCounts: seq<nat>)
    requires AllocInv(capacity, pool, cursors, entries) && |useCounts| == |cursors|
    requires forall i | 0 <= i < |cursors| && Eligible(cursors, |entries|, capacity, None, i) :: useCounts[i] > 0
    ensures |HeldSlots(useCounts)| + capacity >= |cursors|
  {
    forall i | 0 <= i < |cursors| ensures cursors[i] <= |entries| {
      assert SlotInv(pool, cursors, entries, i);
    }
    forall i | 0 <= i < |cursors| && !NativeReuse.Reachable(cursors, |entries|, capacity, i) ensures useCounts[i] > 0 {
      assert Eligible(cursors, |entries|, capacity, None, i);
    }
    ExhaustionNeedsHolds(cursors, |entries|, capacity, useCounts);
  }

  // ---- Accounting over the outcomes so far ----

  /** What a history of outcomes amounts to; `gap` counts the drops since the last
      publication. */
  datatype Tally = Tally(published: nat, dropped: nat, failed: nat, gap: nat)

  ghost function TallyOf(history: seq<Outcome>): Tally {
    if history == [] then Tally(0, 0, 0, 0)
    else
      var t := TallyOf(history[..|history| - 1]);
      match history[|history| - 1]
      case Published(_) => t.(published := t.published + 1, gap := 0)
      case Dropped => t.(dropped := t.dropped + 1, gap := t.gap + 1)
      case SignalFailed => t.(failed := t.failed + 1)
      case PoolExhausted(_) => t
      case StageFailed => t
  }

  lemma TallyNext(history: seq<Outcome>, o: Outcome)
    ensures TallyOf(history + [o]) ==
            var t := TallyOf(history);
            match o
            case Published(_) => t.(published := t.published + 1, gap := 0)
            case Dropped => t.(dropped := t.dropped + 1, gap := t.gap + 1)
            case SignalFailed => t.(failed := t.failed + 1)
            case PoolExhausted(_) => t
            case StageFailed => t
  {
    assert (history + [o])[..|history|] == history;
  }

  /** The entry of cursor `c` tells what came before it. */
  ghost predicate Tells(entries: seq<NativeEntry>, c: nat, t: Tally) {
    && c == t.published + 1 && c <= |entries|
    && var e := entries[c - 1];
       && e.sequence == c + t.dropped + t.failed && e.fenceValue == c + t.failed
       && e.producerDropCount == t.dropped && e.droppedBeforePublish == Saturate(t.gap)
  }

  /** So does that of the publication at place `i` of the history. */
  ghost predicate Told(history: seq<Outcome>, entries: seq<NativeEntry>, i: nat)
    requires i < |history| && history[i].Published?
  {
    Tells(entries, history[i].cursor, TallyOf(history[..i]))
  }

  /** Every publication's entry does, and there are no other entries. */
  ghost predicate AllTold(history: seq<Outcome>, entries: seq<NativeEntry>) {
    && |entries| == TallyOf(history).published
    && forall i | 0 <= i < |history| && history[i].Published? :: Told(history, entries, i)
  }

  lemma ToldStays(history: seq<Outcome>, entries: seq<NativeEntry>, o: Outcome, more: seq<NativeEntry>)
    requires AllTold(history, entries)
    ensures forall i | 0 <= i < |history| && history[i].Published? :: Told(history + [o], entries + more, i)
  {
    forall i | 0 <= i < |history| && history[i].Published?
      ensures Told(history + [o], entries + more, i)
    {
      assert Told(history, entries, i);
      assert (history + [o])[..i] == history[..i];
    }
  }

  lemma QuietKeepsTold(history: seq<Outcome>, entries: seq<NativeEntry>, o: Outcome)
    requires AllTold(history, entries) && !o.Published?
    ensures AllTold(history + [o], entries)
  {
    TallyNext(history, o);
    ToldStays(history, entries, o, []);
    assert entries + [] == entries;
  }

  lemma PublishKeepsTold(history: seq<Outcome>, entries: seq<NativeEntry>, e: NativeEntry)
    requires AllTold(history, entries)
    requires var t, c := TallyOf(history), |entries| + 1;
             && e.sequence == c + t.dropped + t.failed && e.fenceValue == c + t.failed
             && e.producerDropCount == t.dropped && e.droppedBeforePublish == Saturate(t.gap)
    ensures AllTold(history + [Published(|entries| + 1)], entries + [e])
  {
    var o := Published(|entries| + 1);
    TallyNext(history, o);
    ToldStays(history, entries, o, [e]);
    assert (history + [o])[..|history|] == history;
    assert Told(history + [o], entries + [e], |history|);
  }

  // ---- The producer ----

  /** `entries` is the control page read as the log it refines. */
  class NativeTrackProducer {
    const capacity: nat
    const policy: Policy
    var pool: nat
    var slotCursors: seq<nat>
    var nextSlotHint: nat
    var lastCursor: nat
    var sequence: nat
    var fenceValue: nat
    var pendingDropped: nat
    var producerDropCount: nat
    var entries: seq<NativeEntry>
    /** The outcome of every publish so far. */
    ghost var history: seq<Outcome>

    ghost predicate SlotsInv()
      reads this
    {
      && nextSlotHint < |slotCursors| && lastCursor == |entries|
      && AllocInv(capacity, pool, slotCursors, entries)
    }

    /** The counters are those of the history, with `n` sequence numbers drawn and not
        yet spent. */
    ghost predicate Counts(n: nat)
      reads this
    {
      var t := TallyOf(history);
      && AllTold(history, entries)
      && sequence == |entries| + t.dropped + t.failed + n && fenceValue == |entries| + t.failed + n
      && producerDropCount == t.dropped && pendingDropped == Saturate(t.gap)
    }

    ghost predicate Valid()
      reads this
    {
      SlotsInv() && Counts(0)
    }

    constructor (capacity: nat, slotCount: nat, policy: Policy)
      requires 1 <= capacity < slotCount
      ensures Valid() && entries == [] && history == [] && pool == 1
      ensures this.capacity == capacity && this.policy == policy && |slotCursors| == slotCount
    {
      this.capacity, this.policy := capacity, policy;
      pool, slotCursors, nextSlotHint, lastCursor := 1, seq(slotCount, _ => 0), 0, 0;
      sequence, fenceValue, pendingDropped, producerDropCount := 0, 0, 0, 0;
      entries, history := [], [];
    }

    /** A pool the live ring alone could pin is refused; `capacity` is already rounded. */
    static method Create(capacity: nat, slotCount: nat, policy: Policy) returns (r: Option<NativeTrackProducer>)
      requires capacity >= 1
      ensures r.Some? <==> slotCount > capacity
      ensures r.Some? ==>
                var p := r.value;
                && fresh(p) && p.Valid() && p.entries == [] && p.history == [] && p.pool == 1
                && p.capacity == capacity && p.policy == policy && |p.slotCursors| == slotCount
    {
      if slotCount <= capacity {
        return None;
      }
      var producer := new NativeTrackProducer(capacity, slotCount, policy);
      return Some(producer);
    }

    /** The first slot of the rotation that is eligible and unheld, or None exactly when
        every eligible slot is held. */
    method ClaimSlot(hint: Option<nat>, useCounts: seq<nat>) returns (claimed: Option<nat>)
      requires SlotsInv() && |useCounts| == |slotCursors|
      ensures var search := Search(slotCursors, lastCursor, capacity, hint, nextSlotHint);
              if claimed.Some? then exists first :: FirstFree(search, useCounts, first, claimed.value)
              else forall slot | 0 <= slot < |slotCursors| && search.Fits(slot) :: useCounts[slot] > 0
      ensures if claimed.Some?
              then Chosen(slotCursors, lastCursor, capacity, hint, nextSlotHint, useCounts, claimed.value)
              else NoneFree(slotCursors, lastCursor, capacity, hint, useCounts)
    {
      forall i | 0 <= i < |slotCursors|
        ensures slotCursors[i] <= lastCursor
      {
        assert SlotInv(pool, slotCursors, entries, i);
      }
      var count := |slotCursors|;
      ghost var search := Search(slotCursors, lastCursor, capacity, hint, nextSlotHint);
      var candidates: seq<nat> := [];
      ghost var offsets: seq<nat> := [];
      for offset := 0 to count
        invariant Listed(search, candidates, offsets, offset)
      {
        var slot := Rotate(nextSlotHint, offset, count);
        if Eligible(slotCursors, lastCursor, capacity, hint, slot) {
          ListMore(search, candidates, offsets, offset);
          candidates, offsets := candidates + [slot], offsets + [offset];
        } else {
          ListSkip(search, candidates, offsets, offset);
        }
      }
      forall i | 0 <= i < |candidates| ensures candidates[i] < count {
        assert At(search, candidates[i], offsets[i]);
      }
      var at := FirstUnheld(candidates, useCounts);
      if at == |candidates| {
        ListedAll(search, candidates, offsets, useCounts);
        NothingFits(search, useCounts);
        return None;
      }
      ListedFirst(search, candidates, offsets, useCounts, at);
      FirstFreeIsChosen(search, useCounts, offsets[at], candidates[at]);
      return Some(candidates[at]);
    }

    /** The backend's answer: the position of the first candidate nobody holds. */
    method FirstUnheld(candidates: seq<nat>, useCounts: seq<nat>) returns (at: nat)
      requires forall i | 0 <= i < |candidates| :: candidates[i] < |useCounts|
      ensures at <= |candidates|
      ensures forall i | 0 <= i < at :: useCounts[candidates[i]] > 0
      ensures at < |candidates| ==> useCounts[candidates[at]] == 0
    {
      at := 0;
      while at < |candidates| && useCounts[candidates[at]] != 0
        invariant at <= |candidates| && forall i | 0 <= i < at :: useCounts[candidates[i]] > 0
      {
        at := at + 1;
      }
    }

    /** With no slot hint a publish finds the pool exhausted only when consumers hold
        at least `slots - capacity` surfaces. Each outcome's whole effect is stated. */
    method Publish(hint: Option<nat>, useCounts: seq<nat>, stageOk: bool, fenceOk: bool) returns (outcome: Outcome)
      requires Valid() && |useCounts| == |slotCursors|
      modifies this
      ensures Valid() && history == old(history) + [outcome]
      ensures var search := Search(old(slotCursors), old(lastCursor), capacity, hint, old(nextSlotHint));
              var exhausted := forall i | 0 <= i < |useCounts| && search.Fits(i) :: useCounts[i] > 0;
              match outcome
              case Published(c) =>
                && !exhausted && stageOk && fenceOk && c == lastCursor == old(lastCursor) + 1
                && entries == old(entries) + [entries[c - 1]]
                && var e := entries[c - 1];
                   && (exists first :: FirstFree(search, useCounts, first, e.slot))
                   && e == NativeEntry(old(sequence) + 1, old(pendingDropped), old(producerDropCount),
                                       old(fenceValue) + 1, old(pool), e.slot)
                   && slotCursors == old(slotCursors)[e.slot := c] && nextSlotHint == (e.slot + 1) % |slotCursors|
                   && pool == old(pool) && sequence == e.sequence && fenceValue == e.fenceValue
                   && pendingDropped == 0 && producerDropCount == old(producerDropCount)
              case Dropped =>
                && exhausted && policy.DropFrame? && fenceValue == old(fenceValue)
                && sequence == old(sequence) + 1 && producerDropCount == old(producerDropCount) + 1
              case PoolExhausted(n) =>
                && exhausted && policy.FailPublish? && n == |slotCursors|
                && unchanged(this`sequence, this`fenceValue, this`pendingDropped, this`producerDropCount)
              case StageFailed =>
                && !exhausted && !stageOk
                && unchanged(this`sequence, this`fenceValue, this`pendingDropped, this`producerDropCount)
              case SignalFailed =>
                && !exhausted && stageOk && !fenceOk && unchanged(this`pendingDropped, this`producerDropCount)
                && sequence == old(sequence) + 1 && fenceValue == old(fenceValue) + 1
      ensures !outcome.Published? ==>
                unchanged(this`pool, this`slotCursors, this`nextSlotHint, this`lastCursor, this`entries)
      ensures hint.None? && |HeldSlots(useCounts)| + capacity < |useCounts| ==>
                !outcome.Dropped? && !outcome.PoolExhausted?
      ensures outcome.Published? ==>
                Chosen(old(slotCursors), old(lastCursor), capacity, hint, old(nextSlotHint), useCounts,
                       entries[|entries| - 1].slot)
      ensures outcome.Dropped? || outcome.PoolExhausted? ==>
                NoneFree(old(slotCursors), old(lastCursor), capacity, hint, useCounts)
    {
      var claimed := ClaimSlot(hint, useCounts);
      if claimed.None? {
        if hint.None? {
          NoneMeansHeld(capacity, pool, slotCursors, entries, useCounts);
        }
        outcome := Refuse();
        return;
      }
      if !stageOk {
        QuietKeepsTold(history, entries, StageFailed);
        TallyNext(history, StageFailed);
        history := history + [StageFailed];
        return StageFailed;
      }
      sequence := sequence + 1;
      fenceValue := fenceValue + 1;
      if !fenceOk {
        QuietKeepsTold(history, entries, SignalFailed);
        TallyNext(history, SignalFailed);
        history := history + [SignalFailed];
        return SignalFailed;
      }
      outcome := Commit(claimed.value);
    }

    /** Push the staged frame of `slot` and remember it. */
    method Commit(slot: nat) returns (outcome: Outcome)
      requires SlotsInv() && slot < |slotCursors| && !NativeReuse.Reachable(slotCursors, lastCursor, capacity, slot)
      requires Counts(1)
      modifies this`entries, this`history, this`pendingDropped, this`slotCursors, this`nextSlotHint, this`lastCursor
      ensures Valid() && outcome == Published(lastCursor) && history == old(history) + [outcome]
      ensures lastCursor == old(lastCursor) + 1 && pendingDropped == 0
      ensures entries == old(entries) +
                [NativeEntry(sequence, old(pendingDropped), producerDropCount, fenceValue, pool, slot)]
      ensures slotCursors == old(slotCursors)[slot := lastCursor] && nextSlotHint == (slot + 1) % |slotCursors|
    {
      var e := NativeEntry(sequence, pendingDropped, producerDropCount, fenceValue, pool, slot);
      PublishKeepsAlloc(capacity, pool, slotCursors, entries, e);
      PublishKeepsTold(history, entries, e);
      TallyNext(history, Published(lastCursor + 1));
      entries := entries + [e];
      var cursor := lastCursor + 1;
      pendingDropped := 0;
      slotCursors := slotCursors[slot := cursor];
      nextSlotHint := (slot + 1) % |slotCursors|;
      lastCursor := cursor;
      history := history + [Published(cursor)];
      return Published(cursor);
    }

    /** Nothing can be staged: count a drop, or leave the frame to the caller. */
    method Refuse() returns (outcome: Outcome)
      requires Valid()
      modifies this`sequence, this`pendingDropped, this`producerDropCount, this`history
      ensures Valid() && history == old(history) + [outcome]
      ensures if policy.DropFrame?
              then && outcome == Dropped && sequence == old(sequence) + 1
                   && producerDropCount == old(producerDropCount) + 1
              else outcome == PoolExhausted(|slotCursors|)
                   && unchanged(this`sequence, this`pendingDropped, this`producerDropCount)
    {
      outcome := if policy.FailPublish? then PoolExhausted(|slotCursors|) else Dropped;
      QuietKeepsTold(history, entries, outcome);
      TallyNext(history, outcome);
      history := history + [outcome];
      if policy.DropFrame? {
        sequence := sequence + 1;
        pendingDropped := if pendingDropped < U32_MAX then pendingDropped + 1 else U32_MAX;
        producerDropCount := producerDropCount + 1;
      }
    }

    /** Replacing the pool restarts its slots and touches no counter of the stream; a
        pool the live ring could pin whole is refused. */
    method ReplacePool(slotCount: nat) returns (ok: bool)
      requires Valid()
      modifies this`pool, this`slotCursors, this`nextSlotHint
      ensures Valid() && ok == (slotCount > capacity)
      ensures ok ==> pool == old(pool) + 1 && slotCursors == seq(slotCount, _ => 0) && nextSlotHint == 0
      ensures !ok ==> unchanged(this)
    {
      if slotCount <= capacity {
        return false;
      }
      ReplaceKeepsAlloc(capacity, pool, slotCursors, entries, slotCount);
      pool := pool + 1;
      slotCursors := seq(slotCount, _ => 0);
      nextSlotHint := 0;
      return true;
    }
  }

  // ---- What the entries report ----

  /** Counts only grow, and a stretch without failed signals, or without publications,
      leaves that count where it was. */
  lemma {:induction false} TallyGrows(history: seq<Outcome>, i: nat, j: nat)
    requires i <= j <= |history|
    ensures var a, b := TallyOf(history[..i]), TallyOf(history[..j]);
            && a.dropped <= b.dropped
            && a.failed <= b.failed && (a.failed == b.failed <==> forall k | i <= k < j :: !history[k].SignalFailed?)
            && a.published <= b.published
            && (a.published == b.published <==> forall k | i <= k < j :: !history[k].Published?)
  {
    if i < j {
      TallyGrows(history, i, j - 1);
      assert history[..j] == history[..j - 1] + [history[j - 1]];
      TallyNext(history[..j - 1], history[j - 1]);
    }
  }

  /** While nothing is published, the gap grows by exactly the drops. */
  lemma {:induction false} GapCountsDrops(history: seq<Outcome>, i: nat, j: nat)
    requires i <= j <= |history| && forall k | i <= k < j :: !history[k].Published?
    ensures var a, b := TallyOf(history[..i]), TallyOf(history[..j]); b.gap - a.gap == b.dropped - a.dropped
  {
    if i < j {
      GapCountsDrops(history, i, j - 1);
      assert history[..j] == history[..j - 1] + [history[j - 1]];
      TallyNext(history[..j - 1], history[j - 1]);
    }
  }

  /** Every entry was published at one place of the history. */
  lemma {:induction false} PublishedAt(history: seq<Outcome>, entries: seq<NativeEntry>, k: nat) returns (i: nat)
    requires AllTold(history, entries) && k < |entries|
    ensures i < |history| && history[i] == Published(k + 1)
  {
    i := FindPublished(history, k);
    assert Told(history, entries, i);
  }

  lemma {:induction false} FindPublished(history: seq<Outcome>, k: nat) returns (i: nat)
    requires k < TallyOf(history).published
    ensures i < |history| && history[i].Published? && TallyOf(history[..i]).published == k
  {
    var last := |history| - 1;
    if k < TallyOf(history[..last]).published {
      i := FindPublished(history[..last], k);
      assert history[..last][..i] == history[..i];
    } else {
      i := last;
    }
  }

  /** For every producer and every entry it published: the entry's sequence is its cursor
      plus its drop count if and only if no fence signal failed before its publication. */
  lemma SequenceAccountsForDrops(p: NativeTrackProducer, k: nat) returns (i: nat)
    requires p.Valid() && k < |p.entries|
    ensures i < |p.history| && p.history[i] == Published(k + 1)
    ensures p.entries[k].sequence == (k + 1) + p.entries[k].producerDropCount <==>
            forall j | 0 <= j < i :: !p.history[j].SignalFailed?
  {
    i := PublishedAt(p.history, p.entries, k);
    assert Told(p.history, p.entries, i);
    TallyGrows(p.history, 0, i);
    assert p.history[..0] == [];
  }

  /** Consecutive entries differ in sequence by one plus the reported gap if and only if
      between them no fence signal failed and the drops fit the 32-bit field. */
  lemma ConsecutiveSequences(p: NativeTrackProducer, i: nat, j: nat)
    requires p.Valid() && i < j < |p.history| && p.history[i].Published? && p.history[j].Published?
    requires p.history[j].cursor == p.history[i].cursor + 1
    ensures 1 <= p.history[i].cursor < |p.entries|
    ensures var a, b := p.entries[p.history[i].cursor - 1], p.entries[p.history[i].cursor];
            && b.producerDropCount - a.producerDropCount == TallyOf(p.history[..j]).gap
            && (b.sequence - a.sequence == 1 + b.droppedBeforePublish <==>
                (forall k | i < k < j :: !p.history[k].SignalFailed?)
                && b.producerDropCount - a.producerDropCount <= U32_MAX)
  {
    var h := p.history;
    assert Told(h, p.entries, i) && Told(h, p.entries, j);
    assert h[..i + 1] == h[..i] + [h[i]];
    TallyNext(h[..i], h[i]);
    TallyGrows(h, i + 1, j);
    GapCountsDrops(h, i + 1, j);
  }

  ghost function Reported(entries: seq<NativeEntry>): nat {
    if entries == [] then 0 else Reported(entries[..|entries| - 1]) + entries[|entries| - 1].droppedBeforePublish
  }

  /** At no point of the history had more frames been dropped in a row than 32 bits hold. */
  ghost predicate GapsFit(history: seq<Outcome>) {
    forall i | 0 <= i <= |history| :: TallyOf(history[..i]).gap <= U32_MAX
  }

  lemma GapsFitNext(history: seq<Outcome>, o: Outcome)
    ensures GapsFit(history + [o]) <==> GapsFit(history) && TallyOf(history + [o]).gap <= U32_MAX
  {
    var longer := history + [o];
    assert forall i | 0 <= i <= |history| :: longer[..i] == history[..i];
    assert longer[..|longer|] == longer;
  }

  /** What the entries report plus the pending count never exceeds the drops, and equals
      them exactly when every gap fits its field. */
  lemma {:induction false} ReportedGaps(history: seq<Outcome>, entries: seq<NativeEntry>)
    requires AllTold(history, entries)
    ensures var t := TallyOf(history);
            && Reported(entries) + Saturate(t.gap) <= t.dropped
            && (Reported(entries) + Saturate(t.gap) == t.dropped <==> GapsFit(history))
  {
    if history != [] {
      var last := |history| - 1;
      var before, o := history[..last], history[last];
      assert before + [o] == history;
      TallyNext(before, o);
      GapsFitNext(before, o);
      var fewer := if o.Published? then entries[..|entries| - 1] else entries;
      ToldBefore(before, o, entries, fewer);
      ReportedGaps(before, fewer);
      assert GapsFit(history) <==> GapsFit(before) && TallyOf(history).gap <= U32_MAX;
      assert GapsFit(before) ==> TallyOf(before).gap <= U32_MAX by {
        assert before[..|before|] == before;
      }
    }
  }

  /** A publication's cursor is within the publications of any later history. */
  lemma CursorWithin(history: seq<Outcome>, entries: seq<NativeEntry>, i: nat)
    requires i < |history| && history[i].Published? && Told(history, entries, i)
    ensures history[i].cursor <= TallyOf(history).published
  {
    TallyGrows(history, i + 1, |history|);
    assert history[..i + 1] == history[..i] + [history[i]] && history[..|history|] == history;
    TallyNext(history[..i], history[i]);
  }

  lemma ToldOnPrefix(before: seq<Outcome>, o: Outcome, entries: seq<NativeEntry>, n: nat, i: nat)
    requires i < |before| && before[i].Published? && Told(before + [o], entries, i)
    requires TallyOf(before).published <= n <= |entries|
    ensures Told(before, entries[..n], i)
  {
    assert (before + [o])[..i] == before[..i];
    assert Told(before, entries, i);
    CursorWithin(before, entries, i);
    TellsOnPrefix(entries, n, before[i].cursor, TallyOf(before[..i]));
  }

  lemma TellsOnPrefix(entries: seq<NativeEntry>, n: nat, c: nat, t: Tally)
    requires Tells(entries, c, t) && c <= n <= |entries|
    ensures Tells(entries[..n], c, t)
  {
  }

  lemma ToldBefore(before: seq<Outcome>, o: Outcome, entries: seq<NativeEntry>, fewer: seq<NativeEntry>)
    requires AllTold(before + [o], entries)
    requires |entries| >= 1 || !o.Published?
    requires fewer == if o.Published? then entries[..|entries| - 1] else entries
    ensures AllTold(before, fewer)
    ensures o.Published? ==> entries[|entries| - 1].droppedBeforePublish == Saturate(TallyOf(before).gap)
  {
    var history, n := before + [o], |fewer|;
    TallyNext(before, o);
    assert entries[..n] == fewer;
    forall i | 0 <= i < |before| && before[i].Published?
      ensures Told(before, fewer, i)
    {
      assert history[i] == before[i] && Told(history, entries, i);
      ToldOnPrefix(before, o, entries, n, i);
    }
    if o.Published? {
      assert Told(history, entries, |before|) && history[..|before|] == before;
    }
  }

  /** Over every run of publishes and reconfigurations, what was reported plus what is
      pending is the total of drops if and only if every gap fits its field. */
  lemma DropsAreConserved(p: NativeTrackProducer)
    requires p.Valid()
    ensures p.producerDropCount == TallyOf(p.history).dropped
    ensures Reported(p.entries) + p.pendingDropped <= p.producerDropCount
    ensures Reported(p.entries) + p.pendingDropped == p.producerDropCount <==> GapsFit(p.history)
  {
    ReportedGaps(p.history, p.entries);
  }

  // ---- The failing cases are reached ----

  /** Dropping one frame more than 32 bits count makes the reported gaps fall short. */
  method OverflowedGap() returns (p: NativeTrackProducer)
    ensures fresh(p) && p.Valid() && Reported(p.entries) + p.pendingDropped != p.producerDropCount
  {
    p := new NativeTrackProducer(1, 2, DropFrame);
    for n := 0 to U32_MAX + 1
      invariant fresh(p) && p.Valid() && p.policy.DropFrame? && |p.slotCursors| == 2 && p.entries == []
      invariant p.producerDropCount == n && TallyOf(p.history).gap == n
    {
      TallyNext(p.history, Dropped);
      var outcome := p.Publish(None, [1, 1], true, true);
    }
  }

  /** One failed signal before the first entry makes its sequence exceed cursor and drops. */
  method LostSignal() returns (p: NativeTrackProducer)
    ensures fresh(p) && p.Valid() && |p.entries| == 1
    ensures p.entries[0].sequence != 1 + p.entries[0].producerDropCount
  {
    p := new NativeTrackProducer(1, 2, DropFrame);
    assert HeldSlots([0, 0]) == {};
    var failed := p.Publish(None, [0, 0], true, false);
    assert failed.SignalFailed?;
    var outcome := p.Publish(None, [0, 0], true, true);
  }

  // ---- The producer takes the steps of the reuse protocol ----

  /** The allocator's view is that of a protocol state with no publish under way. */
  ghost predicate Mirrors(
    capacity: nat, pool: nat, cursors: seq<nat>, entries: seq<NativeEntry>, s: NativeReuse.State)
  {
    && s.capacity == capacity && s.pool == pool && s.slotCursors == cursors && s.producer.Ready?
    && s.lastCursor == s.cursor == |s.entries| == |entries|
    && forall k | 0 <= k < |entries| ::
         s.entries[k].surface == NativeReuse.Surface(entries[k].pool, entries[k].slot)
  }

  /** The use counts the backend sees are those of the readers' holds. */
  ghost predicate CountsOf(s: NativeReuse.State, useCounts: seq<nat>) {
    && |useCounts| == |s.slotCursors|
    && forall i | 0 <= i < |useCounts| ::
         var x := NativeReuse.Surface(s.pool, i); x in s.counts && s.counts[x] == useCounts[i]
  }

  /** A successful publish is a claim, the stores of the frame, a push and a record of the
      protocol, which therefore covers everything this producer does. */
  lemma PublishRefines(capacity: nat, pool: nat, cursors: seq<nat>, entries: seq<NativeEntry>, hint: Option<nat>,
                       next: nat, useCounts: seq<nat>, first: nat, e: NativeEntry, frame: seq<nat>,
                       s: NativeReuse.State)
    returns (states: seq<NativeReuse.State>, steps: seq<NativeReuse.Step>)
    requires Mirrors(capacity, pool, cursors, entries, s) && NativeReuse.Inv(s) && CountsOf(s, useCounts)
    requires FirstFree(Search(cursors, |entries|, capacity, hint, next), useCounts, first, e.slot)
    requires e.pool == pool && |frame| == s.extent
    ensures NativeReuse.Segment(NativeReuse.CountFirst, states, steps) && states[0] == s
    ensures Mirrors(capacity, pool, cursors[e.slot := |entries| + 1], entries + [e], states[|steps|])
    ensures states[|steps|].entries[|entries|].bytes == frame
  {
    var x := NativeReuse.Surface(pool, e.slot);
    assert x in s.counts && s.counts[x] == useCounts[e.slot];
    states, steps := NativeReuse.PublishRun(NativeReuse.CountFirst, s, e.slot, frame);
  }

  /** A publish that fails before or after staging is a claim that comes to nothing: some
      stores to a surface nobody reads, and the allocator's view unchanged. */
  lemma FailureRefines(capacity: nat, pool: nat, cursors: seq<nat>, entries: seq<NativeEntry>, hint: Option<nat>,
                       next: nat, useCounts: seq<nat>, first: nat, slot: nat, frame: seq<nat>, staged: bool,
                       s: NativeReuse.State)
    returns (states: seq<NativeReuse.State>, steps: seq<NativeReuse.Step>)
    requires Mirrors(capacity, pool, cursors, entries, s) && NativeReuse.Inv(s) && CountsOf(s, useCounts)
    requires FirstFree(Search(cursors, |entries|, capacity, hint, next), useCounts, first, slot)
    requires |frame| == s.extent
    ensures NativeReuse.Segment(NativeReuse.CountFirst, states, steps) && states[0] == s && |steps| >= 2
    ensures Mirrors(capacity, pool, cursors, entries, states[|steps|]) && states[|steps|].entries == s.entries
  {
    var x := NativeReuse.Surface(pool, slot);
    assert x in s.counts && s.counts[x] == useCounts[slot];
    var claim := NativeReuse.Claim(slot, frame);
    var claimed := NativeReuse.Apply(NativeReuse.CountFirst, s, claim);
    states, steps := [s, claimed], [claim];
    assert NativeReuse.Segment(NativeReuse.CountFirst, states, steps);
    if staged {
      var stages, writes := NativeReuse.StageRun(NativeReuse.CountFirst, claimed, 0);
      NativeReuse.Joined(NativeReuse.CountFirst, states, steps, stages, writes);
      states, steps := states + stages[1..], steps + writes;
    }
    var last := states[|steps|];
    var failed := NativeReuse.Apply(NativeReuse.CountFirst, last, NativeReuse.Fail);
    assert NativeReuse.Segment(NativeReuse.CountFirst, [last, failed], [NativeReuse.Fail]);
    NativeReuse.Joined(NativeReuse.CountFirst, states, steps, [last, failed], [NativeReuse.Fail]);
    states, steps := states + [last, failed][1..], steps + [NativeReuse.Fail];
  }

  /** Replacing the pool is the protocol's reconfiguration. */
  lemma ReplaceRefines(
    capacity: nat, pool: nat, cursors: seq<nat>, entries: seq<NativeEntry>, slotCount: nat, s: NativeReuse.State)
    requires Mirrors(capacity, pool, cursors, entries, s) && slotCount > capacity
    ensures NativeReuse.Enabled(NativeReuse.CountFirst, s, NativeReuse.Reconfigure(slotCount))
    ensures Mirrors(capacity, pool + 1, seq(slotCount, _ => 0), entries,
                    NativeReuse.Apply(NativeReuse.CountFirst, s, NativeReuse.Reconfigure(slotCount)))
  {
  }
}
