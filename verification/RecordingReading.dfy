/** What the source of a recording track reads across changes of writer
    (crates/jackstay/src/audio.rs, `RecordingReader::read`): the handover of
    `RecordingHandover` with, behind every epoch, a ring whose writer and reader run word
    by word as in `PlaybackReading`. A switch restarts the reader's cursor on the new ring
    and keeps its gap flag. */
module RecordingReading {
  import opened Options
  import Handover = RecordingHandover
  import Reading = PlaybackReading

  /** A block given to the source: the writer's epoch and the delivery on its ring. */
  datatype Given = Given(writer: nat, index: nat)

  /** `rings` has one ring per epoch so far; each starts as `template`. */
  datatype State = State(
    template: Reading.State,
    host: Handover.State,
    rings: map<nat, Reading.State>,
    given: seq<Given>)

  datatype Step =
    | Hand(hand: Handover.Step)
    | Write(w: nat, step: Reading.Step)
    | Read(step: Reading.Step)

  predicate Init(s: State) {
    Reading.Init(s.template) && Handover.Init(s.host) && s.rings == map[] && s.given == []
  }

  /** The read under way goes to the ring of the writer it loaded. */
  predicate Delegates(s: State) {
    s.host.reader.Chosen? && s.host.reader.writer == s.host.readerWriter != 0 && s.host.readerRing in s.rings
  }

  predicate Enabled(s: State, step: Step) {
    match step
    case Hand(h) =>
      && Handover.Enabled(s.host, h)
      && (h.Emit? && Delegates(s) ==> s.rings[s.host.readerRing].phase.Resting?)
      && (h.Switch? && Handover.Switches(s.host) ==> s.host.current.value in s.rings)
    case Write(w, r) => w in s.rings && Reading.WriterStep(r) && Reading.Enabled(s.rings[w], r)
    case Read(r) => Delegates(s) && !Reading.WriterStep(r) && Reading.Enabled(s.rings[s.host.readerRing], r)
  }

  function GapNow(s: State): bool {
    s.host.readerRing in s.rings && s.rings[s.host.readerRing].gap
  }

  /** The ring a handover step creates or moves the reader to. */
  function AfterHand(s: State, h: Handover.Step): State
    requires Enabled(s, Hand(h))
  {
    var host := Handover.Apply(s.host, h);
    if h.Host? && s.host.lock.ClaimInstall? then s.(host := host, rings := s.rings[host.epoch := s.template])
    else if h.Switch? && Handover.Switches(s.host) then
      var w := s.host.current.value;
      s.(host := host, rings := s.rings[w := s.rings[w].(next := 0, gap := GapNow(s))])
    else s.(host := host)
  }

  function AfterRead(s: State, r: Reading.Step): State
    requires Enabled(s, Read(r))
  {
    var w := s.host.readerRing;
    var after := Reading.Apply(s.rings[w], r);
    s.(rings := s.rings[w := after],
       given := if |after.delivered| > |s.rings[w].delivered| then s.given + [Given(w, |s.rings[w].delivered|)]
                else s.given)
  }

  function Apply(s: State, step: Step): State
    requires Enabled(s, step)
  {
    match step
    case Hand(h) => AfterHand(s, h)
    case Write(w, r) => s.(rings := s.rings[w := Reading.Apply(s.rings[w], r)])
    case Read(r) => AfterRead(s, r)
  }

  // ---- Invariant ----

  /** No reader has been at the ring yet. */
  ghost predicate Unread(s: Reading.State) {
    s.phase.Resting? && s.next == 0 && !s.gap && s.delivered == [] && s.resyncs == []
  }

  ghost predicate RingInv(s: State, w: nat)
    requires w in s.rings
  {
    1 <= w <= s.host.epoch && Reading.FullInv(s.rings[w]) && (w > s.host.readerRing ==> Unread(s.rings[w]))
  }

  ghost predicate RingsInv(s: State) {
    && (forall w | w in s.rings :: RingInv(s, w))
    && (s.host.current.Some? ==> s.host.current.value in s.rings)
    && (s.host.readerRing != 0 ==> s.host.readerRing in s.rings)
  }

  ghost predicate GivenAt(s: State, i: nat)
    requires i < |s.given|
  {
    var g := s.given[i];
    g.writer <= s.host.readerRing && g.writer in s.rings && g.index < |s.rings[g.writer].delivered|
  }

  /** Blocks are given writer by writer, and within one writer delivery by delivery. */
  ghost predicate Later(a: Given, b: Given) {
    a.writer < b.writer || (a.writer == b.writer && a.index < b.index)
  }

  ghost predicate GivenInv(s: State) {
    && (forall i | 0 <= i < |s.given| :: GivenAt(s, i))
    && (forall i, j | 0 <= i < j < |s.given| :: Later(s.given[i], s.given[j]))
  }

  /** A delivery that is not a ring's first follows the one before it on that ring. */
  ghost predicate Chained(given: seq<Given>, i: nat)
    requires i < |given|
  {
    given[i].index > 0 ==> i > 0 && given[i - 1] == Given(given[i].writer, given[i].index - 1)
  }

  /** Every delivery on the reader's ring has been given, the last one last. */
  ghost predicate LastInv(s: State) {
    var w := s.host.readerRing;
    w in s.rings && s.rings[w].delivered != [] ==>
      s.given != [] && s.given[|s.given| - 1] == Given(w, |s.rings[w].delivered| - 1)
  }

  ghost predicate ChainInv(s: State) {
    LastInv(s) && forall i | 0 <= i < |s.given| :: Chained(s.given, i)
  }

  ghost predicate Inv(s: State) {
    Reading.Init(s.template) && Handover.Inv(s.host) && RingsInv(s) && GivenInv(s) && ChainInv(s)
  }

  // ---- Preservation ----

  /** Where a handover step may move the reader, and what it may add. */
  lemma HandoverMoves(s: Handover.State, h: Handover.Step)
    requires Handover.Inv(s) && Handover.Enabled(s, h)
    ensures var s' := Handover.Apply(s, h);
            && Handover.Inv(s') && s.epoch <= s'.epoch
            && (s'.current == s.current || s'.current.None? || (h.Host? && s.lock.ClaimInstall?))
            && (h.Host? && s.lock.ClaimInstall? ==> s'.epoch == s.epoch + 1 && s'.current == Some(s'.epoch))
            && (s'.readerRing == s.readerRing || (h.Switch? && Handover.Switches(s)))
            && (h.Switch? && Handover.Switches(s) ==> s'.readerRing == s.current.value > s.readerRing)
  {
    Handover.StepKeepsInv(s, h);
    match h
    case Host => HostMoves(s);
    case Switch => SwitchMoves(s);
    case _ =>
  }

  lemma HostMoves(s: Handover.State)
    requires !s.lock.Free?
    ensures var s' := Handover.AfterHost(s);
            && s.epoch <= s'.epoch && s'.readerRing == s.readerRing
            && (s.lock.ClaimInstall? ==> s'.epoch == s.epoch + 1 && s'.current == Some(s'.epoch))
            && (!s.lock.ClaimInstall? ==> s'.current == s.current || s'.current.None?)
  {
  }

  lemma SwitchMoves(s: Handover.State)
    requires Handover.Inv(s) && Handover.Enabled(s, Handover.Switch)
    ensures var s' := Handover.Apply(s, Handover.Switch);
            && s'.epoch == s.epoch && s'.current == s.current
            && (if Handover.Switches(s) then s'.readerRing == s.current.value > s.readerRing
                else s'.readerRing == s.readerRing)
  {
    if Handover.Switches(s) {
      assert s.lock.Free? && s.current == Some(s.epoch) && s.readerRing == s.readerWriter <= s.epoch;
    }
  }

  lemma TemplateIsSound(s: Reading.State)
    requires Reading.Init(s)
    ensures Reading.FullInv(s) && Unread(s)
  {
  }

  /** Restarting the reader on a ring it has never read. */
  lemma RestartIsSound(s: Reading.State, gap: bool)
    requires Reading.FullInv(s) && Unread(s)
    ensures Reading.FullInv(s.(next := 0, gap := gap))
  {
    var s' := s.(next := 0, gap := gap);
    Reading.RingUntouched(s, s');
  }

  lemma HandKeepsRings(s: State, h: Handover.Step)
    requires Inv(s) && Enabled(s, Hand(h))
    ensures RingsInv(AfterHand(s, h))
  {
    var s' := AfterHand(s, h);
    HandoverMoves(s.host, h);
    TemplateIsSound(s.template);
    forall w | w in s'.rings
      ensures RingInv(s', w)
    {
      if w in s.rings {
        assert RingInv(s, w);
        if h.Switch? && Handover.Switches(s.host) && w == s.host.current.value {
          RestartIsSound(s.rings[w], GapNow(s));
        }
      }
    }
  }

  lemma HandKeepsGiven(s: State, h: Handover.Step)
    requires Inv(s) && Enabled(s, Hand(h))
    ensures GivenInv(AfterHand(s, h))
  {
    var s' := AfterHand(s, h);
    HandoverMoves(s.host, h);
    forall i | 0 <= i < |s'.given|
      ensures GivenAt(s', i)
    {
      assert GivenAt(s, i);
      assert RingInv(s, s.given[i].writer);
    }
  }

  /** A step on one ring keeps it sound and only adds deliveries. */
  lemma RingStep(s: Reading.State, r: Reading.Step)
    requires Reading.FullInv(s) && Reading.Enabled(s, r)
    ensures var s' := Reading.Apply(s, r);
            && Reading.FullInv(s') && |s.delivered| <= |s'.delivered| <= |s.delivered| + 1
            && (Reading.WriterStep(r) && Unread(s) ==> Unread(s'))
            && (Reading.WriterStep(r) ==> |s'.delivered| == |s.delivered|)
  {
    Reading.StepKeepsInv(s, r);
  }

  lemma RingStepKeepsRings(s: State, w: nat, r: Reading.Step, s': State)
    requires Inv(s) && w in s.rings && Reading.Enabled(s.rings[w], r)
    requires Reading.WriterStep(r) || w == s.host.readerRing
    requires s'.template == s.template && s'.host == s.host && s'.rings == s.rings[w := Reading.Apply(s.rings[w], r)]
    ensures RingsInv(s')
  {
    assert RingInv(s, w);
    RingStep(s.rings[w], r);
    forall x | x in s'.rings
      ensures RingInv(s', x)
    {
      assert RingInv(s, x);
    }
  }

  lemma WriteKeepsGiven(s: State, w: nat, r: Reading.Step)
    requires Inv(s) && Enabled(s, Write(w, r))
    ensures GivenInv(Apply(s, Write(w, r)))
  {
    var s' := Apply(s, Write(w, r));
    assert RingInv(s, w);
    RingStep(s.rings[w], r);
    forall i | 0 <= i < |s'.given|
      ensures GivenAt(s', i)
    {
      assert GivenAt(s, i);
    }
  }

  lemma ReadKeepsGiven(s: State, r: Reading.Step)
    requires Inv(s) && Enabled(s, Read(r))
    ensures GivenInv(AfterRead(s, r))
  {
    var s', w := AfterRead(s, r), s.host.readerRing;
    assert RingInv(s, w);
    RingStep(s.rings[w], r);
    forall i | 0 <= i < |s'.given|
      ensures GivenAt(s', i)
    {
      assert i < |s.given| ==> GivenAt(s, i);
    }
    forall i, j | 0 <= i < j < |s'.given|
      ensures Later(s'.given[i], s'.given[j])
    {
      assert GivenAt(s, i);
      assert j < |s.given| ==> Later(s.given[i], s.given[j]);
    }
  }

  lemma HandKeepsChain(s: State, h: Handover.Step)
    requires Inv(s) && Enabled(s, Hand(h))
    ensures ChainInv(AfterHand(s, h))
  {
    HandoverMoves(s.host, h);
    if h.Switch? && Handover.Switches(s.host) {
      assert RingInv(s, s.host.current.value);
    } else if s.host.readerRing in s.rings {
      assert RingInv(s, s.host.readerRing);
    }
  }

  lemma WriteKeepsChain(s: State, w: nat, r: Reading.Step)
    requires Inv(s) && Enabled(s, Write(w, r))
    ensures ChainInv(Apply(s, Write(w, r)))
  {
    assert RingInv(s, w);
    RingStep(s.rings[w], r);
  }

  /** Giving the next delivery of the ring that was given last keeps the chain. */
  lemma ChainGrows(given: seq<Given>, one: Given)
    requires forall i | 0 <= i < |given| :: Chained(given, i)
    requires one.index > 0 ==> given != [] && given[|given| - 1] == Given(one.writer, one.index - 1)
    ensures forall i | 0 <= i < |given + [one]| :: Chained(given + [one], i)
  {
    forall i | 0 <= i < |given + [one]|
      ensures Chained(given + [one], i)
    {
      assert i < |given| ==> Chained(given, i);
    }
  }

  lemma GivingKeepsChain(s: State, after: Reading.State, s': State)
    requires ChainInv(s) && s.host.readerRing in s.rings
    requires var w := s.host.readerRing;
             var n := |s.rings[w].delivered|;
             && n <= |after.delivered| <= n + 1 && s'.host == s.host && s'.rings == s.rings[w := after]
             && s'.given == s.given + if |after.delivered| > n then [Given(w, n)] else []
    ensures ChainInv(s')
  {
    var w := s.host.readerRing;
    var n := |s.rings[w].delivered|;
    if |after.delivered| > n {
      ChainGrows(s.given, Given(w, n));
    } else {
      assert s'.given == s.given;
    }
  }

  lemma ReadKeepsChain(s: State, r: Reading.Step)
    requires Inv(s) && Enabled(s, Read(r))
    ensures ChainInv(AfterRead(s, r))
  {
    var w := s.host.readerRing;
    assert RingInv(s, w);
    RingStep(s.rings[w], r);
    GivingKeepsChain(s, Reading.Apply(s.rings[w], r), AfterRead(s, r));
  }

  lemma StepKeepsInv(s: State, step: Step)
    requires Inv(s) && Enabled(s, step)
    ensures Inv(Apply(s, step))
  {
    var s' := Apply(s, step);
    match step
    case Hand(h) =>
      Handover.StepKeepsInv(s.host, h);
      HandKeepsRings(s, h);
      HandKeepsGiven(s, h);
      HandKeepsChain(s, h);
    case Write(w, r) =>
      RingStepKeepsRings(s, w, r, s');
      WriteKeepsGiven(s, w, r);
      WriteKeepsChain(s, w, r);
    case Read(r) =>
      RingStepKeepsRings(s, s.host.readerRing, r, s');
      ReadKeepsGiven(s, r);
      ReadKeepsChain(s, r);
  }

  // ---- Runs ----

  ghost predicate Taken(s: State, step: Step, s': State) {
    Enabled(s, step) && s' == Apply(s, step)
  }

  ghost predicate Run(states: seq<State>, steps: seq<Step>) {
    && |states| == |steps| + 1 && Init(states[0])
    && (forall k {:trigger steps[k]} | 0 <= k < |steps| :: Taken(states[k], steps[k], states[k + 1]))
  }

  lemma {:induction false} RunKeepsInv(states: seq<State>, steps: seq<Step>, k: nat)
    requires Run(states, steps) && k < |states|
    ensures Inv(states[k])
  {
    if k > 0 {
      RunKeepsInv(states, steps, k - 1);
      assert Taken(states[k - 1], steps[k - 1], states[k]);
      StepKeepsInv(states[k - 1], steps[k - 1]);
    }
  }

  /** The delivery a given block stands for. */
  function DeliveryOf(s: State, g: Given): Option<Reading.Delivered> {
    if g.writer in s.rings && g.index < |s.rings[g.writer].delivered| then Some(s.rings[g.writer].delivered[g.index])
    else None
  }

  lemma BlocksInState(s: State, i: nat, j: nat)
    requires RingsInv(s) && GivenInv(s) && ChainInv(s) && i < j < |s.given|
    ensures var a, b := DeliveryOf(s, s.given[i]), DeliveryOf(s, s.given[j]);
            && a.Some? && b.Some? && s.given[i].writer <= s.given[j].writer
            && 1 <= b.value.cursor <= |s.rings[s.given[j].writer].blocks|
            && b.value.block == s.rings[s.given[j].writer].blocks[b.value.cursor - 1]
            && (s.given[i].writer == s.given[j].writer ==> a.value.cursor < b.value.cursor)
            && (s.given[i].writer == s.given[j].writer && j == i + 1 && !b.value.gap ==>
                  b.value.cursor == a.value.cursor + 1)
  {
    assert GivenAt(s, i) && GivenAt(s, j) && Later(s.given[i], s.given[j]);
    var w := s.given[j].writer;
    assert RingInv(s, w);
    assert Reading.DeliveredInv(s.rings[w], s.given[j].index);
    if s.given[i].writer == w {
      Reading.Increasing(s.rings[w], s.given[i].index, s.given[j].index);
      assert Chained(s.given, j);
    }
  }

  /** Across any run of claims, lease drops, switches, writes and reads: every block the
      source is given is the one its writer published at that cursor; writers follow each
      other in admission order and none is returned to; and within one writer's blocks
      cursors strictly increase, one by one unless the gap flag is set. */
  lemma BlocksFollowWriters(states: seq<State>, steps: seq<Step>, k: nat, i: nat, j: nat)
    requires Run(states, steps) && k < |states| && i < j < |states[k].given|
    ensures var s := states[k];
            var a, b := DeliveryOf(s, s.given[i]), DeliveryOf(s, s.given[j]);
            && a.Some? && b.Some? && s.given[i].writer <= s.given[j].writer
            && 1 <= b.value.cursor <= |s.rings[s.given[j].writer].blocks|
            && b.value.block == s.rings[s.given[j].writer].blocks[b.value.cursor - 1]
            && (s.given[i].writer == s.given[j].writer ==> a.value.cursor < b.value.cursor)
            && (s.given[i].writer == s.given[j].writer && j == i + 1 && !b.value.gap ==>
                  b.value.cursor == a.value.cursor + 1)
  {
    RunKeepsInv(states, steps, k);
    BlocksInState(states[k], i, j);
  }

  /** A switch restarts the cursor on the new ring and carries the gap flag over; it touches
      no other ring, and no other handover step moves the reader. */
  lemma SwitchRestarts(states: seq<State>, steps: seq<Step>, k: nat)
    requires Run(states, steps) && k < |steps|
    ensures var s, s' := states[k], states[k + 1];
            var from, to := s.host.readerRing, s'.host.readerRing;
            to != from ==>
              && to > from && to in s.rings && to in s'.rings && s'.rings[to].next == 0 && s'.given == s.given
              && s'.rings[to].gap == (from in s.rings && s.rings[from].gap)
              && s'.rings == s.rings[to := s'.rings[to]] && s'.rings[to].blocks == s.rings[to].blocks
  {
    assert Taken(states[k], steps[k], states[k + 1]);
    RunKeepsInv(states, steps, k);
    if steps[k].Hand? {
      HandoverMoves(states[k].host, steps[k].hand);
    }
  }
}
