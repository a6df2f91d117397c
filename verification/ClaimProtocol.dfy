/** The claim-before-validate acquisition protocol that
    scripts/check-acquisition-model.py explores for two consumers and two reuse cycles,
    here for any number of consumers, cycles and repeated acquisitions, with closes
    racing anywhere. Every claim store, validation, per-claim scan, write, read,
    release and close is one step. */
module ClaimProtocol {

  /** The protocol, and the three broken variants that serve as negative controls. */
  datatype Mode = Correct | ScanBeforeRetire | ReuseGeneration | EarlyRelease

  /** `want` is the generation selected; `claim` is the shared claim word, 0 for none.
      `pc` runs from 0 (idle) to 5 (finished). */
  datatype Consumer = Consumer(
    pc: nat, want: nat, claim: nat, validated: bool, admitted: bool, active: bool, closed: bool)

  datatype State = State(
    consumers: seq<Consumer>,
    generation: nat,
    payload: nat,
    published: bool,
    producerPc: nat,
    observed: bool)

  datatype Step = Consume(i: nat, generation: nat) | Close(i: nat) | Produce

  const IDLE := Consumer(0, 0, 0, false, false, true, false)

  predicate Init(s: State) {
    s == State(seq(|s.consumers|, _ => IDLE), 1, 1, true, 0, false)
  }

  predicate Enabled(s: State, step: Step) {
    match step
    case Consume(i, generation) => i < |s.consumers| && s.consumers[i].pc <= 5 && generation >= 1
    case Close(i) => i < |s.consumers| && !s.consumers[i].closed
    case Produce => s.producerPc <= |s.consumers| + 2
  }

  /** One consumer step: claim, validate the resource, validate the incarnation, read,
      release; a finished consumer may start over with another generation. */
  function AfterConsume(s: State, mode: Mode, c: Consumer, generation: nat): Consumer {
    match c.pc
    case 0 => c.(pc := 1, want := generation, claim := generation)
    case 1 => c.(pc := 2, validated := s.published && s.generation == c.want)
    case 2 =>
      var admitted := c.active && c.validated;
      c.(pc := 3, admitted := admitted, claim := if !admitted || mode.EarlyRelease? then 0 else c.claim)
    case 3 => c.(pc := 4)
    case 4 => c.(pc := 5, claim := 0)
    case _ => c.(pc := 0, want := 0, claim := 0, validated := false, admitted := false)
  }

  /** One producer step: retire, scan each claim in turn, write unless a claim was
      seen, finish. The scan-before-retire variant scans first. */
  function AfterProduce(s: State, mode: Mode): State
    requires s.producerPc <= |s.consumers| + 2
  {
    var n, pc := |s.consumers|, s.producerPc;
    var retirePc := if mode.ScanBeforeRetire? then n else 0;
    var next := s.(producerPc := pc + 1);
    if pc == retirePc then next.(published := false)
    else if pc <= n then
      var i := if mode.ScanBeforeRetire? then pc else pc - 1;
      next.(observed := s.observed || s.consumers[i].claim == s.generation)
    else if pc == n + 1 then
      if s.observed then next else next.(payload := s.payload + 1)
    else
      var ended := s.(producerPc := 0, observed := false);
      if s.observed then ended
      else ended.(generation := if mode.ReuseGeneration? then 1 else s.generation + 1, published := true)
  }

  function Apply(mode: Mode, s: State, step: Step): State
    requires Enabled(s, step)
  {
    match step
    case Consume(i, generation) =>
      s.(consumers := s.consumers[i := AfterConsume(s, mode, s.consumers[i], generation)])
    case Close(i) => s.(consumers := s.consumers[i := s.consumers[i].(active := false, closed := true)])
    case Produce => AfterProduce(s, mode)
  }

  ghost predicate Run(mode: Mode, states: seq<State>, steps: seq<Step>) {
    && |states| == |steps| + 1
    && Init(states[0])
    && (forall k {:trigger steps[k]} | 0 <= k < |steps| ::
          Enabled(states[k], steps[k]) && states[k + 1] == Apply(mode, states[k], steps[k]))
  }

  /** Consumer `i` is about to read storage rewritten since the generation it claimed. */
  predicate UnsafeRead(s: State, i: nat) {
    i < |s.consumers| && s.consumers[i].pc == 3 && s.consumers[i].admitted && s.payload != s.consumers[i].want
  }

  // ---- Safety of the protocol ----

  /** The consumer has validated its claim and not yet given it up. */
  predicate Leased(c: Consumer) {
    (c.pc == 2 && c.validated) || ((c.pc == 3 || c.pc == 4) && c.admitted)
  }

  /** A leased consumer's claim is still in place and names the current generation; a
      producer whose scan has passed it has seen it. */
  ghost predicate LeaseInv(s: State, i: nat)
    requires i < |s.consumers|
  {
    var c := s.consumers[i];
    && (c.pc == 1 || c.pc == 2 ==> c.claim == c.want)
    && (Leased(c) ==> c.claim == c.want == s.generation && (i + 1 < s.producerPc ==> s.observed))
  }

  ghost predicate Inv(s: State) {
    && s.producerPc <= |s.consumers| + 2
    && s.payload == s.generation + (if s.producerPc == |s.consumers| + 2 && !s.observed then 1 else 0)
    && (s.published ==> s.producerPc == 0)
    && (forall i | 0 <= i < |s.consumers| :: LeaseInv(s, i))
  }

  lemma StepKeepsInv(s: State, step: Step)
    requires Inv(s) && Enabled(s, step)
    ensures Inv(Apply(Correct, s, step))
  {
    var s' := Apply(Correct, s, step);
    forall i | 0 <= i < |s'.consumers| ensures LeaseInv(s', i) {
      assert LeaseInv(s, i);
    }
  }

  lemma {:induction false} RunKeepsInv(states: seq<State>, steps: seq<Step>, k: nat)
    requires Run(Correct, states, steps) && k < |states|
    ensures Inv(states[k])
  {
    if k > 0 {
      RunKeepsInv(states, steps, k - 1);
      StepKeepsInv(states[k - 1], steps[k - 1]);
    }
  }

  /** However many consumers and reuse cycles a run has, no admitted consumer ever
      reads storage rewritten since the generation it claimed. */
  lemma NoUnsafeRead(states: seq<State>, steps: seq<Step>, k: nat, i: nat)
    requires Run(Correct, states, steps) && k < |states|
    ensures !UnsafeRead(states[k], i)
  {
    RunKeepsInv(states, steps, k);
    if i < |states[k].consumers| {
      assert LeaseInv(states[k], i);
    }
  }

  /** One step keeps the consumers in place and closed ones inactive; a closed consumer
      that is not admitted stays that way. */
  lemma StepKeepsClosed(mode: Mode, s: State, step: Step, i: nat)
    requires Enabled(s, step) && i < |s.consumers|
    requires s.consumers[i].closed ==> !s.consumers[i].active
    ensures var s' := Apply(mode, s, step);
            && |s'.consumers| == |s.consumers|
            && (s'.consumers[i].closed ==> !s'.consumers[i].active)
            && (s.consumers[i].closed ==> s'.consumers[i].closed)
            && (s.consumers[i].closed && !s.consumers[i].admitted ==> !s'.consumers[i].admitted)
  {
  }

  lemma {:induction false} ClosedIsInactive(mode: Mode, states: seq<State>, steps: seq<Step>, k: nat, i: nat)
    requires Run(mode, states, steps) && k < |states| && i < |states[0].consumers|
    ensures |states[k].consumers| == |states[0].consumers|
    ensures states[k].consumers[i].closed ==> !states[k].consumers[i].active
  {
    if k > 0 {
      ClosedIsInactive(mode, states, steps, k - 1, i);
      StepKeepsClosed(mode, states[k - 1], steps[k - 1], i);
    }
  }

  /** Once closed, a consumer that is not admitted is never admitted again. */
  lemma {:induction false} NoAdmissionAfterClose(
    mode: Mode, states: seq<State>, steps: seq<Step>, k: nat, l: nat, i: nat)
    requires Run(mode, states, steps) && k <= l < |states| && i < |states[k].consumers| == |states[0].consumers|
    requires states[k].consumers[i].closed && !states[k].consumers[i].admitted
    ensures i < |states[l].consumers| && states[l].consumers[i].closed && !states[l].consumers[i].admitted
    decreases l
  {
    if k < l {
      NoAdmissionAfterClose(mode, states, steps, k, l - 1, i);
      ClosedIsInactive(mode, states, steps, l - 1, i);
      StepKeepsClosed(mode, states[l - 1], steps[l - 1], i);
    }
  }

  // ---- Negative controls: two consumers, as the script runs them ----

  ghost predicate Violated(mode: Mode, states: seq<State>, steps: seq<Step>) {
    Run(mode, states, steps) && UnsafeRead(states[|steps|], 0)
  }

  function Start(): State {
    State([IDLE, IDLE], 1, 1, true, 0, false)
  }

  /** A claim made between the scan and the retirement is missed. */
  lemma ScanBeforeRetireFails() returns (states: seq<State>, steps: seq<Step>)
    ensures Violated(ScanBeforeRetire, states, steps)
  {
    steps := [Produce, Produce, Consume(0, 1), Consume(0, 1), Consume(0, 1), Produce, Produce];
    var s1 := Apply(ScanBeforeRetire, Start(), Produce);
    var s2 := Apply(ScanBeforeRetire, s1, Produce);
    var s3 := Apply(ScanBeforeRetire, s2, Consume(0, 1));
    var s4 := Apply(ScanBeforeRetire, s3, Consume(0, 1));
    var s5 := Apply(ScanBeforeRetire, s4, Consume(0, 1));
    var s6 := Apply(ScanBeforeRetire, s5, Produce);
    var s7 := Apply(ScanBeforeRetire, s6, Produce);
    states := [Start(), s1, s2, s3, s4, s5, s6, s7];
  }

  /** A claim released on admission no longer blocks the write. */
  lemma EarlyReleaseFails() returns (states: seq<State>, steps: seq<Step>)
    ensures Violated(EarlyRelease, states, steps)
  {
    steps := [Consume(0, 1), Consume(0, 1), Consume(0, 1), Produce, Produce, Produce, Produce];
    var s1 := Apply(EarlyRelease, Start(), Consume(0, 1));
    var s2 := Apply(EarlyRelease, s1, Consume(0, 1));
    var s3 := Apply(EarlyRelease, s2, Consume(0, 1));
    var s4 := Apply(EarlyRelease, s3, Produce);
    var s5 := Apply(EarlyRelease, s4, Produce);
    var s6 := Apply(EarlyRelease, s5, Produce);
    var s7 := Apply(EarlyRelease, s6, Produce);
    states := [Start(), s1, s2, s3, s4, s5, s6, s7];
  }

  /** A reused generation number validates a claim on rewritten storage. */
  lemma ReuseGenerationFails() returns (states: seq<State>, steps: seq<Step>)
    ensures Violated(ReuseGeneration, states, steps)
  {
    steps := [Produce, Produce, Produce, Produce, Produce, Consume(0, 1), Consume(0, 1), Consume(0, 1)];
    var s1 := Apply(ReuseGeneration, Start(), Produce);
    var s2 := Apply(ReuseGeneration, s1, Produce);
    var s3 := Apply(ReuseGeneration, s2, Produce);
    var s4 := Apply(ReuseGeneration, s3, Produce);
    var s5 := Apply(ReuseGeneration, s4, Produce);
    var s6 := Apply(ReuseGeneration, s5, Consume(0, 1));
    var s7 := Apply(ReuseGeneration, s6, Consume(0, 1));
    var s8 := Apply(ReuseGeneration, s7, Consume(0, 1));
    states := [Start(), s1, s2, s3, s4, s5, s6, s7, s8];
  }

  // ---- Left to themselves, both sides succeed ----

  ghost function Producing(s: State, k: nat): State {
    if k == 0 then s
    else
      var t := Producing(s, k - 1);
      if Enabled(t, Produce) then Apply(Correct, t, Produce) else t
  }

  ghost predicate ClaimedBelow(s: State, n: nat)
    requires n <= |s.consumers|
  {
    exists i | 0 <= i < n :: s.consumers[i].claim == s.generation
  }

  lemma {:induction false} Scanned(s: State, k: nat)
    requires s.producerPc == 0 && !s.observed && 1 <= k <= |s.consumers| + 1
    ensures Producing(s, k) == s.(producerPc := k, published := false, observed := ClaimedBelow(s, k - 1))
  {
    if k == 1 {
      assert Producing(s, 0) == s;
    } else {
      Scanned(s, k - 1);
    }
  }

  /** A reuse attempt with nobody in between, for any number of consumers: it rewrites the
      storage and publishes the next generation exactly when nobody claims the current one,
      and otherwise only leaves the resource retired. */
  lemma ReuseLeftAlone(s: State)
    requires s.producerPc == 0 && !s.observed
    ensures Producing(s, |s.consumers| + 3) ==
            if ClaimedBelow(s, |s.consumers|) then s.(published := false)
            else s.(generation := s.generation + 1, payload := s.payload + 1, published := true)
  {
    var n := |s.consumers|;
    Scanned(s, n + 1);
    var scanned := Producing(s, n + 1);
    FinishReuse(scanned);
    ProducingNext(s, n + 1);
    ProducingNext(s, n + 2);
  }

  lemma ProducingNext(s: State, k: nat)
    requires Enabled(Producing(s, k), Produce)
    ensures Producing(s, k + 1) == Apply(Correct, Producing(s, k), Produce)
  {
  }

  /** Writing and finishing, after every claim has been scanned. */
  lemma FinishReuse(s: State)
    requires s.producerPc == |s.consumers| + 1
    ensures var written := Apply(Correct, s, Produce);
            && Enabled(written, Produce)
            && Apply(Correct, written, Produce) ==
               if s.observed then s.(producerPc := 0, observed := false)
               else s.(producerPc := 0, generation := s.generation + 1, payload := s.payload + 1, published := true)
  {
  }

  /** Reading and releasing: two more steps finish, with no claim left. */
  lemma ReleaseLeftAlone(s: State, i: nat, generation: nat)
    requires i < |s.consumers| && s.consumers[i].pc == 3 && generation >= 1
    ensures var read := Apply(Correct, s, Consume(i, generation));
            && read.consumers[i] == s.consumers[i].(pc := 4) && Enabled(read, Consume(i, generation))
            && Apply(Correct, read, Consume(i, generation)).consumers[i] == s.consumers[i].(pc := 5, claim := 0)
  {
  }

  /** An acquisition with nobody in between: three steps admit the consumer, claim in place,
      exactly when it is active and asked for the generation that is published; otherwise
      its claim is gone. */
  lemma AcquireLeftAlone(s: State, i: nat, generation: nat)
    requires i < |s.consumers| && s.consumers[i].pc == 0 && generation >= 1
    ensures var one := Apply(Correct, s, Consume(i, generation));
            Enabled(one, Consume(i, generation))
            && var two := Apply(Correct, one, Consume(i, generation));
               Enabled(two, Consume(i, generation))
               && var c := Apply(Correct, two, Consume(i, generation)).consumers[i];
                  && c.pc == 3 && c.want == generation
                  && (c.admitted <==> s.consumers[i].active && s.published && s.generation == generation)
                  && c.claim == if c.admitted then generation else 0
  {
  }
}
