/** The writer handover of one recording track (crates/jackstay/src/audio.rs,
    `Playback::claim`, `Lease`, `Writers::retire`, `RecordingReader::read`). Host threads
    claim and drop leases under a lock; the source's audio thread loads the writer epoch
    without it and switches rings only when it can take the lock at once. Each store of a
    critical section is its own step. */
module RecordingHandover {
  import opened Options

  /** A host thread inside the lock, by the next thing it does there. */
  datatype Lock =
    | Free
    | ClaimRetire | ClaimInstall | ClaimStore | ClaimUnlock
    | DropStore | DropRetire

  datatype Reader = Idle | Loaded(writer: nat) | Chosen(writer: nat)

  /** What one read returned: silence, or samples of `ring` after loading `writer`. */
  datatype Output = Silence | Samples(writer: nat, ring: nat)

  /** Rings are named by the epoch they were created for; ring 0 is the track's own,
      which the host keeps for good. */
  datatype State = State(
    writer: nat,
    epoch: nat,
    current: Option<nat>,
    retired: seq<nat>,
    leases: set<nat>,
    lock: Lock,
    reader: Reader,
    readerRing: nat,
    readerWriter: nat,
    outputs: seq<Output>)

  datatype Step = BeginClaim | BeginDrop(lease: nat) | Host | Load | Switch | Emit

  predicate Init(s: State) {
    s == State(0, 0, None, [], {}, Free, Idle, 0, 0, [])
  }

  /** References to `ring`: the retired list's and the reader's. */
  function StrongCount(retired: seq<nat>, readerRing: nat, ring: nat): nat {
    multiset(retired)[ring] + (if readerRing == ring then 1 else 0)
  }

  /** Keep the rings somebody besides this list still refers to. */
  function Retain(all: seq<nat>, rest: seq<nat>, readerRing: nat): seq<nat> {
    if rest == [] then []
    else (if StrongCount(all, readerRing, rest[0]) > 1 then [rest[0]] else []) + Retain(all, rest[1..], readerRing)
  }

  function Retire(s: State): State {
    var all := s.retired + (if s.current.Some? then [s.current.value] else []);
    s.(current := None, retired := Retain(all, all, s.readerRing))
  }

  /** A claim goes ahead only while no writer is admitted. */
  predicate Enabled(s: State, step: Step) {
    match step
    case BeginClaim => s.lock.Free? && s.writer == 0
    case BeginDrop(lease) => s.lock.Free? && lease in s.leases
    case Host => !s.lock.Free?
    case Load => s.reader.Idle?
    case Switch => s.reader.Loaded?
    case Emit => s.reader.Chosen?
  }

  function AfterHost(s: State): State
    requires !s.lock.Free?
  {
    match s.lock
    case ClaimRetire => Retire(s).(lock := ClaimInstall)
    case ClaimInstall => s.(epoch := s.epoch + 1, current := Some(s.epoch + 1), lock := ClaimStore)
    case ClaimStore => s.(writer := s.epoch, leases := s.leases + {s.epoch}, lock := ClaimUnlock)
    case ClaimUnlock => s.(lock := Free)
    case DropStore => s.(writer := 0, lock := DropRetire)
    case DropRetire => Retire(s).(lock := Free)
  }

  /** The reader switches if the epoch it loaded is still the current one and the lock
      is free; otherwise it keeps the ring it has. */
  predicate Switches(s: State)
    requires s.reader.Loaded?
  {
    var w := s.reader.writer;
    w != 0 && w != s.readerWriter && s.lock.Free? && s.current.Some? && s.epoch == w
  }

  function Apply(s: State, step: Step): State
    requires Enabled(s, step)
  {
    match step
    case BeginClaim => s.(lock := ClaimRetire)
    case BeginDrop(lease) => s.(leases := s.leases - {lease}, lock := DropStore)
    case Host => AfterHost(s)
    case Load => s.(reader := Loaded(s.writer))
    case Switch =>
      var w := s.reader.writer;
      if Switches(s) then s.(readerRing := s.current.value, readerWriter := w, reader := Chosen(w))
      else s.(reader := Chosen(w))
    case Emit =>
      var w := s.reader.writer;
      var output := if w == 0 || w != s.readerWriter then Silence else Samples(w, s.readerRing);
      s.(outputs := s.outputs + [output], reader := Idle)
  }

  // ---- Invariant ----

  /** The host still refers to `ring`, so letting it go elsewhere unmaps nothing. */
  predicate HostHolds(s: State, ring: nat) {
    ring == 0 || ring in s.retired || s.current == Some(ring)
  }

  /** At each point of a critical section: who may write, and which ring is current. */
  ghost predicate LockInv(s: State) {
    match s.lock
    case Free => if s.writer == 0 then s.leases == {} && s.current.None? else Admitted(s) && s.leases == {s.epoch}
    case ClaimRetire => s.writer == 0 && s.leases == {} && s.current.None?
    case ClaimInstall => s.writer == 0 && s.leases == {} && s.current.None?
    case ClaimStore => s.writer == 0 && s.leases == {} && s.current == Some(s.epoch) && s.epoch >= 1
    case ClaimUnlock => Admitted(s) && s.leases == {s.epoch}
    case DropStore => Admitted(s) && s.leases == {}
    case DropRetire => s.writer == 0 && s.leases == {} && s.current == Some(s.epoch) && s.epoch >= 1
  }

  ghost predicate Admitted(s: State) {
    s.writer == s.epoch && s.epoch >= 1 && s.current == Some(s.epoch)
  }

  ghost predicate Inv(s: State) {
    && LockInv(s)
    && |s.retired| <= 1
    && (s.retired != [] ==> 1 <= s.retired[0] <= s.epoch && s.current != Some(s.retired[0]))
    && s.readerRing == s.readerWriter <= s.epoch
    && HostHolds(s, s.readerRing)
    && (forall k | 0 <= k < |s.outputs| :: OutputInv(s.outputs[k]))
  }

  /** Samples come from the ring of the epoch loaded when the read began. */
  ghost predicate OutputInv(output: Output) {
    output.Samples? ==> output.writer >= 1 && output.ring == output.writer
  }

  ghost predicate Distinct(rings: seq<nat>) {
    forall i, j | 0 <= i < j < |rings| :: rings[i] != rings[j]
  }

  lemma {:induction false} CountedOnce(rings: seq<nat>, ring: nat)
    requires Distinct(rings)
    ensures multiset(rings)[ring] == if ring in rings then 1 else 0
  {
    if rings != [] {
      CountedOnce(rings[1..], ring);
      assert rings == [rings[0]] + rings[1..];
    }
  }

  /** Of distinct rings, only the one the reader uses is referred to elsewhere. */
  lemma {:induction false} RetainsReaders(all: seq<nat>, rest: seq<nat>, readerRing: nat)
    requires Distinct(all) && Distinct(rest) && forall x | x in rest :: x in all
    ensures Retain(all, rest, readerRing) == if readerRing in rest then [readerRing] else []
  {
    if rest != [] {
      CountedOnce(all, rest[0]);
      RetainsReaders(all, rest[1..], readerRing);
    }
  }

  /** Retiring keeps exactly the ring the reader still uses, if it is among them. */
  lemma RetireKeepsReaders(s: State)
    requires |s.retired| <= 1 && (s.current.Some? ==> s.current.value !in s.retired)
    ensures var all := s.retired + (if s.current.Some? then [s.current.value] else []);
            Retire(s).retired == if s.readerRing in all then [s.readerRing] else []
  {
    var all := s.retired + (if s.current.Some? then [s.current.value] else []);
    RetainsReaders(all, all, s.readerRing);
  }

  lemma RetireKeepsInv(s: State)
    requires Inv(s) && (s.lock.ClaimRetire? || s.lock.DropRetire?)
    ensures Inv(AfterHost(s))
  {
    RetireKeepsReaders(s);
    var all := s.retired + (if s.current.Some? then [s.current.value] else []);
    assert s.readerRing == 0 || s.readerRing in all;
    assert forall x | x in all :: 1 <= x <= s.epoch;
    var s' := AfterHost(s);
    assert s'.retired == if s.readerRing in all then [s.readerRing] else [];
    assert HostHolds(s', s'.readerRing);
    assert LockInv(s');
  }

  lemma HostKeepsInv(s: State)
    requires Inv(s) && !s.lock.Free? && !s.lock.ClaimRetire? && !s.lock.DropRetire?
    ensures Inv(AfterHost(s))
  {
  }

  lemma EmitKeepsInv(s: State)
    requires Inv(s) && Enabled(s, Emit)
    ensures Inv(Apply(s, Emit))
  {
    var s' := Apply(s, Emit);
    forall k | 0 <= k < |s'.outputs| ensures OutputInv(s'.outputs[k]) {
    }
  }

  lemma StepKeepsInv(s: State, step: Step)
    requires Inv(s) && Enabled(s, step)
    ensures Inv(Apply(s, step))
  {
    match step
    case Host =>
      if s.lock.ClaimRetire? || s.lock.DropRetire? {
        RetireKeepsInv(s);
      } else {
        HostKeepsInv(s);
      }
    case Emit => EmitKeepsInv(s);
    case _ =>
  }

  /** A switch lets go of a ring the host keeps, so the audio thread never unmaps one. */
  lemma SwitchUnmapsNothing(s: State)
    requires Inv(s) && Enabled(s, Switch)
    ensures HostHolds(Apply(s, Switch), s.readerRing)
  {
  }

  // ---- Runs ----

  ghost predicate Run(states: seq<State>, steps: seq<Step>) {
    && |states| == |steps| + 1
    && Init(states[0])
    && (forall k {:trigger steps[k]} | 0 <= k < |steps| ::
          Enabled(states[k], steps[k]) && states[k + 1] == Apply(states[k], steps[k]))
  }

  lemma {:induction false} RunKeepsInv(states: seq<State>, steps: seq<Step>, k: nat)
    requires Run(states, steps) && k < |states|
    ensures Inv(states[k])
  {
    if k > 0 {
      RunKeepsInv(states, steps, k - 1);
      StepKeepsInv(states[k - 1], steps[k - 1]);
    }
  }

  /** Across any run of claims, drops and reads: at most one lease is live; samples come
      only from the ring of the epoch loaded at the start of their read; the reader's
      ring is also held by the host, before and after every switch; and at most one
      ring is retired. */
  lemma HandoverIsSafe(states: seq<State>, steps: seq<Step>, k: nat)
    requires Run(states, steps) && k < |states|
    ensures |states[k].leases| <= 1 && |states[k].retired| <= 1
    ensures forall i | 0 <= i < |states[k].outputs| && states[k].outputs[i].Samples? ::
              states[k].outputs[i].ring == states[k].outputs[i].writer != 0
    ensures HostHolds(states[k], states[k].readerRing)
    ensures k < |steps| && steps[k].Switch? ==> HostHolds(states[k + 1], states[k].readerRing)
  {
    RunKeepsInv(states, steps, k);
    assert forall i | 0 <= i < |states[k].outputs| :: OutputInv(states[k].outputs[i]);
    if k < |steps| && steps[k].Switch? {
      SwitchUnmapsNothing(states[k]);
    }
  }

  // ---- Silence has a reason ----

  /** The switch step of the read that has chosen its ring by state `k`: since then neither
      the epoch it loaded nor its ring has changed. */
  lemma {:induction false} SwitchOf(states: seq<State>, steps: seq<Step>, k: nat) returns (j: nat)
    requires Run(states, steps) && k < |states| && states[k].reader.Chosen?
    ensures j < k && steps[j].Switch? && states[j].reader == Loaded(states[k].reader.writer)
    ensures states[j + 1].readerWriter == states[k].readerWriter
    ensures states[j + 1].readerRing == states[k].readerRing
    ensures forall i | j < i < k :: steps[i].BeginClaim? || steps[i].BeginDrop? || steps[i].Host?
  {
    var step := steps[k - 1];
    assert Enabled(states[k - 1], step) && states[k] == Apply(states[k - 1], step);
    if step.Switch? {
      j := k - 1;
    } else {
      j := SwitchOf(states, steps, k - 1);
    }
  }

  /** The load step of the read that is under way at state `k`: what it loaded was the writer
      admitted then. */
  lemma {:induction false} LoadOf(states: seq<State>, steps: seq<Step>, k: nat) returns (i: nat)
    requires Run(states, steps) && k < |states| && !states[k].reader.Idle?
    ensures i < k && steps[i].Load? && states[i].writer == states[k].reader.writer
    ensures forall m | i < m < k :: !steps[m].Load? && !steps[m].Emit?
  {
    var step := steps[k - 1];
    assert Enabled(states[k - 1], step) && states[k] == Apply(states[k - 1], step);
    if step.Load? {
      i := k - 1;
    } else {
      i := LoadOf(states, steps, k - 1);
    }
  }

  /** What every read returns, in every run. The writer it is for is the one admitted at its
      load step `i`; the rest is decided at its switch step `j`: samples of
      the loaded writer's ring if the reader was on it already, or if that writer was still
      admitted and the lock was free; and silence for a loaded writer only if the lock was
      held or that writer was admitted no longer. */
  lemma SilenceHasReason(states: seq<State>, steps: seq<Step>, k: nat) returns (i: nat, j: nat)
    requires Run(states, steps) && k < |steps| && steps[k].Emit?
    ensures i < k && steps[i].Load? && states[k].reader.Chosen? && states[i].writer == states[k].reader.writer
    ensures forall m | i < m < k :: !steps[m].Load? && !steps[m].Emit?
    ensures j < k && steps[j].Switch?
    ensures states[j].reader == Loaded(states[k].reader.writer)
    ensures var w, output := states[k].reader.writer, states[k + 1].outputs[|states[k].outputs|..];
            && (w == 0 ==> output == [Silence])
            && (w != 0 && (states[j].readerWriter == w || (states[j].lock.Free? && states[j].writer == w)) ==>
                  output == [Samples(w, w)])
            && (w != 0 && output == [Silence] ==>
                  states[j].readerWriter != w && (!states[j].lock.Free? || states[j].writer != w))
            && (output == [Silence] || output == [Samples(w, w)])
  {
    assert Enabled(states[k], steps[k]);
    i := LoadOf(states, steps, k);
    j := SwitchOf(states, steps, k);
    RunKeepsInv(states, steps, j);
    RunKeepsInv(states, steps, k);
    assert Enabled(states[j], steps[j]) && states[j + 1] == Apply(states[j], steps[j]);
    assert Enabled(states[k], steps[k]) && states[k + 1] == Apply(states[k], steps[k]);
  }

  /** With no writer and the lock free, a claim left to itself admits a new epoch. */
  lemma ClaimAdmits(s: State) returns (states: seq<State>)
    requires Inv(s) && s.lock.Free? && s.writer == 0
    ensures |states| == 6 && states[0] == s && states[1] == Apply(s, BeginClaim)
    ensures forall i | 1 <= i < 5 :: !states[i].lock.Free? && states[i + 1] == AfterHost(states[i])
    ensures var last := states[5];
            && last.lock.Free? && last.writer == s.epoch + 1 && last.current == Some(s.epoch + 1)
            && last.leases == {s.epoch + 1}
  {
    var a := Apply(s, BeginClaim);
    var b := AfterHost(a);
    var c := AfterHost(b);
    var d := AfterHost(c);
    states := [s, a, b, c, d, AfterHost(d)];
  }

  /** Dropping the lease left to itself leaves no writer and no current ring. */
  lemma DropReleases(s: State, lease: nat) returns (states: seq<State>)
    requires Inv(s) && s.lock.Free? && lease in s.leases
    ensures |states| == 4 && states[0] == s && states[1] == Apply(s, BeginDrop(lease))
    ensures forall i | 1 <= i < 3 :: !states[i].lock.Free? && states[i + 1] == AfterHost(states[i])
    ensures var last := states[3];
            last.lock.Free? && last.writer == 0 && last.current.None? && last.leases == {} && last.epoch == s.epoch
  {
    var a := Apply(s, BeginDrop(lease));
    var b := AfterHost(a);
    states := [s, a, b, AfterHost(b)];
  }
}
