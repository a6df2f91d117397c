/** The coalescing doorbell of one consumer incarnation
    (crates/jackstay/src/audio.rs, `BellInner::ring`, `Doorbell::take`, `Doorbell::wait`):
    any number of ringers, one waiter, and takes by polling at any moment. The wake is
    one coalescing token; every atomic operation is one step. */
module Doorbell {

  /** Where the waiter stands inside `wait`; `Empty` has just taken a zero hint. */
  datatype Waiter = Away | Draining | Taking | Empty | Asleep

  datatype Event = Rung(bit: nat) | Taken(bits: set<nat>)

  /** `signalling` are the ringers that set the first bit and have yet to signal. */
  datatype State = State(hint: set<nat>, token: bool, signalling: set<nat>, waiter: Waiter, events: seq<Event>)

  datatype Step =
    | Ring(r: nat, bit: nat)
    | Signal(r: nat)
    | Poll
    | Wait
    | Drain
    | Take
    | Return
    | Sleep
    | Wake
    | Expire

  predicate Init(s: State) {
    s == State({}, false, {}, Away, [])
  }

  predicate Enabled(s: State, step: Step) {
    match step
    case Ring(r, _) => r !in s.signalling
    case Signal(r) => r in s.signalling
    case Poll => true
    case Wait => s.waiter.Away?
    case Drain => s.waiter.Draining?
    case Take => s.waiter.Taking?
    case Return => s.waiter.Empty?
    case Sleep => s.waiter.Empty?
    case Wake => s.waiter.Asleep? && s.token
    case Expire => s.waiter.Asleep?
  }

  /** `Return` is a cancelled or expired wait, `Expire` a sleep ended by either. */
  function Apply(s: State, step: Step): State
    requires Enabled(s, step)
  {
    match step
    case Ring(r, bit) =>
      s.(hint := s.hint + {bit}, events := s.events + [Rung(bit)],
         signalling := if s.hint == {} then s.signalling + {r} else s.signalling)
    case Signal(r) => s.(token := true, signalling := s.signalling - {r})
    case Poll => s.(hint := {}, events := s.events + [Taken(s.hint)])
    case Wait => s.(waiter := Draining)
    case Drain => s.(token := false, waiter := Taking)
    case Take => s.(hint := {}, events := s.events + [Taken(s.hint)], waiter := if s.hint == {} then Empty else Away)
    case Return => s.(waiter := Away)
    case Sleep => s.(waiter := Asleep)
    case Wake => s.(waiter := Draining)
    case Expire => s.(waiter := Draining)
  }

  ghost predicate Run(states: seq<State>, steps: seq<Step>) {
    && |states| == |steps| + 1
    && Init(states[0])
    && (forall k {:trigger steps[k]} | 0 <= k < |steps| ::
          Enabled(states[k], steps[k]) && states[k + 1] == Apply(states[k], steps[k]))
  }

  /** A waiter that found nothing, or sleeps, has a wake-up coming for any bit set since. */
  ghost predicate Awaited(s: State) {
    (s.waiter.Empty? || s.waiter.Asleep?) && s.hint != {} ==> s.token || s.signalling != {}
  }

  /** Bit `b` was rung at event `i` and no take has returned it since. */
  ghost predicate Outstanding(events: seq<Event>, i: nat, b: nat) {
    && i < |events| && events[i] == Rung(b)
    && forall j | i < j < |events| && events[j].Taken? :: b !in events[j].bits
  }

  /** The hint is exactly the bits rung and not yet returned by a take. */
  ghost predicate HintIsOwed(s: State) {
    forall b :: b in s.hint <==> exists i: nat :: Outstanding(s.events, i, b)
  }

  lemma StepKeepsAwaited(s: State, step: Step)
    requires Enabled(s, step) && Awaited(s)
    ensures Awaited(Apply(s, step))
  {
    if step.Ring? && s.hint == {} {
      assert step.r in Apply(s, step).signalling;
    }
  }

  lemma StepKeepsOwed(s: State, step: Step)
    requires Enabled(s, step) && HintIsOwed(s)
    ensures HintIsOwed(Apply(s, step))
  {
    var s' := Apply(s, step);
    forall b ensures b in s'.hint <==> exists i: nat :: Outstanding(s'.events, i, b) {
      if step.Ring? {
        AppendRing(s.events, step.bit, b);
      } else if step.Poll? || step.Take? {
        AppendTake(s, b);
      }
    }
  }

  lemma AppendRing(events: seq<Event>, bit: nat, b: nat)
    ensures (exists i: nat :: Outstanding(events + [Rung(bit)], i, b)) <==>
              b == bit || exists i: nat :: Outstanding(events, i, b)
  {
    var events' := events + [Rung(bit)];
    if i: nat :| Outstanding(events, i, b) {
      assert Outstanding(events', i, b);
    }
    if b == bit {
      assert Outstanding(events', |events|, b);
    }
    if i: nat :| Outstanding(events', i, b) {
      if i < |events| {
        forall j | i < j < |events| && events[j].Taken? ensures b !in events[j].bits {
          assert events'[j] == events[j];
        }
        assert Outstanding(events, i, b);
      }
    }
  }

  /** A take returns everything outstanding, so nothing is left outstanding. */
  lemma AppendTake(s: State, b: nat)
    requires HintIsOwed(s)
    ensures !exists i: nat :: Outstanding(s.events + [Taken(s.hint)], i, b)
  {
    var events' := s.events + [Taken(s.hint)];
    if i: nat :| Outstanding(events', i, b) {
      assert events'[|s.events|] == Taken(s.hint) && b !in s.hint;
      forall j | i < j < |s.events| && s.events[j].Taken? ensures b !in s.events[j].bits {
        assert events'[j] == s.events[j];
      }
      assert Outstanding(s.events, i, b);
      assert false;
    }
  }

  lemma {:induction false} RunKeepsInv(states: seq<State>, steps: seq<Step>, k: nat)
    requires Run(states, steps) && k < |states|
    ensures Awaited(states[k]) && HintIsOwed(states[k])
  {
    if k > 0 {
      RunKeepsInv(states, steps, k - 1);
      StepKeepsAwaited(states[k - 1], steps[k - 1]);
      StepKeepsOwed(states[k - 1], steps[k - 1]);
    }
  }

  /** In every run the waiter never sleeps on a nonzero hint without a wake token pending
      or a ringer about to signal, and a rung bit stays in the hint exactly until some
      take returns it. */
  lemma NoLostWakeup(states: seq<State>, steps: seq<Step>, k: nat)
    requires Run(states, steps) && k < |states|
    ensures var s := states[k]; s.waiter.Asleep? && s.hint != {} ==> s.token || s.signalling != {}
    ensures forall i: nat, b | Outstanding(states[k].events, i, b) :: b in states[k].hint
    ensures forall b | b in states[k].hint :: exists i: nat :: Outstanding(states[k].events, i, b)
  {
    RunKeepsInv(states, steps, k);
  }

  /** Once the last ringer has signalled, a sleeping waiter with work wakes, and its next
      take returns every outstanding bit. */
  lemma SleeperIsServed(states: seq<State>, steps: seq<Step>, k: nat)
    requires Run(states, steps) && k < |states|
    requires states[k].waiter.Asleep? && states[k].hint != {} && states[k].signalling == {}
    ensures Enabled(states[k], Wake)
    ensures var woken := Apply(states[k], Wake);
            var drained := Apply(woken, Drain);
            var taken := Apply(drained, Take);
            taken.waiter.Away? && taken.events == states[k].events + [Taken(states[k].hint)]
  {
    RunKeepsInv(states, steps, k);
  }

  /** A waiter can always go on: it sleeps or returns after an empty take, a sleeper wakes as
      soon as there is a token, and every ringer that owes a signal can give it. */
  lemma NobodyIsStuck(s: State, r: nat)
    ensures match s.waiter
            case Away => Enabled(s, Wait)
            case Draining => Enabled(s, Drain)
            case Taking => Enabled(s, Take)
            case Empty => Enabled(s, Sleep) && Enabled(s, Return)
            case Asleep => Enabled(s, Expire) && (s.token ==> Enabled(s, Wake))
    ensures Enabled(s, Poll) && (r in s.signalling ==> Enabled(s, Signal(r)))
    ensures r !in s.signalling ==> forall bit :: Enabled(s, Ring(r, bit))
  {
  }

  /** Rings coalesce: only the one that finds the hint empty goes on to signal, and each sets
      exactly its own bit. */
  lemma RingsCoalesce(states: seq<State>, steps: seq<Step>, k: nat)
    requires Run(states, steps) && k < |steps| && steps[k].Ring?
    ensures states[k + 1].hint == states[k].hint + {steps[k].bit} && states[k + 1].token == states[k].token
    ensures states[k + 1].signalling == states[k].signalling + if states[k].hint == {} then {steps[k].r} else {}
  {
    assert Enabled(states[k], steps[k]) && states[k + 1] == Apply(states[k], steps[k]);
  }

  /** A waiter's take ends its wait exactly when it brought something, and what it brought is
      everything rung and not yet returned; only an empty take lets it sleep. */
  lemma TakeEndsWait(states: seq<State>, steps: seq<Step>, k: nat)
    requires Run(states, steps) && k < |steps|
    ensures steps[k].Take? ==>
              && states[k + 1].events == states[k].events + [Taken(states[k].hint)] && states[k + 1].hint == {}
              && (states[k + 1].waiter.Away? <==> states[k].hint != {})
              && (states[k + 1].waiter.Empty? <==> states[k].hint == {})
    ensures states[k + 1].waiter.Asleep? && !states[k].waiter.Asleep? ==> steps[k].Sleep? && states[k].waiter.Empty?
    ensures states[k + 1].waiter.Empty? && !states[k].waiter.Empty? ==> steps[k].Take?
  {
    assert Enabled(states[k], steps[k]) && states[k + 1] == Apply(states[k], steps[k]);
  }
}
