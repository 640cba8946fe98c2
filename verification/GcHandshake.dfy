/**
 The garbage collector's stop handshake as a transition system with one atomic access
 per step: any number of mutators that acknowledge, wait and query, spurious wakeups
 included, and one collector that alternates a global stop with a global resume.
 */
module GcHandshake {
  import opened Wrappers

  type Tid = nat

  datatype Phase = Idle | StopRequested | Stopped | Collecting

  /** The collector's position: what it does next. */
  datatype CollectorPc =
    | Resting                                                // raise the global flag
    | ReqLock | ReqStore | ReqPhase | ReqUnlock              // request_stop
    | World                                                  // the stop is in effect; clear the global flag
    | ResLock | ResPhase | ResStore | ResUnlock | ResNotify  // resume

  /** `seen` is the number of clears of the stop flag when the wait saw it raised. */
  datatype MutatorPc =
    | Running
    | AckSwap
    | WaitLock(seen: nat)
    | WaitCheck(seen: nat)
    | Parked(seen: nat)
    | Woken(seen: nat)
    | WaitRelease(seen: nat)
    | QuerySecond

  datatype Owner = ByCollector | ByMutator(tid: Tid)

  datatype State = State(
    phase: Phase,
    stop: bool,
    global: bool,
    lock: Option<Owner>,
    collector: CollectorPc,
    mutators: map<Tid, MutatorPc>,
    clears: nat)

  datatype Step =
    | Collector
    | SetPhase(phase: Phase)
    | AckLoad(tid: Tid)
    | AckExchange(tid: Tid)
    | WaitLoad(tid: Tid)
    | Acquire(tid: Tid)
    | CheckFlag(tid: Tid)
    | SpuriousWake(tid: Tid)
    | Release(tid: Tid)
    | QueryGlobal(tid: Tid)
    | QueryLocal(tid: Tid)

  // ---------------------------------------------------------------------
  // Transitions

  function Initial(tids: set<Tid>): State
  {
    State(Idle, false, false, None, Resting, map t | t in tids :: Running, 0)
  }

  function WakeAll(mutators: map<Tid, MutatorPc>): map<Tid, MutatorPc>
  {
    map t | t in mutators :: if mutators[t].Parked? then Woken(mutators[t].seen) else mutators[t]
  }

  function CollectorStep(s: State): Option<State>
  {
    match s.collector
    case Resting => Some(s.(global := true, collector := ReqLock))
    case ReqLock => if s.lock.None? then Some(s.(lock := Some(ByCollector), collector := ReqStore)) else None
    case ReqStore => Some(s.(stop := true, collector := ReqPhase))
    case ReqPhase => Some(s.(phase := StopRequested, collector := ReqUnlock))
    case ReqUnlock => Some(s.(lock := None, collector := World))
    case World => Some(s.(global := false, collector := ResLock))
    case ResLock => if s.lock.None? then Some(s.(lock := Some(ByCollector), collector := ResPhase)) else None
    case ResPhase => Some(s.(phase := Idle, collector := ResStore))
    case ResStore => Some(s.(stop := false, clears := s.clears + 1, collector := ResUnlock))
    case ResUnlock => Some(s.(lock := None, collector := ResNotify))
    case ResNotify => Some(s.(mutators := WakeAll(s.mutators), collector := Resting))
  }

  function Goto(s: State, t: Tid, pc: MutatorPc): State
  {
    s.(mutators := s.mutators[t := pc])
  }

  function MutatorStep(s: State, t: Tid, step: Step): Option<State>
    requires t in s.mutators
  {
    match (step, s.mutators[t])
    case (AckLoad(_), Running) => Some(if s.stop then Goto(s, t, AckSwap) else s)
    case (AckExchange(_), AckSwap) =>
      Some(Goto(if s.phase == StopRequested then s.(phase := Stopped) else s, t, Running))
    case (WaitLoad(_), Running) => Some(if s.stop then Goto(s, t, WaitLock(s.clears)) else s)
    case (Acquire(_), WaitLock(n)) =>
      if s.lock.None? then Some(Goto(s, t, WaitCheck(n)).(lock := Some(ByMutator(t)))) else None
    case (Acquire(_), Woken(n)) =>
      if s.lock.None? then Some(Goto(s, t, WaitCheck(n)).(lock := Some(ByMutator(t)))) else None
    case (CheckFlag(_), WaitCheck(n)) =>
      Some(if s.stop then Goto(s, t, Parked(n)).(lock := None) else Goto(s, t, WaitRelease(n)))
    case (SpuriousWake(_), Parked(n)) => Some(Goto(s, t, Woken(n)))
    case (Release(_), WaitRelease(_)) => Some(Goto(s, t, Running).(lock := None))
    case (QueryGlobal(_), Running) => Some(if s.global then s else Goto(s, t, QuerySecond))
    case (QueryLocal(_), QuerySecond) => Some(Goto(s, t, Running))
    case _ => None
  }

  /** The state after a step, if the step is enabled. */
  function Apply(s: State, step: Step): Option<State>
  {
    match step
    case Collector => CollectorStep(s)
    case SetPhase(p) => if s.collector == World then Some(s.(phase := p)) else None
    case _ => if step.tid in s.mutators then MutatorStep(s, step.tid, step) else None
  }

  /** The runtime never sets the phase to idle inside a stop. */
  predicate Allowed(step: Step)
  {
    step.SetPhase? ==> step.phase != Idle
  }

  ghost predicate IsRun(tids: set<Tid>, states: seq<State>, steps: seq<Step>)
  {
    && |states| == |steps| + 1 && states[0] == Initial(tids)
    && (forall i :: 0 <= i < |steps| ==> Allowed(steps[i]))
    && (forall i :: 0 <= i < |steps| ==> Apply(states[i], steps[i]) == Some(states[i + 1]))
  }

  // ---------------------------------------------------------------------
  // Invariant

  predicate StopUp(pc: CollectorPc)
  {
    pc in {ReqPhase, ReqUnlock, World, ResLock, ResPhase, ResStore}
  }

  predicate PhaseUp(pc: CollectorPc)
  {
    pc in {ReqUnlock, World, ResLock, ResPhase}
  }

  predicate GlobalUp(pc: CollectorPc)
  {
    pc in {ReqLock, ReqStore, ReqPhase, ReqUnlock, World}
  }

  predicate CollectorHolds(pc: CollectorPc)
  {
    pc in {ReqStore, ReqPhase, ReqUnlock, ResPhase, ResStore, ResUnlock}
  }

  predicate InWait(pc: MutatorPc)
  {
    pc.WaitLock? || pc.WaitCheck? || pc.Parked? || pc.Woken? || pc.WaitRelease?
  }

  predicate MutatorHolds(pc: MutatorPc)
  {
    pc.WaitCheck? || pc.WaitRelease?
  }

  /** The shared words follow from where the collector is. */
  predicate CollectorInv(s: State)
  {
    && s.stop == StopUp(s.collector)
    && s.global == GlobalUp(s.collector)
    && (s.phase != Idle <==> PhaseUp(s.collector))
    && (s.lock == Some(ByCollector) <==> CollectorHolds(s.collector))
  }

  predicate MutatorInv(s: State, t: Tid)
    requires t in s.mutators
  {
    var pc := s.mutators[t];
    && (s.lock == Some(ByMutator(t)) <==> MutatorHolds(pc))
    && (pc.Parked? ==> s.stop || s.collector == ResUnlock || s.collector == ResNotify)
    && (InWait(pc) ==> pc.seen <= s.clears && (pc.seen == s.clears ==> s.stop))
    && (pc.WaitRelease? ==> pc.seen < s.clears)
  }

  predicate Inv(s: State)
  {
    && CollectorInv(s)
    && (s.lock.Some? && s.lock.value.ByMutator? ==> s.lock.value.tid in s.mutators)
    && forall t :: t in s.mutators ==> MutatorInv(s, t)
  }

  lemma {:induction false} CollectorKeepsInv(s: State, s': State)
    requires Inv(s) && CollectorStep(s) == Some(s')
    ensures Inv(s')
  {
    forall t | t in s'.mutators ensures MutatorInv(s', t) {
      assert MutatorInv(s, t);
    }
  }

  lemma {:induction false} MutatorKeepsInv(s: State, t: Tid, step: Step, s': State)
    requires Inv(s) && t in s.mutators && MutatorStep(s, t, step) == Some(s')
    ensures Inv(s')
  {
    assert MutatorInv(s, t);
    forall u | u in s'.mutators ensures MutatorInv(s', u) {
      assert MutatorInv(s, u);
    }
  }

  lemma {:induction false} StepKeepsInv(s: State, step: Step, s': State)
    requires Inv(s) && Allowed(step) && Apply(s, step) == Some(s')
    ensures Inv(s')
  {
    match step
    case Collector => CollectorKeepsInv(s, s');
    case SetPhase(_) =>
      forall t | t in s'.mutators ensures MutatorInv(s', t) {
        assert MutatorInv(s, t);
      }
    case _ => MutatorKeepsInv(s, step.tid, step, s');
  }

  lemma {:induction false} RunKeepsInv(tids: set<Tid>, states: seq<State>, steps: seq<Step>, i: nat)
    requires IsRun(tids, states, steps) && i < |states|
    ensures Inv(states[i])
  {
    if i > 0 {
      RunKeepsInv(tids, states, steps, i - 1);
      assert Apply(states[i - 1], steps[i - 1]) == Some(states[i - 1 + 1]);
      StepKeepsInv(states[i - 1], steps[i - 1], states[i]);
    }
  }

  // ---------------------------------------------------------------------
  // Safety over whole runs

  /** A non-idle phase implies the stop flag; while the lock is free the two agree. */
  predicate PhaseAgrees(s: State)
  {
    (s.phase != Idle ==> s.stop) && (s.lock.None? ==> (s.phase == Idle <==> !s.stop))
  }

  lemma {:induction false} PhaseFollowsFlag(tids: set<Tid>, states: seq<State>, steps: seq<Step>, i: nat)
    requires IsRun(tids, states, steps) && i < |states|
    ensures PhaseAgrees(states[i])
  {
    RunKeepsInv(tids, states, steps, i);
  }

  function Execute(s: State, steps: seq<Step>): Option<State>
    decreases |steps|
  {
    if steps == [] then Some(s)
    else
      var next := Apply(s, steps[0]);
      if next.None? then None else Execute(next.value, steps[1..])
  }

  // ---------------------------------------------------------------------
  // Setting the phase from anywhere

  ghost predicate AllAllowed(steps: seq<Step>)
  {
    forall i :: 0 <= i < |steps| ==> Allowed(steps[i])
  }

  /** However the system goes on from here, phase and flag agree. */
  ghost predicate KeepsAgreeing(s: State)
  {
    forall steps :: AllAllowed(steps) && Execute(s, steps).Some? ==> PhaseAgrees(Execute(s, steps).value)
  }

  /** The collector is about to store the phase itself. */
  predicate PhaseNext(pc: CollectorPc)
  {
    pc == ReqPhase || pc == ResPhase
  }

  /** The phase is idle exactly outside a stop, or the collector overwrites it next. */
  predicate PhaseFits(pc: CollectorPc, p: Phase)
  {
    PhaseNext(pc) || (p != Idle <==> PhaseUp(pc))
  }

  function Fitted(s: State): State
  {
    s.(phase := if PhaseUp(s.collector) then StopRequested else Idle)
  }

  predicate Loose(s: State)
  {
    Inv(Fitted(s)) && PhaseFits(s.collector, s.phase)
  }

  lemma {:induction false} FitInv(s: State, p: Phase)
    requires Inv(s)
    ensures Inv(Fitted(s.(phase := p)))
  {
    var fitted := Fitted(s.(phase := p));
    forall t | t in fitted.mutators ensures MutatorInv(fitted, t) {
      assert MutatorInv(s, t);
    }
  }

  lemma {:induction false} FittedCollector(s: State, s': State)
    requires CollectorStep(s) == Some(s')
    ensures CollectorStep(Fitted(s)).Some? && Fitted(CollectorStep(Fitted(s)).value) == Fitted(s')
  {
  }

  lemma {:induction false} FittedMutator(s: State, t: Tid, step: Step, s': State)
    requires t in s.mutators && MutatorStep(s, t, step) == Some(s')
    ensures MutatorStep(Fitted(s), t, step).Some? && Fitted(MutatorStep(Fitted(s), t, step).value) == Fitted(s')
  {
  }

  /** Only the phase depends on the phase. */
  lemma {:induction false} FittedStep(s: State, step: Step, s': State)
    requires Apply(s, step) == Some(s')
    ensures Apply(Fitted(s), step).Some? && Fitted(Apply(Fitted(s), step).value) == Fitted(s')
  {
    match step
    case Collector => FittedCollector(s, s');
    case SetPhase(_) =>
    case _ => FittedMutator(s, step.tid, step, s');
  }

  lemma {:induction false} FitsStep(s: State, step: Step, s': State)
    requires Apply(s, step) == Some(s') && Allowed(step) && PhaseFits(s.collector, s.phase)
    ensures PhaseFits(s'.collector, s'.phase)
  {
  }

  lemma {:induction false} LooseKeeps(s: State, steps: seq<Step>)
    requires Loose(s) && AllAllowed(steps) && Execute(s, steps).Some?
    ensures PhaseAgrees(Execute(s, steps).value)
    decreases |steps|
  {
    if steps != [] {
      var s' := Apply(s, steps[0]).value;
      FittedStep(s, steps[0], s');
      FitsStep(s, steps[0], s');
      StepKeepsInv(Fitted(s), steps[0], Apply(Fitted(s), steps[0]).value);
      FitInv(Apply(Fitted(s), steps[0]).value, s'.phase);
      assert Fitted(Apply(Fitted(s), steps[0]).value.(phase := s'.phase)) == Fitted(s');
      LooseKeeps(s', steps[1..]);
    }
  }

  /** A way on from a phase that does not fit to a state in which phase and flag disagree. */
  function Betrayal(s: State): seq<Step>
  {
    if s.collector == ResStore || s.collector == ReqUnlock then [Collector]
    else if s.lock.Some? && s.lock.value.ByMutator? && s.lock.value.tid in s.mutators && s.stop then
      if s.mutators[s.lock.value.tid].WaitCheck? then [CheckFlag(s.lock.value.tid)] else [Release(s.lock.value.tid)]
    else []
  }

  lemma {:induction false} BetrayalShows(s: State, p: Phase)
    requires Inv(s) && !PhaseFits(s.collector, p)
    ensures var t := s.(phase := p);
            && AllAllowed(Betrayal(t)) && Execute(t, Betrayal(t)).Some? && !PhaseAgrees(Execute(t, Betrayal(t)).value)
  {
    var t := s.(phase := p);
    if s.lock.Some? && s.lock.value.ByMutator? {
      assert MutatorInv(s, s.lock.value.tid);
    }
    forall step: Step ensures Execute(t, [step]) == Apply(t, step) {
      assert [step][1..] == [];
    }
  }

  /** Setting the phase, at any time, keeps phase and flag in agreement for good exactly if the phase fits. */
  lemma {:induction false} SetPhaseCondition(s: State, p: Phase)
    requires Inv(s)
    ensures KeepsAgreeing(s.(phase := p)) <==> PhaseFits(s.collector, p)
  {
    if PhaseFits(s.collector, p) {
      FitInv(s, p);
      forall steps | AllAllowed(steps) && Execute(s.(phase := p), steps).Some?
        ensures PhaseAgrees(Execute(s.(phase := p), steps).value)
      {
        LooseKeeps(s.(phase := p), steps);
      }
    } else {
      BetrayalShows(s, p);
    }
  }

  // ---------------------------------------------------------------------
  // Waiting and asking

  /** The notification that is still to come when the flag is already down. */
  function NotifySteps(s: State): seq<Step>
  {
    if s.collector == ResUnlock then [Collector, Collector] else [Collector]
  }

  /** No lost wakeup: a parked mutator with the flag down has a notification on its way. */
  lemma {:induction false} NoLostWakeup(tids: set<Tid>, states: seq<State>, steps: seq<Step>, i: nat, t: Tid)
    requires IsRun(tids, states, steps) && i < |states|
    requires t in states[i].mutators && states[i].mutators[t].Parked? && !states[i].stop
    ensures states[i].collector == ResUnlock || states[i].collector == ResNotify
    ensures var s := Execute(states[i], NotifySteps(states[i]));
            s.Some? && t in s.value.mutators && s.value.mutators[t].Woken?
  {
    RunKeepsInv(tids, states, steps, i);
    var s := states[i];
    assert MutatorInv(s, t);
    if s.collector == ResUnlock {
      var s1 := CollectorStep(s).value;
      var s2 := CollectorStep(s1).value;
      assert Execute(s1, [Collector]) == Some(s2) by {
        assert [Collector][1..] == [];
      }
      assert [Collector, Collector][1..] == [Collector];
    } else {
      assert [Collector][1..] == [];
    }
  }

  /** The first moment after `i` at which the flag is down. */
  lemma {:induction false} FlagDropped(tids: set<Tid>, states: seq<State>, steps: seq<Step>, i: nat, j: nat)
    returns (k: nat)
    requires IsRun(tids, states, steps) && i <= j < |states| && states[i].stop && !states[j].stop
    ensures i <= k < j && states[k].stop && !states[k + 1].stop && states[k + 1].collector == ResUnlock
    decreases j - i
  {
    RunKeepsInv(tids, states, steps, i);
    assert Apply(states[i], steps[i]) == Some(states[i + 1]);
    if states[i + 1].stop {
      k := FlagDropped(tids, states, steps, i + 1, j);
    } else {
      k := i;
    }
  }

  /** Both flags were down at some moment between two loads that saw one of them down each. */
  lemma {:induction false} BothDown(tids: set<Tid>, states: seq<State>, steps: seq<Step>, i: nat, j: nat)
    requires IsRun(tids, states, steps) && i <= j < |states| && !states[i].global && !states[j].stop
    ensures exists k :: i <= k <= j && !states[k].global && !states[k].stop
  {
    if states[i].stop {
      var k := FlagDropped(tids, states, steps, i, j);
      RunKeepsInv(tids, states, steps, k + 1);
      assert !states[k + 1].global && !states[k + 1].stop;
    }
  }

  /**
   A call of `gc_stop_requested` by `t`: it loads the global flag at step `i` and answers true if
   that is up; otherwise it loads the handshake flag at step `j` and answers that.
   */
  ghost predicate IsQuery(tids: set<Tid>, states: seq<State>, steps: seq<Step>, i: nat, j: nat, t: Tid, answer: bool)
  {
    && IsRun(tids, states, steps) && i <= j < |steps| && steps[i] == QueryGlobal(t)
    && if states[i].global then j == i && answer
       else i < j && steps[j] == QueryLocal(t) && answer == states[j].stop
            && forall k :: i < k < j ==> steps[k] != QueryLocal(t) && steps[k] != QueryGlobal(t)
  }

  /** The query is linearizable: a false answer implies a moment inside the call with neither flag set. */
  lemma {:induction false} QueryLinearizable(tids: set<Tid>, states: seq<State>, steps: seq<Step>, i: nat, j: nat,
                                             t: Tid)
    requires IsQuery(tids, states, steps, i, j, t, false)
    ensures exists k :: i <= k <= j && !states[k].global && !states[k].stop
  {
    BothDown(tids, states, steps, i, j);
  }

  /** A query lying wholly within a window in which a stop is requested answers true. */
  lemma {:induction false} QueryInsideStopIsTrue(tids: set<Tid>, states: seq<State>, steps: seq<Step>, i: nat,
                                                 j: nat, t: Tid, answer: bool)
    requires IsQuery(tids, states, steps, i, j, t, answer)
    requires forall k :: i <= k <= j ==> states[k].global || states[k].stop
    ensures answer
  {
    if !answer {
      QueryLinearizable(tids, states, steps, i, j, t);
    }
  }

  lemma {:induction false} WaitKeepsSeen(s: State, step: Step, s': State, t: Tid)
    requires Apply(s, step) == Some(s') && t in s.mutators && InWait(s.mutators[t]) && step != Release(t)
    ensures t in s'.mutators && InWait(s'.mutators[t]) && s'.mutators[t].seen == s.mutators[t].seen
  {
  }

  lemma {:induction false} WaitingUntil(tids: set<Tid>, states: seq<State>, steps: seq<Step>, i: nat, j: nat, t: Tid)
    requires IsRun(tids, states, steps) && i <= j < |states|
    requires t in states[i].mutators && InWait(states[i].mutators[t])
    requires forall k :: i <= k < j ==> steps[k] != Release(t)
    ensures t in states[j].mutators && InWait(states[j].mutators[t])
    ensures states[j].mutators[t].seen == states[i].mutators[t].seen
  {
    if i < j {
      WaitingUntil(tids, states, steps, i, j - 1, t);
      assert Apply(states[j - 1], steps[j - 1]) == Some(states[j - 1 + 1]);
      WaitKeepsSeen(states[j - 1], steps[j - 1], states[j], t);
    }
  }

  lemma {:induction false} ClearCounted(tids: set<Tid>, states: seq<State>, steps: seq<Step>, i: nat, j: nat)
    returns (k: nat)
    requires IsRun(tids, states, steps) && i <= j < |states| && states[i].clears < states[j].clears
    ensures i <= k < j && states[k].stop && !states[k + 1].stop
    decreases j - i
  {
    RunKeepsInv(tids, states, steps, i);
    assert Apply(states[i], steps[i]) == Some(states[i + 1]);
    if states[i].clears != states[i + 1].clears {
      k := i;
    } else {
      k := ClearCounted(tids, states, steps, i + 1, j);
    }
  }

  /** A wait that saw the stop raised returns only after that flag was cleared. */
  lemma {:induction false} WaitReturnsAfterClear(tids: set<Tid>, states: seq<State>, steps: seq<Step>, i: nat,
                                                 j: nat, t: Tid)
    requires IsRun(tids, states, steps) && i < j < |steps|
    requires steps[i] == WaitLoad(t) && states[i].stop
    requires steps[j] == Release(t) && forall k :: i < k < j ==> steps[k] != Release(t)
    ensures exists k :: i < k < j && states[k].stop && !states[k + 1].stop
  {
    assert Apply(states[i], steps[i]) == Some(states[i + 1]);
    WaitingUntil(tids, states, steps, i + 1, j, t);
    assert Apply(states[j], steps[j]) == Some(states[j + 1]);
    RunKeepsInv(tids, states, steps, j);
    assert MutatorInv(states[j], t);
    var k := ClearCounted(tids, states, steps, i + 1, j);
  }

  // ---------------------------------------------------------------------
  // The phase over a run

  /** Step `i` stores the phase whatever it was: the collector's two stores and `set_phase`. */
  predicate StoresPhase(s: State, step: Step)
  {
    step.SetPhase? || (step.Collector? && PhaseNext(s.collector))
  }

  /** What a step leaves in the phase. */
  lemma {:induction false} PhaseAfterStep(s: State, step: Step, s': State)
    requires Apply(s, step) == Some(s')
    ensures step == Collector && s.collector == ReqPhase ==> s'.phase == StopRequested
    ensures step == Collector && s.collector == ResPhase ==> s'.phase == Idle
    ensures step.SetPhase? ==> s'.phase == step.phase
    ensures step.AckExchange? && s.phase == StopRequested ==> s'.phase == Stopped
    ensures !StoresPhase(s, step) && !(step.AckExchange? && s.phase == StopRequested) ==> s'.phase == s.phase
  {
  }

  /** No store to the phase in the moments from `i` to `j`. */
  ghost predicate NoStore(states: seq<State>, steps: seq<Step>, i: nat, j: nat)
    requires |states| == |steps| + 1
  {
    forall k :: i <= k < j && k < |steps| ==> !StoresPhase(states[k], steps[k])
  }

  /** Somebody acknowledges in the moments from `i` to `j`. */
  ghost predicate Acknowledged(steps: seq<Step>, i: nat, j: nat)
  {
    exists k :: i <= k < j && k < |steps| && steps[k].AckExchange?
  }

  /**
   Between two stores, an acknowledgement turns a request into a stop, nothing else does, and
   no other phase changes: a late acknowledgement never overwrites a later phase.
   */
  lemma {:induction false} PhaseBetweenStores(tids: set<Tid>, states: seq<State>, steps: seq<Step>, i: nat, j: nat)
    requires IsRun(tids, states, steps) && i <= j < |states| && NoStore(states, steps, i, j)
    ensures states[j].phase ==
            if states[i].phase == StopRequested && Acknowledged(steps, i, j) then Stopped else states[i].phase
  {
    if i < j {
      var k := j - 1;
      PhaseBetweenStores(tids, states, steps, i, k);
      assert Apply(states[k], steps[k]) == Some(states[k + 1]);
      PhaseAfterStep(states[k], steps[k], states[j]);
      assert Acknowledged(steps, i, j) <==> Acknowledged(steps, i, k) || steps[k].AckExchange?;
    }
  }

  /** Right after the collector's request the phase is the request; the first acknowledgement makes it a stop. */
  lemma {:induction false} RequestThenStopped(tids: set<Tid>, states: seq<State>, steps: seq<Step>, i: nat, j: nat)
    requires IsRun(tids, states, steps) && i < j < |states|
    requires steps[i] == Collector && states[i].collector == ReqPhase && NoStore(states, steps, i + 1, j)
    ensures states[i + 1].phase == StopRequested && states[i + 1].stop && states[i + 1].global
    ensures states[j].phase == if Acknowledged(steps, i + 1, j) then Stopped else StopRequested
  {
    assert Apply(states[i], steps[i]) == Some(states[i + 1]);
    RunKeepsInv(tids, states, steps, i + 1);
    PhaseBetweenStores(tids, states, steps, i + 1, j);
  }

  lemma {:induction false} AckingStep(s: State, step: Step, s': State, t: Tid)
    requires Apply(s, step) == Some(s') && t in s'.mutators && s'.mutators[t] == AckSwap
    ensures t in s.mutators && (s.mutators[t] == AckSwap || (step == AckLoad(t) && s.stop))
  {
  }

  /** An acknowledgement is only made by a mutator that saw the stop flag up. */
  lemma {:induction false} AcknowledgesSeenStop(tids: set<Tid>, states: seq<State>, steps: seq<Step>, i: nat, t: Tid)
    requires IsRun(tids, states, steps) && i < |states|
    requires t in states[i].mutators && states[i].mutators[t] == AckSwap
    ensures exists k :: 0 <= k < i && steps[k] == AckLoad(t) && states[k].stop
  {
    if i > 0 {
      var k := i - 1;
      assert Apply(states[k], steps[k]) == Some(states[k + 1]);
      AckingStep(states[k], steps[k], states[i], t);
      if states[k].mutators[t] == AckSwap {
        AcknowledgesSeenStop(tids, states, steps, k, t);
      }
    }
  }

  // ---------------------------------------------------------------------
  // Calls run without interference

  lemma {:induction false} ExecuteNext(s: State, step: Step, rest: seq<Step>)
    ensures Execute(s, [step] + rest) == if Apply(s, step).None? then None else Execute(Apply(s, step).value, rest)
  {
    assert ([step] + rest)[1..] == rest;
  }

  lemma {:induction false} ExecuteOne(s: State, step: Step)
    ensures Execute(s, [step]) == Apply(s, step)
  {
    assert [step][1..] == [];
  }

  lemma {:induction false} ExecuteTwo(s: State, a: Step, b: Step)
    requires Apply(s, a).Some?
    ensures Execute(s, [a, b]) == Apply(Apply(s, a).value, b)
  {
    ExecuteNext(s, a, [b]);
    ExecuteOne(Apply(s, a).value, b);
    assert [a] + [b] == [a, b];
  }

  lemma {:induction false} ExecuteThree(s: State, a: Step, b: Step, c: Step)
    requires Apply(s, a).Some? && Apply(Apply(s, a).value, b).Some?
    ensures Execute(s, [a, b, c]) == Apply(Apply(Apply(s, a).value, b).value, c)
  {
    ExecuteNext(s, a, [b, c]);
    ExecuteTwo(Apply(s, a).value, b, c);
    assert [a] + [b, c] == [a, b, c];
  }

  /** `ack_stop` advances a request and changes nothing else; without the flag it does nothing. */
  lemma {:induction false} AckAlone(s: State, t: Tid)
    requires t in s.mutators && s.mutators[t] == Running
    ensures !s.stop ==> Apply(s, AckLoad(t)) == Some(s)
    ensures s.stop ==>
              Execute(s, [AckLoad(t), AckExchange(t)])
              == Some(if s.phase == StopRequested then s.(phase := Stopped) else s)
  {
    if s.stop {
      ExecuteTwo(s, AckLoad(t), AckExchange(t));
      assert s.mutators[t := AckSwap][t := Running] == s.mutators;
    }
  }

  /** `wait_for_resume` returns at once without the flag, and parks with it, the lock free again. */
  lemma {:induction false} WaitAlone(s: State, t: Tid)
    requires t in s.mutators && s.mutators[t] == Running
    ensures !s.stop ==> Apply(s, WaitLoad(t)) == Some(s)
    ensures s.stop && s.lock.None? ==>
              Execute(s, [WaitLoad(t), Acquire(t), CheckFlag(t)])
              == Some(s.(mutators := s.mutators[t := Parked(s.clears)]))
  {
    if s.stop && s.lock.None? {
      ExecuteThree(s, WaitLoad(t), Acquire(t), CheckFlag(t));
      var waiting: map<Tid, MutatorPc> := s.mutators[t := WaitLock(s.clears)];
      var checking: map<Tid, MutatorPc> := waiting[t := WaitCheck(s.clears)];
      assert checking[t := Parked(s.clears)] == s.mutators[t := Parked(s.clears)];
    }
  }

  /** A woken wait returns if the flag is down and parks again if it is up. */
  lemma {:induction false} WokenAlone(s: State, t: Tid, n: nat)
    requires t in s.mutators && s.mutators[t] == Woken(n) && s.lock.None?
    ensures !s.stop ==>
              Execute(s, [Acquire(t), CheckFlag(t), Release(t)]) == Some(s.(mutators := s.mutators[t := Running]))
    ensures s.stop ==> Execute(s, [Acquire(t), CheckFlag(t)]) == Some(s.(mutators := s.mutators[t := Parked(n)]))
  {
    var checking: map<Tid, MutatorPc> := s.mutators[t := WaitCheck(n)];
    var releasing: map<Tid, MutatorPc> := checking[t := WaitRelease(n)];
    assert releasing[t := Running] == s.mutators[t := Running];
    assert checking[t := Parked(n)] == s.mutators[t := Parked(n)];
    if s.stop {
      ExecuteTwo(s, Acquire(t), CheckFlag(t));
    } else {
      ExecuteThree(s, Acquire(t), CheckFlag(t), Release(t));
    }
  }

  /** A parked mutator may wake by itself. */
  lemma {:induction false} SpuriousWakeAlone(s: State, t: Tid, n: nat)
    requires t in s.mutators && s.mutators[t] == Parked(n)
    ensures Apply(s, SpuriousWake(t)) == Some(s.(mutators := s.mutators[t := Woken(n)]))
  {
  }

  /** `gc_stop_requested` reads the second flag only if the first is down, and changes nothing. */
  lemma {:induction false} QueryAlone(s: State, t: Tid)
    requires t in s.mutators && s.mutators[t] == Running
    ensures s.global ==> Apply(s, QueryGlobal(t)) == Some(s)
    ensures !s.global ==> Execute(s, [QueryGlobal(t), QueryLocal(t)]) == Some(s)
    ensures !s.global ==> Apply(s, QueryGlobal(t)).Some? && Apply(s, QueryGlobal(t)).value.mutators[t] != Running
  {
    if !s.global {
      ExecuteTwo(s, QueryGlobal(t), QueryLocal(t));
      assert s.mutators[t := QuerySecond][t := Running] == s.mutators;
    }
  }

  /** `set_phase` stores any phase, and inside a stop the runtime may set every one but idle. */
  lemma {:induction false} SetPhaseAlone(s: State, p: Phase)
    ensures s.collector == World ==> Apply(s, SetPhase(p)) == Some(s.(phase := p))
    ensures Allowed(SetPhase(p)) <==> p != Idle
  {
  }

  /** Steps of the collector alone. */
  function Alone(n: nat): seq<Step>
  {
    seq(n, _ => Collector)
  }

  lemma {:induction false} AloneNext(s: State, n: nat)
    ensures Execute(s, Alone(n + 1)) ==
            if CollectorStep(s).None? then None else Execute(CollectorStep(s).value, Alone(n))
  {
    assert Alone(n + 1) == [Collector] + Alone(n);
    ExecuteNext(s, Collector, Alone(n));
  }

  /** `request_global_stop` raises both flags and the phase, and leaves the lock free. */
  lemma {:induction false} RequestAlone(s: State)
    requires s.collector == Resting && s.lock.None?
    ensures Execute(s, Alone(5)) == Some(s.(global := true, stop := true, phase := StopRequested, collector := World))
  {
    var s1 := CollectorStep(s).value;
    var s2 := CollectorStep(s1).value;
    var s3 := CollectorStep(s2).value;
    var s4 := CollectorStep(s3).value;
    AloneNext(s, 4);
    AloneNext(s1, 3);
    AloneNext(s2, 2);
    AloneNext(s3, 1);
    AloneNext(s4, 0);
  }

  lemma {:induction false} ResumeBegins(s: State)
    requires s.collector == World && s.lock.None?
    ensures Execute(s, Alone(6)) ==
            Execute(s.(global := false, phase := Idle, lock := Some(ByCollector), collector := ResStore), Alone(3))
  {
    var s1 := CollectorStep(s).value;
    var s2 := CollectorStep(s1).value;
    AloneNext(s, 5);
    AloneNext(s1, 4);
    AloneNext(s2, 3);
  }

  /** `resume_global_stop` lowers both flags and the phase, and wakes every parked mutator. */
  lemma {:induction false} ResumeAlone(s: State)
    requires s.collector == World && s.lock.None?
    ensures var after := Execute(s, Alone(6));
            && after.Some?
            && after.value == s.(global := false, stop := false, phase := Idle, collector := Resting,
                                 clears := s.clears + 1, mutators := after.value.mutators)
            && after.value.mutators.Keys == s.mutators.Keys
            && forall t :: t in s.mutators ==>
                 if s.mutators[t].Parked? then after.value.mutators[t] == Woken(s.mutators[t].seen)
                 else after.value.mutators[t] == s.mutators[t]
  {
    ResumeBegins(s);
    var s3 := s.(global := false, phase := Idle, lock := Some(ByCollector), collector := ResStore);
    var s4 := CollectorStep(s3).value;
    var s5 := CollectorStep(s4).value;
    AloneNext(s3, 2);
    AloneNext(s4, 1);
    AloneNext(s5, 0);
  }

  // ---------------------------------------------------------------------
  // Progress: nobody waits forever for want of an enabled step

  /** How far the collector is from having resumed the world. */
  function CollectorDistance(pc: CollectorPc): nat
  {
    match pc
    case Resting => 0
    case ResNotify => 1
    case ResUnlock => 2
    case ResStore => 3
    case ResPhase => 4
    case ResLock => 5
    case World => 6
    case ReqUnlock => 7
    case ReqPhase => 8
    case ReqStore => 9
    case ReqLock => 10
  }

  /** How far the waiting mutator is from holding the lock once the collector rests. */
  function LockDistance(s: State, t: Tid): nat
    requires t in s.mutators
  {
    if s.collector == Resting && !MutatorHolds(s.mutators[t]) then 1 else 0
  }

  /** How far a mutator holding the lock is from releasing it. */
  function HolderDistance(s: State): nat
  {
    if s.lock.Some? && s.lock.value.ByMutator? && s.lock.value.tid in s.mutators
    then (if s.mutators[s.lock.value.tid].WaitCheck? then 2 else 1) else 0
  }

  /** A step that brings the return of `t` closer. */
  function TowardsReturn(s: State, t: Tid): Step
    requires t in s.mutators
  {
    if s.lock.Some? && s.lock.value.ByMutator? && s.lock.value.tid in s.mutators then
      (if s.mutators[s.lock.value.tid].WaitCheck? then CheckFlag(s.lock.value.tid) else Release(s.lock.value.tid))
    else if s.collector != Resting then Collector
    else Acquire(t)
  }

  function Distance(s: State, t: Tid): nat
    requires t in s.mutators
  {
    6 * CollectorDistance(s.collector) + 3 * LockDistance(s, t) + HolderDistance(s)
  }

  lemma {:induction false} HolderProgresses(s: State, t: Tid, holder: Tid)
    requires Inv(s) && t in s.mutators && InWait(s.mutators[t]) && s.lock == Some(ByMutator(holder))
    ensures Apply(s, TowardsReturn(s, t)).Some?
    ensures var s' := Apply(s, TowardsReturn(s, t)).value;
            && t in s'.mutators
            && (s'.mutators[t] == Running || (InWait(s'.mutators[t]) && Distance(s', t) < Distance(s, t)))
  {
    assert MutatorInv(s, t) && MutatorInv(s, holder);
  }

  lemma {:induction false} TowardsReturnProgresses(s: State, t: Tid)
    requires Inv(s) && t in s.mutators && InWait(s.mutators[t])
    ensures Allowed(TowardsReturn(s, t)) && Apply(s, TowardsReturn(s, t)).Some?
    ensures var s' := Apply(s, TowardsReturn(s, t)).value;
            && t in s'.mutators
            && (s'.mutators[t] == Running || (InWait(s'.mutators[t]) && Distance(s', t) < Distance(s, t)))
  {
    if s.lock.Some? && s.lock.value.ByMutator? {
      HolderProgresses(s, t, s.lock.value.tid);
    } else {
      assert MutatorInv(s, t);
    }
  }

  /** From every reachable state, a mutator inside `wait_for_resume` can still return. */
  lemma {:induction false} WaitCanReturn(s: State, t: Tid) returns (steps: seq<Step>)
    requires Inv(s) && t in s.mutators && InWait(s.mutators[t])
    ensures forall i :: 0 <= i < |steps| ==> Allowed(steps[i])
    ensures Execute(s, steps).Some? && t in Execute(s, steps).value.mutators
    ensures Execute(s, steps).value.mutators[t] == Running
    decreases Distance(s, t)
  {
    var step := TowardsReturn(s, t);
    TowardsReturnProgresses(s, t);
    var s' := Apply(s, step).value;
    if s'.mutators[t] == Running {
      steps := [step];
      assert steps[1..] == [];
    } else {
      StepKeepsInv(s, step, s');
      var rest := WaitCanReturn(s', t);
      steps := [step] + rest;
      assert steps[1..] == rest;
    }
  }
}
