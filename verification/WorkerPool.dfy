/**
 The worker pool of the full suite: any number of workers share one fetch-and-add
 counter, each runs the unit it drew and stores the outcome in that unit's slot.
 */
module WorkerPool {
  import opened Wrappers

  /** What a worker does next. */
  datatype Worker =
    | Fetching
    | Running(index: nat)
    | Storing(index: nat)
    | Finished

  /** `runs` counts how often each unit was run. */
  datatype Pool<O> = Pool(next: nat, workers: seq<Worker>, slots: seq<Option<O>>, runs: seq<nat>)

  // ---------------------------------------------------------------------
  // Transitions

  /** The configured number of jobs, at least one and at most one for each unit. */
  function Clamp(jobs: nat, units: nat): nat
  {
    if jobs < 1 then 1 else if jobs > (if units > 1 then units else 1) then (if units > 1 then units else 1) else jobs
  }

  /** There is a worker; there are never more workers than jobs or units, except for that one. */
  lemma {:induction false} ClampExact(jobs: nat, units: nat)
    ensures 1 <= Clamp(jobs, units) && (Clamp(jobs, units) == 1 || Clamp(jobs, units) <= units)
    ensures Clamp(jobs, units) <= jobs || jobs == 0
    ensures Clamp(jobs, units) < jobs ==> units <= Clamp(jobs, units)
  {
  }

  function Start<O>(units: nat, jobs: nat): Pool<O>
  {
    Pool(0, seq(Clamp(jobs, units), _ => Fetching), seq(units, _ => None), seq(units, _ => 0))
  }

  predicate Enabled<O>(p: Pool<O>, w: nat)
  {
    w < |p.workers| && p.workers[w] != Finished
    && match p.workers[w]
       case Running(i) => i < |p.runs|
       case Storing(i) => i < |p.slots|
       case _ => true
  }

  /** One step of worker `w`; `run` is what running a unit yields. */
  function Step<O>(run: nat -> O, p: Pool<O>, w: nat): Pool<O>
    requires Enabled(p, w)
  {
    match p.workers[w]
    case Fetching =>
      p.(next := p.next + 1, workers := p.workers[w := if p.next < |p.slots| then Running(p.next) else Finished])
    case Running(i) =>
      p.(workers := p.workers[w := Storing(i)], runs := p.runs[i := p.runs[i] + 1])
    case Storing(i) =>
      p.(workers := p.workers[w := Fetching], slots := p.slots[i := Some(run(i))])
    case Finished => p
  }

  /** The pool after the workers took steps in the order of the schedule, if each could. */
  function Play<O>(run: nat -> O, units: nat, jobs: nat, schedule: seq<nat>): Option<Pool<O>>
  {
    if schedule == [] then Some(Start(units, jobs))
    else
      var last := |schedule| - 1;
      var before := Play(run, units, jobs, schedule[..last]);
      if before.None? || !Enabled(before.value, schedule[last]) then None
      else Some(Step(run, before.value, schedule[last]))
  }

  predicate AllFinished<O>(p: Pool<O>)
  {
    forall w :: 0 <= w < |p.workers| ==> p.workers[w] == Finished
  }

  // ---------------------------------------------------------------------
  // What every schedule keeps

  ghost predicate Holds(worker: Worker, i: nat)
  {
    worker == Running(i) || worker == Storing(i)
  }

  ghost predicate Held<O>(p: Pool<O>, i: nat)
  {
    exists w :: 0 <= w < |p.workers| && Holds(p.workers[w], i)
  }

  /** Units not drawn yet are untouched; a drawn one is held by a worker or its slot is filled. */
  ghost predicate UnitOk<O>(run: nat -> O, p: Pool<O>, i: nat)
    requires |p.slots| == |p.runs| && i < |p.slots|
  {
    && (p.slots[i] == None || p.slots[i] == Some(run(i)))
    && (i >= p.next ==> p.slots[i] == None && p.runs[i] == 0 && !Held(p, i))
    && (i < p.next ==> (p.slots[i] == None <==> Held(p, i)))
  }

  /** A unit was run once as soon as its worker is past running it. */
  ghost predicate WorkerOk<O>(p: Pool<O>, w: nat)
    requires |p.slots| == |p.runs| && w < |p.workers|
  {
    match p.workers[w]
    case Running(i) => i < p.next && i < |p.runs| && p.runs[i] == 0
    case Storing(i) => i < p.next && i < |p.runs| && p.runs[i] == 1
    case Finished => p.next >= |p.slots|
    case Fetching => true
  }

  /** No two workers hold the same unit. */
  ghost predicate Exclusive<O>(p: Pool<O>)
  {
    forall v, w, i ::
      0 <= v < |p.workers| && 0 <= w < |p.workers| && Holds(p.workers[v], i) && Holds(p.workers[w], i) ==> v == w
  }

  ghost predicate Inv<O>(run: nat -> O, units: nat, jobs: nat, p: Pool<O>)
  {
    && |p.slots| == units && |p.runs| == units && |p.workers| == Clamp(jobs, units)
    && (forall i: nat :: i < units ==> UnitOk(run, p, i))
    && (forall w: nat :: w < |p.workers| ==> WorkerOk(p, w))
    && Exclusive(p)
    && (forall i: nat :: i < units && p.slots[i] != None ==> p.runs[i] == 1)
  }

  lemma {:induction false} FetchKeepsInv<O>(run: nat -> O, units: nat, jobs: nat, p: Pool<O>, w: nat)
    requires Inv(run, units, jobs, p) && Enabled(p, w) && p.workers[w] == Fetching
    ensures Inv(run, units, jobs, Step(run, p, w))
  {
    var q := Step(run, p, w);
    assert forall v :: 0 <= v < |p.workers| && v != w ==> q.workers[v] == p.workers[v];
    forall i: nat | i < units ensures UnitOk(run, q, i) {
      assert UnitOk(run, p, i);
      if i == p.next {
        assert Holds(q.workers[w], i);
      } else {
        assert Held(q, i) <==> Held(p, i) by {
          if v :| 0 <= v < |p.workers| && Holds(p.workers[v], i) {
            assert Holds(q.workers[v], i);
          }
        }
      }
    }
    assert p.next < units ==> UnitOk(run, p, p.next) && !Held(p, p.next);
    forall v: nat | v < |q.workers| ensures WorkerOk(q, v) {
      assert WorkerOk(p, v);
    }
  }

  lemma {:induction false} RunKeepsInv<O>(run: nat -> O, units: nat, jobs: nat, p: Pool<O>, w: nat)
    requires Inv(run, units, jobs, p) && Enabled(p, w) && p.workers[w].Running?
    ensures Inv(run, units, jobs, Step(run, p, w))
  {
    var q, k := Step(run, p, w), p.workers[w].index;
    assert Holds(p.workers[w], k) && Holds(q.workers[w], k) && WorkerOk(p, w);
    forall v, i | 0 <= v < |p.workers| ensures Holds(q.workers[v], i) <==> Holds(p.workers[v], i) {
    }
    forall i: nat | i < units ensures UnitOk(run, q, i) && (q.slots[i] != None ==> q.runs[i] == 1) {
      assert UnitOk(run, p, i);
      assert Held(q, i) <==> Held(p, i);
    }
    forall v: nat | v < |q.workers| ensures WorkerOk(q, v) {
      assert WorkerOk(p, v);
    }
  }

  lemma {:induction false} StoreKeepsInv<O>(run: nat -> O, units: nat, jobs: nat, p: Pool<O>, w: nat)
    requires Inv(run, units, jobs, p) && Enabled(p, w) && p.workers[w].Storing?
    ensures Inv(run, units, jobs, Step(run, p, w))
  {
    var q, k := Step(run, p, w), p.workers[w].index;
    assert Holds(p.workers[w], k) && WorkerOk(p, w);
    assert forall v :: 0 <= v < |p.workers| && v != w ==> q.workers[v] == p.workers[v];
    forall i: nat | i < units ensures UnitOk(run, q, i) {
      assert UnitOk(run, p, i);
      if i != k {
        assert Held(q, i) <==> Held(p, i) by {
          if v :| 0 <= v < |p.workers| && Holds(p.workers[v], i) {
            assert Holds(q.workers[v], i);
          }
        }
      }
    }
    forall v: nat | v < |q.workers| ensures WorkerOk(q, v) {
      assert WorkerOk(p, v);
    }
  }

  /** Every schedule keeps the invariant. */
  lemma {:induction false} PlayInv<O>(run: nat -> O, units: nat, jobs: nat, schedule: seq<nat>, p: Pool<O>)
    requires Play(run, units, jobs, schedule) == Some(p)
    ensures Inv(run, units, jobs, p)
    decreases |schedule|
  {
    if schedule == [] {
    } else {
      var last := |schedule| - 1;
      var before := Play(run, units, jobs, schedule[..last]).value;
      PlayInv(run, units, jobs, schedule[..last], before);
      match before.workers[schedule[last]]
      case Fetching => FetchKeepsInv(run, units, jobs, before, schedule[last]);
      case Running(_) => RunKeepsInv(run, units, jobs, before, schedule[last]);
      case Storing(_) => StoreKeepsInv(run, units, jobs, before, schedule[last]);
    }
  }

  // ---------------------------------------------------------------------
  // Termination

  /** Steps a worker has before it fetches again. */
  function Weight(worker: Worker): nat
  {
    match worker
    case Fetching => 1
    case Running(_) => 3
    case Storing(_) => 2
    case Finished => 0
  }

  function Load(workers: seq<Worker>): nat
  {
    if workers == [] then 0 else Load(workers[..|workers| - 1]) + Weight(workers[|workers| - 1])
  }

  lemma {:induction false} LoadUpdate(workers: seq<Worker>, w: nat, x: Worker)
    requires w < |workers|
    ensures Load(workers[w := x]) + Weight(workers[w]) == Load(workers) + Weight(x)
  {
    var last := |workers| - 1;
    var after := workers[w := x];
    if w == last {
      assert after[..last] == workers[..last];
    } else {
      assert after[..last] == workers[..last][w := x];
      LoadUpdate(workers[..last], w, x);
    }
  }

  function Remaining<O>(p: Pool<O>): nat
  {
    3 * (if p.next < |p.slots| then |p.slots| - p.next else 0) + Load(p.workers)
  }

  lemma {:induction false} StepProgress<O>(run: nat -> O, p: Pool<O>, w: nat)
    requires Enabled(p, w)
    ensures Remaining(Step(run, p, w)) == Remaining(p) - 1
  {
    LoadUpdate(p.workers, w, Step(run, p, w).workers[w]);
  }

  lemma {:induction false} LoadStart(k: nat)
    ensures Load(seq(k, _ => Fetching)) == k
  {
    if k > 0 {
      var s := seq(k, _ => Fetching);
      assert s[..k - 1] == seq(k - 1, _ => Fetching);
      LoadStart(k - 1);
    }
  }

  lemma {:induction false} PlaySteps<O>(run: nat -> O, units: nat, jobs: nat, schedule: seq<nat>, p: Pool<O>)
    requires Play(run, units, jobs, schedule) == Some(p)
    ensures |schedule| + Remaining(p) == 3 * units + Clamp(jobs, units)
    decreases |schedule|
  {
    if schedule == [] {
      LoadStart(Clamp(jobs, units));
    } else {
      var last := |schedule| - 1;
      var before := Play(run, units, jobs, schedule[..last]).value;
      PlaySteps(run, units, jobs, schedule[..last], before);
      StepProgress(run, before, schedule[last]);
    }
  }

  lemma {:induction false} NoLoadFinished(workers: seq<Worker>)
    ensures Load(workers) == 0 <==> forall w :: 0 <= w < |workers| ==> workers[w] == Finished
  {
    if workers != [] {
      var last := |workers| - 1;
      NoLoadFinished(workers[..last]);
      assert workers == workers[..last] + [workers[last]];
    }
  }

  /** No worker ever waits, so a schedule can go on exactly until every worker has finished. */
  lemma {:induction false} NoDeadlock<O>(run: nat -> O, units: nat, jobs: nat, schedule: seq<nat>, p: Pool<O>)
    requires Play(run, units, jobs, schedule) == Some(p)
    ensures AllFinished(p) <==> forall w: nat :: !Enabled(p, w)
  {
    PlayInv(run, units, jobs, schedule, p);
    if !AllFinished(p) {
      var w :| 0 <= w < |p.workers| && p.workers[w] != Finished;
      assert WorkerOk(p, w);
      assert Enabled(p, w);
    }
  }

  /** Every schedule ends after the same number of steps, whatever the interleaving. */
  lemma {:induction false} FinishedExactly<O>(run: nat -> O, units: nat, jobs: nat, schedule: seq<nat>, p: Pool<O>)
    requires Play(run, units, jobs, schedule) == Some(p)
    ensures |schedule| <= 3 * units + Clamp(jobs, units)
    ensures |schedule| == 3 * units + Clamp(jobs, units) <==> AllFinished(p)
  {
    PlaySteps(run, units, jobs, schedule, p);
    PlayInv(run, units, jobs, schedule, p);
    NoLoadFinished(p.workers);
    if AllFinished(p) {
      assert WorkerOk(p, 0);
    }
  }

  lemma {:induction false} PlayNext<O>(run: nat -> O, units: nat, jobs: nat, schedule: seq<nat>, w: nat)
    requires Play(run, units, jobs, schedule).Some? && Enabled(Play(run, units, jobs, schedule).value, w)
    ensures Play(run, units, jobs, schedule + [w]) == Some(Step(run, Play(run, units, jobs, schedule).value, w))
  {
    assert (schedule + [w])[..|schedule|] == schedule;
  }

  /** Any schedule can be continued until every worker has finished. */
  lemma {:induction false} ContinueToEnd<O>(run: nat -> O, units: nat, jobs: nat, schedule: seq<nat>)
    returns (full: seq<nat>)
    requires Play(run, units, jobs, schedule).Some?
    ensures schedule <= full && Play(run, units, jobs, full).Some? && AllFinished(Play(run, units, jobs, full).value)
    decreases Remaining(Play(run, units, jobs, schedule).value)
  {
    var p := Play(run, units, jobs, schedule).value;
    NoDeadlock(run, units, jobs, schedule, p);
    if AllFinished(p) {
      full := schedule;
    } else {
      var w: nat :| Enabled(p, w);
      PlayNext(run, units, jobs, schedule, w);
      StepProgress(run, p, w);
      full := ContinueToEnd(run, units, jobs, schedule + [w]);
    }
  }

  // ---------------------------------------------------------------------
  // The outcome

  /** Running the units one after the other. */
  function Sequential<O>(run: nat -> O, units: nat): seq<O>
  {
    seq(units, i requires 0 <= i => run(i))
  }

  predicate AllFilled<O>(slots: seq<Option<O>>)
  {
    forall i :: 0 <= i < |slots| ==> slots[i].Some?
  }

  function Outcomes<O>(slots: seq<Option<O>>): seq<O>
    requires AllFilled(slots)
  {
    seq(|slots|, i requires 0 <= i < |slots| => slots[i].value)
  }

  /** When all workers are done, every slot has its unit's outcome and every unit ran once. */
  lemma {:induction false} AllSlotsFilled<O>(run: nat -> O, units: nat, jobs: nat, schedule: seq<nat>, p: Pool<O>)
    requires Play(run, units, jobs, schedule) == Some(p) && AllFinished(p)
    ensures AllFilled(p.slots) && Outcomes(p.slots) == Sequential(run, units)
    ensures p.runs == seq(units, _ => 1)
  {
    PlayInv(run, units, jobs, schedule, p);
    assert WorkerOk(p, 0);
    forall i: nat | i < units ensures p.slots[i] == Some(run(i)) && p.runs[i] == 1 {
      assert UnitOk(run, p, i);
    }
  }

  /** At any time no unit has been run twice, and only drawn units were run. */
  lemma {:induction false} NeverRunTwice<O>(run: nat -> O, units: nat, jobs: nat, schedule: seq<nat>, p: Pool<O>,
                                            i: nat)
    requires Play(run, units, jobs, schedule) == Some(p) && i < units
    ensures |p.runs| == units && p.runs[i] <= 1 && (p.runs[i] == 1 ==> i < p.next)
  {
    PlayInv(run, units, jobs, schedule, p);
    assert UnitOk(run, p, i);
    if i < p.next && p.slots[i] == None {
      var w :| 0 <= w < |p.workers| && Holds(p.workers[w], i);
      assert WorkerOk(p, w);
    }
  }

  /** Records in the order of the units, or the first failure in that order. */
  function Scoreboard<R, E>(outcomes: seq<Result<R, E>>): Result<seq<R>, E>
  {
    if outcomes == [] then Ok([])
    else
      var before := Scoreboard(outcomes[..|outcomes| - 1]);
      var last := outcomes[|outcomes| - 1];
      if before.Err? then before
      else if last.Err? then Err(last.error)
      else Ok(before.value + [last.value])
  }

  datatype Collected<R, E> = NoResult(index: nat) | Failed(error: E) | Complete(records: seq<R>)

  lemma {:induction false} ScoreboardPrefixFails<R, E>(outcomes: seq<Result<R, E>>, k: nat)
    requires k <= |outcomes| && Scoreboard(outcomes[..k]).Err?
    ensures Scoreboard(outcomes) == Scoreboard(outcomes[..k])
  {
    if k < |outcomes| {
      var init := outcomes[..|outcomes| - 1];
      assert init[..k] == outcomes[..k];
      ScoreboardPrefixFails(init, k);
    } else {
      assert outcomes[..k] == outcomes;
    }
  }

  lemma {:induction false} ScoreboardNext<R, E>(outcomes: seq<Result<R, E>>, last: Result<R, E>)
    requires Scoreboard(outcomes).Ok?
    ensures Scoreboard(outcomes + [last]) ==
            if last.Err? then Err(last.error) else Ok(Scoreboard(outcomes).value + [last.value])
  {
    assert (outcomes + [last])[..|outcomes|] == outcomes;
  }

  /** A failure among the first outcomes is the failure of all. */
  lemma {:induction false} FailureStands<R, E>(all: seq<Result<R, E>>, outcomes: seq<Result<R, E>>, last: Result<R, E>)
    requires outcomes + [last] <= all && Scoreboard(outcomes).Ok? && last.Err?
    ensures Scoreboard(all) == Err(last.error)
  {
    ScoreboardNext(outcomes, last);
    assert all[..|outcomes| + 1] == outcomes + [last];
    ScoreboardPrefixFails(all, |outcomes| + 1);
  }

  /** Unit `k` failed, and every unit before it has a record. */
  ghost predicate FailsFirst<R, E>(slots: seq<Option<Result<R, E>>>, k: nat, error: E)
  {
    && k < |slots| && slots[k] == Some(Err(error))
    && forall i :: 0 <= i < k ==> slots[i].Some? && slots[i].value.Ok?
  }

  /** Walk the slots in the order of the units. */
  method Collect<R, E>(slots: seq<Option<Result<R, E>>>) returns (r: Collected<R, E>)
    ensures r.NoResult? ==>
              r.index < |slots| && slots[r.index] == None && forall i :: 0 <= i < r.index ==> slots[i] != None
    ensures r.Failed? ==> exists k: nat :: FailsFirst(slots, k, r.error)
    ensures r.Complete? ==> AllFilled(slots)
    ensures AllFilled(slots) ==>
              r == var board := Scoreboard(Outcomes(slots));
                   if board.Err? then Failed(board.error) else Complete(board.value)
  {
    var records: seq<R> := [];
    ghost var outcomes: seq<Result<R, E>> := [];
    for k := 0 to |slots|
      invariant |outcomes| == k && forall i :: 0 <= i < k ==> slots[i] == Some(outcomes[i]) && outcomes[i].Ok?
      invariant Scoreboard(outcomes) == Ok(records)
    {
      if slots[k].None? {
        return NoResult(k);
      }
      var outcome := slots[k].value;
      if outcome.Err? {
        if AllFilled(slots) {
          FailureStands(Outcomes(slots), outcomes, outcome);
        }
        assert FailsFirst(slots, k, outcome.error);
        return Failed(outcome.error);
      }
      ScoreboardNext(outcomes, outcome);
      outcomes, records := outcomes + [outcome], records + [outcome.value];
    }
    assert AllFilled(slots) ==> outcomes == Outcomes(slots);
    r := Complete(records);
  }

  /** The scoreboard is that of running the units one by one, for every number of jobs and every schedule. */
  method RunPool<R, E>(run: nat -> Result<R, E>, units: nat, jobs: nat, schedule: seq<nat>)
    returns (r: Option<Collected<R, E>>)
    ensures r.Some? <==> Play(run, units, jobs, schedule).Some? && AllFinished(Play(run, units, jobs, schedule).value)
    ensures r.Some? ==>
              r.value == var board := Scoreboard(Sequential(run, units));
                         if board.Err? then Failed(board.error) else Complete(board.value)
  {
    var played := Play(run, units, jobs, schedule);
    if played.None? || !AllFinished(played.value) {
      return None;
    }
    AllSlotsFilled(run, units, jobs, schedule, played.value);
    var collected := Collect(played.value.slots);
    r := Some(collected);
  }
}
