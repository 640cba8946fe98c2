/**
 The import closure as one call: turns of the worklist until it is empty.
 */
module ImportClosure {
  import opened Wrappers
  import opened ModuleClosure
  import opened ClosureWorklist
  import opened ClosureReport
  import opened ClosureLoop

  /** Visit a module and note whether it has dynamic-code sinks. */
  method Look(env: Env, options: Options, p: Pending, path: Path, q: Queue, units: seq<Unit>, skipped: seq<Skipped>,
              dynamic: bool)
    returns (r: Result<(Outcome, Queue), Error>, known: bool)
    requires env.canon(p.site.path) == Ok(path) && DynamicKnown(env, units, skipped, dynamic)
    ensures r.Err? ==> Failure(env, options, p) == Some(r.error)
    ensures r.Ok? ==> Looked(env, options, p, path, q, r.value.0, r.value.1)
    ensures r.Ok? ==> DynamicAfter(env, units, skipped, r.value.0, known)
  {
    r := Visit(env, options, p, path, q);
    known := dynamic;
    if r.Ok? {
      var sinks := p.depth <= options.maxDepth && SinksAt(env, path) > 0;
      DynamicNext(env, units, skipped, dynamic, r.value.0, sinks);
      known := dynamic || sinks;
    }
  }

  /** Take a module off the queue whose name and path are new. */
  method Take(env: Env, options: Options, path: Path, s: State, ghost entry: Path, ghost h: History,
              ghost level: nat, ghost split: nat)
    returns (r: Result<State, Error>, ghost after: History)
    requires Going(env, options, entry, h, s, level, split)
    requires split > 0 && env.canon(s.q.work[0].site.path) == Ok(path)
    ensures r.Err? ==> Failure(env, options, s.q.work[0]) == Some(r.error)
    ensures r.Ok? ==> Going(env, options, entry, after, r.value, level, split - 1)
    ensures r.Ok? ==> level <= options.maxDepth || r.value.q.work == s.q.work[1..]
  {
    var rest := Queue(s.q.work[1..], s.q.owner);
    after := h;
    var visited, dynamic := Look(env, options, s.q.work[0], path, rest, s.units, s.skipped, s.dynamic);
    if visited.Err? {
      return Err(visited.error), after;
    }
    r := Ok(NextState(s, path, visited.value.0, visited.value.1, dynamic));
    after := Settle(env, options, entry, h, s, level, split, path, visited.value.0, visited.value.1, dynamic);
  }

  method Turn(env: Env, options: Options, s: State, ghost entry: Path, ghost h: History, ghost level: nat,
              ghost split: nat)
    returns (r: Result<State, Error>, ghost after: History)
    requires Going(env, options, entry, h, s, level, split) && split > 0
    ensures r.Err? ==> Failure(env, options, s.q.work[0]) == Some(r.error)
    ensures r.Ok? ==> Going(env, options, entry, after, r.value, level, split - 1)
    ensures r.Ok? ==> level <= options.maxDepth || r.value.q.work == s.q.work[1..]
  {
    after := h;
    var p := s.q.work[0];
    var path := env.canon(p.site.path);
    if path.Err? {
      return Err(path.error), h;
    }
    if (path.value, p.site.name) in s.seen {
      DropAgain(env, options, entry, h, s.q, s.seen, level, split, path.value);
      after := Retired(h, p.site.name, []);
      r := Ok(s.(q := Queue(s.q.work[1..], s.q.owner)));
    } else {
      r, after := Take(env, options, path.value, s, entry, h, level, split);
    }
  }

  method CloseOver(env: Env, options: Options, entry: Path)
    returns (r: Result<Report, Error>, ghost h: History, ghost failed: Pending)
    ensures r.Ok? ==> Complete(env, options, entry, h) && h.units == r.value.units && h.skipped == r.value.skipped
    ensures r.Ok? ==> DynamicKnown(env, r.value.units, r.value.skipped, r.value.requiresDynamic)
    ensures r.Err? ==> Stopped(env, options, entry, h, failed, r.error)
  {
    var s := State(Queue([EntryPending(entry)], map[]), {}, [], [], false);
    h := History([], [], [], [], map[], {});
    failed := EntryPending(entry);
    ghost var level: nat, split: nat := 0, 1;
    while s.q.work != []
      invariant Going(env, options, entry, h, s, level, split)
      invariant level <= options.maxDepth + 1
      invariant level <= options.maxDepth || split == |s.q.work|
      decreases options.maxDepth + 1 - level, split
    {
      if split == 0 {
        level, split := level + 1, |s.q.work|;
      }
      failed := s.q.work[0];
      var turn;
      ghost var after;
      turn, after := Turn(env, options, s, entry, h, level, split);
      if turn.Err? {
        return Err(turn.error), h, failed;
      }
      s, h, split := turn.value, after, split - 1;
    }
    r := Ok(Report(s.units, s.dynamic, s.skipped));
  }

  method ModuleClosureWithOptions(env: Env, options: Options, entryPath: Path)
    returns (r: Result<Report, Error>, ghost h: History, ghost failed: Pending)
    ensures r.Ok? ==> env.canon(entryPath).Ok? && Complete(env, options, env.canon(entryPath).value, h)
    ensures r.Ok? ==> h.units == r.value.units && h.skipped == r.value.skipped
    ensures r.Ok? ==> DynamicKnown(env, r.value.units, r.value.skipped, r.value.requiresDynamic)
    ensures r.Err? ==> env.canon(entryPath) == Err(r.error)
                       || (env.canon(entryPath).Ok?
                           && Stopped(env, options, env.canon(entryPath).value, h, failed, r.error))
  {
    var entry := env.canon(entryPath);
    if entry.Err? {
      return Err(entry.error), History([], [], [], [], map[], {}), EntryPending(entryPath);
    }
    r, h, failed := CloseOver(env, options, entry.value);
  }
}
