/**
 The state of the closure loop: what each turn may assume and has to leave behind.
 */
module ClosureLoop {
  import opened Wrappers
  import opened ModuleClosure
  import opened ClosureWorklist
  import opened ClosureReport

  // ---------------------------------------------------------------------
  // The loop state

  /** `good` is the invariant under another name. */
  ghost predicate Stands(good: History -> bool, law: Law, entry: Path)
  {
    forall h {:trigger Inv(law, entry, h)} :: good(h) <==> Inv(law, entry, h)
  }

  /** The invariant, said so that its parts are looked at only where `Unseal` brings them out. */
  ghost predicate Sealed(law: Law, entry: Path, h: History)
  {
    exists good: History -> bool {:trigger Stands(good, law, entry)} :: Stands(good, law, entry) && good(h)
  }

  lemma {:induction false} Seal(law: Law, entry: Path, h: History)
    requires Inv(law, entry, h)
    ensures Sealed(law, entry, h)
  {
    var good: History -> bool := x => Inv(law, entry, x);
    assert Stands(good, law, entry);
  }

  lemma {:induction false} Unseal(law: Law, entry: Path, h: History)
    requires Sealed(law, entry, h)
    ensures Inv(law, entry, h)
  {
    var good: History -> bool :| Stands(good, law, entry) && good(h);
    assert good(h) <==> Inv(law, entry, h);
  }

  ghost predicate Running(law: Law, entry: Path, h: History, q: Queue, seen: set<(Path, Name)>, level: nat, split: nat)
  {
    && Levels(q.work, level, split)
    && Bounded(h, level)
    && Owned(q.owner, h.found)
    && if h.units == [] then StartsWith(h) && q.work == [EntryPending(entry)] && seen == {} && level == 0 && split == 1
       else Sealed(law, entry, h) && Linked(h.found, h.done, q.work) && SeenDone(seen, h.done)
  }

  ghost predicate Owned(owner: map<Name, Path>, found: map<Name, Pending>)
  {
    forall n :: n in owner <==> n in found
  }

  /** Only the entry's name is taken off the queue without being marked done. */
  ghost predicate SeenDone(seen: set<(Path, Name)>, done: set<Name>)
  {
    forall x :: x in seen ==> x.1 == MAIN || x.1 in done
  }

  lemma {:induction false} Retire(law: Law, entry: Path, h: History, q: Queue, seen: set<(Path, Name)>, level: nat,
                                  split: nat, path: Path, skipped: seq<Skipped>)
    requires Running(law, entry, h, q, seen, level, split) && h.units != [] && split > 0
    requires forall i :: 0 <= i < |skipped| ==>
            law.skip(q.work[0], skipped[i]) && skipped[i].name == q.work[0].site.name
    requires skipped == [] ==> Named(h.units, h.skipped, q.work[0].site.name)
    ensures Running(law, entry, Retired(h, q.work[0].site.name, skipped), Queue(q.work[1..], q.owner),
                    seen + {(path, q.work[0].site.name)}, level, split - 1)
  {
    RetireGood(law, entry, h, q.work[0], skipped);
  }

  lemma {:induction false} RetireGood(law: Law, entry: Path, h: History, p: Pending, skipped: seq<Skipped>)
    requires Sealed(law, entry, h) && p.site.name in h.found && h.found[p.site.name] == p
    requires forall i :: 0 <= i < |skipped| ==> law.skip(p, skipped[i]) && skipped[i].name == p.site.name
    requires skipped == [] ==> Named(h.units, h.skipped, p.site.name)
    ensures Sealed(law, entry, Retired(h, p.site.name, skipped))
  {
    Unseal(law, entry, h);
    RetireKeeps(law, entry, h, p, skipped);
    Seal(law, entry, Retired(h, p.site.name, skipped));
  }

  lemma {:induction false} Embed(law: Law, entry: Path, h: History, q: Queue, seen: set<(Path, Name)>,
                                 level: nat, split: nat, u: Unit, sites: seq<Site>)
    returns (after: History)
    requires Running(law, entry, h, q, seen, level, split) && split > 0
    requires law.unit(u, sites, level) && law.site(q.work[0], u.site) && u.site.name == q.work[0].site.name
    ensures after.units == h.units + [u] && after.skipped == h.skipped
    ensures Running(law, entry, after, PushAll(Queue(q.work[1..], q.owner), sites, level + 1),
                    seen + {(u.site.path, u.site.name)}, level, split - 1)
  {
    var rest := Queue(q.work[1..], q.owner);
    var added := Enqueued(h.found, rest, sites, level + 1);
    after := Grown(h, u, level, sites, added);
    EmbedInto(law, entry, h, q, seen, level, split, u, sites, added, PushAll(rest, sites, level + 1));
  }

  lemma {:induction false} EmbedInto(law: Law, entry: Path, h: History, q: Queue, seen: set<(Path, Name)>,
                                     level: nat, split: nat, u: Unit, sites: seq<Site>, added: seq<Pending>,
                                     full: Queue)
    requires Running(law, entry, h, q, seen, level, split) && split > 0
    requires Embeds(law, h, q.work[0], u, sites, added)
    requires full.work == q.work[1..] + added && Owned(full.owner, WithAdded(h.found, added))
    ensures Running(law, entry, Grown(h, u, level, sites, added), full,
                    seen + {(u.site.path, u.site.name)}, level, split - 1)
  {
    LevelsGrow(q.work, level, split, added, sites);
    SeenGrows(seen, h, u, level, sites, added);
    EmbedState(law, entry, h, q.work, level, u, sites, added);
  }

  lemma {:induction false} SeenGrows(seen: set<(Path, Name)>, h: History, u: Unit, level: nat, sites: seq<Site>,
                                     added: seq<Pending>)
    requires if h.units == [] then seen == {} && u.site.name == MAIN else SeenDone(seen, h.done)
    ensures SeenDone(seen + {(u.site.path, u.site.name)}, Grown(h, u, level, sites, added).done)
  {
  }

  lemma {:induction false} EmbedState(law: Law, entry: Path, h: History, work: seq<Pending>, level: nat, u: Unit,
                                      sites: seq<Site>, added: seq<Pending>)
    requires Bounded(h, level) && work != [] && work[0].depth == level
    requires if h.units == [] then StartsWith(h) && work == [EntryPending(entry)]
             else Sealed(law, entry, h) && Linked(h.found, h.done, work)
    requires Embeds(law, h, work[0], u, sites, added)
    ensures var after := Grown(h, u, level, sites, added);
            Sealed(law, entry, after) && Bounded(after, level) && Linked(after.found, after.done, work[1..] + added)
  {
    EmbedLinked(h, work, u, level, sites, added);
    EmbedGood(law, entry, h, work[0], u, sites, added);
  }

  /** The new queue entries are the new names, and owned names stay the found ones. */
  lemma {:induction false} Enqueued(found: map<Name, Pending>, q: Queue, sites: seq<Site>, depth: nat)
    returns (added: seq<Pending>)
    requires Owned(q.owner, found)
    ensures PushAll(q, sites, depth).work == q.work + added && NewNames(found, added)
    ensures Stems(added, sites, depth) && Covered(sites, WithAdded(found, added))
    ensures Owned(PushAll(q, sites, depth).owner, WithAdded(found, added))
  {
    added := PushAllEffect(q, sites, depth);
    WithAddedExtends(found, added);
  }

  lemma {:induction false} LevelsGrow(work: seq<Pending>, level: nat, split: nat, added: seq<Pending>, sites: seq<Site>)
    requires Levels(work, level, split) && split > 0 && Stems(added, sites, level + 1)
    ensures Levels(work[1..] + added, level, split - 1)
  {
  }

  lemma {:induction false} EmbedGood(law: Law, entry: Path, h: History, p: Pending, u: Unit, sites: seq<Site>,
                                     added: seq<Pending>)
    requires Bounded(h, p.depth)
    requires if h.units == [] then StartsWith(h) && p == EntryPending(entry)
             else Sealed(law, entry, h) && p.site.name in h.found && h.found[p.site.name] == p && p.site.name !in h.done
    requires Embeds(law, h, p, u, sites, added)
    ensures Sealed(law, entry, Grown(h, u, p.depth, sites, added))
             && Bounded(Grown(h, u, p.depth, sites, added), p.depth)
  {
    if h.units != [] {
      Unseal(law, entry, h);
    }
    EmbedKeeps(law, entry, h, p, u, sites, added);
    Seal(law, entry, Grown(h, u, p.depth, sites, added));
  }

  lemma {:induction false} EmbedLinked(h: History, work: seq<Pending>, u: Unit, level: nat, sites: seq<Site>,
                                       added: seq<Pending>)
    requires NewNames(h.found, added) && work != [] && u.site.name == work[0].site.name
    requires if h.units == [] then StartsWith(h) && |work| == 1 else Linked(h.found, h.done, work)
    ensures var after := Grown(h, u, level, sites, added); Linked(after.found, after.done, work[1..] + added)
  {
    var after := Grown(h, u, level, sites, added);
    WithAddedExtends(h.found, added);
    assert h.units == [] ==> work[1..] == [];
    LinkedGrows(h.found, after.done, work[1..], added, after.found);
  }

  // ---------------------------------------------------------------------
  // Dynamic-code sinks

  function SinksAt(env: Env, path: Path): nat
  {
    var source := env.read(path);
    if source.Err? || source.value.sinks.Err? then 0 else source.value.sinks.value
  }

  ghost predicate UnitHasSinks(env: Env, units: seq<Unit>)
  {
    exists k :: 0 <= k < |units| && SinksAt(env, units[k].site.path) > 0
  }

  /** A module was left out because it failed to lower, and has sinks. */
  ghost predicate FailedHasSinks(env: Env, skipped: seq<Skipped>)
  {
    exists i :: 0 <= i < |skipped| && skipped[i].reason.FailedToLower? && SinksAt(env, skipped[i].path) > 0
  }

  /** The flag is up exactly if a unit has sinks, or a module that failed to lower. */
  ghost predicate DynamicKnown(env: Env, units: seq<Unit>, skipped: seq<Skipped>, dynamic: bool)
  {
    dynamic <==> UnitHasSinks(env, units) || FailedHasSinks(env, skipped)
  }

  lemma {:induction false} UnitSinksSnoc(env: Env, units: seq<Unit>, u: Unit)
    ensures UnitHasSinks(env, units + [u]) <==> UnitHasSinks(env, units) || SinksAt(env, u.site.path) > 0
  {
    var more := units + [u];
    assert more[|units|] == u;
    if k :| 0 <= k < |units| && SinksAt(env, units[k].site.path) > 0 {
      assert more[k] == units[k];
    }
  }

  lemma {:induction false} FailedSinksSnoc(env: Env, skipped: seq<Skipped>, s: Skipped)
    ensures FailedHasSinks(env, skipped + [s]) <==>
            FailedHasSinks(env, skipped) || (s.reason.FailedToLower? && SinksAt(env, s.path) > 0)
  {
    var more := skipped + [s];
    assert more[|skipped|] == s;
    if i :| 0 <= i < |skipped| && skipped[i].reason.FailedToLower? && SinksAt(env, skipped[i].path) > 0 {
      assert more[i] == skipped[i];
    }
  }

  /** One more unit, or one more module left out. */
  lemma {:induction false} DynamicNext(env: Env, units: seq<Unit>, skipped: seq<Skipped>, dynamic: bool,
                                       outcome: Outcome, more: bool)
    requires DynamicKnown(env, units, skipped, dynamic)
    requires match outcome
             case Left(s) => more <==> s.reason.FailedToLower? && SinksAt(env, s.path) > 0
             case Embedded(u) => more <==> SinksAt(env, u.site.path) > 0
    ensures DynamicAfter(env, units, skipped, outcome, dynamic || more)
  {
    match outcome
    case Left(s) => FailedSinksSnoc(env, skipped, s);
    case Embedded(u) => UnitSinksSnoc(env, units, u);
  }

  ghost predicate DynamicAfter(env: Env, units: seq<Unit>, skipped: seq<Skipped>, outcome: Outcome, dynamic: bool)
  {
    match outcome
    case Left(s) => DynamicKnown(env, units, skipped + [s], dynamic)
    case Embedded(u) => DynamicKnown(env, units + [u], skipped, dynamic)
  }

  // ---------------------------------------------------------------------
  // The loop

  /** The entry itself, or a found module: where a failure came from. */
  ghost predicate Origin(law: Law, entry: Path, h: History, p: Pending)
  {
    if h.units == [] then p == EntryPending(entry)
    else Sealed(law, entry, h) && p.site.name in h.found && h.found[p.site.name] == p
  }

  ghost predicate AllDone(h: History)
  {
    forall n :: n in h.found ==> n in h.done
  }

  /** The history of a run that ended well. */
  ghost predicate Complete(env: Env, options: Options, entry: Path, h: History)
  {
    Sealed(LawOf(env, options), entry, h) && AllDone(h)
  }

  lemma {:induction false} EntryNamed(env: Env, options: Options, entry: Path, h: History)
    requires Sealed(LawOf(env, options), entry, h)
    ensures Named(h.units, h.skipped, MAIN)
  {
    Unseal(LawOf(env, options), entry, h);
    assert h.units[0].site.name == MAIN;
  }

  lemma {:induction false} LeaveOut(env: Env, options: Options, entry: Path, h: History, q: Queue,
                                    seen: set<(Path, Name)>, level: nat, split: nat, path: Path, s: Skipped)
    requires Running(LawOf(env, options), entry, h, q, seen, level, split) && split > 0
             && SkipLawful(env, options, q.work[0], s)
    ensures Running(LawOf(env, options), entry, Retired(h, q.work[0].site.name, [s]), Queue(q.work[1..], q.owner),
                    seen + {(path, q.work[0].site.name)}, level, split - 1)
  {
    assert LawOf(env, options).skip(q.work[0], s);
    Retire(LawOf(env, options), entry, h, q, seen, level, split, path, [s]);
  }

  lemma {:induction false} LookedLawful(env: Env, options: Options, p: Pending, path: Path, q: Queue, u: Unit,
                                        full: Queue)
    returns (demands: seq<Site>)
    requires Looked(env, options, p, path, q, Embedded(u), full)
    ensures LawOf(env, options).unit(u, demands, p.depth) && LawOf(env, options).site(p, u.site)
    ensures u.site.name == p.site.name && u.site.path == path && p.depth <= options.maxDepth
    ensures full == PushAll(q, demands, p.depth + 1)
  {
    demands := DemandsOf(env, u);
  }

  lemma {:induction false} TakeIn(env: Env, options: Options, entry: Path, h: History, q: Queue,
                                  seen: set<(Path, Name)>, level: nat, split: nat, path: Path, u: Unit, full: Queue)
    returns (after: History)
    requires Running(LawOf(env, options), entry, h, q, seen, level, split) && split > 0
    requires Looked(env, options, q.work[0], path, Queue(q.work[1..], q.owner), Embedded(u), full)
    ensures after.units == h.units + [u] && after.skipped == h.skipped && level <= options.maxDepth
    ensures Running(LawOf(env, options), entry, after, full, seen + {(path, q.work[0].site.name)}, level, split - 1)
  {
    var law, p := LawOf(env, options), q.work[0];
    FrontDepth(q.work, level, split);
    var demands := LookedLawful(env, options, p, path, Queue(q.work[1..], q.owner), u, full);
    after := Embed(law, entry, h, q, seen, level, split, u, demands);
  }

  /** A name taken off the queue a second time can only be the entry's. */
  lemma {:induction false} DropAgain(env: Env, options: Options, entry: Path, h: History, q: Queue,
                                     seen: set<(Path, Name)>, level: nat, split: nat, path: Path)
    requires Running(LawOf(env, options), entry, h, q, seen, level, split) && split > 0
             && (path, q.work[0].site.name) in seen
    ensures h.units != []
    ensures Running(LawOf(env, options), entry, Retired(h, q.work[0].site.name, []), Queue(q.work[1..], q.owner),
            seen, level, split - 1)
  {
    EntryNamed(env, options, entry, h);
    Retire(LawOf(env, options), entry, h, q, seen, level, split, path, []);
    assert seen + {(path, q.work[0].site.name)} == seen;
  }

  /** The pending entry has a failure, and it is the entry or a module found on the way. */
  ghost predicate Stopped(env: Env, options: Options, entry: Path, h: History, p: Pending, error: Error)
  {
    Failure(env, options, p) == Some(error) && Origin(LawOf(env, options), entry, h, p)
  }

  /** What came of looking at `p` with the queue `q` behind it. */
  ghost predicate Looked(env: Env, options: Options, p: Pending, path: Path, q: Queue, outcome: Outcome, after: Queue)
  {
    match outcome
    case Left(s) => after == q && SkipLawful(env, options, p, s)
    case Embedded(u) =>
      && UnitLawful(env, options, u, DemandsOf(env, u), p.depth) && SiteMatches(env, p, u.site) && u.site.path == path
      && after == PushAll(q, DemandsOf(env, u), p.depth + 1)
  }

  /** The variables of the loop. */
  datatype State = State(q: Queue, seen: set<(Path, Name)>, units: seq<Unit>, skipped: seq<Skipped>, dynamic: bool)

  ghost predicate Going(env: Env, options: Options, entry: Path, h: History, s: State, level: nat, split: nat)
  {
    && Running(LawOf(env, options), entry, h, s.q, s.seen, level, split)
    && h.units == s.units && h.skipped == s.skipped
    && DynamicKnown(env, s.units, s.skipped, s.dynamic)
  }

  /** The variables after the front of the queue was looked at. */
  function NextState(s: State, path: Path, outcome: Outcome, q: Queue, dynamic: bool): State
    requires s.q.work != []
  {
    State(q, s.seen + {(path, s.q.work[0].site.name)},
          if outcome.Embedded? then s.units + [outcome.unit] else s.units,
          if outcome.Left? then s.skipped + [outcome.skipped] else s.skipped,
          dynamic)
  }

  lemma {:induction false} SettleLeft(env: Env, options: Options, entry: Path, h: History, s: State, level: nat,
                                      split: nat, path: Path, left: Skipped, q: Queue, dynamic: bool)
    returns (after: History)
    requires Going(env, options, entry, h, s, level, split) && split > 0
    requires Looked(env, options, s.q.work[0], path, Queue(s.q.work[1..], s.q.owner), Left(left), q)
    requires DynamicAfter(env, s.units, s.skipped, Left(left), dynamic)
    ensures Going(env, options, entry, after, NextState(s, path, Left(left), q, dynamic), level, split - 1)
  {
    LeaveOut(env, options, entry, h, s.q, s.seen, level, split, path, left);
    after := Retired(h, s.q.work[0].site.name, [left]);
  }

  lemma {:induction false} SettleEmbedded(env: Env, options: Options, entry: Path, h: History, s: State, level: nat,
                                          split: nat, path: Path, u: Unit, q: Queue, dynamic: bool)
    returns (after: History)
    requires Going(env, options, entry, h, s, level, split) && split > 0
    requires Looked(env, options, s.q.work[0], path, Queue(s.q.work[1..], s.q.owner), Embedded(u), q)
    requires DynamicAfter(env, s.units, s.skipped, Embedded(u), dynamic)
    ensures Going(env, options, entry, after, NextState(s, path, Embedded(u), q, dynamic), level, split - 1)
    ensures level <= options.maxDepth
  {
    after := TakeIn(env, options, entry, h, s.q, s.seen, level, split, path, u, q);
  }

  lemma {:induction false} FrontDepth(work: seq<Pending>, level: nat, split: nat)
    requires Levels(work, level, split) && split > 0
    ensures work[0].depth == level
  {
  }

  lemma {:induction false} Settle(env: Env, options: Options, entry: Path, h: History, s: State, level: nat, split: nat,
                                  path: Path, outcome: Outcome, q: Queue, dynamic: bool)
    returns (after: History)
    requires Going(env, options, entry, h, s, level, split) && split > 0
    requires Looked(env, options, s.q.work[0], path, Queue(s.q.work[1..], s.q.owner), outcome, q)
    requires DynamicAfter(env, s.units, s.skipped, outcome, dynamic)
    ensures Going(env, options, entry, after, NextState(s, path, outcome, q, dynamic), level, split - 1)
    ensures level <= options.maxDepth || q.work == s.q.work[1..]
  {
    match outcome
    case Left(left) => after := SettleLeft(env, options, entry, h, s, level, split, path, left, q, dynamic);
    case Embedded(u) => after := SettleEmbedded(env, options, entry, h, s, level, split, path, u, q, dynamic);
  }
}
