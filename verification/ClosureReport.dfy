/**
 The closure loop itself, the history it establishes, and what that history says about
 import chains from the entry module.
 */
module ClosureReport {
  import opened Wrappers
  import opened ModuleClosure
  import opened ClosureWorklist

  /**
   What has been worked out so far. `depths` and `asked` run beside `units`: the depth at
   which a unit was found and the sites its imports ask for. `found` has the one queue
   entry made for each name, `done` the names already taken off the queue.
   */
  datatype History = History(
    units: seq<Unit>,
    depths: seq<nat>,
    asked: seq<seq<Site>>,
    skipped: seq<Skipped>,
    found: map<Name, Pending>,
    done: set<Name>)

  // ---------------------------------------------------------------------
  // What holds of it

  function EntryPending(entry: Path): Pending
  {
    Pending(Site(entry, MAIN, false, false), 0)
  }

  /** The unit's site is the queued one with its path made canonical. */
  ghost predicate SiteMatches(env: Env, p: Pending, site: Site)
  {
    env.canon(p.site.path) == Ok(site.path) && site == p.site.(path := site.path)
  }

  /** An embedded unit: within the cap, admitted by the policy, and its imports all looked up. */
  ghost predicate UnitLawful(env: Env, options: Options, u: Unit, asked: seq<Site>, depth: nat)
  {
    && depth <= options.maxDepth
    && Inspect(env, options, u.site) == Ok(Compile(u.source))
    && u.source.lowered.Ok?
    && var imports := ImportsOf(u.site, u.source.lowered.value);
       Demands(env, u.site, imports) == Ok(asked) && EdgesFaithful(env, u.site, imports, u.edges)
  }

  ghost predicate SkipLawful(env: Env, options: Options, p: Pending, s: Skipped)
  {
    && s.name == p.site.name && env.canon(p.site.path) == Ok(s.path)
    && match s.reason
       case TooDeep(depth) => depth == p.depth > options.maxDepth
       case FailedToLower(_) =>
         p.depth <= options.maxDepth && Inspect(env, options, p.site.(path := s.path)) == Ok(Leave(s.reason))
  }

  /** The three conditions above, as the loop's bookkeeping sees them. */
  datatype Law = Law(
    unit: (Unit, seq<Site>, nat) -> bool,
    skip: (Pending, Skipped) -> bool,
    site: (Pending, Site) -> bool)

  ghost function LawOf(env: Env, options: Options): Law
  {
    Law(
      (u: Unit, asked: seq<Site>, depth: nat) => UnitLawful(env, options, u, asked, depth),
      (p: Pending, s: Skipped) => SkipLawful(env, options, p, s),
      (p: Pending, site: Site) => SiteMatches(env, p, site))
  }

  ghost predicate UnitsLawful(law: Law, units: seq<Unit>, asked: seq<seq<Site>>, depths: seq<nat>)
  {
    && |depths| == |units| && |asked| == |units|
    && forall k :: 0 <= k < |units| ==> law.unit(units[k], asked[k], depths[k])
  }

  ghost predicate EntryFirst(law: Law, entry: Path, units: seq<Unit>, depths: seq<nat>)
  {
    units != [] && depths != [] && law.site(EntryPending(entry), units[0].site) && depths[0] == 0
  }

  ghost predicate Matches(law: Law, site: Site, depth: nat, found: map<Name, Pending>)
  {
    site.name in found && law.site(found[site.name], site) && depth == found[site.name].depth
  }

  /** Every unit but the entry comes from the queue entry of its name. */
  ghost predicate Matched(law: Law, units: seq<Unit>, depths: seq<nat>, found: map<Name, Pending>)
  {
    |depths| == |units| && forall k :: 0 < k < |units| ==> Matches(law, units[k].site, depths[k], found)
  }

  ghost predicate DistinctNames(units: seq<Unit>)
  {
    forall j, k :: 0 < j < k < |units| ==> units[j].site.name != units[k].site.name
  }

  /** Unit `k` is where the queue entry `p` came from. */
  ghost predicate Discovers(depths: seq<nat>, asked: seq<seq<Site>>, k: nat, p: Pending)
  {
    k < |depths| && k < |asked| && p.depth == depths[k] + 1 && p.site in asked[k]
  }

  ghost predicate Discovered(depths: seq<nat>, asked: seq<seq<Site>>, found: map<Name, Pending>)
  {
    forall n :: n in found ==> found[n].site.name == n && HasOrigin(depths, asked, found[n])
  }

  ghost predicate HasOrigin(depths: seq<nat>, asked: seq<seq<Site>>, p: Pending)
  {
    exists k: nat :: Discovers(depths, asked, k, p)
  }

  ghost predicate FoundBy(found: map<Name, Pending>, n: Name, depth: nat)
  {
    n in found && found[n].depth <= depth
  }

  /** Whatever a unit asks for was found, no deeper than one below the unit. */
  ghost predicate Closed(depths: seq<nat>, asked: seq<seq<Site>>, found: map<Name, Pending>)
  {
    |depths| == |asked| && forall k, s :: 0 <= k < |asked| && s in asked[k] ==> FoundBy(found, s.name, depths[k] + 1)
  }

  ghost predicate SkipsLawful(law: Law, skipped: seq<Skipped>, found: map<Name, Pending>)
  {
    forall i :: 0 <= i < |skipped| ==> skipped[i].name in found && law.skip(found[skipped[i].name], skipped[i])
  }

  ghost predicate Named(units: seq<Unit>, skipped: seq<Skipped>, n: Name)
  {
    || (exists k :: 0 <= k < |units| && units[k].site.name == n)
    || (exists i :: 0 <= i < |skipped| && skipped[i].name == n)
  }

  /** A name is done exactly when it is reported; the entry has its name without a queue entry. */
  ghost predicate Settled(h: History)
  {
    && (forall n :: n in h.done ==> n in h.found && Named(h.units, h.skipped, n))
    && (forall k :: 0 < k < |h.units| ==> h.units[k].site.name in h.done)
  }

  ghost predicate Ordered(depths: seq<nat>)
  {
    forall j, k :: 0 <= j <= k < |depths| ==> depths[j] <= depths[k]
  }

  ghost predicate UnitsInv(law: Law, entry: Path, h: History)
  {
    && UnitsLawful(law, h.units, h.asked, h.depths)
    && EntryFirst(law, entry, h.units, h.depths)
    && Matched(law, h.units, h.depths, h.found)
    && Ordered(h.depths)
  }

  ghost predicate GraphInv(h: History)
  {
    Discovered(h.depths, h.asked, h.found) && Closed(h.depths, h.asked, h.found)
  }

  ghost predicate NamesInv(law: Law, h: History)
  {
    DistinctNames(h.units) && SkipsLawful(law, h.skipped, h.found) && Settled(h)
  }

  ghost predicate Inv(law: Law, entry: Path, h: History)
  {
    UnitsInv(law, entry, h) && GraphInv(h) && NamesInv(law, h)
  }

  /** The queue holds exactly the found names not yet done, one entry each. */
  ghost predicate Linked(found: map<Name, Pending>, done: set<Name>, work: seq<Pending>)
  {
    && (forall i :: 0 <= i < |work| ==>
          work[i].site.name in found && found[work[i].site.name] == work[i] && work[i].site.name !in done)
    && (forall i, j :: 0 <= i < j < |work| ==> work[i].site.name != work[j].site.name)
    && (forall n :: n in found && n !in done ==> Queued(work, n))
    && (forall n :: n in done ==> n in found)
  }

  ghost predicate Queued(work: seq<Pending>, n: Name)
  {
    exists i :: 0 <= i < |work| && work[i].site.name == n
  }

  /** The first `split` entries are at `level`, the others one deeper. */
  ghost predicate Levels(work: seq<Pending>, level: nat, split: nat)
  {
    split <= |work| && forall i :: 0 <= i < |work| ==> work[i].depth == if i < split then level else level + 1
  }

  /** Nothing found or embedded is ahead of the level. */
  ghost predicate Bounded(h: History, level: nat)
  {
    && (forall n :: n in h.found ==> h.found[n].depth <= level + 1)
    && (forall k :: 0 <= k < |h.depths| ==> h.depths[k] <= level)
  }

  // ---------------------------------------------------------------------
  // One turn

  datatype Outcome = Left(skipped: Skipped) | Embedded(unit: Unit)

  ghost function DemandsOf(env: Env, u: Unit): seq<Site>
  {
    if u.source.lowered.Err? then []
    else
      var demands := Demands(env, u.site, ImportsOf(u.site, u.source.lowered.value));
      if demands.Err? then [] else demands.value
  }

  /** Why taking `p` off the queue stops the whole closure, if it does. */
  ghost function Failure(env: Env, options: Options, p: Pending): Option<Error>
  {
    var path := env.canon(p.site.path);
    if path.Err? then Some(path.error)
    else if p.depth > options.maxDepth then None
    else
      var site := p.site.(path := path.value);
      var verdict := Inspect(env, options, site);
      if verdict.Err? then Some(verdict.error)
      else if verdict.value.Leave? || verdict.value.source.lowered.Err? then None
      else
        var demands := Demands(env, site, ImportsOf(site, verdict.value.source.lowered.value));
        if demands.Err? then Some(demands.error) else None
  }

  method Visit(env: Env, options: Options, p: Pending, path: Path, q: Queue)
    returns (r: Result<(Outcome, Queue), Error>)
    requires env.canon(p.site.path) == Ok(path)
    ensures r.Err? <==> Failure(env, options, p).Some?
    ensures r.Err? ==> Failure(env, options, p) == Some(r.error)
    ensures r.Ok? && r.value.0.Left? ==> r.value.1 == q && SkipLawful(env, options, p, r.value.0.skipped)
    ensures r.Ok? && r.value.0.Embedded? ==>
              var u := r.value.0.unit;
              && UnitLawful(env, options, u, DemandsOf(env, u), p.depth)
              && SiteMatches(env, p, u.site)
              && r.value.1 == PushAll(q, DemandsOf(env, u), p.depth + 1)
  {
    if p.depth > options.maxDepth {
      return Ok((Left(Skipped(p.site.name, path, TooDeep(p.depth))), q));
    }
    var site := p.site.(path := path);
    var verdict := Inspect(env, options, site);
    if verdict.Err? {
      return Err(verdict.error);
    }
    if verdict.value.Leave? {
      return Ok((Left(Skipped(p.site.name, path, verdict.value.reason)), q));
    }
    r := Admit(env, options, p, site, verdict.value.source, q);
  }

  /** A module the policy lets in: its imports are followed and it becomes a unit. */
  method Admit(env: Env, options: Options, p: Pending, site: Site, source: Source, q: Queue)
    returns (r: Result<(Outcome, Queue), Error>)
    requires p.depth <= options.maxDepth && Inspect(env, options, site) == Ok(Compile(source)) && source.lowered.Ok?
    ensures var demands := Demands(env, site, ImportsOf(site, source.lowered.value));
            if demands.Err? then r == Err(demands.error)
            else
              && r.Ok? && r.value.0.Embedded? && r.value.0.unit.site == site && r.value.0.unit.source == source
              && UnitLawful(env, options, r.value.0.unit, demands.value, p.depth)
              && r.value.1 == PushAll(q, demands.value, p.depth + 1)
  {
    var followed := FollowImports(env, q, site, ImportsOf(site, source.lowered.value), p.depth + 1);
    if followed.Err? {
      return Err(followed.error);
    }
    r := Ok((Embedded(Unit(site, source, followed.value.1)), followed.value.0));
  }

  /** The history after an entry was left out or dropped. */
  ghost function Retired(h: History, n: Name, skipped: seq<Skipped>): History
  {
    h.(skipped := h.skipped + skipped, done := h.done + {n})
  }

  lemma {:induction false} RetireKeeps(law: Law, entry: Path, h: History, p: Pending, skipped: seq<Skipped>)
    requires Inv(law, entry, h) && p.site.name in h.found && h.found[p.site.name] == p
    requires forall i :: 0 <= i < |skipped| ==> law.skip(p, skipped[i]) && skipped[i].name == p.site.name
    requires skipped == [] ==> Named(h.units, h.skipped, p.site.name)
    ensures Inv(law, entry, Retired(h, p.site.name, skipped))
  {
    RetireNames(law, h, p, skipped);
  }

  lemma {:induction false} RetireNames(law: Law, h: History, p: Pending, skipped: seq<Skipped>)
    requires NamesInv(law, h) && p.site.name in h.found && h.found[p.site.name] == p
    requires forall i :: 0 <= i < |skipped| ==> law.skip(p, skipped[i]) && skipped[i].name == p.site.name
    requires skipped == [] ==> Named(h.units, h.skipped, p.site.name)
    ensures NamesInv(law, Retired(h, p.site.name, skipped))
  {
    RetireSettled(h, p.site.name, skipped);
  }

  lemma {:induction false} RetireSettled(h: History, n: Name, skipped: seq<Skipped>)
    requires Settled(h) && n in h.found
    requires forall i :: 0 <= i < |skipped| ==> skipped[i].name == n
    requires skipped == [] ==> Named(h.units, h.skipped, n)
    ensures Settled(Retired(h, n, skipped))
  {
    var after := Retired(h, n, skipped);
    forall m | m in after.done ensures Named(after.units, after.skipped, m) {
      if m == n && skipped != [] {
        assert after.skipped[|h.skipped|] == skipped[0];
      } else {
        assert h.units + [] == h.units;
        NamedGrows(h.units, h.skipped, [], skipped, m);
      }
    }
  }

  lemma {:induction false} NamedGrows(units: seq<Unit>, skipped: seq<Skipped>, moreUnits: seq<Unit>,
                                      moreSkipped: seq<Skipped>, n: Name)
    requires Named(units, skipped, n)
    ensures Named(units + moreUnits, skipped + moreSkipped, n)
  {
    if k :| 0 <= k < |units| && units[k].site.name == n {
      assert (units + moreUnits)[k].site.name == n;
    } else {
      var i :| 0 <= i < |skipped| && skipped[i].name == n;
      assert (skipped + moreSkipped)[i].name == n;
    }
  }

  // ---------------------------------------------------------------------
  // Embedding a unit

  /** `found` with the entries just queued. */
  ghost function WithAdded(found: map<Name, Pending>, added: seq<Pending>): map<Name, Pending>
  {
    if added == [] then found
    else WithAdded(found, added[..|added| - 1])[added[|added| - 1].site.name := added[|added| - 1]]
  }

  ghost predicate NewNames(found: map<Name, Pending>, added: seq<Pending>)
  {
    && (forall i :: 0 <= i < |added| ==> added[i].site.name !in found)
    && (forall i, j :: 0 <= i < j < |added| ==> added[i].site.name != added[j].site.name)
  }

  /** `after` is `found` and the added entries, nothing else. */
  ghost predicate Extended(found: map<Name, Pending>, added: seq<Pending>, after: map<Name, Pending>)
  {
    && (forall n :: n in found ==> n in after && after[n] == found[n])
    && (forall i :: 0 <= i < |added| ==> added[i].site.name in after && after[added[i].site.name] == added[i])
    && (forall n :: n in after && n !in found ==> exists i :: 0 <= i < |added| && added[i].site.name == n)
  }

  lemma {:induction false} WithAddedExtends(found: map<Name, Pending>, added: seq<Pending>)
    requires NewNames(found, added)
    ensures Extended(found, added, WithAdded(found, added))
  {
    if added != [] {
      var k := |added| - 1;
      var init := added[..k];
      assert added == init + [added[k]];
      WithAddedExtends(found, init);
      ExtendedSnoc(found, init, added[k], WithAdded(found, init));
    }
  }

  lemma {:induction false} ExtendedSnoc(found: map<Name, Pending>, init: seq<Pending>, p: Pending,
                                        mid: map<Name, Pending>)
    requires NewNames(found, init + [p]) && Extended(found, init, mid)
    ensures Extended(found, init + [p], mid[p.site.name := p])
  {
    var added, after := init + [p], mid[p.site.name := p];
    assert added[|init|] == p;
    forall i | 0 <= i < |init| ensures after[init[i].site.name] == init[i] {
      assert added[i] == init[i];
    }
    forall n | n in after && n !in found ensures exists i :: 0 <= i < |added| && added[i].site.name == n {
      if n == p.site.name {
        assert added[|init|].site.name == n;
      } else {
        var i :| 0 <= i < |init| && init[i].site.name == n;
        assert added[i].site.name == n;
      }
    }
  }

  /** The history with one more unit; `isEntry` if it is the first. */
  ghost function Grown(h: History, u: Unit, depth: nat, asked: seq<Site>, added: seq<Pending>): History
  {
    History(h.units + [u], h.depths + [depth], h.asked + [asked], h.skipped, WithAdded(h.found, added),
            if h.units == [] then h.done else h.done + {u.site.name})
  }

  lemma {:induction false} GrownDiscovered(depths: seq<nat>, asked: seq<seq<Site>>, found: map<Name, Pending>,
                                           depth: nat, sites: seq<Site>, added: seq<Pending>, after: map<Name, Pending>)
    requires |depths| == |asked| && Discovered(depths, asked, found) && Extended(found, added, after)
    requires forall i :: 0 <= i < |added| ==> added[i].depth == depth + 1 && added[i].site in sites
    ensures Discovered(depths + [depth], asked + [sites], after)
  {
    forall n | n in after
      ensures after[n].site.name == n && HasOrigin(depths + [depth], asked + [sites], after[n])
    {
      if n in found {
        var k: nat :| Discovers(depths, asked, k, found[n]);
        assert Discovers(depths + [depth], asked + [sites], k, after[n]);
      } else {
        var i :| 0 <= i < |added| && added[i].site.name == n;
        assert Discovers(depths + [depth], asked + [sites], |depths|, after[n]);
      }
    }
  }

  lemma {:induction false} GrownSettled(h: History, u: Unit, depth: nat, asked: seq<Site>, added: seq<Pending>)
    requires Settled(h) && Extended(h.found, added, WithAdded(h.found, added))
    requires h.units != [] ==> u.site.name in h.found && u.site.name !in h.done
    requires DistinctNames(h.units)
    ensures Settled(Grown(h, u, depth, asked, added)) && DistinctNames(h.units + [u])
  {
    var after := Grown(h, u, depth, asked, added);
    assert after.units[|h.units|] == u;
    forall n | n in after.done ensures n in after.found && Named(after.units, after.skipped, n) {
      if n in h.done {
        assert h.skipped + [] == h.skipped;
        NamedGrows(h.units, h.skipped, [u], [], n);
      }
    }
  }

  ghost predicate StartsWith(h: History)
  {
    h == History([], [], [], [], map[], {})
  }

  lemma {:induction false} GrownLawful(law: Law, entry: Path, h: History, p: Pending, u: Unit, sites: seq<Site>)
    requires UnitsLawful(law, h.units, h.asked, h.depths) && law.unit(u, sites, p.depth) && law.site(p, u.site)
    requires if h.units == [] then p == EntryPending(entry) else EntryFirst(law, entry, h.units, h.depths)
    requires Ordered(h.depths) && forall k :: 0 <= k < |h.depths| ==> h.depths[k] <= p.depth
    ensures UnitsLawful(law, h.units + [u], h.asked + [sites], h.depths + [p.depth])
    ensures EntryFirst(law, entry, h.units + [u], h.depths + [p.depth])
    ensures Ordered(h.depths + [p.depth])
  {
  }

  /** What an entry about to be embedded has to be: the first is the entry module. */
  ghost predicate Ready(law: Law, entry: Path, h: History, p: Pending)
  {
    && Bounded(h, p.depth)
    && if h.units == [] then StartsWith(h) && p == EntryPending(entry)
       else Inv(law, entry, h) && p.site.name in h.found && h.found[p.site.name] == p && p.site.name !in h.done
  }

  /** The unit `u` made from `p` with the new queue entries `added`. */
  ghost predicate Embeds(law: Law, h: History, p: Pending, u: Unit, sites: seq<Site>, added: seq<Pending>)
  {
    && law.unit(u, sites, p.depth) && law.site(p, u.site) && u.site.name == p.site.name
    && NewNames(h.found, added)
    && Stems(added, sites, p.depth + 1) && Covered(sites, WithAdded(h.found, added))
  }

  /** The entries are made for some of the sites, at this depth. */
  ghost predicate Stems(added: seq<Pending>, sites: seq<Site>, depth: nat)
  {
    forall i :: 0 <= i < |added| ==> added[i].depth == depth && added[i].site in sites
  }

  ghost predicate Covered(sites: seq<Site>, found: map<Name, Pending>)
  {
    forall s :: s in sites ==> s.name in found
  }

  lemma {:induction false} EmbedUnits(law: Law, entry: Path, h: History, p: Pending, u: Unit, sites: seq<Site>,
                                      added: seq<Pending>)
    requires Ready(law, entry, h, p) && Embeds(law, h, p, u, sites, added)
    ensures UnitsInv(law, entry, Grown(h, u, p.depth, sites, added))
  {
    WithAddedExtends(h.found, added);
    GrownLawful(law, entry, h, p, u, sites);
  }

  lemma {:induction false} EmbedGraph(law: Law, h: History, p: Pending, u: Unit, sites: seq<Site>, added: seq<Pending>)
    requires GraphInv(h) && Bounded(h, p.depth) && Embeds(law, h, p, u, sites, added)
    ensures GraphInv(Grown(h, u, p.depth, sites, added))
    ensures Bounded(Grown(h, u, p.depth, sites, added), p.depth)
  {
    GrownGraph(h.depths, h.asked, h.found, p.depth, sites, added);
  }

  lemma {:induction false} GrownGraph(depths: seq<nat>, asked: seq<seq<Site>>, found: map<Name, Pending>,
                                      depth: nat, sites: seq<Site>, added: seq<Pending>)
    requires Discovered(depths, asked, found) && Closed(depths, asked, found) && NewNames(found, added)
    requires forall n :: n in found ==> found[n].depth <= depth + 1
    requires forall i :: 0 <= i < |added| ==> added[i].depth == depth + 1 && added[i].site in sites
    requires forall s :: s in sites ==> s.name in WithAdded(found, added)
    ensures Discovered(depths + [depth], asked + [sites], WithAdded(found, added))
    ensures Closed(depths + [depth], asked + [sites], WithAdded(found, added))
    ensures forall n :: n in WithAdded(found, added) ==> FoundBy(WithAdded(found, added), n, depth + 1)
  {
    var after := WithAdded(found, added);
    WithAddedExtends(found, added);
    GrownDiscovered(depths, asked, found, depth, sites, added, after);
  }

  lemma {:induction false} EmbedNames(law: Law, entry: Path, h: History, p: Pending, u: Unit, sites: seq<Site>,
                                      added: seq<Pending>)
    requires Ready(law, entry, h, p) && Embeds(law, h, p, u, sites, added)
    ensures NamesInv(law, Grown(h, u, p.depth, sites, added))
  {
    var after := WithAdded(h.found, added);
    WithAddedExtends(h.found, added);
    GrownSettled(h, u, p.depth, sites, added);
  }

  /** Taking `p` off the queue and embedding it keeps everything. */
  lemma {:induction false} EmbedKeeps(law: Law, entry: Path, h: History, p: Pending, u: Unit, sites: seq<Site>,
                                      added: seq<Pending>)
    requires Ready(law, entry, h, p) && Embeds(law, h, p, u, sites, added)
    ensures Inv(law, entry, Grown(h, u, p.depth, sites, added))
    ensures Bounded(Grown(h, u, p.depth, sites, added), p.depth)
  {
    EmbedUnits(law, entry, h, p, u, sites, added);
    EmbedGraph(law, h, p, u, sites, added);
    EmbedNames(law, entry, h, p, u, sites, added);
  }

  lemma {:induction false} LinkedGrows(found: map<Name, Pending>, done: set<Name>, rest: seq<Pending>,
                                       added: seq<Pending>, after: map<Name, Pending>)
    requires Linked(found, done, rest) && NewNames(found, added) && Extended(found, added, after)
    ensures Linked(after, done, rest + added)
  {
    var queue := rest + added;
    forall n | n in after && n !in done ensures Queued(queue, n) {
      if n in found {
        var i :| 0 <= i < |rest| && rest[i].site.name == n;
        assert queue[i].site.name == n;
      } else {
        var i :| 0 <= i < |added| && added[i].site.name == n;
        assert queue[|rest| + i].site.name == n;
      }
    }
  }
}
