/**
 The worklist of the import closure, what it has established at every turn, and what the
 report therefore says about import chains.
 */
module ClosureWorklist {
  import opened Wrappers
  import opened ModuleClosure

  // ---------------------------------------------------------------------
  // The queue: the first resolution of a name owns it

  datatype Queue = Queue(work: seq<Pending>, owner: map<Name, Path>)

  function Push(q: Queue, site: Site, depth: nat): Queue
  {
    if site.name in q.owner then q
    else Queue(q.work + [Pending(site, depth)], q.owner[site.name := site.path])
  }

  function PushAll(q: Queue, sites: seq<Site>, depth: nat): Queue
  {
    if sites == [] then q
    else Push(PushAll(q, sites[..|sites| - 1], depth), sites[|sites| - 1], depth)
  }

  lemma {:induction false} PushAllAppend(q: Queue, a: seq<Site>, b: seq<Site>, depth: nat)
    ensures PushAll(q, a + b, depth) == PushAll(PushAll(q, a, depth), b, depth)
  {
    if b == [] {
      assert a + b == a;
    } else {
      var s, init := a + b, b[..|b| - 1];
      assert s[..|s| - 1] == a + init && s[|s| - 1] == b[|b| - 1];
      PushAllAppend(q, a, init, depth);
    }
  }

  method EnqueueModule(q: Queue, site: Site, depth: nat) returns (r: Queue)
    ensures r == PushAll(q, [site], depth)
  {
    assert [site][..0] == [];
    assert PushAll(q, [site], depth) == Push(PushAll(q, [site][..0], depth), site, depth);
    if site.name in q.owner {
      return q;
    }
    r := Queue(q.work + [Pending(site, depth)], q.owner[site.name := site.path]);
  }

  method EnqueueWithAncestorPackages(env: Env, q: Queue, absolute: Name, path: Path, bestEffort: bool, depth: nat)
    returns (r: Queue)
    ensures r == PushAll(q, WithAncestors(env, absolute, path, bestEffort), depth)
  {
    var isPackage := IsInit(path);
    var first := Site(path, absolute, isPackage, bestEffort);
    r := EnqueueModule(q, first, depth);
    var dir := Parent(path);
    if isPackage {
      dir := Parent(dir.value);
    }
    var name: Name := absolute;
    ghost var done := [first];
    ghost var goal := WithAncestors(env, absolute, path, bestEffort);
    while |name| > 1 && dir.Some?
      invariant goal == done + Ancestors(env, name, dir, bestEffort)
      invariant r == PushAll(q, done, depth)
      decreases |name|
    {
      ghost var before := done;
      ghost var rest := Ancestors(env, name, dir, bestEffort);
      var parent: Name := name[..|name| - 1];
      var init := dir.value + [INIT];
      ghost var above := Ancestors(env, parent, Parent(dir.value), bestEffort);
      if env.isFile(init) {
        var site := Site(init, parent, true, bestEffort);
        PushAllAppend(q, done, [site], depth);
        r := EnqueueModule(r, site, depth);
        done := done + [site];
        assert before + ([site] + above) == done + above;
      } else {
        assert rest == [] + above == above;
      }
      dir := Parent(dir.value);
      name := parent;
    }
    assert done + [] == done;
  }

  /** `added` are new names out of `sites`, each once and at the given depth. */
  predicate Fresh(added: seq<Pending>, q: Queue, sites: seq<Site>, depth: nat)
  {
    && (forall i :: 0 <= i < |added| ==>
          added[i].depth == depth && added[i].site in sites && added[i].site.name !in q.owner)
    && (forall i, j :: 0 <= i < j < |added| ==> added[i].site.name != added[j].site.name)
  }

  /** The names owned afterwards. */
  predicate Owns(owner: map<Name, Path>, q: Queue, added: seq<Pending>)
  {
    && (forall n :: n in q.owner ==> n in owner)
    && (forall i :: 0 <= i < |added| ==> added[i].site.name in owner)
    && (forall n :: n in owner && n !in q.owner ==> exists i :: 0 <= i < |added| && added[i].site.name == n)
  }

  /** The queue `r` is `q` with the entries `added` for these sites. */
  ghost predicate Effect(q: Queue, r: Queue, added: seq<Pending>, sites: seq<Site>, depth: nat)
  {
    && r.work == q.work + added
    && Fresh(added, q, sites, depth) && Owns(r.owner, q, added)
    && forall s :: s in sites ==> s.name in r.owner
  }

  lemma {:induction false} EffectNext(q: Queue, mid: Queue, before: seq<Pending>, init: seq<Site>, last: Site,
                                      depth: nat)
    requires Effect(q, mid, before, init, depth)
    ensures Effect(q, Push(mid, last, depth),
                   if last.name in mid.owner then before else before + [Pending(last, depth)],
                   init + [last], depth)
  {
    if last.name in mid.owner {
      FreshMore(before, q, init, last, depth);
    } else {
      FreshSnoc(before, q, init, last, mid.owner, depth);
      assert (q.work + before) + [Pending(last, depth)] == q.work + (before + [Pending(last, depth)]);
    }
  }

  lemma {:induction false} FreshMore(before: seq<Pending>, q: Queue, init: seq<Site>, last: Site, depth: nat)
    requires Fresh(before, q, init, depth)
    ensures Fresh(before, q, init + [last], depth)
  {
  }

  /** Only new names are queued, each once; every site's name is owned afterwards. */
  lemma {:induction false} PushAllEffect(q: Queue, sites: seq<Site>, depth: nat) returns (added: seq<Pending>)
    ensures Effect(q, PushAll(q, sites, depth), added, sites, depth)
  {
    if sites == [] {
      added := [];
    } else {
      var init, last := sites[..|sites| - 1], sites[|sites| - 1];
      var before := PushAllEffect(q, init, depth);
      var mid := PushAll(q, init, depth);
      assert sites == init + [last];
      PushAllNext(q, init, last, depth);
      EffectNext(q, mid, before, init, last, depth);
      added := if last.name in mid.owner then before else before + [Pending(last, depth)];
    }
  }

  lemma {:induction false} PushAllNext(q: Queue, init: seq<Site>, last: Site, depth: nat)
    ensures PushAll(q, init + [last], depth) == Push(PushAll(q, init, depth), last, depth)
  {
    assert (init + [last])[..|init|] == init;
  }

  lemma {:induction false} FreshSnoc(before: seq<Pending>, q: Queue, init: seq<Site>, last: Site,
                                     owner: map<Name, Path>, depth: nat)
    requires Fresh(before, q, init, depth) && Owns(owner, q, before) && last.name !in owner
    ensures Fresh(before + [Pending(last, depth)], q, init + [last], depth)
    ensures Owns(owner[last.name := last.path], q, before + [Pending(last, depth)])
  {
    var added := before + [Pending(last, depth)];
    assert added[|before|] == Pending(last, depth);
    var after := owner[last.name := last.path];
    forall n | n in after && n !in q.owner ensures exists i :: 0 <= i < |added| && added[i].site.name == n {
      if n == last.name {
        assert added[|before|].site.name == n;
      } else {
        var i :| 0 <= i < |before| && before[i].site.name == n;
        assert added[i].site.name == n;
      }
    }
  }

  // ---------------------------------------------------------------------
  // One module

  datatype Verdict = Leave(reason: Reason) | Compile(source: Source)

  function ImportsOf(site: Site, code: Module): seq<Import>
  {
    if site.bestEffort then code.bodyImports else code.imports
  }

  /** Whether a module within the depth cap joins the closure. */
  function Inspect(env: Env, options: Options, site: Site): Result<Verdict, Error>
  {
    var source := env.read(site.path);
    if source.Err? then Err(source.error)
    else
      var sinks, lowered := source.value.sinks, source.value.lowered;
      if sinks.Err? then
        if site.bestEffort then Ok(Leave(FailedToLower(sinks.error))) else Err(Lower(site.path, sinks.error))
      else if sinks.value > 0 && !options.allowDynamic && !site.bestEffort then Err(DynamicCode(site.path))
      else if lowered.Err? then
        if site.bestEffort then Ok(Leave(FailedToLower(lowered.error))) else Err(Lower(site.path, lowered.error))
      else Ok(Compile(source.value))
  }

  /** One edge per import, with the resolution the environment gives it. */
  predicate EdgesFaithful(env: Env, site: Site, imports: seq<Import>, edges: seq<Edge>)
  {
    && |edges| == |imports|
    && forall i :: 0 <= i < |imports| ==>
        edges[i].request == imports[i] && Resolve(env, site, imports[i]) == Ok(edges[i].resolution)
  }

  /** Queue what one resolution brings in. */
  method Follow(env: Env, q: Queue, name: Name, resolution: Resolution, bestEffort: bool, depth: nat)
    returns (r: Result<Queue, Error>)
    ensures r == var sites := Brought(env, name, resolution, bestEffort);
                 if sites.Err? then Err(sites.error) else Ok(PushAll(q, sites.value, depth))
  {
    var target := StaticTarget(resolution);
    if target.None? {
      return Ok(q);
    }
    var path := env.canon(target.value.0);
    if path.Err? {
      return Err(path.error);
    }
    var after := EnqueueWithAncestorPackages(env, q, name, path.value, bestEffort || target.value.1, depth);
    r := Ok(after);
  }

  method FollowImport(env: Env, q: Queue, site: Site, request: Import, depth: nat)
    returns (r: Result<(Queue, Edge), Error>)
    ensures r.Ok? ==> ImportSites(env, site, request).Ok? && Resolve(env, site, request) == Ok(r.value.1.resolution)
    ensures r.Ok? ==>
            r.value.0 == PushAll(q, ImportSites(env, site, request).value, depth) && r.value.1.request == request
    ensures r.Err? ==> ImportSites(env, site, request) == Err(r.error)
  {
    var absolute := Absolute(site, request);
    var resolution := Resolve(env, site, request);
    if resolution.Err? {
      return Err(resolution.error);
    }
    var after := q;
    ghost var first: seq<Site> := [];
    if absolute.Some? {
      var followed := Follow(env, q, absolute.value, resolution.value, site.bestEffort, depth);
      if followed.Err? {
        return Err(followed.error);
      }
      after := followed.value;
      first := Brought(env, absolute.value, resolution.value, site.bestEffort).value;
    }
    if IsOs(absolute) {
      var osPath := env.resolve(site.path, Import(env.osPath, 0));
      if osPath.Err? {
        return Err(osPath.error);
      }
      var followed := Follow(env, after, env.osPath, osPath.value, site.bestEffort, depth);
      if followed.Err? {
        return Err(followed.error);
      }
      PushAllAppend(q, first, OsPathSites(env, site).value, depth);
      after := followed.value;
    } else {
      assert first + [] == first;
    }
    r := Ok((after, Edge(request, resolution.value)));
  }

  lemma {:induction false} DemandsNext(env: Env, site: Site, init: seq<Import>, request: Import)
    ensures Demands(env, site, init + [request]) ==
            Appended(Demands(env, site, init), ImportSites(env, site, request))
  {
    assert (init + [request])[..|init|] == init;
  }

  lemma {:induction false} EdgesNext(env: Env, site: Site, init: seq<Import>, edges: seq<Edge>, request: Import,
                                     edge: Edge)
    requires EdgesFaithful(env, site, init, edges)
    requires edge.request == request && Resolve(env, site, request) == Ok(edge.resolution)
    ensures EdgesFaithful(env, site, init + [request], edges + [edge])
  {
  }

  /** What the first imports ask for was queued, and their edges recorded. */
  ghost predicate Following(env: Env, q: Queue, site: Site, init: seq<Import>, depth: nat, after: Queue,
                            edges: seq<Edge>)
  {
    && Demands(env, site, init).Ok? && after == PushAll(q, Demands(env, site, init).value, depth)
    && EdgesFaithful(env, site, init, edges)
  }

  lemma {:induction false} FollowingNext(env: Env, q: Queue, site: Site, init: seq<Import>, depth: nat, after: Queue,
                                         edges: seq<Edge>, request: Import, edge: Edge)
    requires Following(env, q, site, init, depth, after, edges) && ImportSites(env, site, request).Ok?
    requires edge.request == request && Resolve(env, site, request) == Ok(edge.resolution)
    ensures Following(env, q, site, init + [request], depth,
                      PushAll(after, ImportSites(env, site, request).value, depth), edges + [edge])
  {
    DemandsNext(env, site, init, request);
    EdgesNext(env, site, init, edges, request, edge);
    PushAllAppend(q, Demands(env, site, init).value, ImportSites(env, site, request).value, depth);
  }

  method FollowImports(env: Env, q: Queue, site: Site, imports: seq<Import>, depth: nat)
    returns (r: Result<(Queue, seq<Edge>), Error>)
    ensures r.Err? ==> Demands(env, site, imports) == Err(r.error)
    ensures r.Ok? ==> Demands(env, site, imports).Ok? && EdgesFaithful(env, site, imports, r.value.1)
    ensures r.Ok? ==> r.value.0 == PushAll(q, Demands(env, site, imports).value, depth)
  {
    var after, edges := q, [];
    for k := 0 to |imports|
      invariant Following(env, q, site, imports[..k], depth, after, edges)
    {
      assert imports[..k + 1] == imports[..k] + [imports[k]];
      var followed := FollowImport(env, after, site, imports[k], depth);
      if followed.Err? {
        DemandsNext(env, site, imports[..k], imports[k]);
        DemandsPrefixFails(env, site, imports, k + 1);
        return Err(followed.error);
      }
      FollowingNext(env, q, site, imports[..k], depth, after, edges, imports[k], followed.value.1);
      after, edges := followed.value.0, edges + [followed.value.1];
    }
    assert imports[..|imports|] == imports;
    r := Ok((after, edges));
  }
}
