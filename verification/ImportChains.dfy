/**
 What a successful closure report says in terms of import chains: sequences of embedded
 units, from the entry on, each asking for the next one's name.
 */
module ImportChains {
  import opened Wrappers
  import opened ModuleClosure
  import opened ClosureWorklist
  import opened ClosureReport
  import opened ClosureLoop
  import opened ImportMeaning

  /** An import of the unit, an ancestor package or the path module brings in this name. */
  ghost predicate Requests(env: Env, u: Unit, n: Name)
  {
    exists d :: d in DemandsOf(env, u) && d.name == n
  }

  ghost predicate IsChain(env: Env, units: seq<Unit>, c: seq<nat>)
  {
    && c != [] && c[0] == 0
    && (forall i :: 0 <= i < |c| ==> c[i] < |units|)
    && (forall i, j :: 0 <= i < j < |c| && j == i + 1 ==> Link(env, units, c[i], c[j]))
  }

  /** The one unit asks for the name of the other. */
  ghost predicate Link(env: Env, units: seq<Unit>, a: nat, b: nat)
  {
    a < |units| && b < |units| && Requests(env, units[a], units[b].site.name)
  }

  /** The chain's last unit asks for `n`; the chain's length is the depth it gives `n`. */
  ghost predicate Reaches(env: Env, units: seq<Unit>, c: seq<nat>, n: Name)
  {
    IsChain(env, units, c) && Requests(env, units[c[|c| - 1]], n)
  }

  // ---------------------------------------------------------------------
  // From the history

  lemma {:induction false} Asked(env: Env, options: Options, entry: Path, h: History, k: nat)
    requires Sealed(LawOf(env, options), entry, h) && k < |h.units|
    ensures k < |h.asked| && h.asked[k] == DemandsOf(env, h.units[k]) && k < |h.depths|
    ensures UnitLawful(env, options, h.units[k], h.asked[k], h.depths[k])
  {
    Unseal(LawOf(env, options), entry, h);
    assert LawOf(env, options).unit(h.units[k], h.asked[k], h.depths[k]);
  }

  lemma {:induction false} RequestFound(env: Env, options: Options, entry: Path, h: History, k: nat, n: Name)
    requires Sealed(LawOf(env, options), entry, h) && k < |h.units| && Requests(env, h.units[k], n)
    ensures k < |h.depths| && FoundBy(h.found, n, h.depths[k] + 1)
  {
    Asked(env, options, entry, h, k);
    Unseal(LawOf(env, options), entry, h);
    var d :| d in DemandsOf(env, h.units[k]) && d.name == n;
    assert d in h.asked[k];
  }

  lemma {:induction false} UnitFound(env: Env, options: Options, entry: Path, h: History, k: nat)
    requires Sealed(LawOf(env, options), entry, h) && 0 < k < |h.units|
    ensures k < |h.depths| && h.units[k].site.name in h.found
    ensures h.found[h.units[k].site.name].depth == h.depths[k]
    ensures SiteMatches(env, h.found[h.units[k].site.name], h.units[k].site)
  {
    Unseal(LawOf(env, options), entry, h);
    assert Matches(LawOf(env, options), h.units[k].site, h.depths[k], h.found);
  }

  lemma {:induction false} SkipFound(env: Env, options: Options, entry: Path, h: History, i: nat)
    requires Sealed(LawOf(env, options), entry, h) && i < |h.skipped|
    ensures h.skipped[i].name in h.found && SkipLawful(env, options, h.found[h.skipped[i].name], h.skipped[i])
  {
    Unseal(LawOf(env, options), entry, h);
    assert LawOf(env, options).skip(h.found[h.skipped[i].name], h.skipped[i]);
  }

  // ---------------------------------------------------------------------
  // No chain is shorter than the recorded depth

  lemma {:induction false} ChainDepth(env: Env, options: Options, entry: Path, h: History, c: seq<nat>)
    requires Sealed(LawOf(env, options), entry, h) && IsChain(env, h.units, c)
    ensures c[|c| - 1] < |h.depths| && h.depths[c[|c| - 1]] <= |c| - 1
  {
    EntryStrict(env, options, entry, h);
    var k := |c| - 1;
    if k > 0 && c[k] > 0 {
      var init := c[..k];
      assert IsChain(env, h.units, init) && init[k - 1] == c[k - 1];
      ChainDepth(env, options, entry, h, init);
      assert Link(env, h.units, c[k - 1], c[k]);
      RequestFound(env, options, entry, h, c[k - 1], h.units[c[k]].site.name);
      UnitFound(env, options, entry, h, c[k]);
    }
  }

  lemma {:induction false} ReachedDepth(env: Env, options: Options, entry: Path, h: History, c: seq<nat>, n: Name)
    requires Sealed(LawOf(env, options), entry, h) && Reaches(env, h.units, c, n)
    ensures FoundBy(h.found, n, |c|)
  {
    ChainDepth(env, options, entry, h, c);
    RequestFound(env, options, entry, h, c[|c| - 1], n);
  }

  // ---------------------------------------------------------------------
  // Some chain has exactly that length

  lemma {:induction false} OriginOf(env: Env, options: Options, entry: Path, h: History, n: Name) returns (k: nat)
    requires Sealed(LawOf(env, options), entry, h) && n in h.found
    ensures k < |h.units| && k < |h.depths| && Requests(env, h.units[k], n) && h.found[n].depth == h.depths[k] + 1
    ensures h.units[k].site.bestEffort ==> h.found[n].site.bestEffort
  {
    k := Origins(env, options, entry, h, n);
    Asked(env, options, entry, h, k);
    var u := h.units[k];
    assert h.found[n].site in DemandsOf(env, u);
    if u.site.bestEffort {
      DemandsInherit(env, u.site, ImportsOf(u.site, u.source.lowered.value), h.found[n].site);
    }
  }

  lemma {:induction false} Origins(env: Env, options: Options, entry: Path, h: History, n: Name) returns (k: nat)
    requires Sealed(LawOf(env, options), entry, h) && n in h.found
    ensures k < |h.units| && Discovers(h.depths, h.asked, k, h.found[n]) && h.found[n].site.name == n
  {
    Unseal(LawOf(env, options), entry, h);
    assert HasOrigin(h.depths, h.asked, h.found[n]);
    k :| Discovers(h.depths, h.asked, k, h.found[n]);
  }

  /** Whatever a best-effort module asks for is best-effort. */
  lemma {:induction false} DemandsInherit(env: Env, site: Site, imports: seq<Import>, d: Site)
    requires site.bestEffort && Demands(env, site, imports).Ok? && d in Demands(env, site, imports).value
    ensures d.bestEffort
  {
    DemandsOfImports(env, site, imports, d);
    var i :| 0 <= i < |imports| && Brings(env, site, imports[i], d);
    ImportInherits(env, site, imports[i], d);
  }

  lemma {:induction false} ImportInherits(env: Env, site: Site, request: Import, d: Site)
    requires site.bestEffort && ImportSites(env, site, request).Ok? && d in ImportSites(env, site, request).value
    ensures d.bestEffort
  {
    var absolute, resolution := Absolute(site, request), Resolve(env, site, request);
    if absolute.Some? && d in Brought(env, absolute.value, resolution.value, true).value {
      BroughtInherits(env, absolute.value, resolution.value, d);
    } else {
      BroughtInherits(env, env.osPath, env.resolve(site.path, Import(env.osPath, 0)).value, d);
    }
  }

  lemma {:induction false} BroughtInherits(env: Env, name: Name, resolution: Resolution, d: Site)
    requires Brought(env, name, resolution, true).Ok? && d in Brought(env, name, resolution, true).value
    ensures d.bestEffort
  {
    var path := env.canon(StaticTarget(resolution).value.0).value;
    AncestorsExact(env, name, HomeDir(path), true, d);
  }

  /** A chain as long as the recorded depth; for a strict module, of strict units only. */
  lemma {:induction false} ShortestChain(env: Env, options: Options, entry: Path, h: History, n: Name)
    returns (c: seq<nat>)
    requires Sealed(LawOf(env, options), entry, h) && n in h.found
    ensures Reaches(env, h.units, c, n) && |c| == h.found[n].depth
    ensures !h.found[n].site.bestEffort ==> StrictChain(h.units, c)
    decreases h.found[n].depth
  {
    var k := OriginOf(env, options, entry, h, n);
    if k == 0 {
      c := [0];
      EntryStrict(env, options, entry, h);
    } else {
      UnitFound(env, options, entry, h, k);
      var before := ShortestChain(env, options, entry, h, h.units[k].site.name);
      c := before + [k];
      ChainGrows(env, h.units, before, k);
    }
  }

  lemma {:induction false} ChainGrows(env: Env, units: seq<Unit>, c: seq<nat>, k: nat)
    requires k < |units| && Reaches(env, units, c, units[k].site.name)
    ensures IsChain(env, units, c + [k])
    ensures StrictChain(units, c) && !units[k].site.bestEffort ==> StrictChain(units, c + [k])
  {
    assert (c + [k])[..|c|] == c;
  }

  ghost predicate StrictChain(units: seq<Unit>, c: seq<nat>)
  {
    forall i :: 0 <= i < |c| ==> c[i] < |units| && !units[c[i]].site.bestEffort
  }

  lemma {:induction false} EntryStrict(env: Env, options: Options, entry: Path, h: History)
    requires Sealed(LawOf(env, options), entry, h)
    ensures h.units != [] && h.depths != [] && h.depths[0] == 0
    ensures h.units[0].site.name == MAIN && !h.units[0].site.bestEffort && !h.units[0].site.isPackage
    ensures env.canon(entry) == Ok(h.units[0].site.path)
  {
    Unseal(LawOf(env, options), entry, h);
    assert LawOf(env, options).site(EntryPending(entry), h.units[0].site);
  }

  // ---------------------------------------------------------------------
  // The report

  /** The report is closed: whatever a chain reaches is a unit or is listed as skipped. */
  lemma {:induction false} ClosureNamesEverything(env: Env, options: Options, entry: Path, h: History, c: seq<nat>,
                                                  n: Name)
    requires Complete(env, options, entry, h) && Reaches(env, h.units, c, n)
    ensures Named(h.units, h.skipped, n)
  {
    ReachedDepth(env, options, entry, h, c, n);
    DoneNamed(env, options, entry, h, n);
  }

  lemma {:induction false} DoneNamed(env: Env, options: Options, entry: Path, h: History, n: Name)
    requires Complete(env, options, entry, h) && n in h.found
    ensures Named(h.units, h.skipped, n)
  {
    Unseal(LawOf(env, options), entry, h);
  }

  ghost predicate Reached(env: Env, units: seq<Unit>, n: Name)
  {
    exists c :: Reaches(env, units, c, n)
  }

  lemma {:induction false} FoundReached(env: Env, options: Options, entry: Path, h: History, n: Name)
    requires Complete(env, options, entry, h) && n in h.found
    ensures Reached(env, h.units, n)
  {
    var c := ShortestChain(env, options, entry, h, n);
  }

  /** And nothing else is in it: every unit behind the entry and every skipped module is reached by a chain. */
  lemma {:induction false} ClosureNamesOnlyReached(env: Env, options: Options, entry: Path, h: History)
    requires Complete(env, options, entry, h)
    ensures forall k: nat :: 0 < k < |h.units| ==> Reached(env, h.units, h.units[k].site.name)
    ensures forall i: nat :: i < |h.skipped| ==> Reached(env, h.units, h.skipped[i].name)
  {
    forall k: nat | 0 < k < |h.units| ensures Reached(env, h.units, h.units[k].site.name) {
      UnitFound(env, options, entry, h, k);
      FoundReached(env, options, entry, h, h.units[k].site.name);
    }
    forall i: nat | i < |h.skipped| ensures Reached(env, h.units, h.skipped[i].name) {
      SkipFound(env, options, entry, h, i);
      FoundReached(env, options, entry, h, h.skipped[i].name);
    }
  }

  /** A module is left out for its depth only if every chain to it is too long, and the depth given is the shortest. */
  lemma {:induction false} TooDeepIsShortest(env: Env, options: Options, entry: Path, h: History, i: nat)
    requires Complete(env, options, entry, h) && i < |h.skipped| && h.skipped[i].reason.TooDeep?
    ensures h.skipped[i].reason.depth > options.maxDepth
    ensures forall c :: Reaches(env, h.units, c, h.skipped[i].name) ==> |c| >= h.skipped[i].reason.depth
    ensures exists c :: Reaches(env, h.units, c, h.skipped[i].name) && |c| == h.skipped[i].reason.depth
  {
    var s := h.skipped[i];
    SkipFound(env, options, entry, h, i);
    forall c | Reaches(env, h.units, c, s.name) ensures |c| >= s.reason.depth {
      ReachedDepth(env, options, entry, h, c, s.name);
    }
    var c := ShortestChain(env, options, entry, h, s.name);
  }

  ghost predicate SkipNamed(skipped: seq<Skipped>, n: Name)
  {
    exists i :: 0 <= i < |skipped| && skipped[i].name == n
  }

  /** The policy does not let the module in. */
  ghost predicate LeftOut(env: Env, options: Options, p: Pending)
  {
    && env.canon(p.site.path).Ok?
    && Inspect(env, options, p.site.(path := env.canon(p.site.path).value)).Ok?
    && Inspect(env, options, p.site.(path := env.canon(p.site.path).value)).value.Leave?
  }

  /** A found module is skipped exactly if it is beyond the cap or the policy leaves it out. */
  lemma {:induction false} SkippedExactly(env: Env, options: Options, entry: Path, h: History, n: Name)
    requires Complete(env, options, entry, h) && n in h.found && n != MAIN
    ensures SkipNamed(h.skipped, n) <==> h.found[n].depth > options.maxDepth || LeftOut(env, options, h.found[n])
  {
    DoneNamed(env, options, entry, h, n);
    if i :| 0 <= i < |h.skipped| && h.skipped[i].name == n {
      SkipFound(env, options, entry, h, i);
    } else {
      var k :| 0 <= k < |h.units| && h.units[k].site.name == n;
      EntryStrict(env, options, entry, h);
      UnitFound(env, options, entry, h, k);
      Asked(env, options, entry, h, k);
    }
  }

  /** So a strict module is skipped exactly if it is beyond the cap, and only best-effort ones for failing to lower. */
  lemma {:induction false} StrictSkips(env: Env, options: Options, entry: Path, h: History, n: Name)
    requires Complete(env, options, entry, h) && n in h.found && n != MAIN && !h.found[n].site.bestEffort
    ensures SkipNamed(h.skipped, n) <==> h.found[n].depth > options.maxDepth
    ensures !FailedNamed(h.skipped, n)
  {
    SkippedExactly(env, options, entry, h, n);
    forall i: nat | i < |h.skipped| && h.skipped[i].name == n ensures h.skipped[i].reason.TooDeep? {
      SkipFound(env, options, entry, h, i);
    }
  }

  ghost predicate FailedNamed(skipped: seq<Skipped>, n: Name)
  {
    exists i :: 0 <= i < |skipped| && skipped[i].name == n && skipped[i].reason.FailedToLower?
  }

  ghost predicate UnitNamed(units: seq<Unit>, n: Name)
  {
    exists k :: 0 <= k < |units| && units[k].site.name == n
  }

  /** A module some chain within the cap reaches is embedded, unless it is best-effort and failed to lower. */
  lemma {:induction false} NearModulesEmbedded(env: Env, options: Options, entry: Path, h: History, c: seq<nat>,
                                               n: Name)
    requires Complete(env, options, entry, h) && Reaches(env, h.units, c, n) && |c| <= options.maxDepth
    ensures UnitNamed(h.units, n) || (FailedNamed(h.skipped, n) && n in h.found && h.found[n].site.bestEffort)
  {
    ReachedDepth(env, options, entry, h, c, n);
    DoneNamed(env, options, entry, h, n);
    if !UnitNamed(h.units, n) {
      var i :| 0 <= i < |h.skipped| && h.skipped[i].name == n;
      SkipFound(env, options, entry, h, i);
    }
  }

  /** Units are listed in the order of their shortest chains, each within the cap. */
  lemma {:induction false} UnitsByDistance(env: Env, options: Options, entry: Path, h: History, j: nat, k: nat,
                                           c: seq<nat>)
    requires Complete(env, options, entry, h) && 0 < j <= k < |h.units|
             && Reaches(env, h.units, c, h.units[k].site.name)
    ensures exists d :: Reaches(env, h.units, d, h.units[j].site.name) && |d| <= |c| && |d| <= options.maxDepth
  {
    ReachedDepth(env, options, entry, h, c, h.units[k].site.name);
    UnitFound(env, options, entry, h, k);
    UnitFound(env, options, entry, h, j);
    InCap(env, options, entry, h, j, k);
    var d := ShortestChain(env, options, entry, h, h.units[j].site.name);
  }

  lemma {:induction false} InCap(env: Env, options: Options, entry: Path, h: History, j: nat, k: nat)
    requires Complete(env, options, entry, h) && j <= k < |h.units|
    ensures k < |h.depths| && h.depths[j] <= h.depths[k] && h.depths[j] <= options.maxDepth
  {
    Unseal(LawOf(env, options), entry, h);
    Asked(env, options, entry, h, j);
  }

  /** A strict unit is reached by a chain of strict units, and has no sinks unless they are allowed. */
  lemma {:induction false} StrictUnits(env: Env, options: Options, entry: Path, h: History, k: nat)
    requires Complete(env, options, entry, h) && k < |h.units| && !h.units[k].site.bestEffort
    ensures k > 0 ==>
              exists c ::
                Reaches(env, h.units, c, h.units[k].site.name) && StrictChain(h.units, c) && |c| <= options.maxDepth
    ensures !options.allowDynamic ==> SinksAt(env, h.units[k].site.path) == 0
  {
    Asked(env, options, entry, h, k);
    if k > 0 {
      UnitFound(env, options, entry, h, k);
      var c := ShortestChain(env, options, entry, h, h.units[k].site.name);
    }
  }

  /** The entry is the first unit, a strict module called `__main__`, and no two others share a name. */
  lemma {:induction false} EntryAndNames(env: Env, options: Options, entry: Path, h: History)
    requires Complete(env, options, entry, h)
    ensures h.units != [] && env.canon(entry) == Ok(h.units[0].site.path)
    ensures h.units[0].site == Site(h.units[0].site.path, ["__main__"], false, false)
    ensures forall j, k :: 0 < j < k < |h.units| ==> h.units[j].site.name != h.units[k].site.name
  {
    EntryStrict(env, options, entry, h);
    Unseal(LawOf(env, options), entry, h);
  }

  predicate HasSinks(source: Source)
  {
    source.sinks.Ok? && source.sinks.value > 0
  }

  /** A module was left out for failing to lower although it could be scanned, and it has sinks. */
  ghost predicate LeftOutWithSinks(env: Env, skipped: seq<Skipped>)
  {
    exists i :: 0 <= i < |skipped| && skipped[i].reason.FailedToLower?
                && env.read(skipped[i].path).Ok? && HasSinks(env.read(skipped[i].path).value)
  }

  /** The flag is up exactly if a unit's source has sinks, or that of a module left out for failing to lower. */
  lemma {:induction false} FlagExact(env: Env, options: Options, entry: Path, h: History, dynamic: bool)
    requires Complete(env, options, entry, h) && DynamicKnown(env, h.units, h.skipped, dynamic)
    ensures dynamic <==> (exists k :: 0 <= k < |h.units| && HasSinks(h.units[k].source))
                         || LeftOutWithSinks(env, h.skipped)
  {
    forall k: nat | k < |h.units| ensures SinksAt(env, h.units[k].site.path) > 0 <==> HasSinks(h.units[k].source) {
      Asked(env, options, entry, h, k);
      InspectPolicy(env, options, h.units[k].site);
    }
  }

  // ---------------------------------------------------------------------
  // In terms of the imports

  /** One unit leads to another exactly by what its import statements ask for. */
  lemma {:induction false} LinksAreImports(env: Env, options: Options, entry: Path, h: History, k: nat, n: Name)
    requires Complete(env, options, entry, h) && k < |h.units|
    ensures Requests(env, h.units[k], n) <==> Asks(env, h.units[k], n)
  {
    Asked(env, options, entry, h, k);
    DemandsExact(env, h.units[k], n);
    assert Requests(env, h.units[k], n) <==> HasName(h.asked[k], n);
  }

  /** Whatever an import of a unit asks for is a unit or is listed as skipped. */
  lemma {:induction false} ImportsClosed(env: Env, options: Options, entry: Path, h: History, k: nat, n: Name)
    requires Complete(env, options, entry, h) && k < |h.units| && Asks(env, h.units[k], n)
    ensures Named(h.units, h.skipped, n)
  {
    LinksAreImports(env, options, entry, h, k, n);
    RequestFound(env, options, entry, h, k, n);
    DoneNamed(env, options, entry, h, n);
  }

  /** And whatever the report names besides the entry, an import of some unit asks for. */
  lemma {:induction false} NamesAreImported(env: Env, options: Options, entry: Path, h: History, n: Name)
    requires Complete(env, options, entry, h) && Named(h.units, h.skipped, n) && n != ["__main__"]
    ensures exists k: nat :: k < |h.units| && Asks(env, h.units[k], n)
  {
    EntryStrict(env, options, entry, h);
    if k: nat :| k < |h.units| && h.units[k].site.name == n {
      UnitFound(env, options, entry, h, k);
    } else {
      var i: nat :| i < |h.skipped| && h.skipped[i].name == n;
      SkipFound(env, options, entry, h, i);
    }
    var k := OriginOf(env, options, entry, h, n);
    LinksAreImports(env, options, entry, h, k, n);
  }

  /**
   A relative import that leads to a file below the package root: the module named by the ancestor it
   counts up to and its whole target is a unit or is listed as skipped.
   */
  lemma {:induction false} RelativeImportsClosed(env: Env, options: Options, entry: Path, h: History, k: nat,
                                                 request: Import, root: Path, path: Path, canonical: Path)
    requires Complete(env, options, entry, h) && k < |h.units| && Executes(h.units[k], request)
    requires request.level > 0 && request.target != [""] && IsRootOf(h.units[k].site, root)
    requires request.level - 1 + (if h.units[k].site.isPackage then 0 else 1) < |h.units[k].site.name|
    requires var site := h.units[k].site;
             var up := request.level - 1 + (if site.isPackage then 0 else 1);
             LiesBelow(env, root, site.name[..|site.name| - up] + request.target, path)
    requires env.canon(path) == Ok(canonical)
    ensures var site := h.units[k].site;
            var up := request.level - 1 + (if site.isPackage then 0 else 1);
            Named(h.units, h.skipped, site.name[..|site.name| - up] + request.target)
  {
    var site := h.units[k].site;
    var up := request.level - 1 + (if site.isPackage then 0 else 1);
    var name: Name := site.name[..|site.name| - up] + request.target;
    assert Means(site, request, name) && Located(env, site, request, name, path);
    assert Leads(env, site, request, name, canonical) && Along(env, name, canonical, name);
    ImportsClosed(env, options, entry, h, k, name);
  }

  /** Every package along the dotted name of an import at home is a unit or is listed as skipped. */
  lemma {:induction false} PackagesClosed(env: Env, options: Options, entry: Path, h: History, k: nat, request: Import,
                                          name: Name, root: Path, path: Path, j: nat)
    requires Complete(env, options, entry, h) && k < |h.units| && Executes(h.units[k], request)
    requires Means(h.units[k].site, request, name) && Leads(env, h.units[k].site, request, name, path)
    requires 0 < j < |name| && AtHome(root, name, path) && env.isFile(root + name[..j] + ["__init__.py"])
    ensures Named(h.units, h.skipped, name[..j])
  {
    var d := Site(PackageFile(root, name[..j]), name[..j], true, false);
    AncestorsAlongName(env, root, name, path, false, d);
    assert d in WithAncestors(env, name, path, false) && HasName(WithAncestors(env, name, path, false), name[..j]);
    WithAncestorsNames(env, name, path, false, name[..j]);
    ImportsClosed(env, options, entry, h, k, name[..j]);
  }

  /** So is the platform's path module, for every unit that imports `os` or `os.path`. */
  lemma {:induction false} OsPathClosed(env: Env, options: Options, entry: Path, h: History, k: nat,
                                        request: Import, path: Path, canonical: Path)
    requires Complete(env, options, entry, h) && k < |h.units| && Executes(h.units[k], request)
    requires Means(h.units[k].site, request, ["os"]) || Means(h.units[k].site, request, ["os", "path"])
    requires IsStatic(env.resolve(h.units[k].site.path, Import(env.osPath, 0)), path)
    requires env.canon(path) == Ok(canonical)
    ensures Named(h.units, h.skipped, env.osPath)
  {
    assert Along(env, env.osPath, canonical, env.osPath);
    assert AsksForOsPath(env, h.units[k].site, request, env.osPath);
    ImportsClosed(env, options, entry, h, k, env.osPath);
  }
}
