/**
 What an import statement means, said without the functions that compute it: the dotted name,
 the file it leads to, and the names a module asks for.
 */
module ImportMeaning {
  import opened Wrappers
  import opened ModuleClosure
  import opened ClosureWorklist

  // ---------------------------------------------------------------------
  // The name

  /**
   An absolute import means its target. A relative one means the ancestor of the importing module that
   its dots count up to, the first dot being the module's package, followed by the whole target.
   */
  ghost predicate Means(site: Site, request: Import, name: Name)
  {
    if request.level == 0 then name == request.target
    else
      var up := request.level - 1 + (if site.isPackage then 0 else 1);
      && up < |site.name|
      && name == site.name[..|site.name| - up] + (if request.target == [""] then [] else request.target)
  }

  lemma {:induction false} AbsoluteExact(site: Site, request: Import, name: Name)
    ensures Absolute(site, request) == Some(name) <==> Means(site, request, name)
  {
    if request.level > 0 {
      RelativeLevels(site.name, site.isPackage, request);
    }
  }

  // ---------------------------------------------------------------------
  // The file

  /** An ASCII letter or an underscore. */
  predicate IsWordStart(c: char)
  {
    65 <= c as int <= 90 || c as int == 95 || 97 <= c as int <= 122
  }

  /** An identifier is a letter or underscore followed by letters, underscores and digits. */
  lemma {:induction false} IdentifierExact(c: char, init: string)
    ensures !IsIdentifier("")
    ensures IsIdentifier([c]) <==> IsWordStart(c)
    ensures init != "" ==>
              (IsIdentifier(init + [c]) <==> IsIdentifier(init) && (IsWordStart(c) || 48 <= c as int <= 57))
  {
    var s := init + [c];
    assert s[|init|] == c && forall i :: 0 <= i < |init| ==> s[i] == init[i];
  }

  /** The module of this name below the root: its own file, or else the file of its package. */
  ghost predicate LiesBelow(env: Env, root: Path, name: Name, path: Path)
  {
    var file := root + name[..|name| - 1] + [name[|name| - 1] + ".py"];
    var package := root + name + ["__init__.py"];
    && AllIdentifiers(name)
    && if env.isFile(file) then env.canon(file) == Ok(path) else env.isFile(package) && env.canon(package) == Ok(path)
  }

  lemma {:induction false} ResolveUnderRootExact(env: Env, root: Path, name: Name, path: Path)
    ensures ResolveUnderRoot(env, root, name) == Some(path) <==> LiesBelow(env, root, name, path)
  {
  }

  /** The root is as many levels above the importing file as its dotted name is long. */
  predicate IsRootOf(site: Site, root: Path)
  {
    |site.path| == |root| + |site.name| + (if site.isPackage then 1 else 0) && site.path[..|root|] == root
  }

  ghost predicate IsStatic(resolution: Result<Resolution, Error>, path: Path)
  {
    resolution == Ok(Static(path)) || resolution == Ok(StaticBestEffort(path))
  }

  /** An absolute import is looked up by the resolver, a relative one below the package root. */
  ghost predicate Located(env: Env, site: Site, request: Import, name: Name, path: Path)
  {
    if request.level == 0 then IsStatic(env.resolve(site.path, request), path)
    else exists root: Path :: IsRootOf(site, root) && LiesBelow(env, root, name, path)
  }

  /** The import leads to this canonical path. */
  ghost predicate Leads(env: Env, site: Site, request: Import, name: Name, path: Path)
  {
    exists p :: Located(env, site, request, name, p) && env.canon(p) == Ok(path)
  }

  lemma {:induction false} LocatedExact(env: Env, site: Site, request: Import, name: Name, path: Path)
    requires Means(site, request, name)
    ensures IsStatic(Resolve(env, site, request), path) <==> Located(env, site, request, name, path)
  {
    AbsoluteExact(site, request, name);
    if request.level > 0 {
      var root := PackageRoot(site.path, site.name, site.isPackage);
      if root.Some? {
        ResolveUnderRootExact(env, root.value, name, path);
        assert IsRootOf(site, root.value);
      }
      forall r: Path | IsRootOf(site, r) ensures root == Some(r) {
      }
    }
  }

  /** What is recorded for an import: the resolver's word, or where the relative name lies, if anywhere. */
  lemma {:induction false} ResolveExact(env: Env, site: Site, request: Import)
    ensures request.level == 0 ==> Resolve(env, site, request) == env.resolve(site.path, request)
    ensures request.level > 0 && (forall name: Name :: !Means(site, request, name)) ==>
              Resolve(env, site, request) == Ok(Unsupported)
    ensures forall name: Name, path :: request.level > 0 && Means(site, request, name) ==>
              (Resolve(env, site, request) == Ok(Static(path)) <==> Located(env, site, request, name, path))
    ensures forall name: Name :: request.level > 0 && Means(site, request, name) ==>
              (Resolve(env, site, request) == Ok(NotFound) <==> forall p :: !Located(env, site, request, name, p))
  {
    if request.level > 0 {
      var absolute := Absolute(site, request);
      if absolute.Some? {
        AbsoluteExact(site, request, absolute.value);
        forall path {
          LocatedExact(env, site, request, absolute.value, path);
        }
      }
    }
  }

  // ---------------------------------------------------------------------
  // What is asked for

  /** The walk up from the file comes upon a package under this name. */
  ghost predicate WalkFinds(env: Env, name: Name, path: Path, n: Name)
  {
    HomeDir(path).Some? && exists d, up: nat :: IsAncestor(env, name, HomeDir(path).value, up, d) && d.name == n
  }

  /** A module found at `path` comes with the packages above it. */
  ghost predicate Along(env: Env, name: Name, path: Path, n: Name)
  {
    n == name || WalkFinds(env, name, path, n)
  }

  ghost predicate HasName(sites: seq<Site>, n: Name)
  {
    exists d :: d in sites && d.name == n
  }

  lemma {:induction false} WithAncestorsNames(env: Env, name: Name, path: Path, bestEffort: bool, n: Name)
    ensures HasName(WithAncestors(env, name, path, bestEffort), n) <==> Along(env, name, path, n)
  {
    var sites := WithAncestors(env, name, path, bestEffort);
    if n == name {
      assert Site(path, name, IsInit(path), bestEffort) in sites;
    } else if d :| d in sites && d.name == n {
      AncestorsExact(env, name, HomeDir(path), bestEffort, d);
    } else if HomeDir(path).Some? {
      forall d, up: nat | IsAncestor(env, name, HomeDir(path).value, up, d) ensures d.name != n {
        var e := d.(bestEffort := bestEffort);
        assert IsAncestor(env, name, HomeDir(path).value, up, e);
        AncestorsExact(env, name, HomeDir(path), bestEffort, e);
        assert e in sites;
      }
    }
  }

  /** A static resolution whose file exists, and a name that comes with it. */
  ghost predicate Needs(env: Env, name: Name, resolution: Resolution, n: Name)
  {
    exists p, path :: IsStatic(Ok(resolution), p) && env.canon(p) == Ok(path) && Along(env, name, path, n)
  }

  lemma {:induction false} BroughtNames(env: Env, name: Name, resolution: Resolution, bestEffort: bool, n: Name)
    requires Brought(env, name, resolution, bestEffort).Ok?
    ensures HasName(Brought(env, name, resolution, bestEffort).value, n) <==> Needs(env, name, resolution, n)
  {
    var target := StaticTarget(resolution);
    if target.Some? {
      var path := env.canon(target.value.0).value;
      WithAncestorsNames(env, name, path, bestEffort || target.value.1, n);
      assert IsStatic(Ok(resolution), target.value.0);
    }
  }

  /** The import of `os` or `os.path` asks for the platform's path module too. */
  ghost predicate AsksForOsPath(env: Env, site: Site, request: Import, n: Name)
  {
    && (Means(site, request, ["os"]) || Means(site, request, ["os", "path"]))
    && env.resolve(site.path, Import(env.osPath, 0)).Ok?
    && Needs(env, env.osPath, env.resolve(site.path, Import(env.osPath, 0)).value, n)
  }

  /** The import asks for the module it means, if it leads to a file, and for the packages above it. */
  ghost predicate AsksForModule(env: Env, site: Site, request: Import, n: Name)
  {
    exists name: Name, path ::
      Means(site, request, name) && Leads(env, site, request, name, path) && Along(env, name, path, n)
  }

  lemma {:induction false} ModuleNames(env: Env, site: Site, request: Import, name: Name, n: Name)
    requires Means(site, request, name) && Resolve(env, site, request).Ok?
    ensures Needs(env, name, Resolve(env, site, request).value, n) <==> AsksForModule(env, site, request, n)
  {
    var resolution := Resolve(env, site, request);
    forall p ensures IsStatic(resolution, p) <==> Located(env, site, request, name, p) {
      LocatedExact(env, site, request, name, p);
    }
    if p, path :| IsStatic(resolution, p) && env.canon(p) == Ok(path) && Along(env, name, path, n) {
      assert Leads(env, site, request, name, path);
    }
    if AsksForModule(env, site, request, n) {
      var path := OnlyMeaning(env, site, request, name, n);
      var p :| Located(env, site, request, name, p) && env.canon(p) == Ok(path);
      assert IsStatic(resolution, p);
    }
  }

  /** An import means one name only. */
  lemma {:induction false} OnlyMeaning(env: Env, site: Site, request: Import, name: Name, n: Name)
    returns (path: Path)
    requires Means(site, request, name) && AsksForModule(env, site, request, n)
    ensures Leads(env, site, request, name, path) && Along(env, name, path, n)
  {
    var other: Name, found :|
      Means(site, request, other) && Leads(env, site, request, other, found) && Along(env, other, found, n);
    path := found;
  }

  lemma {:induction false} ImportNames(env: Env, site: Site, request: Import, n: Name)
    requires ImportSites(env, site, request).Ok?
    ensures HasName(ImportSites(env, site, request).value, n) <==>
            AsksForModule(env, site, request, n) || AsksForOsPath(env, site, request, n)
  {
    var absolute, resolution := Absolute(site, request), Resolve(env, site, request).value;
    var first := if absolute.None? then [] else Brought(env, absolute.value, resolution, site.bestEffort).value;
    var second := if IsOs(absolute) then OsPathSites(env, site).value else [];
    FirstNames(env, site, request, first, n);
    OsPathNames(env, site, request, second, n);
    HasNameAppend(first, second, n);
  }

  lemma {:induction false} FirstNames(env: Env, site: Site, request: Import, first: seq<Site>, n: Name)
    requires Resolve(env, site, request).Ok?
    requires var absolute, resolution := Absolute(site, request), Resolve(env, site, request).value;
             if absolute.None? then first == []
             else Brought(env, absolute.value, resolution, site.bestEffort) == Ok(first)
    ensures HasName(first, n) <==> AsksForModule(env, site, request, n)
  {
    var absolute := Absolute(site, request);
    if absolute.Some? {
      AbsoluteExact(site, request, absolute.value);
      BroughtNames(env, absolute.value, Resolve(env, site, request).value, site.bestEffort, n);
      ModuleNames(env, site, request, absolute.value, n);
    } else {
      forall name: Name ensures !Means(site, request, name) {
        AbsoluteExact(site, request, name);
      }
    }
  }

  lemma {:induction false} OsPathNames(env: Env, site: Site, request: Import, second: seq<Site>, n: Name)
    requires if IsOs(Absolute(site, request)) then OsPathSites(env, site) == Ok(second) else second == []
    ensures HasName(second, n) <==> AsksForOsPath(env, site, request, n)
  {
    AbsoluteExact(site, request, ["os"]);
    AbsoluteExact(site, request, ["os", "path"]);
    if IsOs(Absolute(site, request)) {
      BroughtNames(env, env.osPath, env.resolve(site.path, Import(env.osPath, 0)).value, site.bestEffort, n);
    }
  }

  lemma {:induction false} HasNameAppend(a: seq<Site>, b: seq<Site>, n: Name)
    ensures HasName(a + b, n) <==> HasName(a, n) || HasName(b, n)
  {
    if d :| d in a && d.name == n {
      assert d in a + b;
    }
    if d :| d in b && d.name == n {
      assert d in a + b;
    }
  }

  /** A strict module executes every import it names, a best-effort one those of its body. */
  predicate Executes(u: Unit, request: Import)
  {
    && u.source.lowered.Ok?
    && request in if u.site.bestEffort then u.source.lowered.value.bodyImports else u.source.lowered.value.imports
  }

  /** Some import of the unit asks for this name. */
  ghost predicate Asks(env: Env, u: Unit, n: Name)
  {
    exists request ::
      Executes(u, request) && (AsksForModule(env, u.site, request, n) || AsksForOsPath(env, u.site, request, n))
  }

  /** The names demanded are exactly those asked for. */
  lemma {:induction false} DemandsExact(env: Env, u: Unit, n: Name)
    requires u.source.lowered.Ok? && Demands(env, u.site, ImportsOf(u.site, u.source.lowered.value)).Ok?
    ensures HasName(Demands(env, u.site, ImportsOf(u.site, u.source.lowered.value)).value, n) <==> Asks(env, u, n)
  {
    var imports := ImportsOf(u.site, u.source.lowered.value);
    var demands := Demands(env, u.site, imports).value;
    if d :| d in demands && d.name == n {
      DemandsOfImports(env, u.site, imports, d);
      var i :| 0 <= i < |imports| && Brings(env, u.site, imports[i], d);
      ImportNames(env, u.site, imports[i], n);
      assert Executes(u, imports[i]);
    }
    if Asks(env, u, n) {
      var request :| Executes(u, request)
                     && (AsksForModule(env, u.site, request, n) || AsksForOsPath(env, u.site, request, n));
      var i :| 0 <= i < |imports| && imports[i] == request;
      DemandsOk(env, u.site, imports, i);
      ImportNames(env, u.site, request, n);
      var d :| d in ImportSites(env, u.site, request).value && d.name == n;
      assert Brings(env, u.site, imports[i], d);
      DemandsOfImports(env, u.site, imports, d);
    }
  }

  // ---------------------------------------------------------------------
  // Who joins

  /**
   A module joins exactly if it can be read, scanned and lowered and a strict one has no sinks unless
   they are allowed; a best-effort module that fails to scan or lower is left out, and nothing else is.
   */
  lemma {:induction false} InspectPolicy(env: Env, options: Options, site: Site)
    ensures Inspect(env, options, site).Ok? && Inspect(env, options, site).value.Compile? <==>
            && env.read(site.path).Ok?
            && var source := env.read(site.path).value;
               && source.sinks.Ok? && source.lowered.Ok?
               && (source.sinks.value == 0 || options.allowDynamic || site.bestEffort)
    ensures forall source :: Inspect(env, options, site) == Ok(Compile(source)) ==> env.read(site.path) == Ok(source)
    ensures Inspect(env, options, site).Ok? && Inspect(env, options, site).value.Leave? <==>
            && site.bestEffort && env.read(site.path).Ok?
            && var source := env.read(site.path).value; source.sinks.Err? || source.lowered.Err?
    ensures forall sinks :: Inspect(env, options, site) == Err(DynamicCode(sinks)) && env.read(site.path).Ok? ==>
              && sinks == site.path && !options.allowDynamic && !site.bestEffort
              && env.read(site.path).value.sinks.Ok? && env.read(site.path).value.sinks.value > 0
  {
  }
}
