/**
 The ahead-of-time import closure: a breadth-first worklist over modules with name
 ownership, ancestor packages, a depth cap and best-effort inheritance. The filesystem,
 the front end and the import resolver are parameters.
 */
module ModuleClosure {
  import opened Wrappers

  // ---------------------------------------------------------------------
  // Data

  /** Components of a canonical path; the root has none. */
  type Path = seq<string>

  /** A dotted name as its components; the empty string is the one empty component. */
  type Name = s: seq<string> | s != [] witness [""]

  const INIT: string := "__init__.py"
  const MAIN: Name := ["__main__"]

  datatype Import = Import(target: Name, level: nat)

  datatype Resolution = Static(path: Path) | StaticBestEffort(path: Path) | Dynamic | Unsupported | NotFound

  datatype LowerError = LowerError(code: nat)

  datatype Error = Io(path: Path) | Lower(path: Path, error: LowerError) | DynamicCode(path: Path) | Resolver(code: nat)

  /** Lowered code: every statically named import, and those the module body executes. */
  datatype Module = Module(imports: seq<Import>, bodyImports: seq<Import>)

  /** Source text, seen through the scan for dynamic-code sinks and the lowering. */
  datatype Source = Source(sinks: Result<nat, LowerError>, lowered: Result<Module, LowerError>)

  datatype Env = Env(
    canon: Path -> Result<Path, Error>,
    isFile: Path -> bool,
    read: Path -> Result<Source, Error>,
    resolve: (Path, Import) -> Result<Resolution, Error>,
    osPath: Name)

  datatype Options = Options(allowDynamic: bool, maxDepth: nat)

  /** A module as its imports see it. */
  datatype Site = Site(path: Path, name: Name, isPackage: bool, bestEffort: bool)

  datatype Pending = Pending(site: Site, depth: nat)

  datatype Edge = Edge(request: Import, resolution: Resolution)

  datatype Unit = Unit(site: Site, source: Source, edges: seq<Edge>)

  datatype Reason = TooDeep(depth: nat) | FailedToLower(error: LowerError)

  datatype Skipped = Skipped(name: Name, path: Path, reason: Reason)

  datatype Report = Report(units: seq<Unit>, requiresDynamic: bool, skipped: seq<Skipped>)

  // ---------------------------------------------------------------------
  // Names and paths

  function Parent(path: Path): Option<Path>
  {
    if path == [] then None else Some(path[..|path| - 1])
  }

  predicate IsInit(path: Path)
  {
    path != [] && path[|path| - 1] == INIT
  }

  /** The absolute target of a relative import, if there is a parent package to count from. */
  function RelativeTarget(name: Name, isPackage: bool, request: Import): Option<Name>
  {
    if !isPackage && |name| == 1 then None
    else
      var base := if isPackage then name else name[..|name| - 1];
      var strip := if request.level == 0 then 0 else request.level - 1;
      if strip >= |base| then None
      else Some(base[..|base| - strip] + (if request.target == [""] then [] else request.target))
  }

  /** The directory below which the unit's own package starts. */
  function PackageRoot(path: Path, name: Name, isPackage: bool): Option<Path>
  {
    var drop := |name| + (if isPackage then 1 else 0);
    if drop > |path| then None else Some(path[..|path| - drop])
  }

  method UnitPackageRoot(path: Path, name: Name, isPackage: bool) returns (root: Option<Path>)
    ensures root == PackageRoot(path, name, isPackage)
  {
    root := Parent(path);
    if root.None? {
      return None;
    }
    var pops := |name| - 1 + (if isPackage then 1 else 0);
    for k := 0 to pops
      invariant root.Some? && k < |path| && root.value == path[..|path| - 1 - k]
    {
      root := Parent(root.value);
      if root.None? {
        return None;
      }
    }
  }

  predicate IsIdentifier(part: string)
  {
    && part != []
    && !('0' <= part[0] <= '9')
    && forall i :: 0 <= i < |part| ==>
         part[i] == '_' || 'a' <= part[i] <= 'z' || 'A' <= part[i] <= 'Z' || '0' <= part[i] <= '9'
  }

  predicate AllIdentifiers(name: seq<string>)
  {
    forall i :: 0 <= i < |name| ==> IsIdentifier(name[i])
  }

  function ModuleFile(root: Path, name: Name): Path
  {
    root + name[..|name| - 1] + [name[|name| - 1] + ".py"]
  }

  function PackageFile(root: Path, name: Name): Path
  {
    root + name + [INIT]
  }

  function OkOnly(r: Result<Path, Error>): Option<Path>
  {
    if r.Ok? then Some(r.value) else None
  }

  function ResolveUnderRoot(env: Env, root: Path, name: Name): Option<Path>
  {
    if !AllIdentifiers(name) then None
    else if env.isFile(ModuleFile(root, name)) then OkOnly(env.canon(ModuleFile(root, name)))
    else if env.isFile(PackageFile(root, name)) then OkOnly(env.canon(PackageFile(root, name)))
    else None
  }

  /**
   A module found under a root counts its package root back to that root, as the code counts it:
   by the name of the file. A module called `__init__` is taken for a package and misses the root.
   */
  lemma {:induction false} PackageRootOfFile(root: Path, name: Name)
    ensures PackageRoot(PackageFile(root, name), name, IsInit(PackageFile(root, name))) == Some(root)
    ensures PackageRoot(ModuleFile(root, name), name, IsInit(ModuleFile(root, name))) == Some(root)
       <==> name[|name| - 1] + ".py" != INIT
  {
    var file, package := ModuleFile(root, name), PackageFile(root, name);
    assert |file| == |root| + |name| && file[|file| - 1] == name[|name| - 1] + ".py" && file[..|root|] == root;
    assert |package| == |root| + |name| + 1 && package[|package| - 1] == INIT && package[..|root|] == root;
  }

  /**
   One dot in a package is the package itself, each further dot one parent up; the whole target follows.
   There is an answer exactly if the dots stay inside the package.
   */
  lemma {:induction false} RelativeLevels(name: Name, isPackage: bool, request: Import)
    ensures RelativeTarget(name, isPackage, request).Some? <==>
            (if request.level == 0 then 1 else request.level) + (if isPackage then 0 else 1) <= |name|
    ensures RelativeTarget(name, isPackage, request).Some? && request.level > 0 ==>
              RelativeTarget(name, isPackage, request).value ==
              name[..|name| - (request.level - 1) - (if isPackage then 0 else 1)]
              + (if request.target == [""] then [] else request.target)
  {
    if isPackage || |name| > 1 {
      var base := if isPackage then name else name[..|name| - 1];
      assert forall k :: 0 <= k <= |base| ==> base[..k] == name[..k];
    }
  }

  // ---------------------------------------------------------------------
  // What a module asks for

  function StaticTarget(resolution: Resolution): Option<(Path, bool)>
  {
    match resolution
    case Static(path) => Some((path, false))
    case StaticBestEffort(path) => Some((path, true))
    case _ => None
  }

  function Absolute(site: Site, request: Import): Option<Name>
  {
    if request.level == 0 then Some(request.target)
    else RelativeTarget(site.name, site.isPackage, request)
  }

  function Resolve(env: Env, site: Site, request: Import): Result<Resolution, Error>
  {
    var absolute := Absolute(site, request);
    if absolute.None? then Ok(Unsupported)
    else if request.level == 0 then env.resolve(site.path, request)
    else
      var root := PackageRoot(site.path, site.name, site.isPackage);
      var path := if root.None? then None else ResolveUnderRoot(env, root.value, absolute.value);
      Ok(if path.None? then NotFound else Static(path.value))
  }

  /** The ancestor packages of `name` that have an `__init__.py`, nearest first. */
  function Ancestors(env: Env, name: Name, dir: Option<Path>, bestEffort: bool): seq<Site>
    decreases |name|
  {
    if |name| == 1 || dir.None? then []
    else
      var parent: Name := name[..|name| - 1];
      var init := dir.value + [INIT];
      (if env.isFile(init) then [Site(init, parent, true, bestEffort)] else [])
      + Ancestors(env, parent, Parent(dir.value), bestEffort)
  }

  function HomeDir(path: Path): Option<Path>
  {
    var dir := Parent(path);
    if IsInit(path) && dir.Some? then Parent(dir.value) else dir
  }

  function WithAncestors(env: Env, name: Name, path: Path, bestEffort: bool): seq<Site>
  {
    [Site(path, name, IsInit(path), bestEffort)] + Ancestors(env, name, HomeDir(path), bestEffort)
  }

  /** The sites a resolution brings in. */
  function Brought(env: Env, name: Name, resolution: Resolution, bestEffort: bool): Result<seq<Site>, Error>
  {
    var target := StaticTarget(resolution);
    if target.None? then Ok([])
    else
      var path := env.canon(target.value.0);
      if path.Err? then Err(path.error)
      else Ok(WithAncestors(env, name, path.value, bestEffort || target.value.1))
  }

  predicate IsOs(name: Option<Name>)
  {
    name == Some(["os"]) || name == Some(["os", "path"])
  }

  /** Importing `os` or `os.path` also needs the platform's path module. */
  function OsPathSites(env: Env, site: Site): Result<seq<Site>, Error>
  {
    var resolution := env.resolve(site.path, Import(env.osPath, 0));
    if resolution.Err? then Err(resolution.error)
    else Brought(env, env.osPath, resolution.value, site.bestEffort)
  }

  function Appended(a: Result<seq<Site>, Error>, b: Result<seq<Site>, Error>): Result<seq<Site>, Error>
  {
    if a.Err? then a else if b.Err? then b else Ok(a.value + b.value)
  }

  function ImportSites(env: Env, site: Site, request: Import): Result<seq<Site>, Error>
  {
    var absolute := Absolute(site, request);
    var resolution := Resolve(env, site, request);
    if resolution.Err? then Err(resolution.error)
    else Appended(
      if absolute.None? then Ok([]) else Brought(env, absolute.value, resolution.value, site.bestEffort),
      if IsOs(absolute) then OsPathSites(env, site) else Ok([]))
  }

  function Demands(env: Env, site: Site, imports: seq<Import>): Result<seq<Site>, Error>
  {
    if imports == [] then Ok([])
    else Appended(Demands(env, site, imports[..|imports| - 1]), ImportSites(env, site, imports[|imports| - 1]))
  }

  lemma {:induction false} DemandsPrefixFails(env: Env, site: Site, imports: seq<Import>, k: nat)
    requires k <= |imports| && Demands(env, site, imports[..k]).Err?
    ensures Demands(env, site, imports) == Demands(env, site, imports[..k])
  {
    if k < |imports| {
      var init := imports[..|imports| - 1];
      assert init[..k] == imports[..k];
      DemandsPrefixFails(env, site, init, k);
    } else {
      assert imports[..k] == imports;
    }
  }

  /** Some import brings `d` in. */
  ghost predicate AskedFor(env: Env, site: Site, imports: seq<Import>, d: Site)
  {
    exists i :: 0 <= i < |imports| && Brings(env, site, imports[i], d)
  }

  predicate Brings(env: Env, site: Site, request: Import, d: Site)
  {
    ImportSites(env, site, request).Ok? && d in ImportSites(env, site, request).value
  }

  /** Exactly what the imports bring in. */
  lemma {:induction false} DemandsOfImports(env: Env, site: Site, imports: seq<Import>, d: Site)
    requires Demands(env, site, imports).Ok?
    ensures d in Demands(env, site, imports).value <==> AskedFor(env, site, imports, d)
  {
    if imports != [] {
      var n := |imports| - 1;
      var init, last := imports[..n], imports[n];
      DemandsOfImports(env, site, init, d);
      assert d in Demands(env, site, imports).value <==>
          d in Demands(env, site, init).value || Brings(env, site, last, d);
      AskedSnoc(env, site, init, last, d);
      assert imports == init + [last];
    }
  }

  lemma {:induction false} DemandsOk(env: Env, site: Site, imports: seq<Import>, i: nat)
    requires Demands(env, site, imports).Ok? && i < |imports|
    ensures ImportSites(env, site, imports[i]).Ok?
  {
    var init := imports[..|imports| - 1];
    if i < |init| {
      DemandsOk(env, site, init, i);
    }
  }

  lemma {:induction false} AskedSnoc(env: Env, site: Site, init: seq<Import>, last: Import, d: Site)
    ensures AskedFor(env, site, init + [last], d) <==> AskedFor(env, site, init, d) || Brings(env, site, last, d)
  {
    var imports := init + [last];
    if AskedFor(env, site, init, d) {
      var i :| 0 <= i < |init| && Brings(env, site, init[i], d);
      assert imports[i] == init[i];
    }
    assert imports[|init|] == last;
  }

  /** Ancestor packages in closed form: the name cut short, in the directory as many levels up. */
  lemma {:induction false} AncestorsExact(env: Env, name: Name, dir: Option<Path>, bestEffort: bool, d: Site)
    ensures d in Ancestors(env, name, dir, bestEffort) <==>
            dir.Some? && d.bestEffort == bestEffort && HasAncestor(env, name, dir.value, d)
    decreases |name|
  {
    if |name| > 1 && dir.Some? {
      AncestorsExact(env, name[..|name| - 1], Parent(dir.value), bestEffort, d);
      HasAncestorUnfold(env, name, dir.value, d);
    }
  }

  ghost predicate HasAncestor(env: Env, name: Name, dir: Path, d: Site)
  {
    exists up: nat :: IsAncestor(env, name, dir, up, d)
  }

  lemma {:induction false} HasAncestorUnfold(env: Env, name: Name, dir: Path, d: Site)
    requires |name| > 1
    ensures HasAncestor(env, name, dir, d) <==>
            AncestorStep(env, name, dir, 0, d)
                || (dir != [] && HasAncestor(env, name[..|name| - 1], dir[..|dir| - 1], d))
  {
    if up: nat :| IsAncestor(env, name, dir, up, d) {
      AncestorUnfold(env, name, dir, up, d);
    }
    AncestorUnfold(env, name, dir, 0, d);
    if dir != [] {
      var parent: Name, above := name[..|name| - 1], dir[..|dir| - 1];
      if up: nat :| IsAncestor(env, parent, above, up, d) {
        AncestorUnfold(env, name, dir, up + 1, d);
      }
    }
  }

  /** The nearest package, or one level less above the parent. */
  predicate AncestorStep(env: Env, name: Name, dir: Path, up: nat, d: Site)
    requires |name| > 1
  {
    if up == 0 then d.name == name[..|name| - 1] && d.path == dir + [INIT] && d.isPackage && env.isFile(d.path)
    else dir != [] && IsAncestor(env, name[..|name| - 1], dir[..|dir| - 1], up - 1, d)
  }

  lemma {:induction false} AncestorUnfold(env: Env, name: Name, dir: Path, up: nat, d: Site)
    requires |name| > 1
    ensures IsAncestor(env, name, dir, up, d) <==> AncestorStep(env, name, dir, up, d)
  {
    if up == 0 {
      assert dir[..|dir|] == dir;
    } else if up + 1 < |name| && up <= |dir| {
      assert name[..|name| - 1 - up] == name[..|name| - 1][..|name| - 2 - (up - 1)];
      assert dir[..|dir| - up] == dir[..|dir| - 1][..|dir| - 1 - (up - 1)];
    }
  }

  /** `d` is the package `up` levels above the parent of `name`, and it has an `__init__.py`. */
  predicate IsAncestor(env: Env, name: Name, dir: Path, up: nat, d: Site)
  {
    && up + 1 < |name| && up <= |dir|
    && d.name == name[..|name| - 1 - up]
    && d.path == dir[..|dir| - up] + [INIT]
    && d.isPackage
    && env.isFile(d.path)
  }

  /** The module lies where its dotted name puts it below the root, as the directory walk sees it. */
  predicate AtHome(root: Path, name: Name, path: Path)
  {
    |name| == 1 || HomeDir(path) == Some(root + name[..|name| - 1])
  }

  /** `d` is a package along the dotted name, below the root. */
  predicate PackageAlong(env: Env, root: Path, name: Name, bestEffort: bool, d: Site)
  {
    && d.isPackage && d.bestEffort == bestEffort && env.isFile(d.path)
    && 0 < |d.name| < |name| && d.name == name[..|d.name|] && d.path == PackageFile(root, d.name)
  }

  lemma {:induction false} AncestorsAlongName(env: Env, root: Path, name: Name, path: Path, bestEffort: bool, d: Site)
    requires AtHome(root, name, path)
    ensures d in Ancestors(env, name, HomeDir(path), bestEffort) <==> PackageAlong(env, root, name, bestEffort, d)
  {
    if |name| > 1 {
      var dir := root + name[..|name| - 1];
      AncestorsExact(env, name, HomeDir(path), bestEffort, d);
      if up: nat :| IsAncestor(env, name, dir, up, d) {
        AlongNameExact(env, root, name, up, d);
      }
      if 0 < |d.name| < |name| {
        AlongNameExact(env, root, name, |name| - 1 - |d.name|, d);
      }
    }
  }

  /** The ancestors are the packages along the dotted name, in every environment, exactly for a module at home. */
  lemma {:induction false} AncestorsUnderRoot(root: Path, name: Name, path: Path)
    ensures AtHome(root, name, path) <==>
            forall env: Env, bestEffort, d ::
              d in Ancestors(env, name, HomeDir(path), bestEffort) <==> PackageAlong(env, root, name, bestEffort, d)
  {
    if AtHome(root, name, path) {
      forall env: Env, bestEffort, d
        ensures d in Ancestors(env, name, HomeDir(path), bestEffort) <==> PackageAlong(env, root, name, bestEffort, d)
      {
        AncestorsAlongName(env, root, name, path, bestEffort, d);
      }
    } else {
      ParentMissed(root, name, path);
    }
  }

  /** Where every file exists. */
  function Everywhere(): Env
  {
    Env(p => Ok(p), _ => true, p => Err(Io(p)), (p, _) => Err(Io(p)), [""])
  }

  /** Away from home, the walk does not find the parent package even if it is there. */
  lemma {:induction false} ParentMissed(root: Path, name: Name, path: Path)
    requires !AtHome(root, name, path)
    ensures var parent: Name := name[..|name| - 1];
            var d := Site(PackageFile(root, parent), parent, true, false);
            PackageAlong(Everywhere(), root, name, false, d)
                && d !in Ancestors(Everywhere(), name, HomeDir(path), false)
  {
    var parent: Name := name[..|name| - 1];
    var d := Site(PackageFile(root, parent), parent, true, false);
    AncestorsExact(Everywhere(), name, HomeDir(path), false, d);
    if HomeDir(path).Some? {
      var dir := HomeDir(path).value;
      forall up: nat ensures !IsAncestor(Everywhere(), name, dir, up, d) {
        assert dir[..|dir|] == dir;
        SameDirectory(dir, root + parent);
      }
    }
  }

  lemma {:induction false} SameDirectory(a: Path, b: Path)
    ensures a + [INIT] == b + [INIT] ==> a == b
  {
    assert (a + [INIT])[..|a|] == a && (b + [INIT])[..|b|] == b;
  }

  /** A package file is always at home; a module file unless the module is called `__init__`. */
  lemma {:induction false} AtHomeOfFile(root: Path, name: Name)
    ensures AtHome(root, name, PackageFile(root, name))
    ensures AtHome(root, name, ModuleFile(root, name)) <==> |name| == 1 || name[|name| - 1] + ".py" != INIT
  {
    var dir := root + name[..|name| - 1];
    var file, package := ModuleFile(root, name), PackageFile(root, name);
    assert package[|package| - 1] == INIT;
    assert package[..|package| - 1] == root + name && (root + name)[..|root| + |name| - 1] == dir;
    assert file[|file| - 1] == name[|name| - 1] + ".py" && file[..|file| - 1] == dir;
  }

  lemma {:induction false} AlongNameExact(env: Env, root: Path, name: Name, up: nat, d: Site)
    ensures IsAncestor(env, name, root + name[..|name| - 1], up, d) <==> AlongName(env, root, name, up, d)
  {
    var dir := root + name[..|name| - 1];
    if up + 1 < |name| {
      assert dir[..|dir| - up] == root + name[..|name| - 1 - up];
    }
  }

  /** The package file along the name, `up` levels above the parent. */
  predicate AlongName(env: Env, root: Path, name: Name, up: nat, d: Site)
  {
    && up + 1 < |name| && d.isPackage && env.isFile(d.path)
    && d.name == name[..|name| - 1 - up] && d.path == PackageFile(root, d.name)
  }
}
