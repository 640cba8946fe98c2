/**
 Small programs on which the import closure does not do what its documentation or its purpose
 says: a main module with one import, run through the closure.
 */
module ClosureCases {
  import opened Wrappers
  import opened ModuleClosure
  import opened ClosureWorklist
  import opened ClosureReport
  import opened ClosureLoop
  import opened ImportClosure
  import opened ImportChains

  const ENTRY: Path := ["main.py"]

  function MainSource(target: Name): Source
  {
    Source(Ok(0), Ok(Module([Import(target, 0)], [Import(target, 0)])))
  }

  /** `main.py` imports `target`, which resolves to `file`; any other source is `other`. */
  function OneImport(target: Name, file: Path, bestEffort: bool, other: Source): Env
  {
    Env(
      p => Ok(p),
      p => p == file,
      p => Ok(if p == ENTRY then MainSource(target) else other),
      (_, _) => Ok(if bestEffort then StaticBestEffort(file) else Static(file)),
      ["posixpath"])
  }

  /** A source without imports. */
  predicate Quiet(other: Source)
  {
    other.lowered.Ok? ==> other.lowered.value == Module([], [])
  }

  /** What a module of such a program asks for. */
  lemma {:induction false} CaseDemands(target: Name, file: Path, bestEffort: bool, other: Source, site: Site)
    requires Quiet(other) && !IsOs(Some(target))
    ensures var env := OneImport(target, file, bestEffort, other);
            var source := env.read(site.path).value;
            source.lowered.Ok? ==>
              Demands(env, site, ImportsOf(site, source.lowered.value)) ==
              Ok(if site.path == ENTRY then WithAncestors(env, target, file, site.bestEffort || bestEffort) else [])
  {
    var env := OneImport(target, file, bestEffort, other);
    var request := Import(target, 0);
    if site.path == ENTRY {
      var sites := WithAncestors(env, target, file, site.bestEffort || bestEffort);
      assert ImportSites(env, site, request) == Ok(sites) by {
        assert sites + [] == sites;
      }
      assert [request][..0] == [];
      assert [] + sites == sites;
      assert Demands(env, site, [request]) ==
          Appended(Demands(env, site, [request][..0]), ImportSites(env, site, request));
    }
  }

  /** Nothing stops the closure of such a program: the other source is fine, or it is best-effort. */
  predicate Harmless(options: Options, bestEffort: bool, other: Source)
  {
    || bestEffort
    || (other.sinks.Ok? && other.lowered.Ok? && (other.sinks.value > 0 ==> options.allowDynamic))
  }

  /** Sites brought in are best-effort as the import is, and all lie in the one file. */
  lemma {:induction false} CaseSites(target: Name, file: Path, bestEffort: bool, other: Source, d: Site)
    requires d in WithAncestors(OneImport(target, file, bestEffort, other), target, file, bestEffort)
    ensures d.path == file && d.bestEffort == bestEffort
  {
    AncestorsExact(OneImport(target, file, bestEffort, other), target, HomeDir(file), bestEffort, d);
  }

  /** Every module found was asked for by the main module, at depth one. */
  lemma {:induction false} CaseFound(target: Name, file: Path, bestEffort: bool, other: Source, options: Options,
                                     h: History, n: Name)
    requires Quiet(other) && !IsOs(Some(target)) && file != ENTRY && n in h.found
    requires var env := OneImport(target, file, bestEffort, other); Sealed(LawOf(env, options), ENTRY, h)
    ensures h.found[n].site in WithAncestors(OneImport(target, file, bestEffort, other), target, file, bestEffort)
    ensures h.found[n].depth == 1 && h.found[n].site.name == n
    decreases h.found[n].depth
  {
    var env := OneImport(target, file, bestEffort, other);
    var k := Origins(env, options, ENTRY, h, n);
    Asked(env, options, ENTRY, h, k);
    CaseDemands(target, file, bestEffort, other, h.units[k].site);
    EntryStrict(env, options, ENTRY, h);
    if k > 0 {
      UnitFound(env, options, ENTRY, h, k);
      CaseFound(target, file, bestEffort, other, options, h, h.units[k].site.name);
      CaseSites(target, file, bestEffort, other, h.found[h.units[k].site.name].site);
    }
  }

  lemma {:induction false} TargetFound(target: Name, file: Path, bestEffort: bool, other: Source, options: Options,
                                       h: History)
    requires Quiet(other) && !IsOs(Some(target)) && file != ENTRY
    requires var env := OneImport(target, file, bestEffort, other); Sealed(LawOf(env, options), ENTRY, h)
    ensures target in h.found
  {
    var env := OneImport(target, file, bestEffort, other);
    EntryStrict(env, options, ENTRY, h);
    Asked(env, options, ENTRY, h, 0);
    CaseDemands(target, file, bestEffort, other, h.units[0].site);
    var d := Site(file, target, IsInit(file), bestEffort);
    assert d in DemandsOf(env, h.units[0]);
    RequestFound(env, options, ENTRY, h, 0, target);
  }

  /** The closure of such a program succeeds; it finds the import and its ancestors, at depth one. */
  method RunCase(target: Name, file: Path, bestEffort: bool, other: Source, options: Options)
    returns (report: Report, ghost h: History)
    requires Quiet(other) && !IsOs(Some(target)) && file != ENTRY && Harmless(options, bestEffort, other)
    ensures h.units == report.units && h.skipped == report.skipped
    ensures var env := OneImport(target, file, bestEffort, other);
            && Complete(env, options, ENTRY, h)
            && DynamicKnown(env, report.units, report.skipped, report.requiresDynamic)
  {
    var env := OneImport(target, file, bestEffort, other);
    var r;
    ghost var failed;
    r, h, failed := ModuleClosureWithOptions(env, options, ENTRY);
    if r.Err? {
      CaseSucceeds(target, file, bestEffort, other, options, h, failed);
      assert false;
    }
    report := r.value;
  }

  lemma {:induction false} CaseSucceeds(target: Name, file: Path, bestEffort: bool, other: Source, options: Options,
                                        h: History, p: Pending)
    requires Quiet(other) && !IsOs(Some(target)) && file != ENTRY && Harmless(options, bestEffort, other)
    requires Origin(LawOf(OneImport(target, file, bestEffort, other), options), ENTRY, h, p)
    ensures Failure(OneImport(target, file, bestEffort, other), options, p) == None
  {
    CaseDemands(target, file, bestEffort, other, p.site);
    if h.units != [] {
      CaseFound(target, file, bestEffort, other, options, h, p.site.name);
      CaseSites(target, file, bestEffort, other, p.site);
    }
  }

  // ---------------------------------------------------------------------
  // The cases

  /** A module called `__init__` is the package file itself, so the walk starts one directory too high. */
  lemma {:induction false} NoAncestors(root: Path, name: Name, bestEffort: bool, other: Source, d: Site)
    requires |name| > 1 && name[|name| - 1] + ".py" == INIT
    ensures var file := ModuleFile(root, name);
            d !in Ancestors(OneImport(name, file, bestEffort, other), name, HomeDir(file), bestEffort)
  {
    var file := ModuleFile(root, name);
    var env := OneImport(name, file, bestEffort, other);
    assert file[|file| - 1] == INIT;
    AncestorsExact(env, name, HomeDir(file), bestEffort, d);
  }

  /**
   Importing `a.__init__` embeds the file of package `a` under the wrong name, and `a` itself, whose
   file exists, is neither a unit nor listed as skipped.
   */
  method InitImportMissesPackage(root: Path, name: Name, options: Options) returns (report: Report)
    requires |name| > 1 && name[|name| - 1] + ".py" == INIT && AllIdentifiers(name)
    ensures var env := OneImport(name, ModuleFile(root, name), false, Source(Ok(0), Ok(Module([], []))));
            && ResolveUnderRoot(env, root, name) == Some(ModuleFile(root, name))
            && env.isFile(PackageFile(root, name[..|name| - 1]))
            && report.units != [] && report.units[0].source == MainSource(name)
    ensures !Named(report.units, report.skipped, name[..|name| - 1]) || name[..|name| - 1] == MAIN
  {
    var file, other := ModuleFile(root, name), Source(Ok(0), Ok(Module([], [])));
    ghost var h;
    assert file[|file| - 1] == INIT && |file| > 1;
    report, h := RunCase(name, file, false, other, options);
    ghost var env := OneImport(name, file, false, other);
    EntryStrict(env, options, ENTRY, h);
    Asked(env, options, ENTRY, h, 0);
    assert PackageFile(root, name[..|name| - 1]) == file;
    forall n | n in h.found ensures n == name {
      CaseFound(name, file, false, other, options, h, n);
      NoAncestors(root, name, false, other, h.found[n].site);
    }
    OnlyFoundNamed(env, options, ENTRY, h);
  }

  lemma {:induction false} OnlyFoundNamed(env: Env, options: Options, entry: Path, h: History)
    requires Complete(env, options, entry, h)
    ensures forall n :: Named(h.units, h.skipped, n) ==> n == MAIN || n in h.found
  {
    EntryStrict(env, options, entry, h);
    forall k: nat | 0 < k < |h.units| ensures h.units[k].site.name in h.found {
      UnitFound(env, options, entry, h, k);
    }
    forall i: nat | i < |h.skipped| ensures h.skipped[i].name in h.found {
      SkipFound(env, options, entry, h, i);
    }
  }

  /** A strict module beyond the cap is listed as skipped, though only best-effort ones are documented to be. */
  method StrictModuleSkipped(allowDynamic: bool) returns (report: Report)
    ensures Skipped(["b"], ["b.py"], TooDeep(1)) in report.skipped
    ensures forall k :: 0 <= k < |report.units| ==> !report.units[k].site.bestEffort
  {
    var options, other := Options(allowDynamic, 0), Source(Ok(0), Ok(Module([], [])));
    ghost var h;
    report, h := RunCase(["b"], ["b.py"], false, other, options);
    ghost var env := OneImport(["b"], ["b.py"], false, other);
    TargetFound(["b"], ["b.py"], false, other, options, h);
    CaseFound(["b"], ["b.py"], false, other, options, h, ["b"]);
    CaseSites(["b"], ["b.py"], false, other, h.found[["b"]].site);
    StrictSkips(env, options, ENTRY, h, ["b"]);
    ghost var i :| 0 <= i < |h.skipped| && h.skipped[i].name == ["b"];
    SkipFound(env, options, ENTRY, h, i);
    EntryStrict(env, options, ENTRY, h);
    forall k: nat | 0 < k < |h.units| ensures !h.units[k].site.bestEffort {
      UnitFound(env, options, ENTRY, h, k);
      CaseFound(["b"], ["b.py"], false, other, options, h, h.units[k].site.name);
      CaseSites(["b"], ["b.py"], false, other, h.found[h.units[k].site.name].site);
    }
  }

  /** A best-effort module with a sink raises the flag without `allow_dynamic`, even one that is then skipped. */
  method BestEffortRaisesFlag(lowered: Result<Module, LowerError>) returns (report: Report)
    requires lowered.Ok? ==> lowered.value == Module([], [])
    ensures report.requiresDynamic
    ensures lowered.Err? ==> Skipped(["b"], ["b.py"], FailedToLower(lowered.error)) in report.skipped
  {
    var options, other := Options(false, 1), Source(Ok(1), lowered);
    ghost var h;
    report, h := RunCase(["b"], ["b.py"], true, other, options);
    ghost var env := OneImport(["b"], ["b.py"], true, other);
    TargetFound(["b"], ["b.py"], true, other, options, h);
    CaseFound(["b"], ["b.py"], true, other, options, h, ["b"]);
    CaseSites(["b"], ["b.py"], true, other, h.found[["b"]].site);
    SkippedExactly(env, options, ENTRY, h, ["b"]);
    DoneNamed(env, options, ENTRY, h, ["b"]);
    if i :| 0 <= i < |h.skipped| && h.skipped[i].name == ["b"] {
      SkipFound(env, options, ENTRY, h, i);
    } else {
      ghost var k :| 0 <= k < |h.units| && h.units[k].site.name == ["b"];
      EntryStrict(env, options, ENTRY, h);
      UnitFound(env, options, ENTRY, h, k);
    }
  }
}
