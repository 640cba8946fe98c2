# Verified models of Pon's self-contained algorithms

Pon compiles Python ahead of time and just in time. This project models nine of its algorithms in
Dafny and proves what they are for: two dataflow analyses of the baseline lowerer, typed-region
discovery, Unicode normalization and its compressed tables, the garbage collector's stop handshake,
the ahead-of-time import closure, and four pieces of the conformance runner (the glob matcher, the
floor file, the divergence minimizer and the worker pool). `dafny verify dfyconfig.toml` checks it all.

## Layout

| modules | source |
|---|---|
| `Ir`, `OsrLiveness`, `ExceptionStacks` | `pon-codegen/src/baseline.rs` |
| `TypedRegion`, `RegionInterface` | `pon-codegen/src/region.rs` |
| `CanonicalOrdering`, `CanonicalComposition`, `Normalization`, `UnicodeTables` | `scratch/gen_unicodedata_tables.py`, with the lookups of `pon-runtime/src/native/unicodedata/mod.rs` |
| `GcHandshake` | `pon-gc/src/handshake.rs` |
| `ModuleClosure`, `ClosureWorklist`, `ClosureReport`, `ClosureLoop`, `ImportClosure`, `ImportMeaning`, `ImportChains`, `ClosureCases` | `pon-aot/src/reachable.rs` |
| `Glob` | `pon-conformance/src/ledger.rs` |
| `JsonText`, `RawSearch`, `SortedStrings`, `FloorFile`, `FloorSyntax`, `FloorCodec` | `pon-conformance/src/ratchet.rs` |
| `StatementUnits`, `Minimizer` | `pon-conformance/src/fuzz.rs` |
| `WorkerPool` | `pon-conformance/src/full.rs` |

Code that changes things step by step is a method with its loops, proved against a path-based or
declarative specification; pure code is a function; the handshake and the worker pool are transition
systems with one atomic access per step.

What the proofs found about the code, each with an input and the exact condition:

* The glob matcher misses matches as soon as the candidate itself holds a `*`. For every such
  candidate there is a pattern it gets wrong, and for every other candidate it gets all patterns
  right (`Glob.MisjudgedFails`, `Glob.ScanExactIffNoStar`).
* The floor file reads its fields by searching the raw text. Tag and modules always survive; the count
  is lost when the tag ends in what reads as the quoted name of the count field, or when a module does
  and a module sorted after it holds a colon (`FloorCodec.TagHidesCount`, `FloorCodec.AmbiguousFloor`,
  `FloorCodec.FloorRoundTripIff`).
* Importing `a.__init__` finds the file of package `a`, takes it for a package of its own and looks for
  its ancestors one directory too high, so `a` is neither embedded nor reported as skipped
  (`ClosureCases.InitImportMissesPackage`). The ancestors found are the packages along the dotted name
  exactly if the module lies where its name puts it as the directory walk sees it
  (`ModuleClosure.AncestorsUnderRoot`), and for a module file that is exactly if the name has one
  component or does not end in `__init__` (`ModuleClosure.AtHomeOfFile`).
* `skipped` is documented as listing best-effort modules (`pon-aot/src/reachable.rs:83`, `:87`), but a
  strict module beyond the depth cap is listed there too (`ClosureCases.StrictModuleSkipped`). A found
  module is skipped exactly if it is beyond the cap or the policy leaves it out, and a strict one
  exactly if it is beyond the cap (`ImportChains.SkippedExactly`, `ImportChains.StrictSkips`).
* `requires_dynamic_runtime` is documented as due to `--allow-dynamic` (`pon-aot/src/reachable.rs:81`),
  but a best-effort module raises it without, even one that is then skipped
  (`ClosureCases.BestEffortRaisesFlag`). It is up exactly if a unit has sinks or a module that failed to
  lower has (`ImportChains.FlagExact`).

The model follows the code in all of these.

## Assumptions

* Block ids of a function are unique (`Ir.UniqueIds`), as the intermediate representation documents
  for an id that is an index.
* The character tables are coherent (`Normalization.CoherentUcd`): what the generator takes from the
  host or asserts when it collects them (`scratch/gen_unicodedata_tables.py:93-122`). That a composed form
  leaves nothing to compose (`Normalization.ComposedFormComplete`) needs besides that the halves of a
  composition pair decompose to a text in canonical order, that a second half is neither a syllable nor a
  composite, and that composites are not jamo (`Normalization.TidyPairs`), which holds of the Unicode data.
* One collector alternates a global stop with a global resume, and `set_phase` is used only for
  `Collecting` inside the collector's own stop. `GcHandshake.SetPhaseCondition` says, for a store of
  any phase at any moment, whether phase and flag stay in agreement.
* The filesystem, the front end, the import resolver, the divergence predicate and running a unit are
  function parameters, so they are deterministic and total.

## Model

| member | source | states |
|---|---|---|
| `Ir.TerminatorOperandsExact` | pon-codegen/src/region.rs:143-157 | renaming values renames the operands of a terminator alike, changes the terminator exactly if it changes one of them, and leaves the successors alone |
| `Ir.SuccessorsExact` | pon-codegen/src/baseline.rs:2292-2302 | the same for the blocks a terminator names and its successors, in the order of its fields |
| `Ir.InstOperandsExact` | pon-codegen/src/region.rs:135-141 | the same for the operands of an instruction |
| `OsrLiveness.OsrLiveValues` | pon-codegen/src/baseline.rs:2213-2272 | a value is returned exactly when some path along the successors from the header reaches a use of it with no definition before that use; the list is strictly sorted; the fixpoint loop terminates |
| `OsrLiveness.LiveInEquation` | pon-codegen/src/baseline.rs:2244-2262 | path liveness solves the equation the sweep iterates: used before defined here, or live into a successor and not defined here |
| `OsrLiveness.Summarize` | pon-codegen/src/baseline.rs:2216-2234 | the gen set is exactly the values a block uses before defining, operand order and terminator included, and the kill set exactly those it defines |
| `OsrLiveness.Solve` | pon-codegen/src/baseline.rs:2236-2262 | the sweeps end in a solution that lies inside every set of facts closed under the flow |
| `OsrLiveness.LivePathFound` | pon-codegen/src/baseline.rs:2244-2262 | any solution contains every value for which a live path exists |
| `OsrLiveness.SolutionIsLiveness` | pon-codegen/src/baseline.rs:2236-2272 | a solution inside the live facts is path liveness at every block, also for a header that is no block |
| `ExceptionStacks.BlockExceptionEntryStacks` | pon-codegen/src/baseline.rs:674-713 | succeeds exactly when every reachable reference names a block and the handler stack is independent of the path; then a stack is recorded for exactly the reachable blocks and it is the one every path arrives with; each of the two errors only in its own case |
| `ExceptionStacks.MergeEntryStack` | pon-codegen/src/baseline.rs:644-659 | a block keeps its first stack, is queued once, and a different stack is refused |
| `ExceptionStacks.HandlersExpectTheirStack` | pon-codegen/src/baseline.rs:690-709 | at every program point on every path, each non-empty prefix of the handler stack is the recorded entry stack of its last handler |
| `ExceptionStacks.HandlerStackBounded` | pon-codegen/src/baseline.rs:690-709 | no handler is on a stack twice, and a stack is never deeper than the number of blocks |
| `ExceptionStacks.HandlerExists` | pon-codegen/src/baseline.rs:686-689 | on success every handler on any stack is a block of the function |
| `ExceptionStacks.EveryExceptionIsRouted` | pon-codegen/src/baseline.rs:715-728 | an exception at any point finds an exit exactly if no handler is active or the innermost one has code; the exit is that code, and the handler is a block whose recorded stack is the current one |
| `ExceptionStacks.RaiseLandsInHandler` | pon-codegen/src/baseline.rs:661-672 | a raise has exactly one edge, to the innermost handler with the current stack; the push that installed the handler has recorded that stack, so the raise adds nothing, and the exit found for the point is that handler's code; with no handler it leaves the function |
| `ExceptionStacks.SuccessorsInherit` | pon-codegen/src/baseline.rs:706-709 | every normal successor of a reached block is recorded with the stack that block leaves behind |
| `ExceptionStacks.NestedKeepsStack` | pon-codegen/src/baseline.rs:694-705 | instructions that never pop more than they pushed leave the stack below alone and add one handler for each push not popped |
| `TypedRegion.TypedBlockExact` | pon-codegen/src/region.rs:323-341 | a block is typed exactly if every instruction is a fast-path operation with an integer or float result and the end is neither a suspension nor a raise |
| `TypedRegion.RegionIsTyped` | pon-codegen/src/region.rs:159-216 | every block of a region is typed |
| `TypedRegion.Predecessors` | pon-codegen/src/region.rs:379-389 | the lists hold exactly the blocks with an edge to each block |
| `TypedRegion.CollectCompatibleReachable` | pon-codegen/src/region.rs:191-216 | exactly the blocks a path of typed blocks leads to from the entry |
| `TypedRegion.PruneExternalEntries` | pon-codegen/src/region.rs:218-246 | the greatest subset in which every block but the entry has all its predecessors inside |
| `TypedRegion.RegionUnique` | pon-codegen/src/region.rs:218-246 | the region is the same whatever order the sets are iterated in |
| `TypedRegion.RegionConnected` | pon-codegen/src/region.rs:159-246 | every kept block is still reachable from the entry inside the region |
| `TypedRegion.RegionEntryDominates` | pon-codegen/src/region.rs:159-246 | the entry dominates the region if and only if the function does not start inside it elsewhere; it does if the first block has no incoming edge |
| `RegionInterface.TypedValuesExact` | pon-codegen/src/region.rs:248-261 | the typed values are exactly the unboxed results of the region's blocks, with their type, block and position |
| `RegionInterface.ValueUnboxedTypeExact` | pon-codegen/src/region.rs:350-360 | the type of an input is that of its first unboxed definition in layout order, and it has none exactly if there is no such definition |
| `RegionInterface.CollectLiveIns` | pon-codegen/src/region.rs:263-303 | the loops list the values read but not produced, with their types, in the order of their first reads |
| `RegionInterface.LiveInsExact` | pon-codegen/src/region.rs:263-303 | that list holds exactly the values some block of the region reads and none produces, each once |
| `RegionInterface.CollectExits` | pon-codegen/src/region.rs:305-321 | the loops list the labelled edges that leave the region, in layout order, each once |
| `RegionInterface.ExitsExact` | pon-codegen/src/region.rs:305-321 | that list holds exactly the labelled edges from a block of the region to a target outside, each once |
| `TypedRegion.ExitsCoverEdges` | pon-codegen/src/region.rs:305-321 | there is an exit from one block to another exactly if the control-flow graph has that edge out of the region |
| `RegionInterface.SuccessorEdgesMatch` | pon-codegen/src/region.rs:391-414 | the labelled edges and the successors name the same targets in the same order |
| `RegionInterface.EdgeKinds` | pon-codegen/src/region.rs:398-414 | the label of an edge says which field of which terminator it comes from |
| `TypedRegion.BuildRegion` | pon-codegen/src/region.rs:159-189 | gives the region of that entry, or nothing exactly when there is none |
| `TypedRegion.FindMaximalTypedRegion` | pon-codegen/src/region.rs:74-98 | there is an answer exactly if the function has a region; no region has more blocks, none with as many blocks has more typed values, and of those equal in both the answer is entered first in layout order |
| `CanonicalOrdering.ReorderInPlace` | scratch/gen_unicodedata_tables.py:140-149 | the swapping loops compute the canonical ordering of the array |
| `CanonicalOrdering.SinkMark` | scratch/gen_unicodedata_tables.py:143-148 | one run of the inner loop inserts the mark into the ordered part on its left and leaves the rest alone |
| `CanonicalOrdering.ReorderCorrect` | scratch/gen_unicodedata_tables.py:140-149 | a permutation with no reorderable pair left, starters where they were, marks of one class in their order |
| `CanonicalOrdering.SwapEquivalentIffReorderEqual` | scratch/gen_unicodedata_tables.py:140-149 | two texts are related by swaps of adjacent marks with different nonzero classes if and only if they are ordered alike |
| `CanonicalOrdering.CanonicalOrderUnique` | scratch/gen_unicodedata_tables.py:140-149 | every class of swap-equivalent texts holds exactly one in canonical order, and it is the result |
| `CanonicalOrdering.ReorderCongruence` | scratch/gen_unicodedata_tables.py:140-149 | replacing a part by one that is ordered alike does not change the order of the whole |
| `CanonicalOrdering.ReorderMovesLeft` | scratch/gen_unicodedata_tables.py:140-149 | a mark may be moved left past marks of lower class without changing the order |
| `CanonicalComposition.DecomposeText` | scratch/gen_unicodedata_tables.py:127-149 | expanding character by character and ordering in place gives the decomposition |
| `CanonicalComposition.DecomposeIsFull` | scratch/gen_unicodedata_tables.py:127-149 | a decomposition is made of undecomposable characters, is in canonical order, and decomposes to itself |
| `CanonicalComposition.UnblockedIffTracked` | scratch/gen_unicodedata_tables.py:166-171 | the test on the last class is definition D115 of the Unicode Standard: the character is not blocked from the last starter |
| `CanonicalComposition.ComposeText` | scratch/gen_unicodedata_tables.py:163-178 | the loop with its running starter and last class is the composition algorithm D117 stated with D115 |
| `CanonicalComposition.ComposeStepPreserves` | scratch/gen_unicodedata_tables.py:163-178 | each step, composing past lower-class marks or appending, keeps what the text decomposes to |
| `CanonicalComposition.DecomposeComposed` | scratch/gen_unicodedata_tables.py:158-178 | decomposing the composition of a decomposition gives that decomposition |
| `CanonicalComposition.ComposesFully` | scratch/gen_unicodedata_tables.py:163-178 | no character of a composed text could still be composed with the starter before it |
| `Normalization.RefNormalize` | scratch/gen_unicodedata_tables.py:158-178 | computes the normal form of all four kinds |
| `Normalization.CharacterDecomposes` | scratch/gen_unicodedata_tables.py:127-162 | a character outside the Hangul block is decomposed by the canonical table in NFD and by the compatibility table in NFKD, and kept if it has no entry |
| `Normalization.HangulDecomposes` | scratch/gen_unicodedata_tables.py:131-135 | every syllable is decomposed into its two or three jamo |
| `Normalization.DecompositionAppends` | scratch/gen_unicodedata_tables.py:127-149 | the decomposition of a text is the ordered concatenation of those of its parts |
| `Normalization.FormsUseOneTable` | scratch/gen_unicodedata_tables.py:158-162 | NFC and NFD of every text do not depend on the compatibility table, nor NFKC and NFKD on the canonical one |
| `Normalization.ComposedFormComplete` | scratch/gen_unicodedata_tables.py:158-178 | in NFC and NFKC no unblocked pair is left that is listed as composable or is a Hangul pair |
| `Normalization.NormalizePreservesEquivalence` | scratch/gen_unicodedata_tables.py:158-178 | for every text, decomposing its NFC gives exactly its NFD, and likewise for the compatibility forms |
| `Normalization.NormalizeIdempotent` | scratch/gen_unicodedata_tables.py:158-178 | normalizing twice is normalizing once, for all four forms |
| `Normalization.NormalFormsDecideEquivalence` | scratch/gen_unicodedata_tables.py:158-178 | two texts have one normal form if and only if their full expansions are related by legal mark swaps |
| `Normalization.PairDecomposition` | scratch/gen_unicodedata_tables.py:93-121 | a composite decomposes like the pair it replaces, for table pairs and Hangul alike |
| `Normalization.HangulPair` | scratch/gen_unicodedata_tables.py:151-157 | the syllable arithmetic of both branches inverts the decomposition arithmetic |
| `Normalization.CoherentIsLawful` | scratch/gen_unicodedata_tables.py:93-121 | the coherence the generator establishes is all that composition needs |
| `Normalization.TablePairComposes` | scratch/gen_unicodedata_tables.py:120-122 | a listed pair of undecomposable characters normalizes to its composite |
| `Normalization.HangulRecomposes` | scratch/gen_unicodedata_tables.py:127-157 | every one of the 11172 syllables normalizes to itself |
| `UnicodeTables.RunsFull` | scratch/gen_unicodedata_tables.py:205-216 | looking a code point up by the last start not above it gives its original value, and runs start exactly where the value changes |
| `UnicodeTables.Compress` | scratch/gen_unicodedata_tables.py:218-227 | the runs expand to exactly the given entries, are disjoint and sorted, and none could be joined |
| `UnicodeTables.RunEntriesExact` | scratch/gen_unicodedata_tables.py:218-227 | a run stands for consecutive code points with one value for all or with values one apart |
| `UnicodeTables.LookupExact` | pon-runtime/src/native/unicodedata/mod.rs:294-327 | searching the runs gives the value entered for a code point, and nothing for a code point not entered |
| `UnicodeTables.CombiningRuns` | scratch/gen_unicodedata_tables.py:258-265 | a combining class is found in the runs exactly if it is not zero |
| `UnicodeTables.PoolBuilder.PoolSlice` | scratch/gen_unicodedata_tables.py:294-303 | a sequence is stored once, at the end of the pool; the word decodes to it and fits 32 bits; it fails exactly for a sequence of 32 or more or an offset of 2^27 or more |
| `UnicodeTables.PackExact` | scratch/gen_unicodedata_tables.py:302-303 | the low five bits of a word are the length and the rest is the offset; it fits 32 bits exactly if the offset is in range |
| `UnicodeTables.PackUnpacks` | pon-runtime/src/native/unicodedata/mod.rs:337-341 | the packed word gives back offset and length |
| `UnicodeTables.UnpackStable` | scratch/gen_unicodedata_tables.py:296-303 | what a word decodes to does not change as the pool grows |
| `UnicodeTables.BuildTables` | scratch/gen_unicodedata_tables.py:305-308 | both decomposition tables decode to their own sequences from the one finished pool; building fails exactly if some sequence is too long or starts too far into the deduplicated pool |
| `UnicodeTables.AddTable` | scratch/gen_unicodedata_tables.py:305-308 | one table in a pool that others share: the same, starting from any pool |
| `UnicodeTables.SmallTablesFit` | scratch/gen_unicodedata_tables.py:294-303 | sequences of fewer than 32 always fit while all of them together stay below 2^27 |
| `GcHandshake.StepKeepsInv` | pon-gc/src/handshake.rs:82-147 | every step of the collector or of any mutator keeps the state consistent |
| `GcHandshake.PhaseFollowsFlag` | pon-gc/src/handshake.rs:82-147 | in every run a phase other than idle implies the stop flag, and while the lock is free the phase is idle if and only if the flag is down |
| `GcHandshake.PhaseBetweenStores` | pon-gc/src/handshake.rs:93-107 | in every run, between two stores to the phase an acknowledgement turns a request into a stop, nothing else does, and no other phase changes, however late an acknowledgement comes |
| `GcHandshake.RequestThenStopped` | pon-gc/src/handshake.rs:82-107 | right after the collector's request the phase is the request and both flags are up; until the next store it is a stop exactly if somebody acknowledged |
| `GcHandshake.AcknowledgesSeenStop` | pon-gc/src/handshake.rs:98-107 | only a mutator that saw the stop flag up exchanges the phase |
| `GcHandshake.AckAlone` | pon-gc/src/handshake.rs:98-107 | an undisturbed acknowledgement advances a request, changes nothing else, and does nothing without the flag |
| `GcHandshake.WaitAlone` | pon-gc/src/handshake.rs:110-123 | an undisturbed wait returns at once without the flag and parks with the lock free with it |
| `GcHandshake.WokenAlone` | pon-gc/src/handshake.rs:117-122 | a woken wait returns if the flag is down and parks again if it is up |
| `GcHandshake.QueryAlone` | pon-gc/src/handshake.rs:199-201 | the second flag is read exactly if the first is down, and a query changes nothing |
| `GcHandshake.RequestAlone` | pon-gc/src/handshake.rs:82-91 | an undisturbed request raises both flags and the phase and leaves the lock free |
| `GcHandshake.ResumeAlone` | pon-gc/src/handshake.rs:126-137 | an undisturbed resume lowers both flags and the phase and wakes exactly the parked mutators |
| `GcHandshake.SetPhaseCondition` | pon-gc/src/handshake.rs:145-147 | a store of any phase at any moment leaves phase and flag in agreement, however the system goes on, exactly if the phase is idle outside a stop and not idle inside, or the collector stores the phase next |
| `GcHandshake.NoLostWakeup` | pon-gc/src/handshake.rs:110-137 | a parked mutator with the flag down has the collector's notification still ahead, and it wakes the mutator |
| `GcHandshake.WaitReturnsAfterClear` | pon-gc/src/handshake.rs:110-123 | a wait that saw the stop raised returns only after that flag was cleared, spurious wakeups included |
| `GcHandshake.WaitCanReturn` | pon-gc/src/handshake.rs:110-137 | from every consistent state a waiting mutator can still be brought to return |
| `GcHandshake.QueryLinearizable` | pon-gc/src/handshake.rs:199-201 | a call that loads the global flag, then the handshake flag, and answers false had a moment inside it with neither flag set |
| `GcHandshake.QueryInsideStopIsTrue` | pon-gc/src/handshake.rs:199-201 | a call lying wholly within a stop answers true |
| `ModuleClosure.UnitPackageRoot` | pon-aot/src/reachable.rs:562-569 | one directory up for the file, one for each dot of the name and one more for a package |
| `ModuleClosure.PackageRootOfFile` | pon-aot/src/reachable.rs:562-569 | with the package test the code makes, the file of a package below a root counts back to that root, and a module file does exactly if the module is not called `__init__` |
| `ModuleClosure.RelativeLevels` | pon-aot/src/reachable.rs:533-557 | a relative import has a target exactly if its level stays inside the package; it is the ancestor that many levels up followed by the whole of what the import names |
| `ImportMeaning.AbsoluteExact` | pon-aot/src/reachable.rs:345-350 | an absolute import means its own name, a relative one the ancestor its dots count up to and then its whole name |
| `ImportMeaning.IdentifierExact` | pon-aot/src/reachable.rs:689-696 | an identifier is an ASCII letter or underscore followed by letters, underscores and digits |
| `ImportMeaning.ResolveUnderRootExact` | pon-aot/src/reachable.rs:667-687 | a name lies below a root if its parts are identifiers: in the module file, or without one in the package file |
| `ImportMeaning.ResolveExact` | pon-aot/src/reachable.rs:351-360 | what is recorded for an import: the resolver's word for an absolute one; for a relative one where its name lies below the package root, not found, or unsupported outside a package |
| `ImportMeaning.DemandsExact` | pon-aot/src/reachable.rs:329-384 | the names demanded are exactly those the import statements ask for, of the whole module if strict and of its body if best-effort: the module meant, the packages above its file, and the path module for `os` |
| `ImportMeaning.InspectPolicy` | pon-aot/src/reachable.rs:285-328 | a module joins exactly if it can be read, scanned and lowered and has no sinks, is best-effort or sinks are allowed; it is left out exactly if it is best-effort and fails to scan or lower |
| `ModuleClosure.AncestorsExact` | pon-aot/src/reachable.rs:574-603 | the ancestors are exactly the shortened names whose directory, as many levels up, has an `__init__.py` |
| `ModuleClosure.AncestorsUnderRoot` | pon-aot/src/reachable.rs:571-603 | the ancestors queued are the packages along the dotted name, in every environment, exactly if the module is where its name puts it |
| `ModuleClosure.AtHomeOfFile` | pon-aot/src/reachable.rs:583-590 | a package file is always there; a module file exactly if its name has one component or does not end in `__init__` |
| `ModuleClosure.ParentMissed` | pon-aot/src/reachable.rs:583-603 | otherwise the parent package is not found even where it exists |
| `ModuleClosure.DemandsOfImports` | pon-aot/src/reachable.rs:345-384 | what a module asks for is exactly what its imports ask for |
| `ClosureWorklist.EnqueueWithAncestorPackages` | pon-aot/src/reachable.rs:574-603 | queues the module and then its ancestors, each unless its name is owned |
| `ClosureWorklist.PushAllEffect` | pon-aot/src/reachable.rs:607-627 | only new names are queued, each once, at the given depth, and all asked for are owned afterwards |
| `ClosureWorklist.FollowImports` | pon-aot/src/reachable.rs:336-385 | the loop queues exactly what the imports ask for and records each import with its resolution, or stops at the first error |
| `ClosureReport.Visit` | pon-aot/src/reachable.rs:273-397 | a module is embedded, left out or fatal by the depth cap, the sink policy, the lowering and the import errors |
| `ClosureReport.EmbedKeeps` | pon-aot/src/reachable.rs:336-397 | embedding a module keeps every condition on the units, their depths, what was found and what was skipped; the first one is the entry module |
| `ImportClosure.ModuleClosureWithOptions` | pon-aot/src/reachable.rs:248-401 | terminates in every environment, since queue depths never differ by more than one and the cap bounds them; success leaves a complete history of the report and the exact dynamic-runtime flag, and an error is the failure of the entry or of a module found on the way |
| `ImportChains.ImportsClosed` | pon-aot/src/reachable.rs:345-373 | whatever an import statement of a unit asks for, by its own meaning, is a unit or listed as skipped |
| `ImportChains.NamesAreImported` | pon-aot/src/reachable.rs:345-401 | and whatever is named besides the entry, an import statement of some unit asks for |
| `ImportChains.LinksAreImports` | pon-aot/src/reachable.rs:345-384 | one unit leads to another in a chain exactly by what its import statements ask for |
| `ImportChains.RelativeImportsClosed` | pon-aot/src/reachable.rs:537-557 | a relative import that lies below the package root: the ancestor it counts up to followed by its whole name is a unit or listed as skipped |
| `ImportChains.FlagExact` | pon-aot/src/reachable.rs:304-327 | the dynamic-runtime flag is up exactly if the source of a unit has sinks, or that of a module left out for failing to lower |
| `ImportChains.PackagesClosed` | pon-aot/src/reachable.rs:571-603 | every package along the dotted name of a static import, with a file below the root, is a unit or listed as skipped if the module is where its name puts it |
| `ClosureCases.InitImportMissesPackage` | pon-aot/src/reachable.rs:574-603 | a run of the closure on any import of a package's `__init__`: the file exists and resolves, and the package is neither a unit nor skipped |
| `ImportChains.OsPathClosed` | pon-aot/src/reachable.rs:374-383 | so is the platform's path module for every unit that imports `os` or `os.path` |
| `ImportChains.ClosureNamesEverything` | pon-aot/src/reachable.rs:254-401 | whatever an import chain through units reaches is a unit or listed as skipped |
| `ImportChains.ClosureNamesOnlyReached` | pon-aot/src/reachable.rs:254-401 | every unit behind the entry and every skipped module is reached by a chain |
| `ImportChains.ShortestChain` | pon-aot/src/reachable.rs:345-373 | some chain is exactly as long as the recorded depth, made of strict units only if the module is strict |
| `ImportChains.ReachedDepth` | pon-aot/src/reachable.rs:607-627 | no chain is shorter than the recorded depth |
| `ImportChains.TooDeepIsShortest` | pon-aot/src/reachable.rs:273-283 | a module is skipped for its depth only if every chain to it is too long, and the depth reported is the shortest length |
| `ImportChains.NearModulesEmbedded` | pon-aot/src/reachable.rs:273-334 | a module some chain within the cap reaches is embedded, or is best-effort and failed to lower |
| `ImportChains.SkippedExactly` | pon-aot/src/reachable.rs:273-334 | a found module is skipped exactly if it is beyond the cap or the policy leaves it out |
| `ImportChains.StrictSkips` | pon-aot/src/reachable.rs:273-334 | a strict one exactly if it is beyond the cap, never for failing to lower |
| `ClosureCases.StrictModuleSkipped` | pon-aot/src/reachable.rs:273-283 | a run that lists a strict module as skipped |
| `ClosureCases.BestEffortRaisesFlag` | pon-aot/src/reachable.rs:304-327 | a run in which a best-effort module raises the flag without `allow_dynamic`, lowered or skipped |
| `ClosureCases.RunCase` | pon-aot/src/reachable.rs:248-401 | the closure of a main module with one harmless import succeeds |
| `ImportChains.UnitsByDistance` | pon-aot/src/reachable.rs:254-401 | units are listed in the order of their shortest chains |
| `ImportChains.StrictUnits` | pon-aot/src/reachable.rs:290-314 | a strict unit is reached through strict units only and, without `allow_dynamic`, has no dynamic-code sink |
| `ImportChains.EntryAndNames` | pon-aot/src/reachable.rs:254-262 | the entry comes first, a strict module called `__main__` that is no package, and no two other units share a name |
| `Glob.GlobMatchAt` | pon-conformance/src/ledger.rs:161-186 | the loop terminates, never matches wrongly, and matches whenever the glob relation holds of a candidate without a star |
| `Glob.PatternMatchesUnit` | pon-conformance/src/ledger.rs:190-192 | the same for a unit's key or stem: what the matcher answers for one or the other |
| `Glob.ScanSound` | pon-conformance/src/ledger.rs:161-186 | from every state of the matcher that has consumed a match, success means the whole matches |
| `Glob.ScanComplete` | pon-conformance/src/ledger.rs:161-186 | retrying only the last star loses no match of a candidate without a star |
| `Glob.MisjudgedFails` | pon-conformance/src/ledger.rs:168-173 | a star in the candidate is compared as a literal first: for each one, a pattern that matches and is refused |
| `Glob.ScanExactIffNoStar` | pon-conformance/src/ledger.rs:161-186 | the matcher is right about every pattern if and only if the candidate has no star |
| `JsonText.EscapeJson` | pon-conformance/src/ratchet.rs:314-331 | the loop escapes character by character |
| `JsonText.ParseJsonString` | pon-conformance/src/ratchet.rs:254-305 | the index loop reads exactly what the reading function says, every error included |
| `JsonText.ReadQuoted` | pon-conformance/src/ratchet.rs:254-331 | reading an escaped and quoted string gives the string back and stops at its closing quote, whatever follows; quotes, backslashes and control characters included |
| `FloorSyntax.EscapeExact` | pon-conformance/src/ratchet.rs:317-327 | what each character is written as: five by a letter, other control characters by a four-digit code, all the rest unchanged |
| `FloorSyntax.EscapePrintable` | pon-conformance/src/ratchet.rs:314-331 | an escaped text has no control character |
| `FloorSyntax.ShortEscapes` | pon-conformance/src/ratchet.rs:268-275 | what each two-character escape is read as |
| `FloorSyntax.CodeEscape` | pon-conformance/src/ratchet.rs:276-287 | a four-digit code, in either case, is read as that character, and refused if it is half of a surrogate pair |
| `FloorSyntax.SignedCode` | pon-conformance/src/ratchet.rs:283 | a plus sign is accepted in place of the first digit |
| `FloorSyntax.BadEscapes` | pon-conformance/src/ratchet.rs:276-290 | which escapes are refused, and with which error |
| `FloorSyntax.SkipWsExact` | pon-conformance/src/ratchet.rs:307-312 | skipping stops at the first character that is not blank |
| `FloorSyntax.BehindString` | pon-conformance/src/ratchet.rs:207-218 | behind a string of a list: a comma and the rest, the end, or an error; a comma before the end is accepted |
| `FloorSyntax.CountExact` | pon-conformance/src/ratchet.rs:226-240 | every printed number is read as itself if it fits 64 bits and refused otherwise |
| `RawSearch.AfterNeedleExact` | pon-conformance/src/ratchet.rs:244-246 | the search finds the first occurrence, and nothing exactly if there is none |
| `RawSearch.FieldValueExact` | pon-conformance/src/ratchet.rs:242-252 | a field's value starts behind the first colon after the first occurrence of its quoted name, with an error for each that is missing |
| `RawSearch.SearchLiteral` | pon-conformance/src/ratchet.rs:242-252 | searching a printed string for a quoted key finds it only if the string is the key or ends in a quote and the key |
| `FloorFile.ItemsReadBack` | pon-conformance/src/ratchet.rs:196-224 | the printed list of modules reads back as it was |
| `FloorFile.DecimalDigits` | pon-conformance/src/ratchet.rs:61 | the printed count has the value it was printed from |
| `FloorFile.TagFound` | pon-conformance/src/ratchet.rs:189-194 | the tag always reads back |
| `FloorFile.ModulesReadBack` | pon-conformance/src/ratchet.rs:196-224 | the modules always read back, even behind a tag that hides their key |
| `FloorFile.CountFound` | pon-conformance/src/ratchet.rs:226-252 | the count reads back if nothing before it hides its key |
| `FloorFile.CountLost` | pon-conformance/src/ratchet.rs:242-252 | otherwise what is read does not depend on the count at all |
| `FloorFile.RoundTripIff` | pon-conformance/src/ratchet.rs:46-66 | every count survives if and only if nothing hides its key |
| `SortedStrings.LessExact` | pon-conformance/src/ratchet.rs:48 | the order: a proper prefix, or the smaller character where two strings first differ |
| `SortedStrings.SortDedupSorted` | pon-conformance/src/ratchet.rs:47-49 | the written list is strictly sorted with the same members |
| `SortedStrings.SortedUnique` | pon-conformance/src/ratchet.rs:47-49 | only one list is strictly sorted with given members |
| `FloorCodec.ToJson` | pon-conformance/src/ratchet.rs:46-66 | the loop writes the printed form of the floor with its modules sorted and deduplicated |
| `FloorCodec.ParseStringArray` | pon-conformance/src/ratchet.rs:196-224 | the index loop reads what the reading function says, every error included |
| `FloorCodec.ParseUsize` | pon-conformance/src/ratchet.rs:226-240 | reads the leading digits, and refuses none or a number beyond the machine word |
| `FloorCodec.ParseFloor` | pon-conformance/src/ratchet.rs:182-187 | reads the three fields in order and stops at the first error |
| `FloorCodec.WriteThenParse` | pon-conformance/src/ratchet.rs:46-66 | writing and parsing gives the floor with sorted, deduplicated modules for every unambiguous floor; tag and modules are right whenever parsing succeeds |
| `FloorCodec.FloorRoundTripIff` | pon-conformance/src/ratchet.rs:182-252 | every count survives exactly if the tag does not hide the count field and no module that does sorts before one with a colon |
| `FloorCodec.TagHidesCount` | pon-conformance/src/ratchet.rs:242-252 | a floor whose tag is the name of the count field cannot be read back, whatever the count |
| `FloorCodec.AmbiguousFloor` | pon-conformance/src/ratchet.rs:242-252 | a floor with modules `min_pass_count` and `z:1` is written and read back with count 1, whatever the count was |
| `StatementUnits.SplitMarked` | pon-conformance/src/fuzz.rs:386-415 | no line is lost but blank ones outside marked sections; sections are kept whole, a section is closed before anything follows it, and only a section follows the lines between two |
| `StatementUnits.SectionsUnique` | pon-conformance/src/fuzz.rs:386-415 | there is only one such split of a text |
| `StatementUnits.SplitPhysical` | pon-conformance/src/fuzz.rs:422-439 | no line is lost from the first that is not blank; a chunk starts at each top-level line |
| `StatementUnits.SplitStatementUnits` | pon-conformance/src/fuzz.rs:386-420 | a program with a marker is split into its sections, any other at its top-level lines |
| `StatementUnits.UnitsSubsequence` | pon-conformance/src/fuzz.rs:386-439 | the lines of the units are lines of the program, in their order |
| `Minimizer.WithoutExact` | pon-conformance/src/fuzz.rs:372-373 | a candidate lacks exactly one unit |
| `Minimizer.UnitsJoined` | pon-conformance/src/fuzz.rs:441-445 | the text of a program: its units with an empty line between them and a line end after the last |
| `Minimizer.LinesJoined` | pon-conformance/src/fuzz.rs:386-439 | the text of a unit: its lines with line ends between them |
| `Minimizer.MinimizeSource` | pon-conformance/src/fuzz.rs:361-384 | terminates with whole units of the program, in their order, from which no single one can be deleted and that still diverge if anything was deleted; its lines are lines of the program; errors are passed on; at most n(n+1)/2 programs are tried |
| `WorkerPool.ClampExact` | pon-conformance/src/full.rs:191 | at least one worker, otherwise no more than jobs or units, and fewer than jobs only if there is one for each unit |
| `WorkerPool.PlayInv` | pon-conformance/src/full.rs:191-212 | under every schedule a drawn unit is held by one worker or its slot is filled, and undrawn ones are untouched |
| `WorkerPool.NeverRunTwice` | pon-conformance/src/full.rs:199-211 | no unit is ever run twice, and only drawn ones are run |
| `WorkerPool.AllSlotsFilled` | pon-conformance/src/full.rs:191-212 | when all workers have finished, every unit ran exactly once and every slot holds its outcome |
| `WorkerPool.NoDeadlock` | pon-conformance/src/full.rs:196-212 | some worker can step exactly until all have finished |
| `WorkerPool.FinishedExactly` | pon-conformance/src/full.rs:196-212 | every schedule ends after the same number of steps, three for each unit and one for each worker |
| `WorkerPool.ContinueToEnd` | pon-conformance/src/full.rs:196-212 | every schedule can be continued until all workers have finished |
| `WorkerPool.Collect` | pon-conformance/src/full.rs:216-226 | the slots are read in the order of the units, stopping at the first failure or empty slot; complete only if every slot is filled |
| `WorkerPool.RunPool` | pon-conformance/src/full.rs:191-227 | the scoreboard is that of running the units one after the other, for every number of jobs and every schedule |

## Left out

- Exception edges in OSR liveness: `successors` has none, so liveness is relative to that edge relation.
- `reachable_from`, `parameter_bindings`, `shard_units`, `parse_outcome_block`, `check_floor`: they would only add easy members.
- Instruction kinds are reduced to their result, their operands in order, their unboxed type, and pushing or popping a handler; which kinds are on the fast path is part of an instruction's data.
- Cranelift emission, `optimizing.rs` and the speculative type inference: calls into libraries that are not part of this model, and code that claims no unconditional equivalence.
- Weak memory: the handshake and the counter take their steps in one order. The handshake's own accesses use acquire and release orderings; that these suffice is not shown.
- Whether an acknowledgement belongs to the current stop: the per-thread registry is not part of this model.
- Canonicalization, reading, lowering and resolving are functions of their arguments, so a filesystem that changes during a run is not modelled; neither are `PathImportResolver`'s roots and the extraction of imports from the lowered code.
- Queues, ownership maps and result lists of the import closure, the handler analysis and the region search are passed in and out of methods as values, where the source lends them out for update in place.
- UnicodeTables.LookupExact: the library's binary search is replaced by a scan; the runs are proved sorted and disjoint, which is what the search needs.
- The floating-point `numeric` runs and the string pools with 8-bit lengths: rounding, and no length check to rest a proof on.
- Positions in the floor reader count characters, not bytes. A `\u` escape whose four bytes end inside a character is not modelled.
- Message texts of errors, and source locations of dynamic-code sinks.
- Splitting a program text into lines is the library's: `lines` is a parameter beside the text.
- A worker that panics: the thread scope propagates the panic.
- Subprocesses, time limits, benchmark gates, command-line parsing and report formatting: input and output.
