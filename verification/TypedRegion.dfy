/**
 Typed-region discovery: the single-entry part of a control-flow graph that the
 optimizing tier may compile unboxed.
 */
module TypedRegion {
  import opened Wrappers
  import opened Ir
  import opened RegionInterface

  // ---------------------------------------------------------------------
  // Specification

  type Blocks = map<BlockId, Block>

  predicate IsTypedInst(inst: Inst)
  {
    inst.kind.Operation? && inst.kind.fastPath && inst.unboxed.Some?
  }

  predicate IsRegionTerminator(term: Terminator)
  {
    !term.Suspend? && !term.RaiseTerm?
  }

  predicate IsTypedBlock(b: Block)
  {
    (forall i :: 0 <= i < |b.insts| ==> IsTypedInst(b.insts[i])) && IsRegionTerminator(b.term)
  }

  /** What a typed block is made of: fast-path operations with unboxed results, and a plain end. */
  lemma {:induction false} TypedBlockExact(b: Block)
    ensures IsTypedBlock(b) <==>
            && (forall i :: 0 <= i < |b.insts| ==> IsUnboxedOperation(b.insts[i]))
            && (b.term.Return? || b.term.Jump? || b.term.Branch? || b.term.CondBranch? || b.term.ForLoop?
                || b.term.Unreachable?)
  {
    forall i | 0 <= i < |b.insts| ensures IsTypedInst(b.insts[i]) <==> IsUnboxedOperation(b.insts[i]) {
      assert b.insts[i].unboxed.Some? ==> b.insts[i].unboxed.value == IntI64 || b.insts[i].unboxed.value == Float;
    }
  }

  ghost predicate IsUnboxedOperation(inst: Inst)
  {
    && (inst.unboxed == Some(IntI64) || inst.unboxed == Some(Float))
    && exists operands :: inst.kind == Operation(operands, true)
  }

  /** Control can go from `from` to `to`. */
  predicate IsEdge(blocks: Blocks, from: BlockId, to: BlockId)
  {
    from in blocks && to in Successors(blocks[from].term)
  }

  ghost predicate IsPath(blocks: Blocks, path: seq<BlockId>, from: BlockId, to: BlockId)
  {
    && |path| > 0 && path[0] == from && path[|path| - 1] == to
    && (forall i :: 0 <= i < |path| ==> path[i] in blocks)
    && (forall i :: 0 <= i < |path| - 1 ==> IsEdge(blocks, path[i], path[i + 1]))
  }

  /** A path whose blocks after the first are typed. */
  ghost predicate IsTypedPath(blocks: Blocks, path: seq<BlockId>, from: BlockId, to: BlockId)
  {
    IsPath(blocks, path, from, to) && forall i :: 0 < i < |path| ==> IsTypedBlock(blocks[path[i]])
  }

  ghost predicate TypedReachable(blocks: Blocks, entry: BlockId, id: BlockId)
  {
    exists path :: IsTypedPath(blocks, path, entry, id)
  }

  /** Control enters the blocks of `s` only at `entry`. */
  ghost predicate SingleEntry(blocks: Blocks, entry: BlockId, s: set<BlockId>)
  {
    forall id, p :: id in s && id != entry && id in blocks && IsEdge(blocks, p, id) ==> p in s
  }

  /** `kept` is the greatest single-entry subset of `candidates`. */
  ghost predicate IsGreatestSingleEntry(blocks: Blocks, entry: BlockId, candidates: set<BlockId>, kept: set<BlockId>)
  {
    && kept <= candidates && SingleEntry(blocks, entry, kept)
    && forall s :: s <= candidates && SingleEntry(blocks, entry, s) ==> s <= kept
  }

  ghost predicate IsTypedReachableSet(blocks: Blocks, entry: BlockId, s: set<BlockId>)
  {
    forall id :: id in s <==> TypedReachable(blocks, entry, id)
  }

  /** The blocks of the region grown from `entry`. */
  ghost predicate IsRegionOf(blocks: Blocks, entry: BlockId, kept: set<BlockId>)
  {
    exists candidates ::
      IsTypedReachableSet(blocks, entry, candidates) && IsGreatestSingleEntry(blocks, entry, candidates, kept)
  }

  // ---------------------------------------------------------------------
  // The algorithm

  /** `preds` lists the predecessors of every block. */
  ghost predicate ListsPredecessors(blocks: Blocks, preds: map<BlockId, seq<BlockId>>)
  {
    preds.Keys == blocks.Keys && forall id :: id in preds ==> forall p :: p in preds[id] <==> IsEdge(blocks, p, id)
  }

  /** `p` is among the first `n` blocks and has `id` as a successor. */
  ghost predicate EdgeBefore(f: Function, n: nat, p: BlockId, id: BlockId)
    requires n <= |f.blocks|
  {
    exists j :: 0 <= j < n && f.blocks[j].id == p && id in Successors(f.blocks[j].term)
  }

  ghost predicate ListsBefore(f: Function, n: nat, preds: map<BlockId, seq<BlockId>>)
    requires n <= |f.blocks|
  {
    forall id :: id in preds ==> forall p :: p in preds[id] <==> EdgeBefore(f, n, p, id)
  }

  lemma {:induction false} EdgeBeforeNext(f: Function, n: nat, p: BlockId, id: BlockId)
    requires n < |f.blocks|
    ensures EdgeBefore(f, n + 1, p, id) <==>
            EdgeBefore(f, n, p, id) || (p == f.blocks[n].id && id in Successors(f.blocks[n].term))
  {
  }

  lemma {:induction false} EdgeBeforeAll(f: Function, p: BlockId, id: BlockId)
    requires UniqueIds(f)
    ensures EdgeBefore(f, |f.blocks|, p, id) <==> IsEdge(BlockMap(f), p, id)
  {
    if IsEdge(BlockMap(f), p, id) {
      assert BlockMap(f)[p] in f.blocks;
    }
  }

  lemma {:induction false} ListsNext(f: Function, n: nat, preds: map<BlockId, seq<BlockId>>,
                                     preds': map<BlockId, seq<BlockId>>)
    requires n < |f.blocks| && ListsBefore(f, n, preds)
             && Adds(preds, f.blocks[n].id, Successors(f.blocks[n].term), preds')
    ensures ListsBefore(f, n + 1, preds')
  {
    forall id, p | id in preds' ensures p in preds'[id] <==> EdgeBefore(f, n + 1, p, id) {
      EdgeBeforeNext(f, n, p, id);
    }
  }

  lemma {:induction false} ListsAll(f: Function, preds: map<BlockId, seq<BlockId>>)
    requires UniqueIds(f) && ListsBefore(f, |f.blocks|, preds) && preds.Keys == BlockMap(f).Keys
    ensures ListsPredecessors(BlockMap(f), preds)
  {
    forall id, p | id in preds ensures p in preds[id] <==> IsEdge(BlockMap(f), p, id) {
      EdgeBeforeAll(f, p, id);
    }
  }

  method Predecessors(f: Function) returns (preds: map<BlockId, seq<BlockId>>)
    requires UniqueIds(f)
    ensures ListsPredecessors(BlockMap(f), preds)
  {
    preds := map id | id in BlockMap(f) :: [];
    for i := 0 to |f.blocks|
      invariant preds.Keys == BlockMap(f).Keys
      invariant ListsBefore(f, i, preds)
    {
      ghost var before := preds;
      preds := AddPredecessor(preds, f.blocks[i].id, Successors(f.blocks[i].term));
      ListsNext(f, i, before, preds);
    }
    ListsAll(f, preds);
  }

  /** `p` was added to the lists of its successors. */
  ghost predicate Adds(preds: map<BlockId, seq<BlockId>>, p: BlockId, successors: seq<BlockId>,
                       preds': map<BlockId, seq<BlockId>>)
  {
    && preds'.Keys == preds.Keys
    && forall id :: id in preds ==> forall q :: q in preds'[id] <==> q in preds[id] || (q == p && id in successors)
  }

  method AddPredecessor(preds: map<BlockId, seq<BlockId>>, p: BlockId, successors: seq<BlockId>)
    returns (preds': map<BlockId, seq<BlockId>>)
    ensures Adds(preds, p, successors, preds')
  {
    preds' := preds;
    for k := 0 to |successors|
      invariant preds'.Keys == preds.Keys
      invariant forall id :: id in preds ==>
                  forall q :: q in preds'[id] <==> q in preds[id] || (q == p && id in successors[..k])
    {
      assert successors[..k + 1] == successors[..k] + [successors[k]];
      if successors[k] in preds' {
        preds' := preds'[successors[k] := preds'[successors[k]] + [p]];
      }
    }
    assert successors[..|successors|] == successors;
  }

  lemma {:induction false} TypedReachableEntry(blocks: Blocks, entry: BlockId)
    requires entry in blocks
    ensures TypedReachable(blocks, entry, entry)
  {
    assert IsTypedPath(blocks, [entry], entry, entry);
  }

  lemma {:induction false} TypedReachableStep(blocks: Blocks, entry: BlockId, id: BlockId, next: BlockId)
    requires TypedReachable(blocks, entry, id) && IsEdge(blocks, id, next)
    requires next in blocks && IsTypedBlock(blocks[next])
    ensures TypedReachable(blocks, entry, next)
  {
    var path :| IsTypedPath(blocks, path, entry, id);
    var longer := path + [next];
    forall i | 0 <= i < |longer| - 1 ensures IsEdge(blocks, longer[i], longer[i + 1]) {
      if i < |path| - 1 {
        assert IsEdge(blocks, path[i], path[i + 1]);
      }
    }
    assert IsTypedPath(blocks, longer, entry, next);
  }

  /** `reached` contains the typed successors of `id`. */
  ghost predicate TypedSuccessorsIn(blocks: Blocks, id: BlockId, reached: set<BlockId>)
  {
    forall next :: next in blocks && IsEdge(blocks, id, next) && IsTypedBlock(blocks[next]) ==> next in reached
  }

  lemma {:induction false} TypedPathsInside(blocks: Blocks, entry: BlockId, reached: set<BlockId>,
                                            path: seq<BlockId>, id: BlockId)
    requires entry in reached && forall x :: x in reached ==> TypedSuccessorsIn(blocks, x, reached)
    requires IsTypedPath(blocks, path, entry, id)
    ensures id in reached
  {
    if |path| > 1 {
      var shorter := path[..|path| - 1];
      assert IsTypedPath(blocks, shorter, entry, path[|path| - 2]);
      TypedPathsInside(blocks, entry, reached, shorter, path[|path| - 2]);
      assert IsEdge(blocks, path[|path| - 2], path[|path| - 2 + 1]);
    }
  }

  /** Queue one successor unless it is missing, untyped or known. */
  method Visit(blocks: Blocks, reached: set<BlockId>, queue: seq<BlockId>, next: BlockId)
    returns (reached': set<BlockId>, queue': seq<BlockId>)
    ensures if next in blocks && IsTypedBlock(blocks[next]) && next !in reached
            then reached' == reached + {next} && queue' == queue + [next]
            else reached' == reached && queue' == queue
  {
    reached', queue' := reached, queue;
    if next in blocks && IsTypedBlock(blocks[next]) && next !in reached {
      reached', queue' := reached + {next}, queue + [next];
    }
  }

  /** Discovered blocks are in `all`; the queue lists those not yet expanded, each once. */
  ghost predicate Frontier(all: iset<BlockId>, reached: set<BlockId>, queue: seq<BlockId>, expanded: set<BlockId>)
  {
    && (forall id :: id in reached ==> id in all)
    && (forall i, j :: 0 <= i < j < |queue| ==> queue[i] != queue[j])
    && (forall id :: id in queue ==> id !in expanded)
    && (forall id :: id in reached <==> id in expanded || id in queue)
  }

  method Expand(blocks: Blocks, id: BlockId, ghost all: iset<BlockId>, reached: set<BlockId>, queue: seq<BlockId>,
                ghost expanded: set<BlockId>)
    returns (reached': set<BlockId>, queue': seq<BlockId>)
    requires id in blocks && Frontier(all, reached, queue, expanded)
    requires forall next :: next in blocks && IsEdge(blocks, id, next) && IsTypedBlock(blocks[next]) ==> next in all
    ensures Frontier(all, reached', queue', expanded) && reached <= reached'
    ensures TypedSuccessorsIn(blocks, id, reached')
    ensures forall x :: x in reached' ==> x in reached || x in blocks
  {
    reached', queue' := reached, queue;
    var successors := Successors(blocks[id].term);
    for k := 0 to |successors|
      invariant Frontier(all, reached', queue', expanded) && reached <= reached'
      invariant forall j :: 0 <= j < k && successors[j] in blocks && IsTypedBlock(blocks[successors[j]]) ==>
                  successors[j] in reached'
      invariant forall x :: x in reached' ==> x in reached || x in blocks
    {
      assert IsEdge(blocks, id, successors[k]);
      reached', queue' := Visit(blocks, reached', queue', successors[k]);
    }
  }

  method CollectCompatibleReachable(f: Function, entry: BlockId) returns (reached: set<BlockId>)
    requires UniqueIds(f) && entry in BlockMap(f)
    ensures IsTypedReachableSet(BlockMap(f), entry, reached)
  {
    var blocks := BlockMap(f);
    reached := {entry};
    var queue := [entry];
    ghost var expanded: set<BlockId> := {};
    ghost var all := iset id | TypedReachable(blocks, entry, id);
    TypedReachableEntry(blocks, entry);
    while queue != []
      invariant Frontier(all, reached, queue, expanded)
      invariant entry in reached && reached <= blocks.Keys
      invariant forall id :: id in expanded ==> TypedSuccessorsIn(blocks, id, reached)
      decreases blocks.Keys - expanded
    {
      var id := queue[0];
      assert id in queue && id in reached;
      forall next | next in blocks && IsEdge(blocks, id, next) && IsTypedBlock(blocks[next]) ensures next in all {
        TypedReachableStep(blocks, entry, id, next);
      }
      assert queue == [id] + queue[1..];
      expanded := expanded + {id};
      reached, queue := Expand(blocks, id, all, reached, queue[1..], expanded);
    }
    forall id | TypedReachable(blocks, entry, id) ensures id in reached {
      var path :| IsTypedPath(blocks, path, entry, id);
      TypedPathsInside(blocks, entry, reached, path, id);
    }
  }

  /** All predecessors of `id` are inside, as far as pruning checks. */
  ghost predicate Anchored(blocks: Blocks, entry: BlockId, id: BlockId, s: set<BlockId>)
  {
    id == entry || id !in blocks || forall p :: p in blocks && IsEdge(blocks, p, id) ==> p in s
  }

  /** One pass over a snapshot of the set, in whatever order the set yields its members. */
  method PrunePass(blocks: Blocks, preds: map<BlockId, seq<BlockId>>, entry: BlockId, reachable: set<BlockId>)
    returns (kept: set<BlockId>, removedAny: bool)
    requires ListsPredecessors(blocks, preds)
    ensures kept <= reachable
    ensures forall s :: s <= reachable && SingleEntry(blocks, entry, s) ==> s <= kept
    ensures removedAny ==> kept < reachable
    ensures !removedAny ==> kept == reachable && SingleEntry(blocks, entry, kept)
  {
    kept, removedAny := reachable, false;
    var current := reachable;
    while current != {}
      invariant current <= reachable && kept <= reachable && current <= kept
      invariant forall s :: s <= reachable && SingleEntry(blocks, entry, s) ==> s <= kept
      invariant removedAny ==> kept < reachable
      invariant !removedAny ==>
                  kept == reachable && forall id :: id in kept ==> id in current || Anchored(blocks, entry, id, kept)
      decreases current
    {
      var id :| id in current;
      current := current - {id};
      if id != entry && id in blocks && exists p :: p in preds[id] && p !in kept {
        forall s | s <= reachable && SingleEntry(blocks, entry, s) ensures s <= kept - {id} {
        }
        kept := kept - {id};
        removedAny := true;
      }
    }
  }

  method PruneExternalEntries(blocks: Blocks, preds: map<BlockId, seq<BlockId>>, entry: BlockId,
                              reachable: set<BlockId>)
    returns (kept: set<BlockId>)
    requires ListsPredecessors(blocks, preds)
    ensures IsGreatestSingleEntry(blocks, entry, reachable, kept)
  {
    kept := reachable;
    var removedAny := true;
    while removedAny
      invariant kept <= reachable
      invariant forall s :: s <= reachable && SingleEntry(blocks, entry, s) ==> s <= kept
      invariant !removedAny ==> SingleEntry(blocks, entry, kept)
      decreases kept, removedAny
    {
      kept, removedAny := PrunePass(blocks, preds, entry, kept);
    }
  }

  // ---------------------------------------------------------------------
  // What a region guarantees

  /** Whatever order the sets are iterated in, the region is the same. */
  lemma {:induction false} RegionUnique(blocks: Blocks, entry: BlockId, a: set<BlockId>, b: set<BlockId>)
    requires IsRegionOf(blocks, entry, a) && IsRegionOf(blocks, entry, b)
    ensures a == b
  {
    var c :| IsTypedReachableSet(blocks, entry, c) && IsGreatestSingleEntry(blocks, entry, c, a);
    var d :| IsTypedReachableSet(blocks, entry, d) && IsGreatestSingleEntry(blocks, entry, d, b);
    assert c == d;
  }

  lemma {:induction false} EntryKept(blocks: Blocks, entry: BlockId, kept: set<BlockId>)
    requires entry in blocks && IsRegionOf(blocks, entry, kept)
    ensures entry in kept
  {
    TypedReachableEntry(blocks, entry);
    assert SingleEntry(blocks, entry, {entry});
  }

  /** A path that never leaves `inside`. */
  ghost predicate IsPathWithin(blocks: Blocks, path: seq<BlockId>, from: BlockId, to: BlockId, inside: set<BlockId>)
  {
    IsPath(blocks, path, from, to) && forall i :: 0 <= i < |path| ==> path[i] in inside
  }

  lemma {:induction false} TypedPathStaysInside(blocks: Blocks, entry: BlockId, kept: set<BlockId>,
                                                path: seq<BlockId>, id: BlockId)
    returns (inner: seq<BlockId>)
    requires entry in kept && SingleEntry(blocks, entry, kept) && id in kept && IsTypedPath(blocks, path, entry, id)
    ensures IsPathWithin(blocks, inner, entry, id, kept)
  {
    if id == entry {
      inner := [entry];
    } else {
      var previous := path[|path| - 2];
      assert IsEdge(blocks, previous, path[|path| - 2 + 1]);
      assert IsTypedPath(blocks, path[..|path| - 1], entry, previous);
      var shorter := TypedPathStaysInside(blocks, entry, kept, path[..|path| - 1], previous);
      inner := shorter + [id];
      forall i | 0 <= i < |inner| - 1 ensures IsEdge(blocks, inner[i], inner[i + 1]) {
        if i < |shorter| - 1 {
          assert IsEdge(blocks, shorter[i], shorter[i + 1]);
        }
      }
    }
  }

  /** Every block of a region is reachable from its entry without leaving the region. */
  lemma {:induction false} RegionConnected(blocks: Blocks, entry: BlockId, kept: set<BlockId>, id: BlockId)
    requires entry in blocks && IsRegionOf(blocks, entry, kept) && id in kept
    ensures exists path :: IsPathWithin(blocks, path, entry, id, kept)
  {
    EntryKept(blocks, entry, kept);
    var path :| IsTypedPath(blocks, path, entry, id);
    var inner := TypedPathStaysInside(blocks, entry, kept, path, id);
  }

  /** Every path from `start` to a block of the region goes through `entry`. */
  ghost predicate Dominates(blocks: Blocks, start: BlockId, entry: BlockId, kept: set<BlockId>)
  {
    forall path, id :: id in kept && IsPath(blocks, path, start, id) ==> entry in path
  }

  lemma {:induction false} PathMeetsEntry(blocks: Blocks, start: BlockId, entry: BlockId, kept: set<BlockId>,
                                          path: seq<BlockId>, id: BlockId)
    requires SingleEntry(blocks, entry, kept) && id in kept && IsPath(blocks, path, start, id)
    requires start == entry || start !in kept
    ensures entry in path
  {
    if |path| > 1 && id != entry {
      var previous := path[|path| - 2];
      assert IsEdge(blocks, previous, path[|path| - 2 + 1]);
      PathMeetsEntry(blocks, start, entry, kept, path[..|path| - 1], previous);
    }
  }

  /** The region entry dominates the region exactly when control does not start inside it elsewhere. */
  lemma {:induction false} RegionEntryDominates(blocks: Blocks, start: BlockId, entry: BlockId, kept: set<BlockId>)
    requires start in blocks && entry in blocks && IsRegionOf(blocks, entry, kept)
    ensures Dominates(blocks, start, entry, kept) <==> (start == entry || start !in kept)
    ensures (forall p :: !IsEdge(blocks, p, start)) ==> Dominates(blocks, start, entry, kept)
  {
    if start == entry || start !in kept {
      forall path, id | id in kept && IsPath(blocks, path, start, id) ensures entry in path {
        PathMeetsEntry(blocks, start, entry, kept, path, id);
      }
    } else {
      assert IsPath(blocks, [start], start, start) && entry !in [start];
      var path :| IsTypedPath(blocks, path, entry, start);
      assert IsEdge(blocks, path[|path| - 2], path[|path| - 2 + 1]);
    }
  }

  // ---------------------------------------------------------------------
  // Regions

  datatype Region = Region(
    entry: BlockId,
    blocks: seq<BlockId>,
    values: seq<TypedValue>,
    liveIns: seq<TypedInput>,
    exits: seq<RegionExit>)

  function Members(ids: seq<BlockId>): set<BlockId>
  {
    set id | id in ids
  }

  /** `r` is the region of its entry, with its values, inputs and exits in layout order. */
  ghost predicate IsRegion(f: Function, r: Region)
    requires UniqueIds(f)
  {
    var kept := Members(r.blocks);
    && r.entry in BlockMap(f) && IsTypedBlock(BlockMap(f)[r.entry])
    && IsRegionOf(BlockMap(f), r.entry, kept)
    && r.blocks == Layout(f.blocks, kept)
    && r.values == TypedValues(f.blocks, kept) && r.values != []
    && r.liveIns == Inputs(f.blocks, LiveIns(f.blocks, kept))
    && r.exits == Exits(f.blocks, kept)
  }

  predicate IsBetter(a: Region, b: Region)
  {
    |a.blocks| > |b.blocks| || (|a.blocks| == |b.blocks| && |a.values| > |b.values|)
  }

  /** Every block of a region is typed. */
  lemma {:induction false} RegionIsTyped(f: Function, r: Region, id: BlockId)
    requires UniqueIds(f) && r in RegionsOf(f) && id in r.blocks
    ensures id in BlockMap(f) && IsTypedBlock(BlockMap(f)[id])
  {
    assert id in Members(r.blocks);
    var path :| IsTypedPath(BlockMap(f), path, r.entry, id);
  }

  /** The exits are the edges from the region to the code around it. */
  lemma {:induction false} ExitsCoverEdges(f: Function, kept: set<BlockId>, from: BlockId, to: BlockId)
    requires UniqueIds(f)
    ensures (exists kind :: RegionExit(from, to, kind) in Exits(f.blocks, kept))
       <==> from in kept && to !in kept && IsEdge(BlockMap(f), from, to)
  {
    ExitsExact(f.blocks, kept);
    if from in kept && to !in kept && IsEdge(BlockMap(f), from, to) {
      var b := BlockMap(f)[from];
      SuccessorEdgesMatch(b.term);
      var i :| 0 <= i < |Successors(b.term)| && Successors(b.term)[i] == to;
      var k :| 0 <= k < |f.blocks| && f.blocks[k] == b;
      var e := RegionExit(from, to, SuccessorEdges(b.term)[i].1);
      assert SuccessorEdges(b.term)[i] == (e.to, e.kind);
      assert LeavesBy(f.blocks[k], e);
    }
    if kind :| RegionExit(from, to, kind) in Exits(f.blocks, kept) {
      var e := RegionExit(from, to, kind);
      var k :| 0 <= k < |f.blocks| && f.blocks[k].id in kept && LeavesBy(f.blocks[k], e);
      SuccessorEdgesMatch(f.blocks[k].term);
    }
  }

  ghost function RegionsOf(f: Function): iset<Region>
    requires UniqueIds(f)
  {
    iset r | IsRegion(f, r)
  }

  method BuildRegion(f: Function, preds: map<BlockId, seq<BlockId>>, entry: BlockId) returns (r: Option<Region>)
    requires UniqueIds(f) && ListsPredecessors(BlockMap(f), preds)
    requires entry in BlockMap(f) && IsTypedBlock(BlockMap(f)[entry])
    ensures r.Some? ==> r.value in RegionsOf(f) && r.value.entry == entry
    ensures r.None? ==> forall c :: c in RegionsOf(f) ==> c.entry != entry
  {
    var reachable := CollectCompatibleReachable(f, entry);
    var kept := PruneExternalEntries(BlockMap(f), preds, entry, reachable);
    KeptIsLaidOut(f, entry, kept);
    var layout := LayoutOf(f, kept);
    var values := CollectTypedValues(f, kept);
    if layout == [] || values == [] {
      NoRegionAt(f, entry, kept);
      return None;
    }
    var liveIns := CollectLiveIns(f.blocks, kept);
    var exits := CollectExits(f.blocks, kept);
    r := Some(Region(entry, layout, values, liveIns, exits));
  }

  lemma {:induction false} NoRegionAt(f: Function, entry: BlockId, kept: set<BlockId>)
    requires UniqueIds(f) && entry in BlockMap(f) && IsRegionOf(BlockMap(f), entry, kept)
    requires Layout(f.blocks, kept) == [] || TypedValues(f.blocks, kept) == []
    ensures forall c :: c in RegionsOf(f) ==> c.entry != entry
  {
    EntryKept(BlockMap(f), entry, kept);
    KeptIsLaidOut(f, entry, kept);
    forall c | c in RegionsOf(f) ensures c.entry != entry {
      if c.entry == entry {
        RegionUnique(BlockMap(f), entry, Members(c.blocks), kept);
      }
    }
  }

  lemma {:induction false} KeptIsLaidOut(f: Function, entry: BlockId, kept: set<BlockId>)
    requires UniqueIds(f) && entry in BlockMap(f) && IsRegionOf(BlockMap(f), entry, kept)
    ensures Members(Layout(f.blocks, kept)) == kept
  {
    forall id ensures id in Layout(f.blocks, kept) <==> id in kept {
      LayoutMembers(f.blocks, kept, id);
      if id in kept {
        var path :| IsTypedPath(BlockMap(f), path, entry, id);
        assert id in BlockMap(f) && BlockMap(f)[id] in f.blocks;
      }
    }
  }

  lemma {:induction false} RegionOfEntryUnique(f: Function, a: Region, b: Region)
    requires UniqueIds(f) && IsRegion(f, a) && IsRegion(f, b) && a.entry == b.entry
    ensures a == b
  {
    RegionUnique(BlockMap(f), a.entry, Members(a.blocks), Members(b.blocks));
  }

  /** There is one region for an entry. */
  ghost predicate UniquePerEntry(regions: iset<Region>)
  {
    forall a, b :: a in regions && b in regions && a.entry == b.entry ==> a == b
  }

  /** No region entered at one of the first `n` blocks beats `best`, and `best` beats all entered before it. */
  ghost predicate BestAmong(ids: seq<BlockId>, regions: iset<Region>, n: nat, best: Option<Region>)
    requires n <= |ids|
  {
    && (best.Some? ==> best.value in regions && best.value.entry in ids[..n])
    && forall c, j :: c in regions && 0 <= j < n && ids[j] == c.entry ==>
         && best.Some? && !IsBetter(c, best.value)
         && (best.value.entry in ids[j + 1..] ==> IsBetter(best.value, c))
  }

  lemma {:induction false} BestAmongNext(ids: seq<BlockId>, regions: iset<Region>, n: nat, best: Option<Region>,
                                         candidate: Option<Region>)
    requires UniquePerEntry(regions) && n < |ids| && BestAmong(ids, regions, n, best)
    requires forall i, j :: 0 <= i < j < |ids| ==> ids[i] != ids[j]
    requires candidate.Some? ==> candidate.value in regions && candidate.value.entry == ids[n]
    requires candidate.None? ==> forall c :: c in regions ==> c.entry != ids[n]
    ensures BestAmong(ids, regions, n + 1,
              if candidate.Some? && (best.None? || IsBetter(candidate.value, best.value)) then candidate else best)
  {
    assert ids[..n + 1] == ids[..n] + [ids[n]];
    if best.Some? {
      assert best.value.entry !in ids[n + 1..];
    }
  }

  /** Block `a` is laid out no later than block `b`. */
  ghost predicate NotAfter(ids: seq<BlockId>, a: BlockId, b: BlockId)
  {
    forall i, j :: 0 <= i < |ids| && 0 <= j < |ids| && ids[i] == a && ids[j] == b ==> i <= j
  }

  /** `c` has fewer blocks, or as many and fewer values, or as many of both and is not entered earlier. */
  ghost predicate NotLarger(ids: seq<BlockId>, c: Region, best: Region)
  {
    && |c.blocks| <= |best.blocks|
    && (|c.blocks| == |best.blocks| ==> |c.values| <= |best.values|)
    && (|c.blocks| == |best.blocks| && |c.values| == |best.values| ==> NotAfter(ids, best.entry, c.entry))
  }

  /** There is an answer exactly if there is a region, and no region is larger. */
  ghost predicate IsLargest(f: Function, best: Option<Region>)
    requires UniqueIds(f)
  {
    && (best.Some? ==> best.value in RegionsOf(f))
    && forall c :: c in RegionsOf(f) ==> best.Some? && NotLarger(Ids(f), c, best.value)
  }

  lemma {:induction false} BestNotLarger(ids: seq<BlockId>, regions: iset<Region>, best: Option<Region>, c: Region)
    requires BestAmong(ids, regions, |ids|, best) && c in regions && c.entry in ids
    ensures best.Some? && NotLarger(ids, c, best.value)
  {
    var k :| 0 <= k < |ids| && ids[k] == c.entry;
    forall i, j | 0 <= i < |ids| && 0 <= j < |ids| && ids[i] == best.value.entry && ids[j] == c.entry
      ensures |c.blocks| == |best.value.blocks| && |c.values| == |best.value.values| ==> i <= j
    {
      if j < i {
        assert ids[j + 1..][i - j - 1] == best.value.entry;
      }
    }
  }

  lemma {:induction false} EntryLaidOut(f: Function, c: Region)
    requires UniqueIds(f) && c in RegionsOf(f)
    ensures c.entry in Ids(f)
  {
    var b := BlockMap(f)[c.entry];
    var k :| 0 <= k < |f.blocks| && f.blocks[k] == b;
    assert Ids(f)[k] == c.entry;
  }

  lemma {:induction false} BestIsLargest(f: Function, best: Option<Region>)
    requires UniqueIds(f) && BestAmong(Ids(f), RegionsOf(f), |f.blocks|, best)
    ensures IsLargest(f, best)
  {
    var ids, regions := Ids(f), RegionsOf(f);
    forall c | c in regions ensures best.Some? && NotLarger(ids, c, best.value) {
      EntryLaidOut(f, c);
      BestNotLarger(ids, regions, best, c);
    }
  }

  /** The largest region wins; among equally large ones the first in layout order. */
  method FindMaximalTypedRegion(f: Function) returns (best: Option<Region>)
    requires UniqueIds(f)
    ensures IsLargest(f, best)
  {
    var preds := Predecessors(f);
    best := None;
    for i := 0 to |f.blocks|
      invariant BestAmong(Ids(f), RegionsOf(f), i, best)
    {
      best := Consider(f, preds, i, best);
    }
    BestIsLargest(f, best);
  }

  /** The loop body: keep the better of the best so far and the region entered at block `i`. */
  method Consider(f: Function, preds: map<BlockId, seq<BlockId>>, i: nat, best: Option<Region>)
    returns (best': Option<Region>)
    requires UniqueIds(f) && ListsPredecessors(BlockMap(f), preds) && i < |f.blocks|
    requires BestAmong(Ids(f), RegionsOf(f), i, best)
    ensures BestAmong(Ids(f), RegionsOf(f), i + 1, best')
  {
    var candidate := CandidateAt(f, preds, i);
    RegionsUniquePerEntry(f);
    BestAmongNext(Ids(f), RegionsOf(f), i, best, candidate);
    best' := if candidate.Some? && (best.None? || IsBetter(candidate.value, best.value)) then candidate else best;
  }

  method CandidateAt(f: Function, preds: map<BlockId, seq<BlockId>>, i: nat) returns (candidate: Option<Region>)
    requires UniqueIds(f) && ListsPredecessors(BlockMap(f), preds) && i < |f.blocks|
    ensures candidate.Some? ==> candidate.value in RegionsOf(f) && candidate.value.entry == f.blocks[i].id
    ensures candidate.None? ==> forall c :: c in RegionsOf(f) ==> c.entry != f.blocks[i].id
  {
    if IsTypedBlock(f.blocks[i]) {
      candidate := BuildRegion(f, preds, f.blocks[i].id);
    } else {
      candidate := None;
    }
  }

  lemma {:induction false} RegionsUniquePerEntry(f: Function)
    requires UniqueIds(f)
    ensures UniquePerEntry(RegionsOf(f))
  {
    forall a, b | a in RegionsOf(f) && b in RegionsOf(f) && a.entry == b.entry
      ensures a == b
    {
      RegionOfEntryUnique(f, a, b);
    }
  }

  function Ids(f: Function): (ids: seq<BlockId>)
    ensures |ids| == |f.blocks|
  {
    seq(|f.blocks|, i requires 0 <= i < |f.blocks| => f.blocks[i].id)
  }
}
