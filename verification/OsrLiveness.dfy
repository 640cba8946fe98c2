/**
 The set of SSA values an on-stack-replacement transfer carries into a loop header:
 the backward fixpoint of the baseline lowerer, against liveness along paths.
 */
module OsrLiveness {
  import opened Ir

  type ValueSets = map<BlockId, set<Value>>

  // ---------------------------------------------------------------------
  // Path liveness

  /** Instruction `i` of `b`, or its terminator when `i` is past the last one, reads `v`. */
  predicate Reads(b: Block, i: nat, v: Value)
    requires i <= |b.insts|
  {
    if i < |b.insts| then v in InstOperands(b.insts[i].kind) else v in TerminatorOperands(b.term)
  }

  /** One of the first `n` instructions of `b` defines `v`. */
  predicate Defines(b: Block, n: nat, v: Value)
    requires n <= |b.insts|
  {
    exists j :: 0 <= j < n && b.insts[j].result == v
  }

  /** `b` reads `v` before any definition of it in `b`. */
  predicate ExposedUse(b: Block, v: Value)
  {
    exists i :: 0 <= i <= |b.insts| && Reads(b, i, v) && !Defines(b, i, v)
  }

  /** A path along successors to a block that reads `v`, with no definition of `v` before that read. */
  ghost predicate LivePath(blocks: map<BlockId, Block>, path: seq<BlockId>, v: Value)
  {
    && |path| > 0
    && (forall i :: 0 <= i < |path| ==> path[i] in blocks)
    && (forall i :: 0 <= i < |path| - 1 ==>
          && path[i + 1] in Successors(blocks[path[i]].term)
          && !Defines(blocks[path[i]], |blocks[path[i]].insts|, v))
    && ExposedUse(blocks[path[|path| - 1]], v)
  }

  ghost predicate LiveIn(blocks: map<BlockId, Block>, id: BlockId, v: Value)
  {
    exists path :: LivePath(blocks, path, v) && path[0] == id
  }

  /** `v` passes through `b` into a successor where it is live. */
  ghost predicate LiveThrough(blocks: map<BlockId, Block>, b: Block, s: BlockId, v: Value)
  {
    s in Successors(b.term) && s in blocks && LiveIn(blocks, s, v) && !Defines(b, |b.insts|, v)
  }

  /** Path liveness satisfies the dataflow equation. */
  lemma {:induction false} LiveInEquation(blocks: map<BlockId, Block>, id: BlockId, v: Value)
    requires id in blocks
    ensures LiveIn(blocks, id, v)
       <==> ExposedUse(blocks[id], v) || exists s :: LiveThrough(blocks, blocks[id], s, v)
  {
    if ExposedUse(blocks[id], v) {
      assert LivePath(blocks, [id], v) && [id][0] == id;
    }
    if s :| LiveThrough(blocks, blocks[id], s, v) {
      var path :| LivePath(blocks, path, v) && path[0] == s;
      ExtendLivePath(blocks, id, path, v);
    }
    if LiveIn(blocks, id, v) {
      var path :| LivePath(blocks, path, v) && path[0] == id;
      if |path| > 1 {
        TailOfLivePath(blocks, path, v);
        assert LiveThrough(blocks, blocks[id], path[1], v);
      }
    }
  }

  lemma {:induction false} ExtendLivePath(blocks: map<BlockId, Block>, id: BlockId, path: seq<BlockId>, v: Value)
    requires id in blocks && LivePath(blocks, path, v)
    requires path[0] in Successors(blocks[id].term) && !Defines(blocks[id], |blocks[id].insts|, v)
    ensures LiveIn(blocks, id, v)
  {
    var longer := [id] + path;
    forall i | 0 <= i < |longer| - 1
      ensures longer[i + 1] in Successors(blocks[longer[i]].term)
      ensures !Defines(blocks[longer[i]], |blocks[longer[i]].insts|, v)
    {
      if i > 0 {
        assert longer[i] == path[i - 1] && longer[i + 1] == path[i - 1 + 1];
      }
    }
    assert LivePath(blocks, longer, v) && longer[0] == id;
  }

  lemma {:induction false} TailOfLivePath(blocks: map<BlockId, Block>, path: seq<BlockId>, v: Value)
    requires LivePath(blocks, path, v) && |path| > 1
    ensures LivePath(blocks, path[1..], v) && LiveIn(blocks, path[1], v)
  {
    var tail := path[1..];
    forall i | 0 <= i < |tail| - 1
      ensures tail[i + 1] in Successors(blocks[tail[i]].term)
      ensures !Defines(blocks[tail[i]], |blocks[tail[i]].insts|, v)
    {
      assert tail[i] == path[i + 1] && tail[i + 1] == path[i + 1 + 1];
    }
    assert LivePath(blocks, tail, v) && tail[0] == path[1];
  }

  // ---------------------------------------------------------------------
  // Block summaries

  /** `gen` holds the exposed uses and `kill` the definitions of a block. */
  ghost predicate IsSummary(b: Block, gen: set<Value>, kill: set<Value>)
  {
    && (forall v :: v in gen <==> ExposedUse(b, v))
    && (forall v :: v in kill <==> Defines(b, |b.insts|, v))
  }

  /** Exposed uses among the instructions before position `n`. */
  predicate ExposedBefore(b: Block, n: nat, v: Value)
    requires n <= |b.insts| + 1
  {
    exists i :: 0 <= i < n && Reads(b, i, v) && !Defines(b, i, v)
  }

  method AddExposed(gen: set<Value>, kill: set<Value>, operands: seq<Value>) returns (gen': set<Value>)
    ensures forall v :: v in gen' <==> v in gen || (v in operands && v !in kill)
  {
    gen' := gen;
    for k := 0 to |operands|
      invariant forall v :: v in gen' <==> v in gen || (v in operands[..k] && v !in kill)
    {
      assert operands[..k + 1] == operands[..k] + [operands[k]];
      if operands[k] !in kill {
        gen' := gen' + {operands[k]};
      }
    }
    assert operands[..|operands|] == operands;
  }

  method Summarize(b: Block) returns (gen: set<Value>, kill: set<Value>)
    ensures IsSummary(b, gen, kill)
  {
    gen, kill := {}, {};
    for i := 0 to |b.insts|
      invariant forall v :: v in gen <==> ExposedBefore(b, i, v)
      invariant forall v :: v in kill <==> Defines(b, i, v)
    {
      gen := AddExposed(gen, kill, InstOperands(b.insts[i].kind));
      kill := kill + {b.insts[i].result};
    }
    gen := AddExposed(gen, kill, TerminatorOperands(b.term));
  }

  // ---------------------------------------------------------------------
  // The fixpoint loop

  function Transfer(term: Terminator, gen: set<Value>, kill: set<Value>, live: ValueSets): set<Value>
  {
    gen + ((set s, v | s in Successors(term) && s in live && v in live[s] :: v) - kill)
  }

  method LiveOut(term: Terminator, live: ValueSets) returns (out: set<Value>)
    ensures out == set s, v | s in Successors(term) && s in live && v in live[s] :: v
  {
    var successors := Successors(term);
    out := {};
    for k := 0 to |successors|
      invariant forall v :: v in out <==> exists s :: s in successors[..k] && s in live && v in live[s]
    {
      assert successors[..k + 1] == successors[..k] + [successors[k]];
      if successors[k] in live {
        out := out + live[successors[k]];
      }
    }
    assert successors[..|successors|] == successors;
  }

  /** Every block has an entry in all three tables. */
  ghost predicate Tables(f: Function, gens: ValueSets, kills: ValueSets, live: ValueSets)
  {
    forall i :: 0 <= i < |f.blocks| ==> f.blocks[i].id in gens && f.blocks[i].id in kills && f.blocks[i].id in live
  }

  function Next(b: Block, gens: ValueSets, kills: ValueSets, live: ValueSets): set<Value>
    requires b.id in gens && b.id in kills
  {
    Transfer(b.term, gens[b.id], kills[b.id], live)
  }

  /** No block's set shrinks when it is recomputed. */
  ghost predicate Ascending(f: Function, gens: ValueSets, kills: ValueSets, live: ValueSets)
    requires Tables(f, gens, kills, live)
  {
    forall i :: 0 <= i < |f.blocks| ==> live[f.blocks[i].id] <= Next(f.blocks[i], gens, kills, live)
  }

  /** The blocks from position `n` on satisfy the dataflow equation. */
  ghost predicate SolvedFrom(f: Function, gens: ValueSets, kills: ValueSets, live: ValueSets, n: nat)
    requires Tables(f, gens, kills, live)
  {
    forall i :: n <= i < |f.blocks| ==> live[f.blocks[i].id] == Next(f.blocks[i], gens, kills, live)
  }

  /** Liveness of `v` at the successor `s` flows back through a block. */
  ghost predicate FlowsBack(b: Block, kills: ValueSets, facts: iset<(BlockId, Value)>, s: BlockId, v: Value)
    requires b.id in kills
  {
    s in Successors(b.term) && (s, v) in facts && v !in kills[b.id]
  }

  /** `facts` is closed under the backward flow of liveness. */
  ghost predicate ClosedUnderFlow(f: Function, gens: ValueSets, kills: ValueSets, facts: iset<(BlockId, Value)>)
    requires Tables(f, gens, kills, gens)
  {
    && (forall i, v :: 0 <= i < |f.blocks| && v in gens[f.blocks[i].id] ==> (f.blocks[i].id, v) in facts)
    && (forall i, s: BlockId, v: Value :: 0 <= i < |f.blocks| && FlowsBack(f.blocks[i], kills, facts, s, v) ==>
          (f.blocks[i].id, v) in facts)
  }

  ghost predicate Within(live: ValueSets, facts: iset<(BlockId, Value)>)
  {
    forall id, v :: id in live && v in live[id] ==> (id, v) in facts
  }

  ghost function PairsOf(live: ValueSets): set<(BlockId, Value)>
  {
    set id, v | id in live && v in live[id] :: (id, v)
  }

  ghost predicate Bounded(live: ValueSets, values: set<Value>)
  {
    forall id :: id in live ==> live[id] <= values
  }

  lemma {:induction false} TransferMonotone(term: Terminator, gen: set<Value>, kill: set<Value>, live: ValueSets,
                                            live': ValueSets)
    requires forall id :: id in live ==> id in live' && live[id] <= live'[id]
    ensures Transfer(term, gen, kill, live) <= Transfer(term, gen, kill, live')
  {
  }

  lemma {:induction false} RaiseEntry(f: Function, gens: ValueSets, kills: ValueSets, live: ValueSets, k: nat)
    requires UniqueIds(f) && Tables(f, gens, kills, live) && k < |f.blocks| && Ascending(f, gens, kills, live)
    ensures Ascending(f, gens, kills, live[f.blocks[k].id := Next(f.blocks[k], gens, kills, live)])
  {
    var live' := live[f.blocks[k].id := Next(f.blocks[k], gens, kills, live)];
    forall i | 0 <= i < |f.blocks| ensures live'[f.blocks[i].id] <= Next(f.blocks[i], gens, kills, live') {
      var b := f.blocks[i];
      TransferMonotone(b.term, gens[b.id], kills[b.id], live, live');
    }
  }

  lemma {:induction false} NextWithin(f: Function, gens: ValueSets, kills: ValueSets, live: ValueSets, k: nat,
                                      facts: iset<(BlockId, Value)>)
    requires Tables(f, gens, kills, live) && k < |f.blocks|
    requires ClosedUnderFlow(f, gens, kills, facts) && Within(live, facts)
    ensures Within(live[f.blocks[k].id := Next(f.blocks[k], gens, kills, live)], facts)
  {
    var b := f.blocks[k];
    forall v | v in Next(b, gens, kills, live) ensures (b.id, v) in facts {
      if v !in gens[b.id] {
        var s :| s in Successors(b.term) && s in live && v in live[s];
        assert FlowsBack(b, kills, facts, s, v);
      }
    }
  }

  lemma {:induction false} PairsGrow(live: ValueSets, id: BlockId, next: set<Value>)
    requires id in live && live[id] <= next && live[id] != next
    ensures PairsOf(live) < PairsOf(live[id := next])
  {
    var v :| v in next && v !in live[id];
    assert (id, v) in PairsOf(live[id := next]) && (id, v) !in PairsOf(live);
    forall p | p in PairsOf(live) ensures p in PairsOf(live[id := next]) {
    }
  }

  /** One reverse sweep over the blocks. */
  method Sweep(f: Function, gens: ValueSets, kills: ValueSets, live: ValueSets, ghost values: set<Value>,
               ghost facts: iset<(BlockId, Value)>)
    returns (live': ValueSets, changed: bool)
    requires UniqueIds(f) && Tables(f, gens, kills, live) && Ascending(f, gens, kills, live)
    requires Bounded(live, values) && Bounded(gens, values)
    requires ClosedUnderFlow(f, gens, kills, facts) && Within(live, facts)
    ensures live'.Keys == live.Keys && Tables(f, gens, kills, live') && Ascending(f, gens, kills, live')
    ensures Bounded(live', values) && Within(live', facts)
    ensures changed ==> PairsOf(live) < PairsOf(live')
    ensures !changed ==> live' == live && SolvedFrom(f, gens, kills, live, 0)
  {
    live', changed := live, false;
    for k := |f.blocks| downto 0
      invariant live'.Keys == live.Keys
      invariant Ascending(f, gens, kills, live')
      invariant Bounded(live', values) && Within(live', facts)
      invariant changed ==> PairsOf(live) < PairsOf(live')
      invariant !changed ==> live' == live && SolvedFrom(f, gens, kills, live, k)
    {
      var b := f.blocks[k];
      var out := LiveOut(b.term, live');
      var next := gens[b.id] + (out - kills[b.id]);
      assert next == Next(b, gens, kills, live');
      if live'[b.id] != next {
        RaiseEntry(f, gens, kills, live', k);
        NextWithin(f, gens, kills, live', k, facts);
        PairsGrow(live', b.id, next);
        live' := live'[b.id := next];
        changed := true;
      }
    }
  }

  /** The loop finds a solution of the equations inside every set closed under the flow. */
  method Solve(f: Function, gens: ValueSets, kills: ValueSets, ghost facts: iset<(BlockId, Value)>)
    returns (live: ValueSets)
    requires UniqueIds(f) && Tables(f, gens, kills, gens) && ClosedUnderFlow(f, gens, kills, facts)
    ensures Tables(f, gens, kills, live) && live.Keys == BlockMap(f).Keys
    ensures SolvedFrom(f, gens, kills, live, 0)
    ensures Within(live, facts)
  {
    ghost var values := set id, v | id in gens && v in gens[id] :: v;
    ghost var all := set id, v | id in BlockMap(f) && v in values :: (id, v);
    live := map id | id in BlockMap(f) :: {};
    var changed := true;
    while changed
      invariant live.Keys == BlockMap(f).Keys
      invariant Tables(f, gens, kills, live) && Ascending(f, gens, kills, live)
      invariant Bounded(live, values) && Within(live, facts)
      invariant !changed ==> SolvedFrom(f, gens, kills, live, 0)
      decreases all - PairsOf(live), changed
    {
      ghost var before := live;
      live, changed := Sweep(f, gens, kills, live, values, facts);
      assert PairsOf(live) <= all;
      assert PairsOf(before) <= all;
      if changed {
        ghost var p :| p in PairsOf(live) && p !in PairsOf(before);
        assert p in all - PairsOf(before) && p !in all - PairsOf(live);
        assert all - PairsOf(live) < all - PairsOf(before);
      }
    }
  }

  // ---------------------------------------------------------------------
  // The live values of a header

  predicate StrictlySorted(values: seq<Value>)
  {
    forall i, j :: 0 <= i < j < |values| ==> values[i] < values[j]
  }

  function SortedInsert(values: seq<Value>, v: Value): (r: seq<Value>)
    requires StrictlySorted(values) && v !in values
    ensures StrictlySorted(r)
    ensures forall w :: w in r <==> w == v || w in values
  {
    if values == [] || v < values[0] then [v] + values
    else
      var tail := SortedInsert(values[1..], v);
      assert forall i :: 0 <= i < |tail| ==> tail[i] in tail && (tail[i] == v || tail[i] in values[1..]);
      assert values[0] in values && forall w :: w in values[1..] ==> values[0] < w;
      [values[0]] + tail
  }

  /** Collect a set and sort it. */
  method SortedMembers(members: set<Value>) returns (values: seq<Value>)
    ensures StrictlySorted(values)
    ensures forall v :: v in values <==> v in members
  {
    values := [];
    var rest := members;
    while rest != {}
      invariant rest <= members && StrictlySorted(values)
      invariant forall v :: v in values <==> v in members - rest
      decreases rest
    {
      var v :| v in rest;
      values := SortedInsert(values, v);
      rest := rest - {v};
    }
  }

  ghost function LiveFacts(f: Function): iset<(BlockId, Value)>
    requires UniqueIds(f)
  {
    iset id, v | id in BlockMap(f) && LiveIn(BlockMap(f), id, v) :: (id, v)
  }

  ghost predicate Summaries(f: Function, gens: ValueSets, kills: ValueSets)
  {
    forall i :: 0 <= i < |f.blocks| ==>
      && f.blocks[i].id in gens && f.blocks[i].id in kills
      && IsSummary(f.blocks[i], gens[f.blocks[i].id], kills[f.blocks[i].id])
  }

  lemma {:induction false} LiveFactsClosed(f: Function, gens: ValueSets, kills: ValueSets)
    requires UniqueIds(f) && Summaries(f, gens, kills)
    ensures ClosedUnderFlow(f, gens, kills, LiveFacts(f))
  {
    var blocks, facts := BlockMap(f), LiveFacts(f);
    forall i, v | 0 <= i < |f.blocks| && v in gens[f.blocks[i].id] ensures (f.blocks[i].id, v) in facts {
      LiveInEquation(blocks, f.blocks[i].id, v);
    }
    forall i, s: BlockId, v: Value | 0 <= i < |f.blocks| && FlowsBack(f.blocks[i], kills, facts, s, v)
      ensures (f.blocks[i].id, v) in facts
    {
      LiveInEquation(blocks, f.blocks[i].id, v);
      assert LiveThrough(blocks, f.blocks[i], s, v);
    }
  }

  lemma {:induction false} LivePathFound(f: Function, gens: ValueSets, kills: ValueSets, live: ValueSets,
                                         path: seq<BlockId>, v: Value)
    requires UniqueIds(f) && Summaries(f, gens, kills) && Tables(f, gens, kills, live)
    requires SolvedFrom(f, gens, kills, live, 0) && LivePath(BlockMap(f), path, v)
    ensures path[0] in live && v in live[path[0]]
  {
    var b := BlockMap(f)[path[0]];
    assert b in f.blocks && b.id == path[0];
    assert live[b.id] == Next(b, gens, kills, live);
    if |path| > 1 {
      TailOfLivePath(BlockMap(f), path, v);
      LivePathFound(f, gens, kills, live, path[1..], v);
      assert path[1] in Successors(b.term) && v in live[path[1]];
      assert !Defines(b, |b.insts|, v);
    }
  }

  /**
   A value is returned exactly when some path from the header reads it before defining
   it; the values come strictly sorted.
   */
  method OsrLiveValues(f: Function, header: BlockId) returns (values: seq<Value>)
    requires UniqueIds(f)
    ensures forall v :: v in values <==> LiveIn(BlockMap(f), header, v)
    ensures StrictlySorted(values)
  {
    var gens, kills := SummarizeAll(f);
    LiveFactsClosed(f, gens, kills);
    var live := Solve(f, gens, kills, LiveFacts(f));
    SolutionIsLiveness(f, gens, kills, live, header);
    values := SortedMembers(if header in live then live[header] else {});
  }

  method SummarizeAll(f: Function) returns (gens: ValueSets, kills: ValueSets)
    requires UniqueIds(f)
    ensures Summaries(f, gens, kills)
  {
    gens, kills := map[], map[];
    for i := 0 to |f.blocks|
      invariant forall j :: 0 <= j < i ==>
        && f.blocks[j].id in gens && f.blocks[j].id in kills
        && IsSummary(f.blocks[j], gens[f.blocks[j].id], kills[f.blocks[j].id])
    {
      var gen, kill := Summarize(f.blocks[i]);
      gens, kills := gens[f.blocks[i].id := gen], kills[f.blocks[i].id := kill];
    }
  }

  lemma {:induction false} SolutionIsLiveness(f: Function, gens: ValueSets, kills: ValueSets, live: ValueSets,
                                              id: BlockId)
    requires UniqueIds(f) && Summaries(f, gens, kills) && Tables(f, gens, kills, live)
    requires SolvedFrom(f, gens, kills, live, 0) && Within(live, LiveFacts(f))
    ensures forall v :: (id in live && v in live[id]) <==> LiveIn(BlockMap(f), id, v)
  {
    forall v: Value ensures (id in live && v in live[id]) <==> LiveIn(BlockMap(f), id, v) {
      if id in live && v in live[id] {
        assert (id, v) in LiveFacts(f);
      }
      if LiveIn(BlockMap(f), id, v) {
        var path :| LivePath(BlockMap(f), path, v) && path[0] == id;
        LivePathFound(f, gens, kills, live, path, v);
      }
    }
  }
}
