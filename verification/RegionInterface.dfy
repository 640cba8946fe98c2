/**
 What a typed region exchanges with the code around it: its typed values, the values it reads
 but does not produce, and the edges that leave it, all in layout order.
 */
module RegionInterface {
  import opened Wrappers
  import opened Ir

  datatype ExitKind = JumpExit | BranchExit | ForLoopBody | ForLoopDone | SuspendResume

  datatype TypedValue = TypedValue(value: Value, ty: UnboxedType, block: BlockId, index: nat)

  /** `ty` is absent for a boxed object. */
  datatype TypedInput = TypedInput(value: Value, ty: Option<UnboxedType>)

  datatype RegionExit = RegionExit(from: BlockId, to: BlockId, kind: ExitKind)

  function SuccessorEdges(term: Terminator): seq<(BlockId, ExitKind)>
  {
    match term
    case Jump(target) => [(target, JumpExit)]
    case Branch(_, thenBlock, elseBlock) => [(thenBlock, BranchExit), (elseBlock, BranchExit)]
    case CondBranch(_, thenBlock, elseBlock) => [(thenBlock, BranchExit), (elseBlock, BranchExit)]
    case ForLoop(_, body, done) => [(body, ForLoopBody), (done, ForLoopDone)]
    case Suspend(_, resume) => [(resume, SuspendResume)]
    case _ => []
  }

  /** The labelled edges lead to exactly the successors. */
  lemma {:induction false} SuccessorEdgesMatch(term: Terminator)
    ensures |SuccessorEdges(term)| == |Successors(term)|
    ensures forall i :: 0 <= i < |Successors(term)| ==> SuccessorEdges(term)[i].0 == Successors(term)[i]
  {
  }

  /** The label says which field of which terminator the edge comes from. */
  lemma {:induction false} EdgeKinds(term: Terminator, target: BlockId, kind: ExitKind)
    ensures (target, kind) in SuccessorEdges(term) <==>
            match kind
            case JumpExit => term.Jump? && term.target == target
            case BranchExit =>
              (term.Branch? || term.CondBranch?) && (term.thenBlock == target || term.elseBlock == target)
            case ForLoopBody => term.ForLoop? && term.body == target
            case ForLoopDone => term.ForLoop? && term.done == target
            case SuspendResume => term.Suspend? && term.resume == target
  {
  }

  // ---------------------------------------------------------------------
  // Blocks and values in layout order

  /** The members of `kept` in layout order. */
  function Layout(blocks: seq<Block>, kept: set<BlockId>): seq<BlockId>
  {
    if blocks == [] then []
    else Layout(blocks[..|blocks| - 1], kept) +
         (if blocks[|blocks| - 1].id in kept then [blocks[|blocks| - 1].id] else [])
  }

  function ValuesOfInsts(id: BlockId, insts: seq<Inst>): seq<TypedValue>
  {
    if insts == [] then []
    else
      var k := |insts| - 1;
      ValuesOfInsts(id, insts[..k]) +
      (if insts[k].unboxed.Some? then [TypedValue(insts[k].result, insts[k].unboxed.value, id, k)] else [])
  }

  function TypedValues(blocks: seq<Block>, kept: set<BlockId>): seq<TypedValue>
  {
    if blocks == [] then []
    else
      var b := blocks[|blocks| - 1];
      TypedValues(blocks[..|blocks| - 1], kept) + (if b.id in kept then ValuesOfInsts(b.id, b.insts) else [])
  }

  lemma {:induction false} LayoutMembers(blocks: seq<Block>, kept: set<BlockId>, id: BlockId)
    ensures id in Layout(blocks, kept) <==> id in kept && exists i :: 0 <= i < |blocks| && blocks[i].id == id
  {
    if blocks != [] {
      LayoutMembers(blocks[..|blocks| - 1], kept, id);
      var last := |blocks| - 1;
      assert blocks[last].id == id || ((exists i :: 0 <= i < |blocks| && blocks[i].id == id)
        <==> exists i :: 0 <= i < last && blocks[..last][i].id == id);
    }
  }

  lemma {:induction false} ValuesOfInstsExact(id: BlockId, insts: seq<Inst>)
    ensures forall v :: v in ValuesOfInsts(id, insts) <==> v.block == id && IsTypedResult(insts, v)
    ensures forall m, n :: 0 <= m < n < |ValuesOfInsts(id, insts)| ==>
              ValuesOfInsts(id, insts)[m].index < ValuesOfInsts(id, insts)[n].index
  {
    if insts != [] {
      var init, k := insts[..|insts| - 1], |insts| - 1;
      ValuesOfInstsExact(id, init);
      forall v ensures v in ValuesOfInsts(id, insts) <==> v.block == id && IsTypedResult(insts, v) {
        assert v in ValuesOfInsts(id, init) <==> v.block == id && IsTypedResult(init, v);
      }
      assert forall m :: 0 <= m < |ValuesOfInsts(id, init)| ==> ValuesOfInsts(id, init)[m] in ValuesOfInsts(id, init);
    }
  }

  /** `v` is the result of the instruction at its index, with its unboxed type. */
  predicate IsTypedResult(insts: seq<Inst>, v: TypedValue)
  {
    v.index < |insts| && insts[v.index].result == v.value && insts[v.index].unboxed == Some(v.ty)
  }

  /** `v` is an unboxed result of a block of the region. */
  predicate IsTypedValue(blocks: seq<Block>, kept: set<BlockId>, v: TypedValue)
  {
    v.block in kept && exists b :: b in blocks && b.id == v.block && IsTypedResult(b.insts, v)
  }

  /** The typed values are exactly the unboxed results of the region's blocks. */
  lemma {:induction false} TypedValuesExact(blocks: seq<Block>, kept: set<BlockId>, v: TypedValue)
    ensures v in TypedValues(blocks, kept) <==> IsTypedValue(blocks, kept, v)
  {
    if blocks != [] {
      var init, b := blocks[..|blocks| - 1], blocks[|blocks| - 1];
      assert blocks == init + [b];
      TypedValuesExact(init, kept, v);
      ValuesOfInstsExact(b.id, b.insts);
      assert v in TypedValues(blocks, kept) <==>
             v in TypedValues(init, kept) || (b.id in kept && v in ValuesOfInsts(b.id, b.insts));
      assert IsTypedValue(blocks, kept, v) <==>
             IsTypedValue(init, kept, v) || (b.id in kept && b.id == v.block && IsTypedResult(b.insts, v));
    }
  }

  method LayoutOf(f: Function, kept: set<BlockId>) returns (layout: seq<BlockId>)
    ensures layout == Layout(f.blocks, kept)
  {
    layout := [];
    for i := 0 to |f.blocks|
      invariant layout == Layout(f.blocks[..i], kept)
    {
      assert f.blocks[..i + 1][..i] == f.blocks[..i];
      if f.blocks[i].id in kept {
        layout := layout + [f.blocks[i].id];
      }
    }
    assert f.blocks[..|f.blocks|] == f.blocks;
  }

  method CollectTypedValues(f: Function, kept: set<BlockId>) returns (values: seq<TypedValue>)
    ensures values == TypedValues(f.blocks, kept)
  {
    values := [];
    for i := 0 to |f.blocks|
      invariant values == TypedValues(f.blocks[..i], kept)
    {
      var b := f.blocks[i];
      assert f.blocks[..i + 1][..i] == f.blocks[..i];
      if b.id in kept {
        ghost var before := values;
        for k := 0 to |b.insts|
          invariant values == before + ValuesOfInsts(b.id, b.insts[..k])
        {
          assert b.insts[..k + 1][..k] == b.insts[..k];
          if b.insts[k].unboxed.Some? {
            values := values + [TypedValue(b.insts[k].result, b.insts[k].unboxed.value, b.id, k)];
          }
        }
        assert b.insts[..|b.insts|] == b.insts;
      }
    }
    assert f.blocks[..|f.blocks|] == f.blocks;
  }

  /** The first instruction that defines `v` with an unboxed type decides; otherwise it is an object. */
  function ValueUnboxedType(blocks: seq<Block>, v: Value): Option<UnboxedType>
  {
    if blocks == [] then None
    else
      var first := InstUnboxedType(blocks[0].insts, v);
      if first.Some? then first else ValueUnboxedType(blocks[1..], v)
  }

  function InstUnboxedType(insts: seq<Inst>, v: Value): Option<UnboxedType>
  {
    if insts == [] then None
    else if insts[0].result == v && insts[0].unboxed.Some? then insts[0].unboxed
    else InstUnboxedType(insts[1..], v)
  }

  /** Instruction `j` of block `i` gives `v` an unboxed type. */
  predicate TypedDef(blocks: seq<Block>, i: nat, j: nat, v: Value)
  {
    i < |blocks| && j < |blocks[i].insts| && blocks[i].insts[j].result == v && blocks[i].insts[j].unboxed.Some?
  }

  lemma {:induction false} InstUnboxedTypeExact(insts: seq<Inst>, v: Value)
    ensures InstUnboxedType(insts, v).None? <==>
            forall j :: 0 <= j < |insts| ==> !(insts[j].result == v && insts[j].unboxed.Some?)
    ensures InstUnboxedType(insts, v).Some? ==>
              exists j :: 0 <= j < |insts| && insts[j].result == v && insts[j].unboxed == InstUnboxedType(insts, v)
                          && forall k :: 0 <= k < j ==> !(insts[k].result == v && insts[k].unboxed.Some?)
  {
    if insts != [] && !(insts[0].result == v && insts[0].unboxed.Some?) {
      var rest := insts[1..];
      InstUnboxedTypeExact(rest, v);
      assert forall j :: 0 < j < |insts| ==> insts[j] == rest[j - 1];
      if InstUnboxedType(rest, v).Some? {
        var j :| 0 <= j < |rest| && rest[j].result == v && rest[j].unboxed == InstUnboxedType(rest, v)
                 && forall k :: 0 <= k < j ==> !(rest[k].result == v && rest[k].unboxed.Some?);
        assert insts[j + 1].result == v && insts[j + 1].unboxed == InstUnboxedType(insts, v);
      }
    }
  }

  /** The type of a value is that of its first unboxed definition in layout order. */
  lemma {:induction false} ValueUnboxedTypeExact(blocks: seq<Block>, v: Value)
    ensures ValueUnboxedType(blocks, v).None? <==> forall i: nat, j: nat :: !TypedDef(blocks, i, j, v)
    ensures ValueUnboxedType(blocks, v).Some? ==>
              exists i: nat, j: nat ::
                && TypedDef(blocks, i, j, v) && FirstDef(blocks, i, j, v)
                && blocks[i].insts[j].unboxed == ValueUnboxedType(blocks, v)
  {
    if blocks != [] {
      var insts, rest := blocks[0].insts, blocks[1..];
      InstUnboxedTypeExact(insts, v);
      if InstUnboxedType(insts, v).Some? {
        var j :| 0 <= j < |insts| && insts[j].result == v && insts[j].unboxed == InstUnboxedType(insts, v)
                 && forall k :: 0 <= k < j ==> !(insts[k].result == v && insts[k].unboxed.Some?);
        assert TypedDef(blocks, 0, j, v) && FirstDef(blocks, 0, j, v);
      } else {
        ValueUnboxedTypeExact(rest, v);
        TypedDefShift(blocks, v);
        if ValueUnboxedType(rest, v).Some? {
          var i: nat, j: nat :| TypedDef(rest, i, j, v) && rest[i].insts[j].unboxed == ValueUnboxedType(rest, v)
                                && FirstDef(rest, i, j, v);
          assert TypedDef(blocks, i + 1, j, v) && FirstDef(blocks, i + 1, j, v);
        }
      }
    }
  }

  /** No definition of `v` with an unboxed type comes before. */
  ghost predicate FirstDef(blocks: seq<Block>, i: nat, j: nat, v: Value)
  {
    forall k: nat, l: nat :: TypedDef(blocks, k, l, v) ==> i < k || (i == k && j <= l)
  }

  lemma {:induction false} TypedDefShift(blocks: seq<Block>, v: Value)
    requires blocks != [] && forall j: nat :: !TypedDef(blocks, 0, j, v)
    ensures forall i: nat, j: nat :: TypedDef(blocks, i, j, v) <==> i > 0 && TypedDef(blocks[1..], i - 1, j, v)
    ensures forall i: nat, j: nat :: FirstDef(blocks[1..], i, j, v) ==> FirstDef(blocks, i + 1, j, v)
  {
  }

  // ---------------------------------------------------------------------
  // What the lists have to hold

  predicate ReadBy(b: Block, v: Value)
  {
    v in TerminatorOperands(b.term) || exists i :: 0 <= i < |b.insts| && v in InstOperands(b.insts[i].kind)
  }

  predicate ProducedBy(b: Block, v: Value)
  {
    exists i :: 0 <= i < |b.insts| && b.insts[i].result == v
  }

  /** A block of the region reads `v`. */
  predicate ReadInRegion(blocks: seq<Block>, kept: set<BlockId>, v: Value)
  {
    exists i :: 0 <= i < |blocks| && blocks[i].id in kept && ReadBy(blocks[i], v)
  }

  predicate ProducedInRegion(blocks: seq<Block>, kept: set<BlockId>, v: Value)
  {
    exists i :: 0 <= i < |blocks| && blocks[i].id in kept && ProducedBy(blocks[i], v)
  }

  /** `v` is consumed by the region but produced before it. */
  predicate IsLiveIn(blocks: seq<Block>, kept: set<BlockId>, v: Value)
  {
    ReadInRegion(blocks, kept, v) && !ProducedInRegion(blocks, kept, v)
  }

  predicate LeavesBy(b: Block, e: RegionExit)
  {
    b.id == e.from && (e.to, e.kind) in SuccessorEdges(b.term)
  }

  predicate IsExit(blocks: seq<Block>, kept: set<BlockId>, e: RegionExit)
  {
    e.to !in kept && exists i :: 0 <= i < |blocks| && blocks[i].id in kept && LeavesBy(blocks[i], e)
  }

  // ---------------------------------------------------------------------
  // Keeping first occurrences

  function FirstOccurrences<T(==)>(s: seq<T>): seq<T>
  {
    if s == [] then []
    else
      var k := |s| - 1;
      FirstOccurrences(s[..k]) + if s[k] in s[..k] then [] else [s[k]]
  }

  lemma {:induction false} FirstOccurrencesSnoc<T>(s: seq<T>, x: T)
    ensures FirstOccurrences(s + [x]) == FirstOccurrences(s) + if x in s then [] else [x]
  {
    assert (s + [x])[..|s|] == s;
  }

  /** The same members, each once. */
  lemma {:induction false} FirstOccurrencesExact<T>(s: seq<T>)
    ensures forall x :: x in FirstOccurrences(s) <==> x in s
    ensures forall i, j :: 0 <= i < j < |FirstOccurrences(s)| ==> FirstOccurrences(s)[i] != FirstOccurrences(s)[j]
  {
    if s != [] {
      var k := |s| - 1;
      FirstOccurrencesExact(s[..k]);
      assert s == s[..k] + [s[k]];
      FirstOccurrencesSnoc(s[..k], s[k]);
    }
  }

  // ---------------------------------------------------------------------
  // Inputs

  function InstReads(insts: seq<Inst>): seq<Value>
  {
    if insts == [] then []
    else InstReads(insts[..|insts| - 1]) + InstOperands(insts[|insts| - 1].kind)
  }

  /** Every read of the region, in layout order. */
  function Reads(blocks: seq<Block>, kept: set<BlockId>): seq<Value>
  {
    if blocks == [] then []
    else
      var b := blocks[|blocks| - 1];
      Reads(blocks[..|blocks| - 1], kept)
      + if b.id in kept then InstReads(b.insts) + TerminatorOperands(b.term) else []
  }

  function Produced(blocks: seq<Block>, kept: set<BlockId>): set<Value>
  {
    set b, i | b in blocks && b.id in kept && 0 <= i < |b.insts| :: b.insts[i].result
  }

  function Unproduced(uses: seq<Value>, produced: set<Value>): seq<Value>
  {
    if uses == [] then []
    else
      var v := uses[|uses| - 1];
      Unproduced(uses[..|uses| - 1], produced) + if v in produced then [] else [v]
  }

  /** The values read but not produced, in the order of their first reads. */
  function LiveIns(blocks: seq<Block>, kept: set<BlockId>): seq<Value>
  {
    FirstOccurrences(Unproduced(Reads(blocks, kept), Produced(blocks, kept)))
  }

  function Inputs(blocks: seq<Block>, values: seq<Value>): seq<TypedInput>
  {
    seq(|values|, i requires 0 <= i < |values| => TypedInput(values[i], ValueUnboxedType(blocks, values[i])))
  }

  lemma {:induction false} UnproducedExact(uses: seq<Value>, produced: set<Value>, v: Value)
    ensures v in Unproduced(uses, produced) <==> v in uses && v !in produced
  {
    if uses != [] {
      var k := |uses| - 1;
      UnproducedExact(uses[..k], produced, v);
      assert uses == uses[..k] + [uses[k]];
    }
  }

  lemma {:induction false} InstReadsExact(insts: seq<Inst>, v: Value)
    ensures v in InstReads(insts) <==> exists i :: 0 <= i < |insts| && v in InstOperands(insts[i].kind)
  {
    if insts != [] {
      var k := |insts| - 1;
      InstReadsExact(insts[..k], v);
      assert forall i :: 0 <= i < k ==> insts[..k][i] == insts[i];
    }
  }

  lemma {:induction false} ReadSnoc(blocks: seq<Block>, b: Block, kept: set<BlockId>, v: Value)
    ensures ReadInRegion(blocks + [b], kept, v) <==> ReadInRegion(blocks, kept, v) || (b.id in kept && ReadBy(b, v))
  {
    var more := blocks + [b];
    assert more[|blocks|] == b;
    if i :| 0 <= i < |blocks| && blocks[i].id in kept && ReadBy(blocks[i], v) {
      assert more[i] == blocks[i];
    }
  }

  /** What one more block adds. */
  lemma {:induction false} ReadsNext(blocks: seq<Block>, b: Block, kept: set<BlockId>)
    ensures Reads(blocks + [b], kept) ==
            if b.id in kept then Reads(blocks, kept) + (InstReads(b.insts) + TerminatorOperands(b.term))
            else Reads(blocks, kept)
  {
    assert (blocks + [b])[..|blocks|] == blocks;
    assert Reads(blocks, kept) + [] == Reads(blocks, kept);
  }

  lemma {:induction false} ReadsExact(blocks: seq<Block>, kept: set<BlockId>, v: Value)
    ensures v in Reads(blocks, kept) <==> ReadInRegion(blocks, kept, v)
  {
    if blocks != [] {
      var init, b := blocks[..|blocks| - 1], blocks[|blocks| - 1];
      assert blocks == init + [b];
      ReadsExact(init, kept, v);
      ReadsNext(init, b, kept);
      InstReadsExact(b.insts, v);
      ReadSnoc(init, b, kept, v);
    }
  }

  /** The inputs are exactly the values read but not produced, each once. */
  lemma {:induction false} LiveInsExact(blocks: seq<Block>, kept: set<BlockId>)
    ensures forall v :: v in LiveIns(blocks, kept) <==> IsLiveIn(blocks, kept, v)
    ensures forall i, j :: 0 <= i < j < |LiveIns(blocks, kept)| ==> LiveIns(blocks, kept)[i] != LiveIns(blocks, kept)[j]
  {
    var uses, produced := Reads(blocks, kept), Produced(blocks, kept);
    FirstOccurrencesExact(Unproduced(uses, produced));
    forall v ensures v in Unproduced(uses, produced) <==> IsLiveIn(blocks, kept, v) {
      UnproducedExact(uses, produced, v);
      ReadsExact(blocks, kept, v);
      ProducedExact(blocks, kept, v);
    }
  }

  lemma {:induction false} ProducedExact(blocks: seq<Block>, kept: set<BlockId>, v: Value)
    ensures v in Produced(blocks, kept) <==> ProducedInRegion(blocks, kept, v)
  {
    if k :| 0 <= k < |blocks| && blocks[k].id in kept && ProducedBy(blocks[k], v) {
      assert blocks[k] in blocks;
    }
  }

  method CollectProduced(blocks: seq<Block>, kept: set<BlockId>) returns (produced: set<Value>)
    ensures produced == Produced(blocks, kept)
  {
    produced := {};
    for n := 0 to |blocks|
      invariant forall v :: v in produced <==> ProducedInRegion(blocks[..n], kept, v)
    {
      var b := blocks[n];
      ghost var before := produced;
      assert blocks[..n + 1] == blocks[..n] + [b];
      if b.id in kept {
        for k := 0 to |b.insts|
          invariant forall v :: v in produced <==> v in before || exists j :: 0 <= j < k && b.insts[j].result == v
        {
          produced := produced + {b.insts[k].result};
        }
      }
      ProducedSnoc(blocks[..n], b, kept);
    }
    assert blocks[..|blocks|] == blocks;
    forall v ensures v in produced <==> v in Produced(blocks, kept) {
      ProducedExact(blocks, kept, v);
    }
  }

  lemma {:induction false} ProducedSnoc(blocks: seq<Block>, b: Block, kept: set<BlockId>)
    ensures forall v :: ProducedInRegion(blocks + [b], kept, v) <==>
              ProducedInRegion(blocks, kept, v) || (b.id in kept && ProducedBy(b, v))
  {
    var more := blocks + [b];
    assert more[|blocks|] == b;
    assert forall i :: 0 <= i < |blocks| ==> more[i] == blocks[i];
  }

  /** The inputs after these reads. */
  ghost predicate Tracks(all: seq<Block>, produced: set<Value>, uses: seq<Value>, seen: set<Value>,
                         inputs: seq<TypedInput>)
  {
    && inputs == Inputs(all, FirstOccurrences(Unproduced(uses, produced)))
    && forall v :: v in seen <==> v in Unproduced(uses, produced)
  }

  lemma {:induction false} TracksRead(all: seq<Block>, produced: set<Value>, uses: seq<Value>, seen: set<Value>,
                                      inputs: seq<TypedInput>, v: Value)
    requires Tracks(all, produced, uses, seen, inputs)
    ensures if v in produced || v in seen then Tracks(all, produced, uses + [v], seen, inputs)
            else Tracks(all, produced, uses + [v], seen + {v}, inputs + [TypedInput(v, ValueUnboxedType(all, v))])
  {
    var before, after := Unproduced(uses, produced), Unproduced(uses + [v], produced);
    assert (uses + [v])[..|uses|] == uses;
    if v in produced {
      assert after == before;
    } else {
      assert after == before + [v];
      FirstOccurrencesSnoc(before, v);
    }
  }

  method PushLiveIns(all: seq<Block>, produced: set<Value>, seen: set<Value>, inputs: seq<TypedInput>,
                     operands: seq<Value>, ghost uses: seq<Value>)
    returns (seen': set<Value>, inputs': seq<TypedInput>)
    requires Tracks(all, produced, uses, seen, inputs)
    ensures Tracks(all, produced, uses + operands, seen', inputs')
  {
    seen', inputs' := seen, inputs;
    assert uses + operands[..0] == uses;
    for k := 0 to |operands|
      invariant Tracks(all, produced, uses + operands[..k], seen', inputs')
    {
      var v := operands[k];
      assert uses + operands[..k + 1] == (uses + operands[..k]) + [v];
      TracksRead(all, produced, uses + operands[..k], seen', inputs', v);
      if v !in produced && v !in seen' {
        seen', inputs' := seen' + {v}, inputs' + [TypedInput(v, ValueUnboxedType(all, v))];
      }
    }
    assert operands[..|operands|] == operands;
  }

  method PushBlock(all: seq<Block>, produced: set<Value>, seen: set<Value>, inputs: seq<TypedInput>, b: Block,
                   ghost uses: seq<Value>)
    returns (seen': set<Value>, inputs': seq<TypedInput>)
    requires Tracks(all, produced, uses, seen, inputs)
    ensures Tracks(all, produced, uses + (InstReads(b.insts) + TerminatorOperands(b.term)), seen', inputs')
  {
    seen', inputs' := seen, inputs;
    assert uses + InstReads(b.insts[..0]) == uses;
    for k := 0 to |b.insts|
      invariant Tracks(all, produced, uses + InstReads(b.insts[..k]), seen', inputs')
    {
      assert b.insts[..k + 1][..k] == b.insts[..k];
      var operands := InstOperands(b.insts[k].kind);
      ghost var before := InstReads(b.insts[..k]);
      assert uses + (before + operands) == (uses + before) + operands;
      seen', inputs' := PushLiveIns(all, produced, seen', inputs', operands, uses + before);
    }
    assert b.insts[..|b.insts|] == b.insts;
    ghost var before := InstReads(b.insts);
    assert uses + (before + TerminatorOperands(b.term)) == (uses + before) + TerminatorOperands(b.term);
    seen', inputs' := PushLiveIns(all, produced, seen', inputs', TerminatorOperands(b.term), uses + before);
  }

  method CollectLiveIns(blocks: seq<Block>, kept: set<BlockId>) returns (inputs: seq<TypedInput>)
    ensures inputs == Inputs(blocks, LiveIns(blocks, kept))
  {
    var produced := CollectProduced(blocks, kept);
    inputs := [];
    var seen: set<Value> := {};
    for n := 0 to |blocks|
      invariant Tracks(blocks, produced, Reads(blocks[..n], kept), seen, inputs)
    {
      assert blocks[..n + 1] == blocks[..n] + [blocks[n]];
      ReadsNext(blocks[..n], blocks[n], kept);
      if blocks[n].id in kept {
        seen, inputs := PushBlock(blocks, produced, seen, inputs, blocks[n], Reads(blocks[..n], kept));
      }
    }
    assert blocks[..|blocks|] == blocks;
  }

  // ---------------------------------------------------------------------
  // Exits

  function LeavingEdges(b: Block, edges: seq<(BlockId, ExitKind)>, kept: set<BlockId>): seq<RegionExit>
  {
    if edges == [] then []
    else
      var (target, kind) := edges[|edges| - 1];
      LeavingEdges(b, edges[..|edges| - 1], kept) + if target in kept then [] else [RegionExit(b.id, target, kind)]
  }

  function AllExits(blocks: seq<Block>, kept: set<BlockId>): seq<RegionExit>
  {
    if blocks == [] then []
    else
      var b := blocks[|blocks| - 1];
      AllExits(blocks[..|blocks| - 1], kept)
      + if b.id in kept then LeavingEdges(b, SuccessorEdges(b.term), kept) else []
  }

  /** The labelled edges that leave the region, in layout order. */
  function Exits(blocks: seq<Block>, kept: set<BlockId>): seq<RegionExit>
  {
    FirstOccurrences(AllExits(blocks, kept))
  }

  lemma {:induction false} LeavingEdgesExact(b: Block, edges: seq<(BlockId, ExitKind)>, kept: set<BlockId>,
                                             e: RegionExit)
    ensures e in LeavingEdges(b, edges, kept) <==> e.from == b.id && e.to !in kept && (e.to, e.kind) in edges
  {
    if edges != [] {
      var k := |edges| - 1;
      LeavingEdgesExact(b, edges[..k], kept, e);
      assert edges == edges[..k] + [(edges[k].0, edges[k].1)];
    }
  }

  lemma {:induction false} AllExitsNext(blocks: seq<Block>, b: Block, kept: set<BlockId>)
    ensures AllExits(blocks + [b], kept) ==
            if b.id in kept then AllExits(blocks, kept) + LeavingEdges(b, SuccessorEdges(b.term), kept)
            else AllExits(blocks, kept)
  {
    assert (blocks + [b])[..|blocks|] == blocks;
    assert AllExits(blocks, kept) + [] == AllExits(blocks, kept);
  }

  lemma {:induction false} ExitSnoc(blocks: seq<Block>, b: Block, kept: set<BlockId>, e: RegionExit)
    ensures IsExit(blocks + [b], kept, e) <==>
            IsExit(blocks, kept, e) || (e.to !in kept && b.id in kept && LeavesBy(b, e))
  {
    var more := blocks + [b];
    assert more[|blocks|] == b;
    if i :| 0 <= i < |blocks| && blocks[i].id in kept && LeavesBy(blocks[i], e) {
      assert more[i] == blocks[i];
    }
  }

  lemma {:induction false} AllExitsExact(blocks: seq<Block>, kept: set<BlockId>, e: RegionExit)
    ensures e in AllExits(blocks, kept) <==> IsExit(blocks, kept, e)
  {
    if blocks != [] {
      var init, b := blocks[..|blocks| - 1], blocks[|blocks| - 1];
      assert blocks == init + [b];
      AllExitsExact(init, kept, e);
      AllExitsNext(init, b, kept);
      LeavingEdgesExact(b, SuccessorEdges(b.term), kept, e);
      ExitSnoc(init, b, kept, e);
    }
  }

  /** The exits are exactly the labelled edges that leave the region, each once. */
  lemma {:induction false} ExitsExact(blocks: seq<Block>, kept: set<BlockId>)
    ensures forall e :: e in Exits(blocks, kept) <==> IsExit(blocks, kept, e)
    ensures forall i, j :: 0 <= i < j < |Exits(blocks, kept)| ==> Exits(blocks, kept)[i] != Exits(blocks, kept)[j]
  {
    FirstOccurrencesExact(AllExits(blocks, kept));
    forall e ensures e in AllExits(blocks, kept) <==> IsExit(blocks, kept, e) {
      AllExitsExact(blocks, kept, e);
    }
  }

  lemma {:induction false} LeavingEdgesNext(b: Block, edges: seq<(BlockId, ExitKind)>, target: BlockId,
                                            kind: ExitKind, kept: set<BlockId>)
    ensures LeavingEdges(b, edges + [(target, kind)], kept) ==
            LeavingEdges(b, edges, kept) + if target in kept then [] else [RegionExit(b.id, target, kind)]
  {
    assert (edges + [(target, kind)])[..|edges|] == edges;
  }

  /** Adding the next edge, unless it stays inside or is listed. */
  lemma {:induction false} PushExit(before: seq<RegionExit>, leaving: seq<RegionExit>, exit: RegionExit)
    ensures FirstOccurrences(before + (leaving + [exit])) ==
            var listed := FirstOccurrences(before + leaving);
            if exit in listed then listed else listed + [exit]
  {
    var all := before + leaving;
    assert before + (leaving + [exit]) == all + [exit];
    FirstOccurrencesSnoc(all, exit);
    FirstOccurrencesExact(all);
    assert FirstOccurrences(all) + [] == FirstOccurrences(all);
  }

  method PushExits(b: Block, kept: set<BlockId>, exits: seq<RegionExit>, ghost before: seq<RegionExit>)
    returns (exits': seq<RegionExit>)
    requires exits == FirstOccurrences(before)
    ensures exits' == FirstOccurrences(before + LeavingEdges(b, SuccessorEdges(b.term), kept))
  {
    exits' := exits;
    var edges := SuccessorEdges(b.term);
    ghost var leaving: seq<RegionExit> := [];
    assert before + leaving == before;
    for k := 0 to |edges|
      invariant leaving == LeavingEdges(b, edges[..k], kept)
      invariant exits' == FirstOccurrences(before + leaving)
    {
      var (target, kind) := edges[k];
      assert edges[..k + 1] == edges[..k] + [(target, kind)];
      LeavingEdgesNext(b, edges[..k], target, kind, kept);
      if target !in kept {
        var exit := RegionExit(b.id, target, kind);
        PushExit(before, leaving, exit);
        leaving := leaving + [exit];
        if exit !in exits' {
          exits' := exits' + [exit];
        }
      } else {
        assert leaving + [] == leaving;
      }
    }
    assert edges[..|edges|] == edges;
  }

  method CollectExits(blocks: seq<Block>, kept: set<BlockId>) returns (exits: seq<RegionExit>)
    ensures exits == Exits(blocks, kept)
  {
    exits := [];
    for n := 0 to |blocks|
      invariant exits == FirstOccurrences(AllExits(blocks[..n], kept))
    {
      assert blocks[..n + 1] == blocks[..n] + [blocks[n]];
      AllExitsNext(blocks[..n], blocks[n], kept);
      if blocks[n].id in kept {
        exits := PushExits(blocks[n], kept, exits, AllExits(blocks[..n], kept));
      }
    }
    assert blocks[..|blocks|] == blocks;
  }
}
