/**
 The part of the intermediate representation that control-flow analyses look at: an
 instruction is its result, its operands and its effect on the exception-handler
 stack; a terminator keeps its operands and targets.
 */
module Ir {
  import opened Wrappers

  type BlockId = nat

  type Value = nat

  /** The types with an unboxed machine representation. */
  datatype UnboxedType = IntI64 | Float

  datatype InstKind =
    | PushExcInfo(target: BlockId)
    | PopExcInfo
    | Operation(operands: seq<Value>, fastPath: bool)

  /** `unboxed` is the unboxable type selected for the result, if any. */
  datatype Inst = Inst(result: Value, kind: InstKind, unboxed: Option<UnboxedType>)

  datatype Terminator =
    | Return(value: Value)
    | Jump(target: BlockId)
    | Branch(cond: Value, thenBlock: BlockId, elseBlock: BlockId)
    | CondBranch(cond: Value, thenBlock: BlockId, elseBlock: BlockId)
    | ForLoop(iter: Value, body: BlockId, done: BlockId)
    | Suspend(val: Value, resume: BlockId)
    | RaiseTerm
    | Unreachable

  datatype Block = Block(id: BlockId, insts: seq<Inst>, term: Terminator)

  datatype Function = Function(blocks: seq<Block>)

  /** A block id is the identity of one block of its function. */
  predicate UniqueIds(f: Function)
  {
    forall i, j :: 0 <= i < j < |f.blocks| ==> f.blocks[i].id != f.blocks[j].id
  }

  function BlockMap(f: Function): (blocks: map<BlockId, Block>)
    requires UniqueIds(f)
    ensures forall i :: 0 <= i < |f.blocks| ==> f.blocks[i].id in blocks && blocks[f.blocks[i].id] == f.blocks[i]
    ensures forall id :: id in blocks ==> blocks[id] in f.blocks && blocks[id].id == id
  {
    map b | b in f.blocks :: b.id := b
  }

  function InstOperands(kind: InstKind): seq<Value>
  {
    match kind
    case Operation(operands, _) => operands
    case _ => []
  }

  function TerminatorOperands(term: Terminator): seq<Value>
  {
    match term
    case Return(value) => [value]
    case Branch(cond, _, _) => [cond]
    case CondBranch(cond, _, _) => [cond]
    case ForLoop(iter, _, _) => [iter]
    case Suspend(val, _) => [val]
    case _ => []
  }

  /** Normal control flow; exception edges are not included. */
  function Successors(term: Terminator): seq<BlockId>
  {
    match term
    case Jump(target) => [target]
    case Branch(_, thenBlock, elseBlock) => [thenBlock, elseBlock]
    case CondBranch(_, thenBlock, elseBlock) => [thenBlock, elseBlock]
    case ForLoop(_, body, done) => [body, done]
    case Suspend(_, resume) => [resume]
    case _ => []
  }

  // ---------------------------------------------------------------------
  // What an instruction or a terminator depends on

  function Renamed(g: Value -> Value, values: seq<Value>): seq<Value>
  {
    seq(|values|, i requires 0 <= i < |values| => g(values[i]))
  }

  /** The terminator with every value it holds renamed. */
  function RenameValues(g: Value -> Value, term: Terminator): Terminator
  {
    match term
    case Return(value) => Return(g(value))
    case Jump(_) => term
    case Branch(cond, a, b) => Branch(g(cond), a, b)
    case CondBranch(cond, a, b) => CondBranch(g(cond), a, b)
    case ForLoop(iter, a, b) => ForLoop(g(iter), a, b)
    case Suspend(val, a) => Suspend(g(val), a)
    case RaiseTerm => term
    case Unreachable => term
  }

  /** The terminator with every block it names renamed. */
  function Retarget(g: BlockId -> BlockId, term: Terminator): Terminator
  {
    match term
    case Return(_) => term
    case Jump(target) => Jump(g(target))
    case Branch(cond, a, b) => Branch(cond, g(a), g(b))
    case CondBranch(cond, a, b) => CondBranch(cond, g(a), g(b))
    case ForLoop(iter, a, b) => ForLoop(iter, g(a), g(b))
    case Suspend(val, a) => Suspend(val, g(a))
    case RaiseTerm => term
    case Unreachable => term
  }

  function RenameOperands(g: Value -> Value, kind: InstKind): InstKind
  {
    match kind
    case Operation(operands, fastPath) => Operation(Renamed(g, operands), fastPath)
    case _ => kind
  }

  /** The operands are exactly the values the terminator depends on. */
  lemma {:induction false} TerminatorOperandsExact(g: Value -> Value, term: Terminator)
    ensures TerminatorOperands(RenameValues(g, term)) == Renamed(g, TerminatorOperands(term))
    ensures RenameValues(g, term) == term <==> forall v :: v in TerminatorOperands(term) ==> g(v) == v
    ensures Successors(RenameValues(g, term)) == Successors(term)
  {
  }

  /** The successors are exactly the blocks the terminator names, in the order of its fields. */
  lemma {:induction false} SuccessorsExact(g: BlockId -> BlockId, term: Terminator)
    ensures Successors(Retarget(g, term)) == Renamed(g, Successors(term))
    ensures Retarget(g, term) == term <==> forall b :: b in Successors(term) ==> g(b) == b
    ensures TerminatorOperands(Retarget(g, term)) == TerminatorOperands(term)
    ensures term.Branch? || term.CondBranch? ==> Successors(term)[..1] == [term.thenBlock]
    ensures term.ForLoop? ==> Successors(term)[..1] == [term.body]
  {
  }

  lemma {:induction false} InstOperandsExact(g: Value -> Value, kind: InstKind)
    ensures InstOperands(RenameOperands(g, kind)) == Renamed(g, InstOperands(kind))
    ensures RenameOperands(g, kind) == kind <==> forall v :: v in InstOperands(kind) ==> g(v) == v
  {
    if kind.Operation? {
      var operands := kind.operands;
      if forall v :: v in operands ==> g(v) == v {
        assert Renamed(g, operands) == operands;
      } else {
        var v :| v in operands && g(v) != v;
        var i :| 0 <= i < |operands| && operands[i] == v;
        assert Renamed(g, operands)[i] == g(v);
      }
    }
  }
}
