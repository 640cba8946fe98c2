/**
 The worklist that gives every block its exception-handler stack, against the
 push/pop simulation of all control-flow paths.
 */
module ExceptionStacks {
  import opened Wrappers
  import opened Ir

  type Stack = seq<BlockId>

  type Entries = map<BlockId, Stack>

  datatype StackError = InconsistentStack | MissingBlock

  // ---------------------------------------------------------------------
  // Path semantics

  function Pop(stack: Stack): Stack
  {
    if stack == [] then [] else stack[..|stack| - 1]
  }

  function StackAfterInst(inst: Inst, stack: Stack): Stack
  {
    match inst.kind
    case PushExcInfo(target) => stack + [target]
    case PopExcInfo => Pop(stack)
    case Operation(_, _) => stack
  }

  /** The handler stack after running `insts` from `stack`. */
  function StackAfter(insts: seq<Inst>, stack: Stack): Stack
  {
    if insts == [] then stack
    else StackAfterInst(insts[|insts| - 1], StackAfter(insts[..|insts| - 1], stack))
  }

  function ExceptionSuccessors(term: Terminator, stack: Stack): seq<BlockId>
  {
    if term.RaiseTerm? then (if stack == [] then [] else [stack[|stack| - 1]])
    else Successors(term)
  }

  /** Control at the start of a block with a handler stack. */
  datatype Config = Config(block: BlockId, stack: Stack)

  /** Instruction `k` of `b` installs the handler `c.block`, which would be entered with `c.stack`. */
  predicate PushEdge(b: Block, stack: Stack, k: nat, c: Config)
  {
    && k < |b.insts|
    && b.insts[k].kind == PushExcInfo(c.block)
    && c.stack == StackAfter(b.insts[..k + 1], stack)
  }

  predicate TermEdge(b: Block, stack: Stack, c: Config)
  {
    && c.stack == StackAfter(b.insts, stack)
    && c.block in ExceptionSuccessors(b.term, c.stack)
  }

  ghost predicate BlockEdge(b: Block, stack: Stack, c: Config)
  {
    TermEdge(b, stack, c) || exists k: nat :: PushEdge(b, stack, k, c)
  }

  ghost predicate Edge(f: Function, from: Config, to: Config)
    requires UniqueIds(f)
  {
    from.block in BlockMap(f) && BlockEdge(BlockMap(f)[from.block], from.stack, to)
  }

  ghost predicate IsPath(f: Function, path: seq<Config>)
    requires UniqueIds(f)
  {
    && f.blocks != [] && |path| > 0
    && path[0] == Config(f.blocks[0].id, [])
    && forall i :: 0 <= i < |path| - 1 ==> Edge(f, path[i], path[i + 1])
  }

  ghost predicate Reachable(f: Function, c: Config)
    requires UniqueIds(f)
  {
    exists path :: IsPath(f, path) && path[|path| - 1] == c
  }

  ghost predicate AllBlocksExist(f: Function)
    requires UniqueIds(f)
  {
    forall c :: Reachable(f, c) ==> c.block in BlockMap(f)
  }

  ghost predicate PathIndependent(f: Function)
    requires UniqueIds(f)
  {
    forall c, d :: Reachable(f, c) && Reachable(f, d) && c.block == d.block ==> c.stack == d.stack
  }

  lemma {:induction false} ReachableEntry(f: Function)
    requires UniqueIds(f) && f.blocks != []
    ensures Reachable(f, Config(f.blocks[0].id, []))
  {
    var path := [Config(f.blocks[0].id, [])];
    assert IsPath(f, path) && path[|path| - 1] == Config(f.blocks[0].id, []);
  }

  lemma {:induction false} ReachableStep(f: Function, from: Config, to: Config)
    requires UniqueIds(f) && Reachable(f, from) && Edge(f, from, to)
    ensures Reachable(f, to)
  {
    var path :| IsPath(f, path) && path[|path| - 1] == from;
    var longer := path + [to];
    forall i | 0 <= i < |longer| - 1 ensures Edge(f, longer[i], longer[i + 1]) {
      if i < |path| - 1 {
        assert Edge(f, path[i], path[i + 1]);
      }
    }
    assert IsPath(f, longer) && longer[|longer| - 1] == to;
  }

  // ---------------------------------------------------------------------
  // The worklist algorithm

  predicate Recorded(entries: Entries, c: Config)
  {
    c.block in entries && entries[c.block] == c.stack
  }

  method MergeEntryStack(entries: Entries, worklist: seq<BlockId>, block: BlockId, stack: Stack)
    returns (entries': Entries, worklist': seq<BlockId>, ok: bool)
    ensures ok <==> block !in entries || entries[block] == stack
    ensures ok ==> entries' == entries[block := stack]
    ensures worklist' == if block in entries then worklist else worklist + [block]
  {
    entries', worklist' := entries, worklist;
    if block in entries {
      ok := entries[block] == stack;
      return;
    }
    entries' := entries[block := stack];
    worklist' := worklist + [block];
    ok := true;
  }

  /** Everything recorded is in `reach`; the queue holds each unprocessed block once. */
  ghost predicate Sound(reach: iset<Config>, entries: Entries, worklist: seq<BlockId>, processed: set<BlockId>)
  {
    && (forall b :: b in entries ==> Config(b, entries[b]) in reach)
    && (forall i, j :: 0 <= i < j < |worklist| ==> worklist[i] != worklist[j])
    && (forall b :: b in worklist ==> b !in processed)
    && (forall b :: b in entries <==> b in processed || b in worklist)
  }

  ghost predicate Functional(reach: iset<Config>)
  {
    forall c, d :: c in reach && d in reach && c.block == d.block ==> c.stack == d.stack
  }

  ghost predicate Extends(bigger: Entries, smaller: Entries)
  {
    forall b :: b in smaller ==> b in bigger && bigger[b] == smaller[b]
  }

  /** Every edge out of block `b` leads to a recorded configuration. */
  ghost predicate Closed(f: Function, entries: Entries, b: BlockId)
    requires UniqueIds(f)
  {
    && b in entries && b in BlockMap(f)
    && forall c :: BlockEdge(BlockMap(f)[b], entries[b], c) ==> Recorded(entries, c)
  }

  /** Merging a reachable configuration. */
  method MergeReachable(ghost reach: iset<Config>, entries: Entries, worklist: seq<BlockId>,
                        ghost processed: set<BlockId>, block: BlockId, stack: Stack)
    returns (entries': Entries, worklist': seq<BlockId>, ok: bool)
    requires Sound(reach, entries, worklist, processed) && Config(block, stack) in reach
    ensures ok ==> Sound(reach, entries', worklist', processed) && Extends(entries', entries)
    ensures ok ==> Recorded(entries', Config(block, stack))
    ensures !ok ==> !Functional(reach)
  {
    entries', worklist', ok := MergeEntryStack(entries, worklist, block, stack);
    if !ok {
      assert Config(block, entries[block]) in reach;
    }
  }

  /** All pushes of the first `k` instructions are recorded. */
  ghost predicate PushesRecorded(entries: Entries, b: Block, stack: Stack, k: nat)
  {
    forall j: nat, c :: j < k && PushEdge(b, stack, j, c) ==> Recorded(entries, c)
  }

  lemma {:induction false} StackAfterNext(insts: seq<Inst>, k: nat, start: Stack)
    requires k < |insts|
    ensures StackAfter(insts[..k + 1], start) == StackAfterInst(insts[k], StackAfter(insts[..k], start))
  {
    assert insts[..k + 1][..k] == insts[..k];
  }

  /** The instruction loop for one popped block. */
  method MergePushes(b: Block, start: Stack, ghost reach: iset<Config>, entries: Entries, worklist: seq<BlockId>,
                     ghost processed: set<BlockId>)
    returns (entries': Entries, worklist': seq<BlockId>, stack: Stack, ok: bool)
    requires Sound(reach, entries, worklist, processed)
    requires forall c :: BlockEdge(b, start, c) ==> c in reach
    ensures ok ==> Sound(reach, entries', worklist', processed) && Extends(entries', entries)
    ensures ok ==> PushesRecorded(entries', b, start, |b.insts|) && stack == StackAfter(b.insts, start)
    ensures !ok ==> !Functional(reach)
  {
    stack, entries', worklist', ok := start, entries, worklist, true;
    for k := 0 to |b.insts|
      invariant stack == StackAfter(b.insts[..k], start)
      invariant Sound(reach, entries', worklist', processed) && Extends(entries', entries)
      invariant PushesRecorded(entries', b, start, k)
    {
      ghost var before := entries';
      StackAfterNext(b.insts, k, start);
      match b.insts[k].kind {
        case PushExcInfo(target) =>
          stack := stack + [target];
          assert PushEdge(b, start, k, Config(target, stack));
          assert BlockEdge(b, start, Config(target, stack));
          entries', worklist', ok := MergeReachable(reach, entries', worklist', processed, target, stack);
          if !ok {
            return;
          }
        case PopExcInfo =>
          stack := Pop(stack);
        case Operation(_, _) =>
      }
    }
    assert b.insts[..|b.insts|] == b.insts;
    ok := true;
  }

  /** The body of the worklist loop for one popped block. */
  method ProcessBlock(b: Block, start: Stack, ghost reach: iset<Config>, entries: Entries, worklist: seq<BlockId>,
                      ghost processed: set<BlockId>)
    returns (entries': Entries, worklist': seq<BlockId>, ok: bool)
    requires Sound(reach, entries, worklist, processed)
    requires forall c :: BlockEdge(b, start, c) ==> c in reach
    ensures ok ==> Sound(reach, entries', worklist', processed) && Extends(entries', entries)
    ensures ok ==> forall c :: BlockEdge(b, start, c) ==> Recorded(entries', c)
    ensures !ok ==> !Functional(reach)
  {
    var stack;
    entries', worklist', stack, ok := MergePushes(b, start, reach, entries, worklist, processed);
    if !ok {
      return;
    }
    var successors := ExceptionSuccessors(b.term, stack);
    for k := 0 to |successors|
      invariant Sound(reach, entries', worklist', processed) && Extends(entries', entries)
      invariant PushesRecorded(entries', b, start, |b.insts|)
      invariant forall j :: 0 <= j < k ==> Recorded(entries', Config(successors[j], stack))
    {
      assert TermEdge(b, start, Config(successors[k], stack));
      assert BlockEdge(b, start, Config(successors[k], stack));
      entries', worklist', ok := MergeReachable(reach, entries', worklist', processed, successors[k], stack);
      if !ok {
        return;
      }
    }
    ok := true;
  }

  /** The answer is the path semantics, and there is an answer exactly when it is well defined. */
  ghost predicate Correct(f: Function, r: Result<Entries, StackError>)
    requires UniqueIds(f)
  {
    && (r.Ok? <==> AllBlocksExist(f) && PathIndependent(f))
    && (r.Ok? ==> forall c :: Reachable(f, c) <==> Recorded(r.value, c))
    && (r == Err(MissingBlock) ==> !AllBlocksExist(f))
    && (r == Err(InconsistentStack) ==> !PathIndependent(f))
  }

  method BlockExceptionEntryStacks(f: Function) returns (r: Result<Entries, StackError>)
    requires UniqueIds(f)
    ensures Correct(f, r)
  {
    if f.blocks == [] {
      return Ok(map[]);
    }
    var entry := f.blocks[0].id;
    var blocks := BlockMap(f);
    var entries: Entries := map[entry := []];
    var worklist := [entry];
    ghost var processed: set<BlockId> := {};
    ghost var reach := iset c | Reachable(f, c);
    ReachableEntry(f);
    while worklist != []
      invariant Sound(reach, entries, worklist, processed)
      invariant Recorded(entries, Config(entry, []))
      invariant processed <= blocks.Keys
      invariant forall b :: b in processed ==> Closed(f, entries, b)
      decreases blocks.Keys - processed
    {
      var id := worklist[0];
      assert id in worklist && Config(id, entries[id]) in reach;
      if id !in blocks {
        return Err(MissingBlock);
      }
      forall c | BlockEdge(blocks[id], entries[id], c) ensures c in reach {
        ReachableStep(f, Config(id, entries[id]), c);
      }
      ghost var before := entries;
      PopKeepsSound(reach, entries, worklist, processed);
      processed := processed + {id};
      var ok;
      entries, worklist, ok := ProcessBlock(blocks[id], entries[id], reach, entries, worklist[1..], processed);
      if !ok {
        assert !PathIndependent(f);
        return Err(InconsistentStack);
      }
      assert forall b :: b in processed ==> Closed(f, entries, b);
    }
    forall c | Reachable(f, c) ensures Recorded(entries, c) {
      var path :| IsPath(f, path) && path[|path| - 1] == c;
      PathsRecorded(f, entries, path);
    }
    forall c | Recorded(entries, c) ensures Reachable(f, c) {
      assert Config(c.block, entries[c.block]) in reach;
    }
    r := Ok(entries);
  }

  lemma {:induction false} PopKeepsSound(reach: iset<Config>, entries: Entries, worklist: seq<BlockId>,
                                         processed: set<BlockId>)
    requires Sound(reach, entries, worklist, processed) && worklist != []
    ensures Sound(reach, entries, worklist[1..], processed + {worklist[0]}) && worklist[0] !in processed
  {
    assert worklist == [worklist[0]] + worklist[1..];
  }

  lemma {:induction false} PathsRecorded(f: Function, entries: Entries, path: seq<Config>)
    requires UniqueIds(f) && IsPath(f, path)
    requires Recorded(entries, Config(f.blocks[0].id, []))
    requires forall b :: b in entries ==> Closed(f, entries, b)
    ensures Recorded(entries, path[|path| - 1])
  {
    if |path| > 1 {
      var shorter := path[..|path| - 1];
      assert IsPath(f, shorter);
      PathsRecorded(f, entries, shorter);
      assert Edge(f, path[|path| - 2], path[|path| - 1]);
    }
  }

  // ---------------------------------------------------------------------
  // Handlers expect exactly the stack they are entered with

  /** Control just before instruction `k` (or the terminator) of block `id` with `stack`. */
  ghost predicate AtPoint(f: Function, id: BlockId, k: nat, stack: Stack)
    requires UniqueIds(f)
  {
    && id in BlockMap(f) && k <= |BlockMap(f)[id].insts|
    && exists start :: Reachable(f, Config(id, start)) && stack == StackAfter(BlockMap(f)[id].insts[..k], start)
  }

  /** Some instruction on some path installs the handler `c.block` with `c.stack`. */
  ghost predicate Installed(f: Function, c: Config)
    requires UniqueIds(f)
  {
    exists from, k: nat :: Reachable(f, from) && InstalledBy(f, from, k, c)
  }

  ghost predicate InstalledBy(f: Function, from: Config, k: nat, c: Config)
    requires UniqueIds(f)
  {
    from.block in BlockMap(f) && PushEdge(BlockMap(f)[from.block], from.stack, k, c)
  }

  lemma {:induction false} InstalledReachable(f: Function, c: Config)
    requires UniqueIds(f) && Installed(f, c)
    ensures Reachable(f, c)
  {
    var from, k: nat :| Reachable(f, from) && InstalledBy(f, from, k, c);
    assert BlockEdge(BlockMap(f)[from.block], from.stack, c);
    ReachableStep(f, from, c);
  }

  /** Every active handler was installed with the stack up to and including itself. */
  ghost predicate HandlersInstalled(f: Function, stack: Stack)
    requires UniqueIds(f)
  {
    forall n :: 0 < n <= |stack| ==> Installed(f, Config(stack[n - 1], stack[..n]))
  }

  lemma {:induction false} HandlersInstalledPush(f: Function, stack: Stack, target: BlockId)
    requires UniqueIds(f) && HandlersInstalled(f, stack) && Installed(f, Config(target, stack + [target]))
    ensures HandlersInstalled(f, stack + [target])
  {
    var next := stack + [target];
    forall n | 0 < n <= |next| ensures Installed(f, Config(next[n - 1], next[..n])) {
      if n == |next| {
        assert next[..n] == next;
      } else {
        assert next[..n] == stack[..n];
      }
    }
  }

  lemma {:induction false} HandlersInstalledPop(f: Function, stack: Stack)
    requires UniqueIds(f) && HandlersInstalled(f, stack)
    ensures HandlersInstalled(f, Pop(stack))
  {
    var next := Pop(stack);
    forall n | 0 < n <= |next| ensures Installed(f, Config(next[n - 1], next[..n])) {
      assert next[..n] == stack[..n];
    }
  }

  lemma {:induction false} HandlersInstalledInBlock(f: Function, from: Config, k: nat)
    requires UniqueIds(f) && Reachable(f, from) && from.block in BlockMap(f) && k <= |BlockMap(f)[from.block].insts|
    requires HandlersInstalled(f, from.stack)
    ensures HandlersInstalled(f, StackAfter(BlockMap(f)[from.block].insts[..k], from.stack))
  {
    var b := BlockMap(f)[from.block];
    if k > 0 {
      HandlersInstalledInBlock(f, from, k - 1);
      StackAfterNext(b.insts, k - 1, from.stack);
      var stack, next := StackAfter(b.insts[..k - 1], from.stack), StackAfter(b.insts[..k], from.stack);
      match b.insts[k - 1].kind
      case PushExcInfo(target) =>
        assert InstalledBy(f, from, k - 1, Config(target, next));
        HandlersInstalledPush(f, stack, target);
      case PopExcInfo => HandlersInstalledPop(f, stack);
      case Operation(_, _) =>
    } else {
      assert b.insts[..0] == [];
    }
  }

  lemma {:induction false} HandlersInstalledOnPath(f: Function, path: seq<Config>)
    requires UniqueIds(f) && IsPath(f, path)
    ensures HandlersInstalled(f, path[|path| - 1].stack)
  {
    if |path| > 1 {
      var shorter, from, to := path[..|path| - 1], path[|path| - 2], path[|path| - 1];
      assert IsPath(f, shorter);
      HandlersInstalledOnPath(f, shorter);
      assert Reachable(f, from);
      assert Edge(f, from, to);
      var b := BlockMap(f)[from.block];
      if k: nat :| PushEdge(b, from.stack, k, to) {
        HandlersInstalledInBlock(f, from, k + 1);
      } else {
        HandlersInstalledInBlock(f, from, |b.insts|);
        assert b.insts[..|b.insts|] == b.insts;
      }
    }
  }

  lemma {:induction false} HandlersInstalledAtPoint(f: Function, id: BlockId, k: nat, stack: Stack)
    requires UniqueIds(f) && AtPoint(f, id, k, stack)
    ensures HandlersInstalled(f, stack)
  {
    var start :| Reachable(f, Config(id, start)) && stack == StackAfter(BlockMap(f)[id].insts[..k], start);
    var path :| IsPath(f, path) && path[|path| - 1] == Config(id, start);
    HandlersInstalledOnPath(f, path);
    HandlersInstalledInBlock(f, Config(id, start), k);
  }

  /**
   At every program point, each non-empty prefix of the handler stack is the recorded
   entry stack of its last handler: an exception raised there enters a handler that
   expects exactly the current stack.
   */
  lemma {:induction false} HandlersExpectTheirStack(f: Function, entries: Entries, id: BlockId, k: nat,
                                                    stack: Stack, n: nat)
    requires UniqueIds(f) && Correct(f, Ok(entries)) && AtPoint(f, id, k, stack) && 0 < n <= |stack|
    ensures Recorded(entries, Config(stack[n - 1], stack[..n]))
  {
    HandlersInstalledAtPoint(f, id, k, stack);
    InstalledReachable(f, Config(stack[n - 1], stack[..n]));
  }

  /** No handler is active twice, and handlers are nested at most as deep as there are blocks. */
  lemma {:induction false} HandlerStackBounded(f: Function, entries: Entries, id: BlockId, k: nat, stack: Stack)
    requires UniqueIds(f) && Correct(f, Ok(entries)) && AtPoint(f, id, k, stack)
    ensures forall i, j :: 0 <= i < j < |stack| ==> stack[i] != stack[j]
    ensures |stack| <= |f.blocks|
  {
    forall i, j | 0 <= i < j < |stack| ensures stack[i] != stack[j] {
      HandlersDistinct(f, entries, id, k, stack, i, j);
    }
    forall i | 0 <= i < |stack| ensures stack[i] in BlockMap(f).Keys {
      HandlerExists(f, entries, id, k, stack, i);
    }
    DistinctMembers(stack, BlockMap(f).Keys);
    BlockCount(f.blocks, BlockMap(f).Keys);
  }

  lemma {:induction false} HandlersDistinct(f: Function, entries: Entries, id: BlockId, k: nat, stack: Stack,
                                            i: nat, j: nat)
    requires UniqueIds(f) && Correct(f, Ok(entries)) && AtPoint(f, id, k, stack) && i < j < |stack|
    ensures stack[i] != stack[j]
  {
    HandlersExpectTheirStack(f, entries, id, k, stack, i + 1);
    HandlersExpectTheirStack(f, entries, id, k, stack, j + 1);
    assert |stack[..i + 1]| != |stack[..j + 1]|;
  }

  lemma {:induction false} HandlerExists(f: Function, entries: Entries, id: BlockId, k: nat, stack: Stack, i: nat)
    requires UniqueIds(f) && Correct(f, Ok(entries)) && AtPoint(f, id, k, stack) && i < |stack|
    ensures stack[i] in BlockMap(f)
  {
    HandlersExpectTheirStack(f, entries, id, k, stack, i + 1);
    assert Reachable(f, Config(stack[i], stack[..i + 1]));
  }

  lemma {:induction false} DistinctMembers(s: seq<BlockId>, all: set<BlockId>)
    requires forall i, j :: 0 <= i < j < |s| ==> s[i] != s[j]
    requires forall i :: 0 <= i < |s| ==> s[i] in all
    ensures |s| <= |all|
  {
    if s != [] {
      var last := s[|s| - 1];
      DistinctMembers(s[..|s| - 1], all - {last});
    }
  }

  lemma {:induction false} BlockCount(blocks: seq<Block>, ids: set<BlockId>)
    requires forall id :: id in ids ==> exists i :: 0 <= i < |blocks| && blocks[i].id == id
    ensures |ids| <= |blocks|
  {
    if blocks == [] {
      assert ids == {};
    } else {
      var last := blocks[|blocks| - 1];
      BlockCount(blocks[..|blocks| - 1], ids - {last.id});
    }
  }

  // ---------------------------------------------------------------------
  // Routing of an exception

  /** The code block for the innermost handler, or the function's exception exit. */
  function ExceptionExitFromStack<C>(stack: Stack, blockMap: seq<(BlockId, C)>, exit: C): Option<C>
  {
    if stack == [] then Some(exit) else FindCode(blockMap, stack[|stack| - 1])
  }

  function FindCode<C>(blockMap: seq<(BlockId, C)>, id: BlockId): Option<C>
  {
    if blockMap == [] then None
    else if blockMap[0].0 == id then Some(blockMap[0].1)
    else FindCode(blockMap[1..], id)
  }

  /** Some block of code stands for `id`. */
  predicate HasCode<C>(blockMap: seq<(BlockId, C)>, id: BlockId)
  {
    exists i :: 0 <= i < |blockMap| && blockMap[i].0 == id
  }

  lemma {:induction false} FindCodeExact<C>(blockMap: seq<(BlockId, C)>, id: BlockId)
    ensures FindCode(blockMap, id).Some? <==> HasCode(blockMap, id)
    ensures FindCode(blockMap, id).Some? ==> (id, FindCode(blockMap, id).value) in blockMap
    ensures blockMap != [] && blockMap[0].0 == id ==> FindCode(blockMap, id) == Some(blockMap[0].1)
  {
    if blockMap != [] {
      var first, rest := blockMap[0], blockMap[1..];
      FindCodeExact(rest, id);
      assert blockMap == [first] + rest;
      assert first == (first.0, first.1);
      if i :| 0 <= i < |rest| && rest[i].0 == id {
        assert blockMap[i + 1].0 == id;
      }
    }
  }

  /**
   An exception at any point finds an exit exactly if no handler is active or the innermost one has
   code; the exit is then that code, and the handler expects the current stack.
   */
  lemma {:induction false} EveryExceptionIsRouted<C>(f: Function, entries: Entries, id: BlockId, k: nat, stack: Stack,
                                                     blockMap: seq<(BlockId, C)>, exit: C)
    requires UniqueIds(f) && Correct(f, Ok(entries)) && AtPoint(f, id, k, stack)
    ensures ExceptionExitFromStack(stack, blockMap, exit).Some? <==>
            stack == [] || HasCode(blockMap, stack[|stack| - 1])
    ensures stack == [] ==> ExceptionExitFromStack(stack, blockMap, exit) == Some(exit)
    ensures stack != [] ==> stack[|stack| - 1] in BlockMap(f) && Recorded(entries, Config(stack[|stack| - 1], stack))
    ensures stack != [] && ExceptionExitFromStack(stack, blockMap, exit).Some? ==>
              (stack[|stack| - 1], ExceptionExitFromStack(stack, blockMap, exit).value) in blockMap
  {
    if stack != [] {
      FindCodeExact(blockMap, stack[|stack| - 1]);
      HandlersExpectTheirStack(f, entries, id, k, stack, |stack|);
      assert stack[..|stack|] == stack;
      HandlerExists(f, entries, id, k, stack, |stack| - 1);
    }
  }

  /**
   A raise lands where an implicit exception at that point lands: its only edge leads to the innermost
   handler with the current stack, which the push that installed the handler has already recorded, and
   the exit found for the point is that handler's code. With no handler active it leaves the function.
   */
  lemma {:induction false} RaiseLandsInHandler<C>(f: Function, entries: Entries, id: BlockId, start: Stack,
                                                  blockMap: seq<(BlockId, C)>, exit: C)
    requires UniqueIds(f) && Correct(f, Ok(entries)) && Reachable(f, Config(id, start))
    requires id in BlockMap(f) && BlockMap(f)[id].term.RaiseTerm?
    ensures var b := BlockMap(f)[id];
            var stack := StackAfter(b.insts, start);
            if stack == [] then
              (forall c :: !TermEdge(b, start, c)) && ExceptionExitFromStack(stack, blockMap, exit) == Some(exit)
            else
              var handler := Config(stack[|stack| - 1], stack);
              && (forall c :: TermEdge(b, start, c) <==> c == handler)
              && Installed(f, handler) && Recorded(entries, handler)
              && (HasCode(blockMap, handler.block) ==>
                    ExceptionExitFromStack(stack, blockMap, exit).Some?
                    && (handler.block, ExceptionExitFromStack(stack, blockMap, exit).value) in blockMap)
  {
    var b := BlockMap(f)[id];
    var stack := StackAfter(b.insts, start);
    assert b.insts[..|b.insts|] == b.insts;
    assert AtPoint(f, id, |b.insts|, stack);
    if stack != [] {
      HandlersInstalledAtPoint(f, id, |b.insts|, stack);
      assert stack[..|stack|] == stack;
      InstalledReachable(f, Config(stack[|stack| - 1], stack));
      FindCodeExact(blockMap, stack[|stack| - 1]);
    }
  }

  /** Any other end leads to the normal successors, with the stack the block leaves behind. */
  lemma {:induction false} NormalEdges(b: Block, start: Stack, c: Config)
    requires !b.term.RaiseTerm?
    ensures TermEdge(b, start, c) <==> c.block in Successors(b.term) && c.stack == StackAfter(b.insts, start)
  {
  }

  /** A successor is entered with the stack its predecessor leaves behind. */
  lemma {:induction false} SuccessorsInherit(f: Function, entries: Entries, id: BlockId, next: BlockId)
    requires UniqueIds(f) && Correct(f, Ok(entries)) && id in entries && id in BlockMap(f)
    requires next in Successors(BlockMap(f)[id].term)
    ensures Recorded(entries, Config(next, StackAfter(BlockMap(f)[id].insts, entries[id])))
  {
    var b := BlockMap(f)[id];
    var from, to := Config(id, entries[id]), Config(next, StackAfter(b.insts, entries[id]));
    NormalEdges(b, entries[id], to);
    assert Reachable(f, from);
    ReachableStep(f, from, to);
  }

  // ---------------------------------------------------------------------
  // Pushes and pops nest

  /** Pushes less pops. */
  function Net(insts: seq<Inst>): int
  {
    if insts == [] then 0
    else
      var last := insts[|insts| - 1].kind;
      Net(insts[..|insts| - 1]) + if last.PushExcInfo? then 1 else if last.PopExcInfo? then -1 else 0
  }

  /** Nothing pops what was there before. */
  predicate Nested(insts: seq<Inst>)
  {
    forall k :: 0 <= k <= |insts| ==> Net(insts[..k]) >= 0
  }

  /** Such instructions leave the stack below alone and add one handler for each push not yet popped. */
  lemma {:induction false} NestedKeepsStack(insts: seq<Inst>, stack: Stack)
    requires Nested(insts)
    ensures stack <= StackAfter(insts, stack) && |StackAfter(insts, stack)| == |stack| + Net(insts)
  {
    assert insts[..|insts|] == insts;
    if insts != [] {
      var init, last := insts[..|insts| - 1], insts[|insts| - 1];
      assert forall k :: 0 <= k <= |init| ==> init[..k] == insts[..k];
      NestedKeepsStack(init, stack);
      var before, after := StackAfter(init, stack), StackAfter(insts, stack);
      if last.kind.PopExcInfo? {
        assert |before| > |stack| && after == before[..|before| - 1];
      }
    }
  }

  /** A pop with nothing installed does nothing. */
  lemma {:induction false} PopOfNothing(inst: Inst)
    requires inst.kind.PopExcInfo?
    ensures StackAfterInst(inst, []) == []
  {
  }
}
