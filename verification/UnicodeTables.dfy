/**
 The compressed character tables: runs of equal or incrementing values, looked up by the
 code point, and the deduplicated pool of decompositions.
 */
module UnicodeTables {
  import opened Wrappers
  import opened SortedStrings

  // ---------------------------------------------------------------------
  // Runs that cover every code point

  /** `indexes[k]` names the value of the code points from `starts[k]` to the next start. */
  datatype RunTable = RunTable(starts: seq<nat>, indexes: seq<nat>, names: seq<string>)

  /** How many starts are not above `cp`; the starts are sorted. */
  function PartitionPoint(starts: seq<nat>, cp: nat): (n: nat)
    ensures n <= |starts|
  {
    if starts == [] then 0
    else if starts[|starts| - 1] <= cp then |starts|
    else PartitionPoint(starts[..|starts| - 1], cp)
  }

  /** The value of `cp`: that of the last run starting at or before it. */
  function ValueOf(table: RunTable, cp: nat): Option<string>
  {
    var n := PartitionPoint(table.starts, cp);
    if n == 0 || n > |table.indexes| || table.indexes[n - 1] >= |table.names| then None
    else Some(table.names[table.indexes[n - 1]])
  }

  function IndexOf(names: seq<string>, name: string): (k: nat)
    requires name in names
    ensures k < |names| && names[k] == name
  {
    if names[0] == name then 0 else IndexOf(names[1..], name) + 1
  }

  /** A run starts exactly where the value changes. */
  ghost predicate StartsAtChanges(starts: seq<nat>, values: seq<string>)
  {
    && (forall i, j :: 0 <= i < j < |starts| ==> starts[i] < starts[j])
    && (forall i :: 0 <= i < |starts| ==> starts[i] < |values|)
    && (forall cp: nat :: cp < |values| ==> (cp in starts <==> ChangesAt(values, cp)))
  }

  predicate ChangesAt(values: seq<string>, cp: nat)
    requires cp < |values|
  {
    cp == 0 || values[cp - 1] != values[cp]
  }

  ghost predicate ValuesKept(table: RunTable, values: seq<string>)
  {
    forall cp: nat :: cp < |values| ==> ValueOf(table, cp) == Some(values[cp])
  }

  lemma {:induction false} ExtendRun(table: RunTable, values: seq<string>)
    requires values != [] && |table.starts| == |table.indexes|
    requires StartsAtChanges(table.starts, values) && ValuesKept(table, values)
    ensures ValuesKept(table, values + [values[|values| - 1]])
    ensures StartsAtChanges(table.starts, values + [values[|values| - 1]])
  {
    var last := |values| - 1;
    var longer := values + [values[last]];
    assert ChangesAt(values, 0) && 0 in table.starts;
    assert ValueOf(table, last) == Some(values[last]);
    assert PartitionPoint(table.starts, last) == PartitionPoint(table.starts, last + 1) == |table.starts|;
  }

  lemma {:induction false} NewRunStarts(starts: seq<nat>, values: seq<string>, value: string)
    requires values != [] ==> values[|values| - 1] != value
    requires StartsAtChanges(starts, values)
    ensures StartsAtChanges(starts + [|values|], values + [value])
  {
    var longer := starts + [|values|];
    assert longer[|starts|] == |values|;
    forall cp: nat | cp < |values| + 1 ensures cp in longer <==> cp in starts || cp == |values| {
    }
  }

  lemma {:induction false} NewRunValues(table: RunTable, values: seq<string>, value: string)
    requires |table.starts| == |table.indexes| && value in table.names
    requires StartsAtChanges(table.starts, values) && ValuesKept(table, values)
    ensures ValuesKept(table.(starts := table.starts + [|values|],
                              indexes := table.indexes + [IndexOf(table.names, value)]),
                       values + [value])
  {
    var longer := table.(starts := table.starts + [|values|], indexes := table.indexes + [IndexOf(table.names, value)]);
    assert longer.starts[..|table.starts|] == table.starts;
    forall cp: nat | cp < |values| + 1 ensures ValueOf(longer, cp) == Some((values + [value])[cp]) {
      if cp < |values| {
        assert ValueOf(table, cp) == Some(values[cp]);
      }
    }
  }

  /** Every value is looked up as it was given, with no more runs than there are changes. */
  method RunsFull(values: seq<string>) returns (table: RunTable)
    ensures ValuesKept(table, values) && StartsAtChanges(table.starts, values)
    ensures |table.starts| == |table.indexes|
    ensures StrictlySorted(table.names) && forall v :: v in table.names <==> v in values
  {
    var names := SortDedup(values);
    SortDedupSorted(values);
    table := RunTable([], [], names);
    var prev: Option<string> := None;
    for cp := 0 to |values|
      invariant table.names == names && |table.starts| == |table.indexes|
      invariant prev == if cp == 0 then None else Some(values[cp - 1])
      invariant ValuesKept(table, values[..cp]) && StartsAtChanges(table.starts, values[..cp])
    {
      var v := values[cp];
      assert values[..cp + 1] == values[..cp] + [v];
      if prev != Some(v) {
        NewRunStarts(table.starts, values[..cp], v);
        NewRunValues(table, values[..cp], v);
        table := table.(starts := table.starts + [cp], indexes := table.indexes + [IndexOf(names, v)]);
        prev := Some(v);
      } else {
        ExtendRun(table, values[..cp]);
      }
    }
    assert values[..|values|] == values;
  }

  // ---------------------------------------------------------------------
  // Sparse runs

  /** Code points `start` to `end`; the value is `first`, or counts up from it. */
  datatype Run = Run(start: nat, end: nat, first: int)

  function RunValue(run: Run, rising: bool, cp: int): int
  {
    if rising then run.first + (cp - run.start) else run.first
  }

  /** The first `count` entries of the run. */
  function FirstEntries(run: Run, rising: bool, count: nat): seq<(nat, int)>
  {
    if count == 0 then []
    else
      var cp := run.start + count - 1;
      FirstEntries(run, rising, count - 1) + [(cp, RunValue(run, rising, cp))]
  }

  /** The entries a run stands for. */
  function RunEntries(run: Run, rising: bool): seq<(nat, int)>
  {
    if run.end < run.start then [] else FirstEntries(run, rising, run.end - run.start + 1)
  }

  function Entries(runs: seq<Run>, rising: bool): seq<(nat, int)>
  {
    if runs == [] then [] else Entries(runs[..|runs| - 1], rising) + RunEntries(runs[|runs| - 1], rising)
  }

  predicate KeysSorted(entries: seq<(nat, int)>)
  {
    forall i, j :: 0 <= i < j < |entries| ==> entries[i].0 < entries[j].0
  }

  predicate RunsSorted(runs: seq<Run>)
  {
    && (forall k :: 0 <= k < |runs| ==> runs[k].start <= runs[k].end)
    && (forall j, k :: 0 <= j < k < |runs| ==> runs[j].end < runs[k].start)
  }

  /** Could the entry have joined the run? */
  predicate Joins(run: Run, rising: bool, entry: (nat, int))
  {
    run.end + 1 == entry.0 && RunValue(run, rising, entry.0) == entry.1
  }

  /** No run could have been longer. */
  predicate RunsMaximal(runs: seq<Run>, rising: bool)
  {
    forall j, k :: 0 <= j < k < |runs| ==> !Joins(runs[j], rising, (runs[k].start, runs[k].first))
  }

  lemma {:induction false} RunGrows(run: Run, rising: bool, entry: (nat, int))
    requires run.start <= run.end && Joins(run, rising, entry)
    ensures RunEntries(run.(end := entry.0), rising) == RunEntries(run, rising) + [entry]
  {
    FirstEntriesOf(run, run.(end := entry.0), rising, run.end - run.start + 1);
  }

  lemma {:induction false} LongerRun(runs: seq<Run>, last: Run, rising: bool, entry: (nat, int))
    requires last.start <= last.end && Joins(last, rising, entry)
    ensures Entries(runs + [last.(end := entry.0)], rising) == Entries(runs + [last], rising) + [entry]
  {
    var x, y := Entries(runs, rising), RunEntries(last, rising);
    RunGrows(last, rising, entry);
    assert x + (y + [entry]) == (x + y) + [entry];
  }

  /** The end of a run does not matter to its entries up to there. */
  lemma {:induction false} FirstEntriesOf(a: Run, b: Run, rising: bool, count: nat)
    requires a.start == b.start && a.first == b.first
    ensures FirstEntries(a, rising, count) == FirstEntries(b, rising, count)
  {
    if count > 0 {
      FirstEntriesOf(a, b, rising, count - 1);
    }
  }

  /** A run stands for consecutive code points, with one value for all or with values one apart. */
  lemma {:induction false} RunEntriesExact(run: Run, rising: bool, i: nat)
    requires run.start + i <= run.end
    ensures |RunEntries(run, rising)| == run.end - run.start + 1
    ensures RunEntries(run, rising)[i] == (run.start + i, if rising then run.first + i else run.first)
  {
    FirstEntriesExact(run, rising, run.end - run.start + 1, i);
  }

  lemma {:induction false} FirstEntriesExact(run: Run, rising: bool, count: nat, i: nat)
    requires i < count
    ensures |FirstEntries(run, rising, count)| == count
    ensures FirstEntries(run, rising, count)[i] == (run.start + i, if rising then run.first + i else run.first)
  {
    if count > 1 {
      FirstEntriesExact(run, rising, count - 1, if i < count - 1 then i else 0);
    }
  }

  lemma {:induction false} SingleEntry(cp: nat, v: int, rising: bool)
    ensures RunEntries(Run(cp, cp, v), rising) == [(cp, v)]
  {
    assert FirstEntries(Run(cp, cp, v), rising, 0) == [];
    assert FirstEntries(Run(cp, cp, v), rising, 1) == [] + [(cp, v)];
  }

  /** The runs made of these entries. */
  ghost predicate Compressed(runs: seq<Run>, entries: seq<(nat, int)>, rising: bool)
  {
    && Entries(runs, rising) == entries && RunsSorted(runs) && RunsMaximal(runs, rising)
    && (runs == [] <==> entries == [])
    && (runs != [] ==> runs[|runs| - 1].end == entries[|entries| - 1].0)
  }

  lemma {:induction false} Lengthen(runs: seq<Run>, last: Run, entries: seq<(nat, int)>, rising: bool,
                                    entry: (nat, int))
    requires Compressed(runs + [last], entries, rising) && Joins(last, rising, entry)
    ensures Compressed(runs + [last.(end := entry.0)], entries + [entry], rising)
  {
    assert (runs + [last])[|runs|] == last;
    LongerRun(runs, last, rising, entry);
    LongerLast(runs, last, rising, entry.0);
  }

  lemma {:induction false} LongerLast(runs: seq<Run>, last: Run, rising: bool, end: nat)
    requires RunsSorted(runs + [last]) && RunsMaximal(runs + [last], rising) && last.end <= end
    ensures RunsSorted(runs + [last.(end := end)]) && RunsMaximal(runs + [last.(end := end)], rising)
  {
    var before, after := runs + [last], runs + [last.(end := end)];
    assert before[|runs|] == last;
    assert forall k :: 0 <= k < |after| ==> before[k].start == after[k].start && before[k].first == after[k].first;
    assert forall k :: 0 <= k < |after| - 1 ==> before[k] == after[k];
  }

  lemma {:induction false} NewSparseRun(runs: seq<Run>, entries: seq<(nat, int)>, rising: bool, entry: (nat, int))
    requires Compressed(runs, entries, rising) && (runs != [] ==> !Joins(runs[|runs| - 1], rising, entry))
    requires entries != [] ==> entries[|entries| - 1].0 < entry.0
    ensures Compressed(runs + [Run(entry.0, entry.0, entry.1)], entries + [entry], rising)
  {
    var run := Run(entry.0, entry.0, entry.1);
    SingleEntry(entry.0, entry.1, rising);
    forall j | 0 <= j < |runs| ensures runs[j].end < entry.0 && !Joins(runs[j], rising, entry) {
      if j < |runs| - 1 {
        assert runs[j].end < runs[|runs| - 1].start <= runs[|runs| - 1].end < entry.0;
      }
    }
  }

  /** The runs with one more entry: the last one grows, or a new one starts. */
  function Extended(runs: seq<Run>, rising: bool, entry: (nat, int)): seq<Run>
  {
    var last := |runs| - 1;
    if runs != [] && Joins(runs[last], rising, entry) then runs[..last] + [runs[last].(end := entry.0)]
    else runs + [Run(entry.0, entry.0, entry.1)]
  }

  lemma {:induction false} ExtendedCompresses(runs: seq<Run>, entries: seq<(nat, int)>, rising: bool, entry: (nat, int))
    requires Compressed(runs, entries, rising) && (entries != [] ==> entries[|entries| - 1].0 < entry.0)
    ensures Compressed(Extended(runs, rising, entry), entries + [entry], rising)
  {
    var last := |runs| - 1;
    if runs != [] && Joins(runs[last], rising, entry) {
      var init, run := runs[..last], runs[last];
      assert runs == init + [run];
      Lengthen(init, run, entries, rising, entry);
    } else {
      NewSparseRun(runs, entries, rising, entry);
    }
  }

  /** Sorted entries become sorted runs that stand for exactly these entries. */
  method Compress(entries: seq<(nat, int)>, rising: bool) returns (runs: seq<Run>)
    requires KeysSorted(entries)
    ensures Entries(runs, rising) == entries && RunsSorted(runs) && RunsMaximal(runs, rising)
  {
    runs := [];
    for i := 0 to |entries|
      invariant Compressed(runs, entries[..i], rising)
    {
      assert entries[..i + 1] == entries[..i] + [entries[i]];
      ExtendedCompresses(runs, entries[..i], rising, entries[i]);
      runs := Extended(runs, rising, entries[i]);
    }
    assert entries[..|entries|] == entries;
  }

  /** The run holding `cp`. */
  function RangeSearch(runs: seq<Run>, cp: nat): Option<Run>
  {
    if runs == [] then None
    else
      var last := runs[|runs| - 1];
      if last.start <= cp <= last.end then Some(last) else RangeSearch(runs[..|runs| - 1], cp)
  }

  function RangeValue(runs: seq<Run>, rising: bool, cp: nat): Option<int>
  {
    var run := RangeSearch(runs, cp);
    if run.None? then None else Some(RunValue(run.value, rising, cp))
  }

  lemma {:induction false} FirstEntriesHold(run: Run, rising: bool, count: nat, cp: nat, v: int)
    ensures (cp, v) in FirstEntries(run, rising, count) <==>
            run.start <= cp < run.start + count && v == RunValue(run, rising, cp)
  {
    if count > 0 {
      FirstEntriesHold(run, rising, count - 1, cp, v);
    }
  }

  lemma {:induction false} RunHolds(run: Run, rising: bool, cp: nat, v: int)
    requires run.start <= run.end
    ensures (cp, v) in RunEntries(run, rising) <==> run.start <= cp <= run.end && v == RunValue(run, rising, cp)
  {
    FirstEntriesHold(run, rising, run.end - run.start + 1, cp, v);
  }

  lemma {:induction false} BelowLast(runs: seq<Run>, rising: bool, cp: nat, v: int, bound: nat)
    requires (forall k :: 0 <= k < |runs| ==> runs[k].start <= runs[k].end < bound) && (cp, v) in Entries(runs, rising)
    ensures cp < bound
  {
    var k := |runs| - 1;
    RunHolds(runs[k], rising, cp, v);
    if (cp, v) !in RunEntries(runs[k], rising) {
      BelowLast(runs[..k], rising, cp, v, bound);
    }
  }

  /** Looking up a code point gives the value it was entered with, and nothing for any other. */
  lemma {:induction false} LookupExact(runs: seq<Run>, rising: bool, cp: nat, v: int)
    requires RunsSorted(runs)
    ensures RangeValue(runs, rising, cp) == Some(v) <==> (cp, v) in Entries(runs, rising)
  {
    if runs != [] {
      var k := |runs| - 1;
      LookupExact(runs[..k], rising, cp, v);
      RunHolds(runs[k], rising, cp, v);
      if (cp, v) in Entries(runs[..k], rising) {
        BelowLast(runs[..k], rising, cp, v, runs[k].start);
      }
    }
  }

  /** The nonzero entries of the table of combining classes. */
  function Nonzero(ccc: seq<nat>): seq<(nat, int)>
  {
    if ccc == [] then []
    else
      var k := |ccc| - 1;
      Nonzero(ccc[..k]) + if ccc[k] == 0 then [] else [(k, ccc[k])]
  }

  lemma {:induction false} NonzeroNext(ccc: seq<nat>, c: nat)
    ensures Nonzero(ccc + [c]) == Nonzero(ccc) + if c == 0 then [] else [(|ccc|, c)]
  {
    assert (ccc + [c])[..|ccc|] == ccc;
  }

  lemma {:induction false} NonzeroSorted(ccc: seq<nat>)
    ensures KeysSorted(Nonzero(ccc))
    ensures forall i :: 0 <= i < |Nonzero(ccc)| ==> Nonzero(ccc)[i].0 < |ccc|
  {
    if ccc != [] {
      var init, c := ccc[..|ccc| - 1], ccc[|ccc| - 1];
      assert ccc == init + [c];
      NonzeroSorted(init);
      NonzeroNext(init, c);
    }
  }

  lemma {:induction false} NonzeroExact(ccc: seq<nat>, cp: nat, v: int)
    ensures (cp, v) in Nonzero(ccc) <==> cp < |ccc| && ccc[cp] == v && v != 0
  {
    if ccc != [] {
      var init, c := ccc[..|ccc| - 1], ccc[|ccc| - 1];
      assert ccc == init + [c];
      NonzeroExact(init, cp, v);
      NonzeroNext(init, c);
    }
  }

  /** Combining classes survive: zero is what is not in any run. */
  method CombiningRuns(ccc: seq<nat>) returns (runs: seq<Run>)
    ensures RunsSorted(runs) && RunsMaximal(runs, false) && Entries(runs, false) == Nonzero(ccc)
    ensures forall cp: nat :: cp < |ccc| ==>
              RangeValue(runs, false, cp) == if ccc[cp] == 0 then None else Some(ccc[cp])
  {
    NonzeroSorted(ccc);
    runs := Compress(Nonzero(ccc), false);
    forall cp: nat | cp < |ccc|
      ensures RangeValue(runs, false, cp) == if ccc[cp] == 0 then None else Some(ccc[cp])
    {
      LookupExact(runs, false, cp, ccc[cp]);
      NonzeroExact(ccc, cp, ccc[cp]);
      var found := RangeValue(runs, false, cp);
      if found.Some? {
        LookupExact(runs, false, cp, found.value);
        NonzeroExact(ccc, cp, found.value);
      }
    }
  }

  // ---------------------------------------------------------------------
  // The pool of decompositions

  const LENGTH_LIMIT: nat := 32
  const OFFSET_LIMIT: nat := 0x800_0000

  function Pack(offset: nat, length: nat): nat
  {
    offset * LENGTH_LIMIT + length
  }

  /** The slice of the pool a packed word stands for. */
  function Unpack(pool: seq<nat>, packed: nat): Option<seq<nat>>
  {
    var offset, length := packed / LENGTH_LIMIT, packed % LENGTH_LIMIT;
    if offset + length > |pool| then None else Some(pool[offset..offset + length])
  }

  /** A packed word has the length in its low five bits and the offset above; in range it fits 32 bits. */
  lemma {:induction false} PackExact(offset: nat, length: nat)
    requires length < 32
    ensures Pack(offset, length) % 32 == length && Pack(offset, length) / 32 == offset
    ensures LENGTH_LIMIT == 32
    ensures Pack(offset, length) < 0x1_0000_0000 <==> offset < OFFSET_LIMIT
  {
  }

  lemma {:induction false} PackUnpacks(pool: seq<nat>, offset: nat, s: seq<nat>)
    requires |s| < LENGTH_LIMIT && offset + |s| <= |pool| && pool[offset..offset + |s|] == s
    ensures Unpack(pool, Pack(offset, |s|)) == Some(s)
  {
    assert Pack(offset, |s|) / LENGTH_LIMIT == offset && Pack(offset, |s|) % LENGTH_LIMIT == |s|;
  }

  /** What a word stands for does not change when the pool grows. */
  lemma {:induction false} UnpackStable(pool: seq<nat>, more: seq<nat>, packed: nat)
    requires Unpack(pool, packed).Some?
    ensures Unpack(pool + more, packed) == Unpack(pool, packed)
  {
    var offset, length := packed / LENGTH_LIMIT, packed % LENGTH_LIMIT;
    assert (pool + more)[offset..offset + length] == pool[offset..offset + length];
  }

  /** The pooled data, and where each sequence already asked for starts. */
  datatype Pool = Pool(data: seq<nat>, index: map<seq<nat>, nat>)

  const EMPTY: Pool := Pool([], map[])

  predicate At(data: seq<nat>, offset: nat, s: seq<nat>)
  {
    offset + |s| <= |data| && data[offset..offset + |s|] == s
  }

  ghost predicate ValidPool(p: Pool)
  {
    forall s :: s in p.index ==> At(p.data, p.index[s], s)
  }

  /** A sequence is put at the end of the pool, unless it was asked for before. */
  function Store(p: Pool, s: seq<nat>): (r: Pool)
    ensures s in r.index
  {
    if s in p.index then p else Pool(p.data + s, p.index[s := |p.data|])
  }

  function StoreAll(p: Pool, sequences: seq<seq<nat>>): Pool
  {
    if sequences == [] then p
    else Store(StoreAll(p, sequences[..|sequences| - 1]), sequences[|sequences| - 1])
  }

  /** Length and offset of the sequence fit the packed word. */
  predicate Fits(p: Pool, s: seq<nat>)
  {
    |s| < LENGTH_LIMIT && Store(p, s).index[s] < OFFSET_LIMIT
  }

  predicate AllFit(p: Pool, sequences: seq<seq<nat>>)
  {
    sequences == [] ||
    var init := sequences[..|sequences| - 1];
    AllFit(p, init) && Fits(StoreAll(p, init), sequences[|sequences| - 1])
  }

  lemma {:induction false} StoreValid(p: Pool, s: seq<nat>)
    requires ValidPool(p)
    ensures ValidPool(Store(p, s)) && p.data <= Store(p, s).data
  {
    var r := Store(p, s);
    forall t | t in r.index ensures At(r.data, r.index[t], t) {
      if t in p.index && s !in p.index {
        assert At(p.data, p.index[t], t);
        assert r.data[p.index[t]..p.index[t] + |t|] == p.data[p.index[t]..p.index[t] + |t|];
      }
    }
  }

  class PoolBuilder {
    var pool: seq<nat>
    var index: map<seq<nat>, nat>

    ghost function State(): Pool
      reads this
    {
      Pool(pool, index)
    }

    ghost predicate Valid()
      reads this
    {
      ValidPool(State())
    }

    constructor ()
      ensures Valid() && State() == EMPTY
    {
      pool, index := [], map[];
    }

    /** The packed slice of `s`, or nothing where the generator's assertion fails. */
    method PoolSlice(s: seq<nat>) returns (packed: Option<nat>)
      requires Valid()
      modifies this
      ensures Valid() && State() == Store(old(State()), s) && old(pool) <= pool
      ensures packed.Some? <==> Fits(old(State()), s)
      ensures packed.Some? ==> packed.value < 0x1_0000_0000 && Unpack(pool, packed.value) == Some(s)
    {
      StoreValid(State(), s);
      if s !in index {
        index, pool := index[s := |pool|], pool + s;
      }
      var offset := index[s];
      assert At(pool, offset, s);
      if |s| >= LENGTH_LIMIT || offset >= OFFSET_LIMIT {
        return None;
      }
      PackUnpacks(pool, offset, s);
      packed := Some(Pack(offset, |s|));
    }
  }

  /** Every word of the table stands for its sequence in this pool. */
  ghost predicate Decodes(pool: seq<nat>, slices: seq<nat>, sequences: seq<seq<nat>>)
  {
    |slices| == |sequences| && forall i :: 0 <= i < |slices| ==> Unpack(pool, slices[i]) == Some(sequences[i])
  }

  lemma {:induction false} DecodesStable(pool: seq<nat>, larger: seq<nat>, slices: seq<nat>, sequences: seq<seq<nat>>)
    requires Decodes(pool, slices, sequences) && pool <= larger
    ensures Decodes(larger, slices, sequences)
  {
    var more := larger[|pool|..];
    assert larger == pool + more;
    forall i | 0 <= i < |slices| ensures Unpack(larger, slices[i]) == Some(sequences[i]) {
      UnpackStable(pool, more, slices[i]);
    }
  }

  lemma {:induction false} DecodesSnoc(pool: seq<nat>, slices: seq<nat>, sequences: seq<seq<nat>>, word: nat,
                                       s: seq<nat>)
    requires Decodes(pool, slices, sequences) && Unpack(pool, word) == Some(s)
    ensures Decodes(pool, slices + [word], sequences + [s])
  {
  }

  lemma {:induction false} AllFitPrefix(p: Pool, sequences: seq<seq<nat>>, k: nat)
    requires k <= |sequences| && AllFit(p, sequences)
    ensures AllFit(p, sequences[..k])
  {
    if k < |sequences| {
      var init := sequences[..|sequences| - 1];
      assert init[..k] == sequences[..k];
      AllFitPrefix(p, init, k);
    } else {
      assert sequences[..k] == sequences;
    }
  }

  lemma {:induction false} StoreNext(p: Pool, sequences: seq<seq<nat>>, s: seq<nat>)
    ensures StoreAll(p, sequences + [s]) == Store(StoreAll(p, sequences), s)
    ensures AllFit(p, sequences + [s]) <==> AllFit(p, sequences) && Fits(StoreAll(p, sequences), s)
  {
    assert (sequences + [s])[..|sequences|] == sequences;
  }

  /** The sequences so far are stored in `p`, and the words stand for them. */
  ghost predicate Stored(start: Pool, p: Pool, words: seq<nat>, sequences: seq<seq<nat>>)
  {
    && p == StoreAll(start, sequences) && AllFit(start, sequences)
    && start.data <= p.data && Decodes(p.data, words, sequences)
  }

  lemma {:induction false} StoredNext(start: Pool, p: Pool, words: seq<nat>, sequences: seq<seq<nat>>,
                                      s: seq<nat>, word: nat)
    requires Stored(start, p, words, sequences) && Fits(p, s)
    requires p.data <= Store(p, s).data && Unpack(Store(p, s).data, word) == Some(s)
    ensures Stored(start, Store(p, s), words + [word], sequences + [s])
  {
    StoreNext(start, sequences, s);
    DecodesStable(p.data, Store(p, s).data, words, sequences);
    DecodesSnoc(Store(p, s).data, words, sequences, word, s);
  }

  lemma {:induction false} MisfitStands(start: Pool, sequences: seq<seq<nat>>, k: nat)
    requires k < |sequences| && !Fits(StoreAll(start, sequences[..k]), sequences[k])
    ensures !AllFit(start, sequences)
  {
    assert sequences[..k + 1] == sequences[..k] + [sequences[k]];
    StoreNext(start, sequences[..k], sequences[k]);
    if AllFit(start, sequences) {
      AllFitPrefix(start, sequences, k + 1);
    }
  }

  /** One table's slices, in a pool that other tables share; it fails exactly if a sequence does not fit. */
  method AddTable(builder: PoolBuilder, sequences: seq<seq<nat>>) returns (slices: Option<seq<nat>>)
    requires builder.Valid()
    modifies builder
    ensures builder.Valid() && old(builder.pool) <= builder.pool
    ensures slices.Some? <==> AllFit(old(builder.State()), sequences)
    ensures slices.Some? ==> builder.State() == StoreAll(old(builder.State()), sequences)
    ensures slices.Some? ==> Decodes(builder.pool, slices.value, sequences)
  {
    var words: seq<nat> := [];
    ghost var start := builder.State();
    for i := 0 to |sequences|
      invariant builder.Valid() && Stored(start, builder.State(), words, sequences[..i])
    {
      ghost var before := builder.State();
      var packed := builder.PoolSlice(sequences[i]);
      if packed.None? {
        MisfitStands(start, sequences, i);
        return None;
      }
      assert sequences[..i + 1] == sequences[..i] + [sequences[i]];
      StoredNext(start, before, words, sequences[..i], sequences[i], packed.value);
      words := words + [packed.value];
    }
    assert sequences[..|sequences|] == sequences;
    slices := Some(words);
  }

  /** Both decomposition tables decode from the one pool as it is in the end. */
  method BuildTables(nfd: seq<seq<nat>>, nfkd: seq<seq<nat>>) returns (r: Option<(seq<nat>, seq<nat>, seq<nat>)>)
    ensures r.Some? <==> AllFit(EMPTY, nfd) && AllFit(StoreAll(EMPTY, nfd), nfkd)
    ensures r.Some? ==> r.value.0 == StoreAll(StoreAll(EMPTY, nfd), nfkd).data
    ensures r.Some? ==> Decodes(r.value.0, r.value.1, nfd) && Decodes(r.value.0, r.value.2, nfkd)
  {
    var builder := new PoolBuilder();
    var first := AddTable(builder, nfd);
    if first.None? {
      return None;
    }
    ghost var before := builder.pool;
    var second := AddTable(builder, nfkd);
    if second.None? {
      return None;
    }
    DecodesStable(before, builder.pool, first.value, nfd);
    r := Some((builder.pool, first.value, second.value));
  }

  // ---------------------------------------------------------------------
  // Tables that certainly fit

  ghost predicate AllShort(sequences: seq<seq<nat>>)
  {
    forall i :: 0 <= i < |sequences| ==> |sequences[i]| < LENGTH_LIMIT
  }

  function TotalLength(sequences: seq<seq<nat>>): nat
  {
    if sequences == [] then 0 else TotalLength(sequences[..|sequences| - 1]) + |sequences[|sequences| - 1]|
  }

  /** Short sequences fit as long as all of them together stay below the largest offset. */
  lemma {:induction false} SmallTablesFit(p: Pool, sequences: seq<seq<nat>>)
    requires ValidPool(p) && AllShort(sequences) && |p.data| + TotalLength(sequences) < OFFSET_LIMIT
    ensures AllFit(p, sequences) && ValidPool(StoreAll(p, sequences))
    ensures |StoreAll(p, sequences).data| <= |p.data| + TotalLength(sequences)
  {
    if sequences != [] {
      var init, s := sequences[..|sequences| - 1], sequences[|sequences| - 1];
      SmallTablesFit(p, init);
      var mid := StoreAll(p, init);
      StoreValid(mid, s);
      assert At(Store(mid, s).data, Store(mid, s).index[s], s);
    }
  }
}
