/**
 * The public entry points of the iterator: `apply_limits`, `each_batch` with
 * and without a block, and `each`, stated against what one unbatched
 * `pluck` over the rows between `start` and `finish` would return.
 */
module Iteration {
  import opened Results
  import opened Keyset
  import opened Columns
  import opened Predicates
  import opened Arguments
  import opened Table
  import opened Engine
  import Reorder

  /**
   * `apply_limits`: the `start` condition, then the `finish` condition, each
   * only when given. Building either over an empty cursor column list fails.
   */
  function ApplyLimits(cursor: seq<string>, dirs: seq<Direction>, start: Option<seq<int>>, finish: Option<seq<int>>)
    : (r: Result<seq<Pred>, Error>)
    requires |dirs| == |cursor|
    ensures r.Err? <==> |cursor| == 0 && (start.Some? || finish.Some?)
    ensures r.Err? ==> r.error == NoCursorColumns
    ensures r.Ok? ==> |r.value| == (if start.Some? then 1 else 0) + (if finish.Some? then 1 else 0)
  {
    if |cursor| == 0 && (start.Some? || finish.Some?) then Err(NoCursorColumns)
    else
      Ok((if start.Some? then [BatchCondition(cursor, start.value, Operators(StartMode, dirs))] else []) +
         (if finish.Some? then [BatchCondition(cursor, finish.value, Operators(FinishMode, dirs))] else []))
  }

  /**
   * The cursor tuples `start` and `finish` are meant to admit: from `start`
   * on and up to `finish`, both included, in batch order. A bound shorter
   * than the cursor is compared on its prefix only, and strictly.
   */
  predicate InRange(dirs: seq<Direction>, key: seq<int>, start: Option<seq<int>>, finish: Option<seq<int>>)
  {
    && (start.Some? ==> Admits(StartMode, Compare(dirs, key, start.value), |start.value| >= |dirs|))
    && (finish.Some? ==> Admits(FinishMode, Compare(dirs, key, finish.value), |finish.value| >= |dirs|))
  }

  /** The rows whose cursor tuple is in range, in table order. */
  function Within(rows: seq<Record>, cursor: seq<string>, dirs: seq<Direction>, start: Option<seq<int>>, finish: Option<seq<int>>)
    : (r: seq<Record>)
    requires forall x :: x in rows ==> HasCursor(x, cursor)
    ensures forall x :: x in r ==> x in rows
  {
    if |rows| == 0 then []
    else
      (if InRange(dirs, Key(rows[0], cursor), start, finish) then [rows[0]] else []) +
      Within(rows[1..], cursor, dirs, start, finish)
  }

  /** A row passes the conditions `apply_limits` adds exactly when its cursor tuple is in range. */
  lemma LimitsMeaning(cursor: seq<string>, dirs: seq<Direction>, start: Option<seq<int>>, finish: Option<seq<int>>, rec: Record)
    requires |dirs| == |cursor| && HasCursor(rec, cursor)
    requires ApplyLimits(cursor, dirs, start, finish).Ok?
    ensures Satisfies(rec, ApplyLimits(cursor, dirs, start, finish).value) <==> InRange(dirs, Key(rec, cursor), start, finish)
  {
    var bounds := ApplyLimits(cursor, dirs, start, finish).value;
    if start.Some? {
      BatchConditionMeaning(StartMode, cursor, dirs, start.value, rec);
      assert bounds[0] == BatchCondition(cursor, start.value, Operators(StartMode, dirs));
    }
    if finish.Some? {
      BatchConditionMeaning(FinishMode, cursor, dirs, finish.value, rec);
      assert bounds[|bounds| - 1] == BatchCondition(cursor, finish.value, Operators(FinishMode, dirs));
    }
  }

  /** Filtering the table by the `apply_limits` conditions keeps exactly the rows in range. */
  lemma {:induction false} FilterWithin(rows: seq<Record>, cursor: seq<string>, dirs: seq<Direction>,
                                        start: Option<seq<int>>, finish: Option<seq<int>>)
    requires |dirs| == |cursor| && forall x :: x in rows ==> HasCursor(x, cursor)
    requires ApplyLimits(cursor, dirs, start, finish).Ok?
    ensures Filter(rows, ApplyLimits(cursor, dirs, start, finish).value) == Within(rows, cursor, dirs, start, finish)
    decreases |rows|
  {
    if |rows| > 0 {
      LimitsMeaning(cursor, dirs, start, finish, rows[0]);
      assert forall x :: x in rows[1..] ==> x in rows;
      FilterWithin(rows[1..], cursor, dirs, start, finish);
    }
  }

  /**
   * On one cursor column `start` and `finish` are inclusive bounds, read in
   * the column's own direction: on a descending column `start` is the larger one.
   */
  lemma OneColumnRange(k: int, lo: int, hi: int)
    ensures InRange([Asc], [k], Some([lo]), Some([hi])) <==> lo <= k <= hi
    ensures InRange([Desc], [k], Some([hi]), Some([lo])) <==> lo <= k <= hi
  {
    assert Compare([Asc], [k], [lo]) == CompareValue(Asc, k, lo);
    assert Compare([Asc], [k], [hi]) == CompareValue(Asc, k, hi);
    assert Compare([Desc], [k], [hi]) == CompareValue(Desc, k, hi);
    assert Compare([Desc], [k], [lo]) == CompareValue(Desc, k, lo);
  }

  /**
   * A `start` shorter than a composite cursor is padded with `nil` by `zip`,
   * and no row equals `nil`: the rows admitted are those strictly after the
   * given prefix, so the rows that share it are skipped.
   */
  lemma ShortStartIsStrict(a: int, b: int, s: int)
    ensures InRange([Asc, Asc], [a, b], Some([s]), None) <==> a > s
  {
    assert Compare([Asc, Asc], [a, b], [s]) == (if a == s then Compare([Asc], [b], []) else CompareValue(Asc, a, s));
  }

  /** The arguments of one `each_batch` / `each` call. */
  datatype Call = Call(
    columns: seq<ColumnRef>,
    start: Option<seq<int>>,     // `Array(start)`, or `nil`
    finish: Option<seq<int>>,    // `Array(finish)`, or `nil`
    batchSize: nat,
    errorOnIgnore: Option<bool>,
    cursor: seq<string>,         // `Array(cursor_column).map(&:to_s)`
    order: seq<OrderArg>)        // `Array(order)`

  /**
   * The relation iterated over and what the surrounding program holds: its
   * rows, its own LIMIT, whether it already has an ORDER BY, the configured
   * `error_on_ignored_order` default and whether a logger is set.
   */
  datatype Relation = Relation(
    rows: seq<Record>,
    naming: Naming,
    limit: Option<nat>,
    ordered: bool,
    configured: bool,
    hasLogger: bool)

  /** The direction `build_batch_orders` gives each cursor column. */
  function Dirs(call: Call): (dirs: seq<Direction>)
    ensures |dirs| == |call.cursor|
  {
    Directions(BuildBatchOrders(call.cursor, call.order))
  }

  /** `batch_orders.to_h`: the ORDER BY the batch relation is sorted by. */
  function ForcedOrder(call: Call): seq<(string, Direction)>
  {
    Reorder.ToH(BuildBatchOrders(call.cursor, call.order))
  }

  /**
   * The direction the database sorts each cursor column by: the one
   * `batch_orders.to_h` keeps for its name, which is the last one given to
   * that name. The advance condition uses these directions (see
   * `RepeatedColumnAsWritten` for the directions as written).
   */
  function SortedDirs(call: Call): (dirs: seq<Direction>)
    ensures |dirs| == |call.cursor|
  {
    Reorder.SortDirs(BuildBatchOrders(call.cursor, call.order))
  }

  /** Every row can be read in the requested and the cursor columns. */
  predicate Legible(rel: Relation, call: Call)
  {
    forall x :: x in rel.rows ==> Covers(x, call.columns) && Consistent(rel.naming, x, call.cursor)
  }

  /**
   * What the database provides: the rows are readable, and once the order is
   * valid and there is a cursor column, `reorder(batch_orders.to_h)` sorts
   * them strictly by their cursor tuples. With no cursor column nothing is
   * forced.
   */
  predicate Prepared(rel: Relation, call: Call)
  {
    && Legible(rel, call)
    && (ValidOrders(call.order) && |call.cursor| > 0 ==>
          SortedBy(rel.rows, Reorder.Names(ForcedOrder(call)), Directions(ForcedOrder(call))))
  }

  /** Sorted by the forced ORDER BY is sorted by the cursor columns in the directions it gives them. */
  lemma ForcedSorted(rel: Relation, call: Call)
    requires Prepared(rel, call) && ValidOrders(call.order) && |call.cursor| > 0
    ensures SortedBy(rel.rows, call.cursor, SortedDirs(call))
  {
    var bo := BuildBatchOrders(call.cursor, call.order);
    assert Reorder.Names(bo) == call.cursor;
    assert forall i :: 0 <= i < |rel.rows| ==> HasCursor(rel.rows[i], call.cursor) by {
      forall i | 0 <= i < |rel.rows| ensures HasCursor(rel.rows[i], call.cursor) {
        assert rel.rows[i] in rel.rows;
      }
    }
    forall i, j | 0 <= i < j < |rel.rows|
      ensures Compare(SortedDirs(call), Key(rel.rows[i], call.cursor), Key(rel.rows[j], call.cursor)) == Before
    {
      assert rel.rows[i] in rel.rows && rel.rows[j] in rel.rows;
      Reorder.SortDirsAgree(bo, rel.rows[i], rel.rows[j]);
    }
  }

  /** Without a cursor column named twice, the directions the database sorts by are those of `batch_orders`. */
  lemma DistinctCursorKeepsDirs(call: Call)
    requires forall i, j :: 0 <= i < j < |call.cursor| ==> call.cursor[i] != call.cursor[j]
    ensures SortedDirs(call) == Dirs(call)
  {
    Reorder.NoConflictKeeps(BuildBatchOrders(call.cursor, call.order));
  }

  /**
   * As written, the condition past a batch takes each cursor column's
   * direction from `batch_orders` position by position, while the rows come
   * sorted by `batch_orders.to_h`, which keeps a repeated column's last
   * direction. `cursor_column: [:id, :id], order: [:asc, :desc]` sorts by
   * `id DESC`. Only `id` is plucked, so the values read off the row with
   * id 4 are `[4]`, and `zip` pads the second position with `nil`: the
   * condition as written, `id > 4 OR (id = 4 AND id < NULL)`, admits the
   * row with id 5, which the database returned before that row, and
   * refuses the row with id 3, which comes after it.
   */
  lemma RepeatedColumnAsWritten()
    ensures var bo := BuildBatchOrders(["id", "id"], [AscArg, DescArg]);
            var r3, r5 := map[Named("id") := 3], map[Named("id") := 5];
            && Reorder.ToH(bo) == [("id", Desc)]
            && CursorValues([4], [0, 0]) == [4]
            && Compare([Desc], [5], [4]) == Before && Compare([Desc], [3], [4]) == After
            && Eval(BatchCondition(["id", "id"], [4], Operators(AdvanceMode, Directions(bo))), r5)
            && !Eval(BatchCondition(["id", "id"], [4], Operators(AdvanceMode, Directions(bo))), r3)
  {
    RepeatedColumnOrders();
    RepeatedColumnCondition([Asc, Desc]);
  }

  /** `batch_orders` for `[:id, :id]` with `[:asc, :desc]`, and what `to_h` makes of it. */
  lemma RepeatedColumnOrders()
    ensures var bo := BuildBatchOrders(["id", "id"], [AscArg, DescArg]);
            && Directions(bo) == [Asc, Desc]
            && Reorder.ToH(bo) == [("id", Desc)]
            && Reorder.SortDirs(bo) == [Desc, Desc]
  {
    var bo := BuildBatchOrders(["id", "id"], [AscArg, DescArg]);
    assert bo == [("id", Asc), ("id", Desc)];
    assert bo[..1] == [("id", Asc)];
    assert Reorder.ToH(bo[..1]) == [("id", Asc)] by {
      assert bo[..1][..0] == [];
    }
    assert Reorder.ToH(bo) == [("id", Desc)];
  }

  /**
   * The condition past the row with id 4 over `[:id, :id]`, for the
   * directions `dirs`, from the one value `[4]`: the second position
   * compares against `nil`.
   */
  lemma RepeatedColumnCondition(dirs: seq<Direction>)
    requires |dirs| == 2
    ensures BatchCondition(["id", "id"], [4], Operators(AdvanceMode, dirs)) ==
            Wrap(Position("id", Some(4), BoundOp(AdvanceMode, dirs[0])),
                 Cmp("id", StrictOf(BoundOp(StartMode, dirs[1])), None))
  {
    var ops := Operators(AdvanceMode, dirs);
    BatchConditionUnfold(["id", "id"], [4], ops);
    assert ["id", "id"][1..] == ["id"] && [4][1..] == [];
    assert Positions(["id", "id"], [4], ops)[0] == Position("id", Some(4), BoundOp(AdvanceMode, dirs[0]));
  }

  /** The same call with the directions the database sorts by: past id 4 come exactly the smaller ids. */
  lemma RepeatedColumnCorrected()
    ensures var bo := BuildBatchOrders(["id", "id"], [AscArg, DescArg]);
            var r3, r5 := map[Named("id") := 3], map[Named("id") := 5];
            && Reorder.SortDirs(bo) == [Desc, Desc]
            && !Eval(BatchCondition(["id", "id"], [4], Operators(AdvanceMode, Reorder.SortDirs(bo))), r5)
            && Eval(BatchCondition(["id", "id"], [4], Operators(AdvanceMode, Reorder.SortDirs(bo))), r3)
  {
    RepeatedColumnOrders();
    RepeatedColumnCondition([Desc, Desc]);
  }

  /** The rows between `start` and `finish`, cut by the relation's own LIMIT. */
  function InRangeRows(rel: Relation, call: Call): (r: seq<Record>)
    requires Legible(rel, call)
    ensures forall x :: x in r ==> x in rel.rows
  {
    var w := Within(rel.rows, call.cursor, Dirs(call), call.start, call.finish);
    if rel.limit.Some? then Take(rel.limit.value, w) else w
  }

  /** What one unbatched `pluck(*columns)` between `start` and `finish` returns. */
  function Wanted(rel: Relation, call: Call): seq<Value>
    requires Legible(rel, call) && |call.columns| > 0
  {
    Shapes(InRangeRows(rel, call), call.columns)
  }

  /**
   * The size block of the enumerator `each_batch` returns without a block:
   * one count of the rows in range under the relation's LIMIT, then
   * `(total - 1).div(batch_size) + 1`. No batch is fetched.
   */
  function SizeQuery(rel: Relation, call: Call): (r: Result<int, Error>)
    requires Legible(rel, call)
    ensures r.Err? <==> (|call.cursor| == 0 && (call.start.Some? || call.finish.Some?)) || call.batchSize == 0
    ensures |call.cursor| == 0 && (call.start.Some? || call.finish.Some?) ==> r == Err(NoCursorColumns)
    ensures r.Ok? ==> (r.value - 1) * call.batchSize < |InRangeRows(rel, call)| <= r.value * call.batchSize
  {
    match ApplyLimits(call.cursor, Dirs(call), call.start, call.finish)
    case Err(e) => Err(e)
    case Ok(bounds) =>
      FilterWithin(rel.rows, call.cursor, Dirs(call), call.start, call.finish);
      EnumeratorSize(|Selected(rel.rows, bounds, rel.limit)|, call.batchSize)
  }

  /**
   * What a call comes to: an error raised before anything was fetched, a lazy
   * enumerator (only its size can be asked for without iterating), or a run
   * that yielded items, warned or not about an ignored ORDER BY, and may have
   * failed part way.
   */
  datatype Outcome<T> =
    | Raised(error: Error)
    | Enumerator(size: Result<int, Error>)
    | Ran(warned: bool, yielded: seq<T>, fetches: nat, failure: Option<Error>)

  /** `ignored_order` raises on this call. */
  predicate RaisesOnOrder(rel: Relation, call: Call)
  {
    rel.ordered && IgnoredOrderReaction(call.errorOnIgnore, rel.configured, rel.hasLogger) == Raise
  }

  /** `ignored_order` logs its warning on this call. */
  predicate WarnsOnOrder(rel: Relation, call: Call)
  {
    rel.ordered && IgnoredOrderReaction(call.errorOnIgnore, rel.configured, rel.hasLogger) == Warn
  }

  /** What `ResolveCursorColumns` promises about its results for this call. */
  predicate Resolved(rel: Relation, call: Call, pluck: seq<ColumnRef>, indexes: seq<nat>, missing: nat)
  {
    && pluck == call.columns + AsColumns(Unresolved(rel.naming, call.columns, call.cursor))
    && missing == |pluck| - |call.columns|
    && |indexes| == |call.cursor|
    && (forall i :: 0 <= i < |call.cursor| ==>
          indexes[i] < |pluck| && Denotes(rel.naming, pluck[indexes[i]], call.cursor[i]))
  }

  /** The plan `each_batch` runs its loop on. */
  function PlanOf(rel: Relation, call: Call, pluck: seq<ColumnRef>, indexes: seq<nat>, missing: nat, bounds: seq<Pred>): Plan
  {
    Plan(rel.naming, call.columns, pluck, indexes, missing, call.cursor, SortedDirs(call), bounds, call.batchSize, rel.limit)
  }

  /** The resolved cursor columns make a plan the batch loop can run on this table. */
  lemma PlanReady(rel: Relation, call: Call, pluck: seq<ColumnRef>, indexes: seq<nat>, missing: nat, bounds: seq<Pred>)
    requires Prepared(rel, call) && ValidOrders(call.order) && |call.columns| > 0
    requires Resolved(rel, call, pluck, indexes, missing)
    ensures PlanOk(PlanOf(rel, call, pluck, indexes, missing, bounds))
    ensures Fits(rel.rows, PlanOf(rel, call, pluck, indexes, missing, bounds))
  {
    if |call.cursor| > 0 {
      ForcedSorted(rel, call);
    }
    var extra := Unresolved(rel.naming, call.columns, call.cursor);
    UnresolvedAreCursor(rel.naming, call.columns, call.cursor);
    forall j | |call.columns| <= j < |pluck|
      ensures pluck[j].Named? && pluck[j].name in call.cursor
    {
      assert pluck[j] == Named(extra[j - |call.columns|]);
    }
  }

  /** The loop's target is the unbatched pluck between `start` and `finish`. */
  lemma ExpectedIsWanted(rel: Relation, call: Call, pluck: seq<ColumnRef>, indexes: seq<nat>, missing: nat, bounds: seq<Pred>)
    requires Prepared(rel, call) && ValidOrders(call.order) && |call.columns| > 0
    requires Resolved(rel, call, pluck, indexes, missing)
    requires ApplyLimits(call.cursor, Dirs(call), call.start, call.finish) == Ok(bounds)
    ensures PlanOk(PlanOf(rel, call, pluck, indexes, missing, bounds))
    ensures Readable(rel.rows, PlanOf(rel, call, pluck, indexes, missing, bounds))
    ensures Expected(rel.rows, PlanOf(rel, call, pluck, indexes, missing, bounds)) == Wanted(rel, call)
    ensures SizeQuery(rel, call) == EnumeratorSize(|Wanted(rel, call)|, call.batchSize)
  {
    PlanReady(rel, call, pluck, indexes, missing, bounds);
    FilterWithin(rel.rows, call.cursor, Dirs(call), call.start, call.finish);
  }

  /** The batch loop on the plan for this call, stated in the call's own terms. */
  method RunLoop(rel: Relation, call: Call, pluck: seq<ColumnRef>, indexes: seq<nat>, missing: nat, bounds: seq<Pred>)
    returns (batches: seq<seq<Value>>, fetches: nat, failure: Option<Error>)
    requires Prepared(rel, call) && ValidOrders(call.order) && |call.columns| > 0
    requires Resolved(rel, call, pluck, indexes, missing)
    requires ApplyLimits(call.cursor, Dirs(call), call.start, call.finish) == Ok(bounds)
    ensures Flatten(batches) <= Wanted(rel, call)
    ensures failure.None? && call.batchSize > 0 ==> Flatten(batches) == Wanted(rel, call)
    ensures failure.None? && call.batchSize > 0 ==> SizeQuery(rel, call) == Ok(|batches|)
    ensures failure.Some? ==> failure == Some(NoCursorColumns) && |call.cursor| == 0 && |batches| == 1
    ensures failure.Some? <==>
              |call.cursor| == 0 && |batches| > 0 && |batches[|batches| - 1]| == BatchLimit(call.batchSize, rel.limit) &&
              !(rel.limit.Some? && |Flatten(batches)| == rel.limit.value)
    ensures |call.cursor| == 0 ==> |batches| <= 1
    ensures call.batchSize == 0 ==> batches == [] && fetches == 1
    ensures Bounded(batches, BatchLimit(call.batchSize, rel.limit)) && FullButLast(batches, BatchLimit(call.batchSize, rel.limit))
    ensures fetches == |batches| || fetches == |batches| + 1
    ensures fetches == |batches| + 1 <==>
              |batches| == 0 ||
              (failure.None? && |batches[|batches| - 1]| == BatchLimit(call.batchSize, rel.limit) &&
               !(rel.limit.Some? && |Flatten(batches)| == rel.limit.value))
  {
    PlanReady(rel, call, pluck, indexes, missing, bounds);
    ExpectedIsWanted(rel, call, pluck, indexes, missing, bounds);
    batches, fetches, failure := BatchLoop(rel.rows, PlanOf(rel, call, pluck, indexes, missing, bounds));
  }

  /**
   * `each_batch`. Arguments are checked first; without a block the call
   * returns an enumerator whose size is counted, not iterated; with one, an
   * ORDER BY already on the relation is refused or warned about, the
   * `start` / `finish` conditions are built, and the batch loop runs.
   *   - the batches, read one after the other, are a prefix of the
   *     unbatched pluck between `start` and `finish`, and all of it when the
   *     run did not fail and the batch size is positive;
   *   - the enumerator's size then equals the number of batches yielded.
   */
  method EachBatch(rel: Relation, call: Call, block: bool) returns (o: Outcome<seq<Value>>)
    requires Prepared(rel, call)
    ensures Validate(|call.columns|, call.order).Some? ==> o == Raised(Validate(|call.columns|, call.order).value)
    ensures Validate(|call.columns|, call.order).None? && !block ==> o == Enumerator(SizeQuery(rel, call))
    ensures o.Enumerator? ==> !block
    ensures o.Raised? && Validate(|call.columns|, call.order).None? ==>
              block && o.error == (if RaisesOnOrder(rel, call) then IgnoredOrder else NoCursorColumns)
    ensures block && Validate(|call.columns|, call.order).None? ==>
              (o.Raised? <==> RaisesOnOrder(rel, call) || ApplyLimits(call.cursor, Dirs(call), call.start, call.finish).Err?)
    ensures o.Ran? ==> block && |call.columns| > 0 && o.warned == WarnsOnOrder(rel, call)
    ensures o.Ran? ==> Flatten(o.yielded) <= Wanted(rel, call)
    ensures o.Ran? && o.failure.None? && call.batchSize > 0 ==> Flatten(o.yielded) == Wanted(rel, call)
    ensures o.Ran? && o.failure.None? && call.batchSize > 0 ==> SizeQuery(rel, call) == Ok(|o.yielded|)
    ensures o.Ran? && o.failure.Some? ==> o.failure == Some(NoCursorColumns) && |call.cursor| == 0 && |o.yielded| == 1
    ensures o.Ran? ==>
              (o.failure.Some? <==>
                 |call.cursor| == 0 && |o.yielded| > 0 && |o.yielded[|o.yielded| - 1]| == BatchLimit(call.batchSize, rel.limit) &&
                 !(rel.limit.Some? && |Flatten(o.yielded)| == rel.limit.value))
    ensures o.Ran? && |call.cursor| == 0 ==> |o.yielded| <= 1
    ensures o.Ran? && call.batchSize == 0 ==> o.yielded == [] && o.fetches == 1
    ensures o.Ran? ==> Bounded(o.yielded, BatchLimit(call.batchSize, rel.limit)) && FullButLast(o.yielded, BatchLimit(call.batchSize, rel.limit))
    ensures o.Ran? ==> o.fetches == |o.yielded| || o.fetches == |o.yielded| + 1
    ensures o.Ran? ==>
              (o.fetches == |o.yielded| + 1 <==>
                 |o.yielded| == 0 ||
                 (o.failure.None? && |o.yielded[|o.yielded| - 1]| == BatchLimit(call.batchSize, rel.limit) &&
                  !(rel.limit.Some? && |Flatten(o.yielded)| == rel.limit.value)))
  {
    var invalid := Validate(|call.columns|, call.order);
    if invalid.Some? {
      return Raised(invalid.value);
    }
    var pluck, indexes, missing := ResolveCursorColumns(rel.naming, call.columns, call.cursor);
    if !block {
      return Enumerator(SizeQuery(rel, call));
    }
    if RaisesOnOrder(rel, call) {
      return Raised(IgnoredOrder);
    }
    var limits := ApplyLimits(call.cursor, Dirs(call), call.start, call.finish);
    if limits.Err? {
      return Raised(limits.error);
    }
    var batches, fetches, failure := RunLoop(rel, call, pluck, indexes, missing, limits.value);
    return Ran(WarnsOnOrder(rel, call), batches, fetches, failure);
  }

  /**
   * The size block of the enumerator `each` returns without a block, as
   * written: it calls `build_batch_orders` with one argument where two are
   * expected (and would then call `apply_limits` with four where five are),
   * so asking for the size raises whatever the relation holds.
   */
  function EachSizeAsWritten(rel: Relation, call: Call): (r: Result<int, Error>)
    ensures r.Err?
  {
    Err(WrongArity)
  }

  /**
   * The size that block is evidently meant to report: the number of rows the
   * enumerator yields, counted between `start` and `finish` under the LIMIT.
   */
  function EachSize(rel: Relation, call: Call): (r: Result<int, Error>)
    requires Prepared(rel, call)
    ensures r.Err? <==> |call.cursor| == 0 && (call.start.Some? || call.finish.Some?)
    ensures r.Err? ==> r.error == NoCursorColumns
    ensures r.Ok? ==> r.value == |InRangeRows(rel, call)|
  {
    match ApplyLimits(call.cursor, Dirs(call), call.start, call.finish)
    case Err(e) => Err(e)
    case Ok(bounds) =>
      FilterWithin(rel.rows, call.cursor, Dirs(call), call.start, call.finish);
      Ok(|Selected(rel.rows, bounds, rel.limit)|)
  }

  /** Wherever a size can be counted at all, the size as written disagrees with it. */
  lemma EachSizeAsWrittenDiffers(rel: Relation, call: Call)
    requires Prepared(rel, call) && EachSize(rel, call).Ok?
    ensures EachSizeAsWritten(rel, call) != EachSize(rel, call)
  {
  }

  /**
   * The query count of an unfailed run, read off the number of rows it
   * yielded: one query per full batch, plus the one that came back short or
   * empty unless the LIMIT ran out on a full batch.
   */
  lemma RowsGiveFetches(batches: seq<seq<Value>>, bl: nat, limit: Option<nat>, fetches: nat)
    requires Bounded(batches, bl) && FullButLast(batches, bl)
    requires fetches == |batches| || fetches == |batches| + 1
    requires fetches == |batches| + 1 <==>
               |batches| == 0 ||
               (|batches[|batches| - 1]| == bl && !(limit.Some? && |Flatten(batches)| == limit.value))
    ensures bl == 0 ==> Flatten(batches) == [] && fetches == 1
    ensures bl > 0 ==>
              var n := |Flatten(batches)|;
              fetches == n / bl + (if n > 0 && n % bl == 0 && limit.Some? && n == limit.value then 0 else 1)
  {
    if |batches| > 0 {
      assert 0 < |batches[0]| <= bl;
      FlattenDivides(batches, bl);
    }
  }

  /**
   * `each`: at least one column, then, with a block, `each_batch` with every
   * batch handed on row by row; without one, an enumerator of rows whose
   * size is the number of rows the block form yields.
   */
  method Each(rel: Relation, call: Call, block: bool) returns (o: Outcome<Value>)
    requires Prepared(rel, call)
    ensures |call.columns| == 0 ==> o == Raised(NoColumns)
    ensures |call.columns| > 0 && !block ==> o == Enumerator(EachSize(rel, call))
    ensures block && Validate(|call.columns|, call.order).Some? ==> o == Raised(Validate(|call.columns|, call.order).value)
    ensures block && Validate(|call.columns|, call.order).None? ==>
              (o.Raised? <==> RaisesOnOrder(rel, call) || ApplyLimits(call.cursor, Dirs(call), call.start, call.finish).Err?)
    ensures block && Validate(|call.columns|, call.order).None? && o.Raised? ==>
              o.error == (if RaisesOnOrder(rel, call) then IgnoredOrder else NoCursorColumns)
    ensures block ==> !o.Enumerator?
    ensures o.Ran? ==> block && Validate(|call.columns|, call.order).None? && o.warned == WarnsOnOrder(rel, call)
    ensures o.Ran? && BatchLimit(call.batchSize, rel.limit) == 0 ==> o.yielded == [] && o.fetches == 1
    ensures o.Ran? && o.failure.Some? ==> o.fetches == 1
    ensures o.Ran? && o.failure.None? && BatchLimit(call.batchSize, rel.limit) > 0 ==>
              var bl := BatchLimit(call.batchSize, rel.limit);
              o.fetches == |o.yielded| / bl +
                (if |o.yielded| > 0 && |o.yielded| % bl == 0 && rel.limit.Some? && |o.yielded| == rel.limit.value then 0 else 1)
    ensures o.Ran? ==>
              (o.failure.Some? <==>
                 |call.cursor| == 0 && 0 < |o.yielded| == BatchLimit(call.batchSize, rel.limit) &&
                 !(rel.limit.Some? && |o.yielded| == rel.limit.value))
    ensures o.Ran? ==> o.yielded <= Wanted(rel, call)
    ensures o.Ran? && o.failure.None? && call.batchSize > 0 ==> o.yielded == Wanted(rel, call)
    ensures o.Ran? && o.failure.None? && call.batchSize > 0 ==> EachSize(rel, call) == Ok(|o.yielded|)
  {
    if |call.columns| == 0 {
      return Raised(NoColumns);
    }
    if !block {
      return Enumerator(EachSize(rel, call));
    }
    var batches := EachBatch(rel, call, true);
    match batches {
      case Raised(e) =>
        return Raised(e);
      case Enumerator(size) =>
        assert false;
      case Ran(warned, yielded, fetches, failure) =>
        if |call.cursor| == 0 && |yielded| == 1 {
          assert Flatten(yielded) == Flatten([]) + yielded[0];
        }
        if failure.None? {
          RowsGiveFetches(yielded, BatchLimit(call.batchSize, rel.limit), rel.limit, fetches);
        }
        o := Ran(warned, Flatten(yielded), fetches, failure);
    }
  }
}
