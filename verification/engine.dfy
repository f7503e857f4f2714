/** The batch loop of `Iterator#each_batch`. */
module Engine {
  import opened Results
  import opened Keyset
  import opened Columns
  import opened Predicates
  import opened Arguments
  import opened Table

  /** A value handed to the caller: a bare scalar when one column was requested, else an array. */
  datatype Value = Scalar(v: int) | Tuple(vs: seq<int>)

  /** What a single unbatched `pluck(*columns)` returns for one row. */
  function Shape(rec: Record, columns: seq<ColumnRef>): Value
    requires |columns| > 0 && Covers(rec, columns)
  {
    if |columns| == 1 then Scalar(rec[columns[0]]) else Tuple(Pluck(rec, columns))
  }

  function Shapes(rows: seq<Record>, columns: seq<ColumnRef>): (r: seq<Value>)
    requires |columns| > 0 && forall x :: x in rows ==> Covers(x, columns)
    ensures |r| == |rows|
  {
    seq(|rows|, i requires 0 <= i < |rows| => Shape(rows[i], columns))
  }

  /** `missing.times { batch.each(&:pop) }`, then `flatten!(1)` when one column was requested. */
  function PostProcess(row: seq<int>, missing: nat, single: bool): (v: Value)
    requires |row| > missing
    ensures single ==> v == Scalar(row[0])
    ensures !single ==> v.Tuple? && |v.vs| == |row| - missing && forall i :: 0 <= i < |v.vs| ==> v.vs[i] == row[i]
  {
    var kept := row[..|row| - missing];
    if single then Scalar(kept[0]) else Tuple(kept)
  }

  /** All batches one after the other: the rows the caller saw, in order. */
  function Flatten(batches: seq<seq<Value>>): seq<Value>
  {
    if |batches| == 0 then [] else Flatten(batches[..|batches| - 1]) + batches[|batches| - 1]
  }

  /** Everything `each_batch` has settled before its loop starts. */
  datatype Plan = Plan(
    naming: Naming,
    columns: seq<ColumnRef>,   // as requested
    pluck: seq<ColumnRef>,     // requested, then the appended cursor columns
    indexes: seq<nat>,         // where each cursor column sits in `pluck`
    missing: nat,              // how many cursor columns were appended
    cursor: seq<string>,
    dirs: seq<Direction>,
    bounds: seq<Pred>,         // the `start` / `finish` conditions
    batchSize: nat,
    limit: Option<nat>)        // the relation's own LIMIT

  /**
   * The facts the cursor-column resolution establishes: the pluck list is the
   * requested columns followed by `missing` cursor columns, and every cursor
   * column has an index into it that reads one of its spellings.
   */
  predicate PlanOk(plan: Plan)
  {
    && |plan.columns| > 0
    && |plan.dirs| == |plan.cursor| == |plan.indexes|
    && |plan.pluck| == |plan.columns| + plan.missing
    && (forall j :: 0 <= j < |plan.columns| ==> plan.pluck[j] == plan.columns[j])
    && (forall j :: |plan.columns| <= j < |plan.pluck| ==> plan.pluck[j].Named? && plan.pluck[j].name in plan.cursor)
    && (forall i :: 0 <= i < |plan.cursor| ==>
          plan.indexes[i] < |plan.pluck| && Denotes(plan.naming, plan.pluck[plan.indexes[i]], plan.cursor[i]))
  }

  /**
   * The relation's rows as the database returns them: each one carries the
   * requested and the cursor columns, and they are sorted by the forced
   * order. With no cursor column nothing is forced (`reorder({})`), and the
   * rows come in the table's own order.
   */
  predicate Snapshot(rows: seq<Record>, naming: Naming, columns: seq<ColumnRef>, cursor: seq<string>, dirs: seq<Direction>)
  {
    && (forall x :: x in rows ==> Covers(x, columns) && Consistent(naming, x, cursor))
    && (|cursor| > 0 ==> SortedBy(rows, cursor, dirs))
  }

  predicate Fits(rows: seq<Record>, plan: Plan)
  {
    Snapshot(rows, plan.naming, plan.columns, plan.cursor, plan.dirs)
  }

  /** Every row can be read in the requested columns and in the cursor columns. */
  predicate Readable(rows: seq<Record>, plan: Plan)
  {
    forall x :: x in rows ==> Covers(x, plan.columns) && HasCursor(x, plan.cursor)
  }

  /** `batch_limit`: the batch size, lowered to the relation's LIMIT when that is smaller. */
  function BatchLimit(batchSize: nat, limit: Option<nat>): (bl: nat)
    ensures bl <= batchSize && (limit.Some? ==> bl <= limit.value)
    ensures bl == batchSize || (limit.Some? && bl == limit.value)
  {
    if limit.Some? && limit.value < batchSize then limit.value else batchSize
  }

  /** The rows one unbatched query would return: `start`/`finish`-filtered, then cut by the LIMIT. */
  function Selected(rows: seq<Record>, bounds: seq<Pred>, limit: Option<nat>): seq<Record>
  {
    var all := Filter(rows, bounds);
    if limit.Some? then Take(limit.value, all) else all
  }

  function Expected(rows: seq<Record>, plan: Plan): seq<Value>
    requires PlanOk(plan) && Readable(rows, plan)
  {
    Shapes(Selected(rows, plan.bounds, plan.limit), plan.columns)
  }

  /** `relation.where(preds).limit(limit).pluck(*pluck)` on the sorted table. */
  function Fetch(rows: seq<Record>, preds: seq<Pred>, limit: nat, pluck: seq<ColumnRef>): (raw: seq<seq<int>>)
    requires forall x :: x in rows ==> Covers(x, pluck)
    ensures |raw| <= limit
    ensures forall i :: 0 <= i < |raw| ==> |raw[i]| == |pluck|
  {
    var sel := Take(limit, Filter(rows, preds));
    seq(|sel|, i requires 0 <= i < |sel| => Pluck(sel[i], pluck))
  }

  /**
   * `adv` selects exactly the rows whose cursor tuple is strictly after the
   * one of `bound` in batch order.
   */
  predicate Past(rows: seq<Record>, plan: Plan, adv: Pred, bound: Record)
    requires Readable(rows, plan) && HasCursor(bound, plan.cursor)
  {
    PastKey(rows, plan.cursor, plan.dirs, adv, Key(bound, plan.cursor))
  }

  /** Every batch holds between 1 and `bl` rows. */
  predicate Bounded(batches: seq<seq<Value>>, bl: nat)
  {
    forall i :: 0 <= i < |batches| ==> 0 < |batches[i]| <= bl
  }

  /** Every batch but possibly the last holds exactly `bl` rows. */
  predicate FullButLast(batches: seq<seq<Value>>, bl: nat)
  {
    forall i :: 0 <= i < |batches| - 1 ==> |batches[i]| == bl
  }

  /** The condition for the batch after the one whose last row has the cursor values `values`. */
  function AdvanceCondition(plan: Plan, values: seq<int>): Pred
    requires PlanOk(plan) && |plan.cursor| > 0
  {
    BatchCondition(plan.cursor, values, Operators(AdvanceMode, plan.dirs))
  }

  /** The cursor values read off a plucked row, `cursor_column_offsets`. */
  function RowValues(plan: Plan, row: seq<int>): seq<int>
    requires PlanOk(plan) && |row| == |plan.pluck|
  {
    CursorValues(row, plan.indexes)
  }

  /** The appended cursor columns can be plucked from any row of the table. */
  lemma CoversPluck(rows: seq<Record>, plan: Plan)
    requires PlanOk(plan) && Fits(rows, plan)
    ensures forall x :: x in rows ==> Covers(x, plan.pluck)
  {
    forall x | x in rows ensures Covers(x, plan.pluck) {
      forall j | 0 <= j < |plan.pluck| ensures plan.pluck[j] in x {
        if j >= |plan.columns| {
          var i :| 0 <= i < |plan.cursor| && plan.cursor[i] == plan.pluck[j].name;
          assert HasCursor(x, plan.cursor);
        }
      }
    }
  }

  /** Unresolved columns are cursor columns. */
  lemma {:induction false} UnresolvedAreCursor(n: Naming, cols: seq<ColumnRef>, cursor: seq<string>)
    ensures forall c :: c in Unresolved(n, cols, cursor) ==> c in cursor
    decreases |cursor|
  {
    if |cursor| > 0 {
      UnresolvedAreCursor(n, cols, cursor[..|cursor| - 1]);
    }
  }

  /**
   * Stripping the appended cursor columns from a plucked row and flattening a
   * single column gives back exactly what plucking the requested columns gives.
   */
  lemma PostProcessRoundTrip(rec: Record, plan: Plan)
    requires PlanOk(plan) && Covers(rec, plan.pluck)
    ensures |Pluck(rec, plan.pluck)| > plan.missing
    ensures Covers(rec, plan.columns)
    ensures PostProcess(Pluck(rec, plan.pluck), plan.missing, |plan.columns| == 1) == Shape(rec, plan.columns)
  {
    assert Pluck(rec, plan.pluck)[..|plan.columns|] == Pluck(rec, plan.columns);
  }

  /**
   * The cursor tuple read off a plucked row is that row's cursor tuple. With
   * a single plucked column it is that one value, and then every cursor
   * column is a spelling of it, so the row's cursor tuple repeats it.
   */
  lemma CursorOfLastRow(rec: Record, plan: Plan)
    requires PlanOk(plan) && Covers(rec, plan.pluck) && Consistent(plan.naming, rec, plan.cursor)
    ensures |plan.pluck| > 1 || |plan.cursor| == 1 ==>
              CursorValues(Pluck(rec, plan.pluck), plan.indexes) == Key(rec, plan.cursor)
    ensures |plan.pluck| == 1 && |plan.cursor| > 0 ==>
              CursorValues(Pluck(rec, plan.pluck), plan.indexes) == Key(rec, plan.cursor)[..1] &&
              Constant(Key(rec, plan.cursor))
  {
    var row := Pluck(rec, plan.pluck);
    var key := Key(rec, plan.cursor);
    forall i | 0 <= i < |plan.cursor| ensures row[plan.indexes[i]] == key[i] {
      var p := plan.pluck[plan.indexes[i]];
      assert p in rec;
      assert Denotes(plan.naming, p, plan.cursor[i]);
    }
    if |plan.pluck| == 1 {
      assert forall i :: 0 <= i < |plan.cursor| ==> plan.indexes[i] == 0;
    }
  }

  /**
   * The advance condition built from the last row of a batch selects exactly
   * the rows whose cursor tuple is strictly after that row's in batch order.
   */
  lemma AdvanceMeaning(plan: Plan, last: Record, x: Record)
    requires PlanOk(plan) && |plan.cursor| > 0
    requires Covers(last, plan.pluck) && Consistent(plan.naming, last, plan.cursor)
    requires Covers(x, plan.pluck) && Consistent(plan.naming, x, plan.cursor)
    ensures Eval(AdvanceCondition(plan, RowValues(plan, Pluck(last, plan.pluck))), x) <==>
            Compare(plan.dirs, Key(x, plan.cursor), Key(last, plan.cursor)) == After
  {
    var values := CursorValues(Pluck(last, plan.pluck), plan.indexes);
    CursorOfLastRow(last, plan);
    CursorOfLastRow(x, plan);
    BatchConditionMeaning(AdvanceMode, plan.cursor, plan.dirs, values, x);
    if |plan.pluck| == 1 && |plan.cursor| > 1 {
      ConstantComparesOnFirst(plan.dirs, Key(x, plan.cursor), Key(last, plan.cursor));
    }
  }

  /**
   * The query for the next batch, `start`/`finish` plus the advance condition
   * past the `pos`-th selected row, selects exactly the rows not yet seen.
   */
  lemma NextQuery(rows: seq<Record>, plan: Plan, advance: Option<seq<int>>, pos: nat)
    requires PlanOk(plan) && Readable(rows, plan) && (|plan.cursor| > 0 ==> SortedBy(rows, plan.cursor, plan.dirs))
    requires pos <= |Filter(rows, plan.bounds)|
    requires pos == 0 ==> advance.None?
    requires pos > 0 ==> advance.Some? && |plan.cursor| > 0 &&
                         Past(rows, plan, AdvanceCondition(plan, advance.value), Filter(rows, plan.bounds)[pos - 1])
    ensures Filter(rows, Query(plan, advance)) == Filter(rows, plan.bounds)[pos..]
  {
    if pos == 0 {
      assert plan.bounds + [] == plan.bounds;
    } else {
      var adv := AdvanceCondition(plan, advance.value);
      assert Query(plan, advance) == plan.bounds + [adv];
      PastQuery(rows, plan, adv, pos);
    }
  }

  /** Any condition that selects exactly the rows past the `pos`-th selected one leaves the rest. */
  lemma PastQuery(rows: seq<Record>, plan: Plan, adv: Pred, pos: nat)
    requires Readable(rows, plan) && SortedBy(rows, plan.cursor, plan.dirs)
    requires 0 < pos <= |Filter(rows, plan.bounds)|
    requires Past(rows, plan, adv, Filter(rows, plan.bounds)[pos - 1])
    ensures Filter(rows, plan.bounds + [adv]) == Filter(rows, plan.bounds)[pos..]
  {
    var all := Filter(rows, plan.bounds);
    var bound := all[pos - 1];
    assert bound in rows;
    assert PastKey(rows, plan.cursor, plan.dirs, adv, Key(bound, plan.cursor));
    FilterPastKey(rows, plan.cursor, plan.dirs, plan.bounds, adv, pos - 1, Key(bound, plan.cursor));
  }

  /** A fetched batch, stripped and flattened, is the next stretch of the unbatched result. */
  lemma BatchStep(rows: seq<Record>, plan: Plan, seen: seq<Value>, pos: nat, sel: seq<Record>, batch: seq<Value>)
    requires PlanOk(plan) && Readable(rows, plan)
    requires forall x :: x in rows ==> Covers(x, plan.pluck)
    requires pos + |sel| <= |Filter(rows, plan.bounds)|
    requires sel == Filter(rows, plan.bounds)[pos..pos + |sel|]
    requires seen == Shapes(Filter(rows, plan.bounds)[..pos], plan.columns)
    requires |batch| == |sel|
    requires forall i :: 0 <= i < |sel| ==>
               |Pluck(sel[i], plan.pluck)| > plan.missing &&
               batch[i] == PostProcess(Pluck(sel[i], plan.pluck), plan.missing, |plan.columns| == 1)
    ensures seen + batch == Shapes(Filter(rows, plan.bounds)[..pos + |sel|], plan.columns)
  {
    var all := Filter(rows, plan.bounds);
    forall i | 0 <= i < |sel| ensures batch[i] == Shape(sel[i], plan.columns) {
      assert sel[i] in all;
      PostProcessRoundTrip(sel[i], plan);
    }
    assert all[..pos + |sel|] == all[..pos] + sel;
  }

  /** Full batches hold `bl` rows each. */
  lemma {:induction false} FullLength(batches: seq<seq<Value>>, bl: nat)
    requires forall i :: 0 <= i < |batches| ==> |batches[i]| == bl
    ensures |Flatten(batches)| == |batches| * bl
    decreases |batches|
  {
    if |batches| > 0 {
      var init := batches[..|batches| - 1];
      FullLength(init, bl);
      MulSucc(|init|, bl);
    }
  }

  lemma MulSucc(a: nat, b: nat)
    ensures (a + 1) * b == a * b + b
  {
  }

  /** Dividing `q * b + r` by `b` gives back `q`, with remainder `r`, for `r` below `b`. */
  lemma DivRem(q: nat, b: nat, r: nat)
    requires r < b
    ensures (q * b + r) / b == q && (q * b + r) % b == r
  {
    var x := q * b + r;
    var d, m := x / b, x % b;
    assert x == d * b + m && 0 <= m < b;
    assert (q - d) * b == m - r;
    if q - d >= 1 {
      MulAtLeast(q - d, b);
    } else if d - q >= 1 {
      MulAtLeast(d - q, b);
    }
  }

  lemma {:induction false} MulAtLeast(k: int, b: nat)
    requires k >= 1
    ensures k * b >= b
    decreases k
  {
    if k > 1 {
      MulAtLeast(k - 1, b);
      assert k * b == (k - 1) * b + b;
    }
  }

  /**
   * The row count of batches that are all full but the last says how many
   * batches there are: whole multiples of `bl` exactly when the last is full.
   */
  lemma FlattenDivides(batches: seq<seq<Value>>, bl: nat)
    requires Bounded(batches, bl) && FullButLast(batches, bl) && bl > 0 && |batches| > 0
    ensures |Flatten(batches)| % bl == 0 <==> |batches[|batches| - 1]| == bl
    ensures |Flatten(batches)| / bl == if |batches[|batches| - 1]| == bl then |batches| else |batches| - 1
  {
    var init := batches[..|batches| - 1];
    var last := batches[|batches| - 1];
    assert forall i :: 0 <= i < |init| ==> |init[i]| == bl;
    FullLength(init, bl);
    assert |Flatten(batches)| == |init| * bl + |last|;
    if |last| == bl {
      MulSucc(|init|, bl);
      DivRem(|batches|, bl, 0);
    } else {
      DivRem(|init|, bl, |last|);
    }
  }

  /** Batches that are all full but the last hold more than `(n - 1) * bl` and at most `n * bl` rows. */
  lemma FlattenLength(batches: seq<seq<Value>>, bl: nat)
    requires Bounded(batches, bl) && FullButLast(batches, bl)
    ensures |batches| == 0 ==> |Flatten(batches)| == 0
    ensures |batches| > 0 ==> (|batches| - 1) * bl < |Flatten(batches)| <= |batches| * bl
  {
    if |batches| > 0 {
      var init := batches[..|batches| - 1];
      var last := batches[|batches| - 1];
      assert forall i :: 0 <= i < |init| ==> |init[i]| == bl;
      FullLength(init, bl);
      assert |Flatten(batches)| == |init| * bl + |last|;
      assert 0 < |last| <= bl;
      MulSucc(|init|, bl);
    }
  }

  lemma MulMono(a: nat, b: nat, c: nat)
    requires a <= b
    ensures a * c <= b * c
  {
  }

  /**
   * `n` batches, all of size `bl` but the last, which holds 1 to `bl` rows,
   * are as many as the enumerator's size formula predicts for `T` rows.
   */
  lemma BatchCount(total: nat, n: nat, bl: nat, bs: nat, limit: Option<nat>)
    requires bs > 0
    requires bl == BatchLimit(bs, limit)
    requires limit.Some? ==> total <= limit.value
    requires (n == 0 && total == 0) || (n > 0 && (n - 1) * bl < total <= n * bl)
    ensures EnumeratorSize(total, bs) == Ok(n)
  {
    var r := EnumeratorSize(total, bs).value;
    if n > 0 {
      if bl < bs {
        if n > 1 {
          MulMono(1, n - 1, bl);
        }
        assert n == 1;
        if r > 1 {
          MulMono(1, r - 1, bs);
        }
      } else {
        if r < n {
          MulMono(r, n - 1, bs);
        } else if r > n {
          MulMono(n, r - 1, bs);
        }
      }
    }
  }

  /**
   * The `where` chain of a batch query: `start`/`finish`, then the condition
   * past the cursor values of the last yielded row, once there is one.
   */
  function Query(plan: Plan, advance: Option<seq<int>>): seq<Pred>
    requires PlanOk(plan)
  {
    plan.bounds + (if advance.Some? && |plan.cursor| > 0 then [AdvanceCondition(plan, advance.value)] else [])
  }

  /** The fetched rows with the appended cursor columns popped and single columns flattened. */
  function Strip(plan: Plan, raw: seq<seq<int>>): (batch: seq<Value>)
    requires PlanOk(plan)
    requires forall i :: 0 <= i < |raw| ==> |raw[i]| == |plan.pluck|
    ensures |batch| == |raw|
  {
    seq(|raw|, i requires 0 <= i < |raw| => PostProcess(raw[i], plan.missing, |plan.columns| == 1))
  }

  /** The state the loop of `each_batch` carries from one batch to the next. */
  datatype Loop = Loop(
    batches: seq<seq<Value>>,  // yielded so far
    fetches: nat,              // `pluck` queries run so far
    remaining: int,            // what is left of the LIMIT
    queryLimit: nat,           // the LIMIT of the next query
    advance: Option<seq<int>>, // the cursor values of the last yielded row
    done: bool,
    failure: Option<Error>)

  /** The state before the first query. */
  function Start(plan: Plan): Loop
  {
    Loop([], 0, if plan.limit.Some? then plan.limit.value else 0, BatchLimit(plan.batchSize, plan.limit), None, false, None)
  }

  /**
   * The rest of one pass, given the rows `raw` its query returned: stop on
   * an empty batch, yield, stop after a short batch, count the batch against
   * the LIMIT and stop when it is used up (shrinking the next query's LIMIT
   * when less than a batch is left), then build the condition past the
   * batch's last row.
   */
  function OnBatch(plan: Plan, st: Loop, raw: seq<seq<int>>): (r: Loop)
    requires PlanOk(plan)
    requires forall i :: 0 <= i < |raw| ==> |raw[i]| == |plan.pluck|
    ensures r.fetches == st.fetches + 1
    ensures |raw| == 0 ==> r.done && r.batches == st.batches
    ensures |raw| > 0 ==> r.batches == st.batches + [Strip(plan, raw)]
    ensures !r.done ==> |raw| >= BatchLimit(plan.batchSize, plan.limit) && |plan.cursor| > 0 &&
                        r.advance == Some(RowValues(plan, raw[|raw| - 1]))
    ensures plan.limit.Some? && |raw| > 0 && st.remaining - |raw| == 0 ==> r.done
    ensures plan.limit.Some? && !r.done ==> r.remaining == st.remaining - |raw|
    ensures r.failure == st.failure || (r.failure == Some(NoCursorColumns) && |plan.cursor| == 0 && r.done)
  {
    if |raw| == 0 then st.(fetches := st.fetches + 1, done := true)
    else
      var yielded := st.(batches := st.batches + [Strip(plan, raw)], fetches := st.fetches + 1);
      if |raw| < BatchLimit(plan.batchSize, plan.limit) then yielded.(done := true)
      else if plan.limit.Some? && st.remaining - |raw| == 0 then yielded.(remaining := 0, done := true)
      else
        var remaining := if plan.limit.Some? then st.remaining - |raw| else st.remaining;
        var queryLimit := if plan.limit.Some? && 0 <= remaining < BatchLimit(plan.batchSize, plan.limit) then remaining as nat else st.queryLimit;
        var next := yielded.(remaining := remaining, queryLimit := queryLimit);
        if |plan.cursor| == 0 then next.(done := true, failure := Some(NoCursorColumns))
        else next.(advance := Some(RowValues(plan, raw[|raw| - 1])))
  }

  /** One pass of the loop: run the batch query, then act on its rows. */
  function Step(rows: seq<Record>, plan: Plan, st: Loop): (r: Loop)
    requires PlanOk(plan) && forall x :: x in rows ==> Covers(x, plan.pluck)
    ensures r.fetches == st.fetches + 1
    ensures |st.batches| <= |r.batches| <= |st.batches| + 1
    ensures |r.batches| > |st.batches| ==> 0 < |r.batches[|st.batches|]| <= st.queryLimit
  {
    OnBatch(plan, st, Fetch(rows, Query(plan, st.advance), st.queryLimit, plan.pluck))
  }

  /** The number of rows yielded so far. */
  function Seen(st: Loop): nat
  {
    |Flatten(st.batches)|
  }

  /**
   * The counting half of the loop invariant, for a filtered result of
   * `total` rows: batch sizes, the LIMIT bookkeeping, the number of queries
   * and when the loop may have stopped.
   */
  predicate Counts(plan: Plan, total: nat, st: Loop)
  {
    var bl := BatchLimit(plan.batchSize, plan.limit);
    var pos := Seen(st);
    var last := if |st.batches| == 0 then 0 else |st.batches[|st.batches| - 1]|;
    var atLimit := plan.limit.Some? && pos == plan.limit.value;
    && pos <= total && (plan.limit.Some? ==> pos <= plan.limit.value)
    && Bounded(st.batches, bl) && FullButLast(st.batches, bl)
    && (plan.batchSize == 0 ==> st.batches == [])
    && (|plan.cursor| == 0 ==> |st.batches| <= 1)
    && (st.failure.Some? ==> st.done && st.failure == Some(NoCursorColumns) && |plan.cursor| == 0 && |st.batches| == 1)
    && (!st.done ==>
          && (|st.batches| == 0 || last == bl)
          && (plan.limit.Some? ==> st.remaining == plan.limit.value - pos &&
                                   st.queryLimit == (if st.remaining < bl then st.remaining else bl))
          && (plan.limit.None? ==> st.queryLimit == bl)
          && st.fetches == |st.batches| && st.failure.None?
          && (|plan.cursor| == 0 ==> st.batches == [])
          && (|st.batches| > 0 && plan.limit.Some? ==> pos < plan.limit.value))
    && (st.done ==>
          && (st.fetches == |st.batches| || st.fetches == |st.batches| + 1)
          && (st.fetches == |st.batches| + 1 ==> st.failure.None? && (|st.batches| == 0 || (last == bl && !atLimit)))
          && (st.fetches == |st.batches| ==> |st.batches| > 0 && (st.failure.Some? || last < bl || atLimit))
          && (st.failure.Some? <==> |plan.cursor| == 0 && |st.batches| > 0 && last == bl && !atLimit)
          && (st.failure.None? && plan.batchSize > 0 ==> pos == BatchLimit(total, plan.limit)))
  }

  /**
   * The row half of the loop invariant: what was yielded is the start of the
   * unbatched result, and the next query starts right after it.
   */
  predicate Tracks(rows: seq<Record>, plan: Plan, st: Loop)
    requires PlanOk(plan) && Readable(rows, plan)
  {
    var all := Filter(rows, plan.bounds);
    var pos := Seen(st);
    && pos <= |all|
    && Flatten(st.batches) == Shapes(all[..pos], plan.columns)
    && (!st.done && pos == 0 ==> st.advance.None?)
    && (!st.done && pos > 0 ==> st.advance.Some? && |plan.cursor| > 0 &&
                                Past(rows, plan, AdvanceCondition(plan, st.advance.value), all[pos - 1]))
  }

  /** The loop invariant of `each_batch`. */
  predicate Inv(rows: seq<Record>, plan: Plan, st: Loop)
    requires PlanOk(plan) && Readable(rows, plan)
  {
    Counts(plan, |Filter(rows, plan.bounds)|, st) && Tracks(rows, plan, st)
  }

  /** What is left to do: the unseen rows, plus one for a loop that has not stopped. */
  function Measure(total: nat, st: Loop): nat
  {
    var left := total - Seen(st);
    (if left < 0 then 0 else left) + (if st.done then 0 else 1)
  }

  /** The rows the query of a pass returns, `pos` rows into the unbatched result. */
  predicate FetchedRows(rows: seq<Record>, plan: Plan, pos: nat, queryLimit: nat, raw: seq<seq<int>>)
    requires forall x :: x in rows ==> Covers(x, plan.pluck)
    requires pos <= |Filter(rows, plan.bounds)|
  {
    var all := Filter(rows, plan.bounds);
    && |raw| == (if queryLimit <= |all| - pos then queryLimit else |all| - pos)
    && (forall i :: 0 <= i < |raw| ==> |raw[i]| == |plan.pluck| && raw[i] == Pluck(all[pos + i], plan.pluck))
  }

  /** The same rows, stripped, continue the shapes of the rows before them. */
  predicate Fetched(rows: seq<Record>, plan: Plan, pos: nat, queryLimit: nat, raw: seq<seq<int>>)
    requires PlanOk(plan) && Readable(rows, plan)
    requires forall x :: x in rows ==> Covers(x, plan.pluck)
    requires pos <= |Filter(rows, plan.bounds)|
  {
    var all := Filter(rows, plan.bounds);
    && FetchedRows(rows, plan, pos, queryLimit, raw)
    && Shapes(all[..pos], plan.columns) + Strip(plan, raw) == Shapes(all[..pos + |raw|], plan.columns)
  }

  /** A query whose filtered rows are `all[pos..]` returns the next `limit` of them, plucked. */
  lemma FetchNext(rows: seq<Record>, preds: seq<Pred>, limit: nat, pluck: seq<ColumnRef>, all: seq<Record>, pos: nat)
    requires forall x :: x in rows ==> Covers(x, pluck)
    requires pos <= |all| && Filter(rows, preds) == all[pos..]
    ensures var raw := Fetch(rows, preds, limit, pluck);
            && |raw| == (if limit <= |all| - pos then limit else |all| - pos)
            && pos + |raw| <= |all|
            && (forall i :: 0 <= i < |raw| ==> Covers(all[pos + i], pluck) && raw[i] == Pluck(all[pos + i], pluck))
  {
    var sel := Take(limit, all[pos..]);
    forall i | 0 <= i < |sel| ensures sel[i] == all[pos + i] && all[pos + i] in rows {
      assert sel[i] in Filter(rows, preds);
    }
  }

  /**
   * One `batch_relation.pluck(*pluck_columns)` whose conditions select the
   * unbatched result from row `pos` on: it returns the next `queryLimit`
   * rows (fewer at the end), and once stripped they are that stretch's shapes.
   */
  lemma FetchFacts(rows: seq<Record>, plan: Plan, preds: seq<Pred>, queryLimit: nat, pos: nat)
    requires PlanOk(plan) && Readable(rows, plan)
    requires forall x :: x in rows ==> Covers(x, plan.pluck)
    requires pos <= |Filter(rows, plan.bounds)| && Filter(rows, preds) == Filter(rows, plan.bounds)[pos..]
    ensures Fetched(rows, plan, pos, queryLimit, Fetch(rows, preds, queryLimit, plan.pluck))
  {
    var raw := Fetch(rows, preds, queryLimit, plan.pluck);
    FetchNext(rows, preds, queryLimit, plan.pluck, Filter(rows, plan.bounds), pos);
    StripStep(rows, plan, pos, raw);
  }

  /** The stripped rows of a fetch continue the shapes of the rows before them. */
  lemma StripStep(rows: seq<Record>, plan: Plan, pos: nat, raw: seq<seq<int>>)
    requires PlanOk(plan) && Readable(rows, plan)
    requires forall x :: x in rows ==> Covers(x, plan.pluck)
    requires pos + |raw| <= |Filter(rows, plan.bounds)|
    requires forall i :: 0 <= i < |raw| ==> raw[i] == Pluck(Filter(rows, plan.bounds)[pos + i], plan.pluck)
    ensures forall i :: 0 <= i < |raw| ==> |raw[i]| == |plan.pluck|
    ensures Shapes(Filter(rows, plan.bounds)[..pos], plan.columns) + Strip(plan, raw) ==
            Shapes(Filter(rows, plan.bounds)[..pos + |raw|], plan.columns)
  {
    var all := Filter(rows, plan.bounds);
    var sel := all[pos..pos + |raw|];
    BatchStep(rows, plan, Shapes(all[..pos], plan.columns), pos, sel, Strip(plan, raw));
  }

  /** A pass that got rows yields them as one more batch. */
  lemma Yield(plan: Plan, st: Loop, raw: seq<seq<int>>)
    requires PlanOk(plan) && |raw| > 0
    requires forall i :: 0 <= i < |raw| ==> |raw[i]| == |plan.pluck|
    ensures OnBatch(plan, st, raw).batches == st.batches + [Strip(plan, raw)]
    ensures OnBatch(plan, st, raw).fetches == st.fetches + 1
    ensures Flatten(st.batches + [Strip(plan, raw)]) == Flatten(st.batches) + Strip(plan, raw)
    ensures Seen(OnBatch(plan, st, raw)) == Seen(st) + |raw|
  {
    var r := OnBatch(plan, st, raw);
    assert r.batches == st.batches + [Strip(plan, raw)];
    assert r.batches[..|st.batches|] == st.batches;
  }

  /** The length of the rows a pass gets, given how many of `total` it has seen. */
  predicate Got(total: nat, st: Loop, raw: seq<seq<int>>)
  {
    |raw| == if st.queryLimit <= total - Seen(st) then st.queryLimit else total - Seen(st)
  }

  /** A pass keeps the counting invariant and gets closer to the end. */
  lemma CountsKept(plan: Plan, total: nat, st: Loop, raw: seq<seq<int>>)
    requires PlanOk(plan)
    requires forall i :: 0 <= i < |raw| ==> |raw[i]| == |plan.pluck|
    requires Counts(plan, total, st) && !st.done && Got(total, st, raw)
    ensures Counts(plan, total, OnBatch(plan, st, raw))
    ensures Measure(total, OnBatch(plan, st, raw)) < Measure(total, st)
  {
    if |raw| == 0 {
      EmptyCounts(plan, total, st, raw);
    } else if |raw| < BatchLimit(plan.batchSize, plan.limit) {
      ShortCounts(plan, total, st, raw);
    } else if plan.limit.Some? && st.remaining - |raw| == 0 {
      ExhaustedCounts(plan, total, st, raw);
    } else {
      FullCounts(plan, total, st, raw);
    }
  }

  /** An empty batch stops the loop after one more query. */
  lemma EmptyCounts(plan: Plan, total: nat, st: Loop, raw: seq<seq<int>>)
    requires PlanOk(plan)
    requires Counts(plan, total, st) && !st.done && Got(total, st, raw) && |raw| == 0
    ensures Counts(plan, total, OnBatch(plan, st, raw))
    ensures Measure(total, OnBatch(plan, st, raw)) < Measure(total, st)
  {
    if plan.batchSize > 0 && |st.batches| > 0 && plan.limit.Some? {
      assert st.queryLimit > 0;
    }
  }

  /** The batches after one more is appended. */
  lemma Appended(st: Loop, batch: seq<Value>, bl: nat)
    requires Bounded(st.batches, bl) && FullButLast(st.batches, bl)
    requires |st.batches| == 0 || |st.batches[|st.batches| - 1]| == bl
    requires 0 < |batch| <= bl
    ensures Bounded(st.batches + [batch], bl) && FullButLast(st.batches + [batch], bl)
  {
    var next := st.batches + [batch];
    assert forall i :: 0 <= i < |st.batches| ==> next[i] == st.batches[i];
  }

  /** A short batch is yielded and stops the loop. */
  lemma ShortCounts(plan: Plan, total: nat, st: Loop, raw: seq<seq<int>>)
    requires PlanOk(plan)
    requires forall i :: 0 <= i < |raw| ==> |raw[i]| == |plan.pluck|
    requires Counts(plan, total, st) && !st.done && Got(total, st, raw) && 0 < |raw| < BatchLimit(plan.batchSize, plan.limit)
    ensures Counts(plan, total, OnBatch(plan, st, raw))
    ensures Measure(total, OnBatch(plan, st, raw)) < Measure(total, st)
  {
    Yield(plan, st, raw);
    Appended(st, Strip(plan, raw), BatchLimit(plan.batchSize, plan.limit));
  }

  /** A full batch that uses up the LIMIT is yielded and stops the loop. */
  lemma ExhaustedCounts(plan: Plan, total: nat, st: Loop, raw: seq<seq<int>>)
    requires PlanOk(plan)
    requires forall i :: 0 <= i < |raw| ==> |raw[i]| == |plan.pluck|
    requires Counts(plan, total, st) && !st.done && Got(total, st, raw) && 0 < |raw| && BatchLimit(plan.batchSize, plan.limit) <= |raw|
    requires plan.limit.Some? && st.remaining - |raw| == 0
    ensures Counts(plan, total, OnBatch(plan, st, raw))
    ensures Measure(total, OnBatch(plan, st, raw)) < Measure(total, st)
  {
    Yield(plan, st, raw);
    Appended(st, Strip(plan, raw), BatchLimit(plan.batchSize, plan.limit));
  }

  /** A full batch with LIMIT to spare is yielded; the loop goes on, or fails with no cursor column. */
  lemma FullCounts(plan: Plan, total: nat, st: Loop, raw: seq<seq<int>>)
    requires PlanOk(plan)
    requires forall i :: 0 <= i < |raw| ==> |raw[i]| == |plan.pluck|
    requires Counts(plan, total, st) && !st.done && Got(total, st, raw) && 0 < |raw| && BatchLimit(plan.batchSize, plan.limit) <= |raw|
    requires !(plan.limit.Some? && st.remaining - |raw| == 0)
    ensures Counts(plan, total, OnBatch(plan, st, raw))
    ensures Measure(total, OnBatch(plan, st, raw)) < Measure(total, st)
  {
    Yield(plan, st, raw);
    Appended(st, Strip(plan, raw), BatchLimit(plan.batchSize, plan.limit));
  }

  /** The rows of a pass continue what was yielded before. */
  lemma TracksYield(rows: seq<Record>, plan: Plan, st: Loop, raw: seq<seq<int>>)
    requires PlanOk(plan) && Readable(rows, plan)
    requires forall x :: x in rows ==> Covers(x, plan.pluck)
    requires Seen(st) <= |Filter(rows, plan.bounds)|
    requires Flatten(st.batches) == Shapes(Filter(rows, plan.bounds)[..Seen(st)], plan.columns)
    requires Fetched(rows, plan, Seen(st), st.queryLimit, raw)
    ensures Seen(OnBatch(plan, st, raw)) <= |Filter(rows, plan.bounds)|
    ensures Flatten(OnBatch(plan, st, raw).batches) ==
            Shapes(Filter(rows, plan.bounds)[..Seen(OnBatch(plan, st, raw))], plan.columns)
  {
    if |raw| > 0 {
      Yield(plan, st, raw);
    }
  }

  /** A pass keeps the row invariant: its batch continues the result and its condition starts after it. */
  lemma TracksKept(rows: seq<Record>, plan: Plan, st: Loop, raw: seq<seq<int>>)
    requires PlanOk(plan) && Fits(rows, plan) && Readable(rows, plan)
    requires forall x :: x in rows ==> Covers(x, plan.pluck)
    requires Tracks(rows, plan, st) && !st.done
    requires Fetched(rows, plan, Seen(st), st.queryLimit, raw)
    ensures Tracks(rows, plan, OnBatch(plan, st, raw))
  {
    TracksYield(rows, plan, st, raw);
    if |raw| > 0 && !OnBatch(plan, st, raw).done {
      AdvancePast(rows, plan, st, raw);
    }
  }

  /** The advance condition built from a row selects exactly the rows past it. */
  lemma AdvanceAll(rows: seq<Record>, plan: Plan, last: Record)
    requires PlanOk(plan) && Fits(rows, plan) && Readable(rows, plan) && |plan.cursor| > 0
    requires forall x :: x in rows ==> Covers(x, plan.pluck)
    requires last in rows
    ensures Past(rows, plan, AdvanceCondition(plan, RowValues(plan, Pluck(last, plan.pluck))), last)
  {
    var adv := AdvanceCondition(plan, RowValues(plan, Pluck(last, plan.pluck)));
    forall x | x in rows
      ensures Eval(adv, x) <==> Compare(plan.dirs, Key(x, plan.cursor), Key(last, plan.cursor)) == After
    {
      AdvanceMeaning(plan, last, x);
    }
  }

  /** A pass that goes on records the cursor values of the last row it yielded. */
  lemma LastRowValues(rows: seq<Record>, plan: Plan, st: Loop, raw: seq<seq<int>>)
    requires PlanOk(plan) && forall x :: x in rows ==> Covers(x, plan.pluck)
    requires Seen(st) <= |Filter(rows, plan.bounds)|
    requires FetchedRows(rows, plan, Seen(st), st.queryLimit, raw) && |raw| > 0
    requires !OnBatch(plan, st, raw).done
    ensures 0 < Seen(OnBatch(plan, st, raw)) <= |Filter(rows, plan.bounds)| && |plan.cursor| > 0
    ensures Filter(rows, plan.bounds)[Seen(OnBatch(plan, st, raw)) - 1] in rows
    ensures OnBatch(plan, st, raw).advance ==
            Some(RowValues(plan, Pluck(Filter(rows, plan.bounds)[Seen(OnBatch(plan, st, raw)) - 1], plan.pluck)))
  {
    Yield(plan, st, raw);
    var all := Filter(rows, plan.bounds);
    var last := all[Seen(st) + |raw| - 1];
    assert raw[|raw| - 1] == Pluck(last, plan.pluck);
    assert last in rows;
  }

  /** The advance condition of a pass that goes on starts right after its last row. */
  lemma AdvancePast(rows: seq<Record>, plan: Plan, st: Loop, raw: seq<seq<int>>)
    requires PlanOk(plan) && Fits(rows, plan) && Readable(rows, plan)
    requires forall x :: x in rows ==> Covers(x, plan.pluck)
    requires Seen(st) <= |Filter(rows, plan.bounds)|
    requires FetchedRows(rows, plan, Seen(st), st.queryLimit, raw) && |raw| > 0
    requires !OnBatch(plan, st, raw).done
    ensures 0 < Seen(OnBatch(plan, st, raw)) <= |Filter(rows, plan.bounds)|
    ensures OnBatch(plan, st, raw).advance.Some? && |plan.cursor| > 0
    ensures Past(rows, plan, AdvanceCondition(plan, OnBatch(plan, st, raw).advance.value),
                 Filter(rows, plan.bounds)[Seen(OnBatch(plan, st, raw)) - 1])
  {
    LastRowValues(rows, plan, st, raw);
    AdvanceAll(rows, plan, Filter(rows, plan.bounds)[Seen(OnBatch(plan, st, raw)) - 1]);
  }

  /** Every pass of the loop keeps the invariant and gets closer to the end. */
  lemma StepKeeps(rows: seq<Record>, plan: Plan, st: Loop)
    requires PlanOk(plan) && Fits(rows, plan) && Readable(rows, plan)
    requires forall x :: x in rows ==> Covers(x, plan.pluck)
    requires Inv(rows, plan, st) && !st.done
    ensures Inv(rows, plan, Step(rows, plan, st))
    ensures Measure(|Filter(rows, plan.bounds)|, Step(rows, plan, st)) < Measure(|Filter(rows, plan.bounds)|, st)
  {
    var raw := Fetch(rows, Query(plan, st.advance), st.queryLimit, plan.pluck);
    StepFetch(rows, plan, st);
    CountsKept(plan, |Filter(rows, plan.bounds)|, st, raw);
    TracksKept(rows, plan, st, raw);
  }

  /** The query of a pass returns the next rows of the unbatched result. */
  lemma StepFetch(rows: seq<Record>, plan: Plan, st: Loop)
    requires PlanOk(plan) && Readable(rows, plan) && (|plan.cursor| > 0 ==> SortedBy(rows, plan.cursor, plan.dirs))
    requires forall x :: x in rows ==> Covers(x, plan.pluck)
    requires Tracks(rows, plan, st) && !st.done
    ensures Fetched(rows, plan, Seen(st), st.queryLimit, Fetch(rows, Query(plan, st.advance), st.queryLimit, plan.pluck))
  {
    NextQuery(rows, plan, st.advance, Seen(st));
    FetchFacts(rows, plan, Query(plan, st.advance), st.queryLimit, Seen(st));
  }

  /** The loop starts with nothing seen and the first query limited to `batch_limit`. */
  lemma StartKeeps(rows: seq<Record>, plan: Plan)
    requires PlanOk(plan) && Readable(rows, plan)
    ensures Inv(rows, plan, Start(plan))
  {
    var all := Filter(rows, plan.bounds);
    assert all[..0] == [];
  }

  /** The rows seen once the loop has stopped, and how many queries it took. */
  lemma Finished(rows: seq<Record>, plan: Plan, st: Loop)
    requires PlanOk(plan) && Readable(rows, plan)
    requires Inv(rows, plan, st) && st.done
    ensures plan.batchSize > 0 && st.failure.None? ==> Flatten(st.batches) == Expected(rows, plan)
    ensures Flatten(st.batches) <= Expected(rows, plan)
    ensures plan.batchSize > 0 && st.failure.None? ==>
              EnumeratorSize(|Expected(rows, plan)|, plan.batchSize) == Ok(|st.batches|)
  {
    var all := Filter(rows, plan.bounds);
    var sel := Selected(rows, plan.bounds, plan.limit);
    var pos := Seen(st);
    assert |sel| == BatchLimit(|all|, plan.limit);
    assert sel == all[..|sel|];
    assert all[..pos] == sel[..pos];
    assert Shapes(all[..pos], plan.columns) == Expected(rows, plan)[..pos];
    if plan.batchSize > 0 && st.failure.None? {
      assert all[..pos] == sel;
      FlattenLength(st.batches, BatchLimit(plan.batchSize, plan.limit));
      BatchCount(|sel|, |st.batches|, BatchLimit(plan.batchSize, plan.limit), plan.batchSize, plan.limit);
    }
  }

  /**
   * The loop of `each_batch`: fetch at most `batch_limit` rows past the
   * cursor, stop on an empty batch, yield, stop after a short batch or once
   * the LIMIT is used up, otherwise advance the cursor and go on.
   */
  method BatchLoop(rows: seq<Record>, plan: Plan) returns (batches: seq<seq<Value>>, fetches: nat, failure: Option<Error>)
    requires PlanOk(plan) && Fits(rows, plan)
    ensures plan.batchSize > 0 && failure.None? ==> Flatten(batches) == Expected(rows, plan)
    ensures Flatten(batches) <= Expected(rows, plan)
    ensures failure.Some? ==> failure == Some(NoCursorColumns) && |plan.cursor| == 0 && |batches| == 1
    ensures failure.Some? <==>
              |plan.cursor| == 0 && |batches| > 0 && |batches[|batches| - 1]| == BatchLimit(plan.batchSize, plan.limit) &&
              !(plan.limit.Some? && |Flatten(batches)| == plan.limit.value)
    ensures |plan.cursor| == 0 ==> |batches| <= 1
    ensures plan.batchSize == 0 ==> batches == [] && fetches == 1
    ensures Bounded(batches, BatchLimit(plan.batchSize, plan.limit)) && FullButLast(batches, BatchLimit(plan.batchSize, plan.limit))
    ensures fetches == |batches| || fetches == |batches| + 1
    ensures fetches == |batches| + 1 <==>
              |batches| == 0 ||
              (failure.None? && |batches[|batches| - 1]| == BatchLimit(plan.batchSize, plan.limit) &&
               !(plan.limit.Some? && |Flatten(batches)| == plan.limit.value))
    ensures plan.batchSize > 0 && failure.None? ==> EnumeratorSize(|Expected(rows, plan)|, plan.batchSize) == Ok(|batches|)
  {
    CoversPluck(rows, plan);
    assert Readable(rows, plan);
    var st := Start(plan);
    StartKeeps(rows, plan);
    while !st.done
      invariant Inv(rows, plan, st)
      decreases Measure(|Filter(rows, plan.bounds)|, st)
    {
      StepKeeps(rows, plan, st);
      st := Step(rows, plan, st);
    }
    Finished(rows, plan, st);
    batches, fetches, failure := st.batches, st.fetches, st.failure;
  }
}
