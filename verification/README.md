# pluck_in_batches: a Dafny model of the batch iterator

`PluckInBatches::Iterator` walks an ActiveRecord relation in batches. Each
batch is one `pluck` query. It uses keyset pagination: every query asks for
the rows strictly after the last row of the previous batch, in an order it
forces over one or more cursor columns. Nothing is loaded as a model object,
and no OFFSET is used.

This project models that iterator as pure functions over an in-memory table
and proves what the code promises:

- **Arguments** (`arguments.dfy`). Covers argument validation,
  `build_batch_orders`, the ignored-order policy and the enumerator's size
  formula.
- **Columns** (`columns.dfy`). Covers column references and how each cursor
  column is looked up among the plucked columns under its three spellings
  (`id`, `users.id`, `"users"."id"`). The cursor columns that are not found
  are appended to the pluck list.
- **Keyset** (`keyset.dfy`). Defines the direction-aware lexicographic order
  on cursor tuples.
- **Reorder** (`reorder.dfy`). Covers `batch_orders.to_h`, the ordered hash
  given to `reorder`. A cursor column named twice keeps one entry, with the
  direction given last. Sorting by that hash is sorting by the cursor tuples
  under the directions it stores.
- **Predicates** (`predicates.dfy`). Builds the `WHERE` condition that
  `batch_condition` constructs: `c1 > v1 OR (c1 = v1 AND (c2 > v2 OR ...))`,
  with the operators for `start`, `finish` and advancing. The main lemma
  proves what the condition means: a direction-aware tuple comparison.
  Values that `zip` pads with `nil` make the comparison strict on the given
  prefix.
- **Table** (`table.dfy`). The relation as a sorted sequence of rows, with
  `where` as a filter and `LIMIT` as a prefix. The key lemma:
  "strictly after the k-th selected row" selects exactly the rows after it.
  Keyset pagination therefore never repeats or skips a row.
- **Engine** (`engine.dfy`). The `loop do ... end` of `each_batch` as a state
  machine (`Loop`, `OnBatch`, `Step`), with an invariant and a method
  `BatchLoop` running it. Read one after the other, the batches are exactly
  the result of one unbatched `pluck`. Every batch holds `batch_limit` rows
  except possibly the last. The number of queries is the number of batches,
  plus one exactly when there was no batch, or when the loop did not fail,
  the last batch was full and the LIMIT was not used up.
  The enumerator's size formula predicts the number of batches. With no
  cursor column there is at most one batch, and the run fails exactly when
  that batch is full and the LIMIT is not used up.
- **Iteration** (`iteration.dfy`). Covers `apply_limits` and the public
  `each_batch` and `each`, block and enumerator forms, stated against the
  unbatched pluck of the rows between `start` and `finish`.

The database is a parameter. A relation is a sequence of rows (`Record`, a
map from column reference to integer value). When there is a cursor column,
the rows are already sorted by `reorder(batch_orders.to_h)`, with distinct
cursor tuples. With none, `reorder({})` imposes no order and the rows come in
table order. Adapter quoting and table names are
parameters too (`Naming`), and so are the `error_on_ignored_order`
configuration and the presence of a logger. Raised exceptions are `Error`
values inside `Result`, `Option` and `Outcome`.

## Model

| member | source | states |
|---|---|---|
| `Arguments.Validate` | lib/pluck_in_batches/iterator.rb:29-36 | no error exactly when at least one column is given and every order element is `:asc` or `:desc`; no columns is reported before a bad order |
| `Arguments.BuildBatchOrders` | lib/pluck_in_batches/iterator.rb:192-196 | one entry per cursor column, in cursor order and with its name; a column is descending exactly when the order list reaches it with `:desc` |
| `Arguments.PaddingIsAscending` | lib/pluck_in_batches/iterator.rb:192-196 | `order: [:desc]` over two cursor columns gives descending then ascending: a short order list is padded with `:asc` |
| `Arguments.IgnoredOrderReaction` | lib/pluck_in_batches/iterator.rb:132-151 | raises exactly when `error_on_ignore` is true, or unset and the configuration says so; otherwise warns exactly when a logger exists, else stays silent |
| `Arguments.EnumeratorSize` | lib/pluck_in_batches/iterator.rb:59-63 | a zero batch size fails with a division error; otherwise the size `n` is the ceiling of `total / batch_size`, `(n-1)*bs < total <= n*bs`, and 0 for no rows |
| `Keyset.CompareValue` | lib/pluck_in_batches/iterator.rb:76 | on one column: equal values tie; an ascending column puts the smaller value first, a descending one the larger |
| `Keyset.Compare` | lib/pluck_in_batches/iterator.rb:76 | two cursor tuples tie exactly when they agree on every column both have; `Keyset.CompareSameIsEqual` turns this into equality for full-length tuples |
| `Keyset.CompareSwap` | lib/pluck_in_batches/iterator.rb:76 | swapping two cursor tuples turns Before into After and back |
| `Keyset.CompareSelf` | lib/pluck_in_batches/iterator.rb:76 | a cursor tuple is neither before nor after itself |
| `Keyset.CompareSameIsEqual` | lib/pluck_in_batches/iterator.rb:76 | two full-length tuples tie exactly when they are equal, so the forced order is total |
| `Keyset.ConstantComparesOnFirst` | lib/pluck_in_batches/iterator.rb:86-88 | when all cursor columns carry one value, comparing with the one-value prefix gives the same answer |
| `Columns.IndexOf` | lib/pluck_in_batches/iterator.rb:126-128 | `Array#index`: nil exactly when absent, otherwise the first position holding the element |
| `Columns.Lookup` | lib/pluck_in_batches/iterator.rb:124-130 | a found index reads a spelling of the cursor column; nil exactly when no spelling is plucked; the plain name wins when it is plucked |
| `Columns.ResolveCursorColumns` | lib/pluck_in_batches/iterator.rb:46-54 | the pluck list is the requested columns, then the unfound cursor columns in cursor order; `missing` counts them; every index reads a spelling of its cursor column; found columns keep their found position |
| `Columns.CursorValues` | lib/pluck_in_batches/iterator.rb:85-92 | with one plucked column the cursor value is that column's value; otherwise one value per cursor column, read at that column's index; `Engine.CursorOfLastRow` shows this is the last row's cursor tuple |
| `Predicates.Operators` | lib/pluck_in_batches/iterator.rb:113-171 | one operator per cursor column: `start` uses `>=` on ascending and `<=` on descending columns, `finish` the reverse; advancing uses the `start` operators with the last one strict; `Predicates.OperatorsTail` and `Engine.AdvanceMeaning` give it its meaning |
| `Predicates.BatchCondition` | lib/pluck_in_batches/iterator.rb:173-186 | over one column the condition is that column's comparison, with `nil` when no value is given; `Predicates.BatchConditionUnfold` gives the nesting and `Predicates.BatchConditionMeaning` the tuple comparison it decides |
| `Predicates.FoldRightIsNest` | lib/pluck_in_batches/iterator.rb:176-183 | wrapping from the last position back to the first gives the nesting read from the first column inwards |
| `Predicates.OperatorsTail` | lib/pluck_in_batches/iterator.rb:113-117 | dropping the first cursor column drops its operator and leaves the rest, the strict last one included, unchanged |
| `Predicates.BatchConditionUnfold` | lib/pluck_in_batches/iterator.rb:173-186 | a condition over two or more columns is the first column's strict-or-equal-and wrapper around the condition on the remaining columns |
| `Predicates.WrapMeaning` | lib/pluck_in_batches/iterator.rb:179-182 | one wrapper decides by its own column when the row differs there, and defers to the inner condition on a tie |
| `Predicates.BatchConditionMeaning` | lib/pluck_in_batches/iterator.rb:159-186 | the built condition holds on a row exactly when the row's cursor tuple is at or after `start`, at or before `finish`, or strictly after the cursor; a bound shorter than the cursor is compared strictly on its prefix |
| `Table.Take` | lib/pluck_in_batches/iterator.rb:76 | SQL LIMIT: the first `n` rows, or all of them when there are fewer |
| `Table.FilterPastRow` | lib/pluck_in_batches/iterator.rb:113-119 | on a sorted table, adding "strictly after the k-th selected row" selects exactly the selected rows after it |
| `Engine.Fetch` | lib/pluck_in_batches/iterator.rb:82 | one query returns at most `limit` rows, each with one value per plucked column |
| `Engine.BatchLimit` | lib/pluck_in_batches/iterator.rb:70-74 | `batch_limit` is the batch size, or the relation's LIMIT when that is smaller: never above either, and equal to one of them; `Engine.BatchCount` relates it to the enumerator's size |
| `Engine.PostProcess` | lib/pluck_in_batches/iterator.rb:94-95 | a single requested column gives that row's first value; otherwise the row without its appended cursor columns, value for value; `Engine.PostProcessRoundTrip` shows this is what `pluck(*columns)` gives |
| `Engine.OnBatch` | lib/pluck_in_batches/iterator.rb:82-119 | one more query; an empty batch stops the loop and yields nothing; a non-empty one is yielded stripped; the loop goes on only after a batch of at least `batch_limit` rows over a non-empty cursor, advancing to that batch's last row; a used-up LIMIT stops it; the only new failure is an empty cursor, which stops it |
| `Engine.Step` | lib/pluck_in_batches/iterator.rb:82-119 | one iteration runs one query and yields at most one batch, of 1 to the query's limit rows; `Engine.StepKeeps` and `Engine.CountsKept` show it keeps the loop invariant |
| `Engine.UnresolvedAreCursor` | lib/pluck_in_batches/iterator.rb:49-54 | every appended pluck column is a cursor column |
| `Engine.PostProcessRoundTrip` | lib/pluck_in_batches/iterator.rb:94-95 | popping the appended cursor columns and flattening a single column gives exactly what `pluck(*columns)` gives for that row |
| `Engine.CursorOfLastRow` | lib/pluck_in_batches/iterator.rb:85-92 | the values read off the last plucked row are that row's cursor tuple; with one plucked column they are its first entry, and the tuple repeats it |
| `Engine.AdvanceMeaning` | lib/pluck_in_batches/iterator.rb:113-119 | the condition built from the last row selects exactly the rows whose cursor tuple is strictly after that row's |
| `Engine.NextQuery` | lib/pluck_in_batches/iterator.rb:76-119 | the next batch query, `start`/`finish` plus the advance condition, selects exactly the rows not seen yet |
| `Engine.BatchStep` | lib/pluck_in_batches/iterator.rb:82-97 | a fetched batch, once stripped, extends what was yielded by the next stretch of the unbatched result |
| `Engine.FlattenLength` | lib/pluck_in_batches/iterator.rb:97-99 | `n` batches, all full but the last, hold more than `(n-1)*bl` and at most `n*bl` rows |
| `Engine.FlattenDivides` | lib/pluck_in_batches/iterator.rb:97-99 | `n` non-empty batches, full but the last, hold a multiple of `bl` rows exactly when the last is full, and that row count divided by `bl` is `n` or `n - 1` accordingly |
| `Engine.BatchCount` | lib/pluck_in_batches/iterator.rb:59-74 | the enumerator's size formula, which uses `batch_size`, gives the number of batches the loop yields with `batch_limit` |
| `Engine.CountsKept` | lib/pluck_in_batches/iterator.rb:97-111 | each loop step keeps the invariant on the remaining LIMIT, the next query's limit, the number of queries and the stopping rule |
| `Engine.StepKeeps` | lib/pluck_in_batches/iterator.rb:81-120 | one loop iteration keeps the invariant: the yielded rows are a prefix of the unbatched result and the cursor sits after its last row |
| `Engine.Finished` | lib/pluck_in_batches/iterator.rb:81-120 | when the loop stops, the yielded rows are all of the unbatched result unless it failed or the batch size was zero |
| `Engine.BatchLoop` | lib/pluck_in_batches/iterator.rb:70-120 | the batches read together are the unbatched pluck; every batch holds 1 to `batch_limit` rows, all full but the last; one query more than batches exactly when there were none, or the run did not fail, the last batch was full and the LIMIT was not used up; an empty cursor list gives at most one batch, and the run fails exactly when the cursor list is empty, the batch is full and the LIMIT is not used up |
| `Reorder.PutGet` | lib/pluck_in_batches/iterator.rb:76 | storing a direction under a name in the ordered hash: that name then reads the new direction, and every other name reads what it read before |
| `Reorder.PutNames` | lib/pluck_in_batches/iterator.rb:76 | storing under a name already present keeps the keys and their order; a new name is appended after them |
| `Reorder.ToH` | lib/pluck_in_batches/iterator.rb:76 | the keys of `batch_orders.to_h` are the cursor column names with repeats dropped, each at its first occurrence |
| `Reorder.ToHEntries` | lib/pluck_in_batches/iterator.rb:76 | the hash names each column once, and each key's direction is the one the hash stores for it |
| `Reorder.SortDirs` | lib/pluck_in_batches/iterator.rb:76 | each cursor position is sorted in the direction `batch_orders.to_h` stores for its column's name |
| `Reorder.NoConflictKeeps` | lib/pluck_in_batches/iterator.rb:192-196 | when no column is named twice with two directions, those directions are the ones in `batch_orders`, position by position |
| `Reorder.FirstsCompare` | lib/pluck_in_batches/iterator.rb:76 | comparing over a list of names with repeats gives the same answer as over the list without them: a repeated column is already tied when it is reached again |
| `Reorder.SortDirsAgree` | lib/pluck_in_batches/iterator.rb:76 | sorting by `reorder(batch_orders.to_h)` orders two rows as comparing their cursor tuples, position by position, in the directions of `Reorder.SortDirs` |
| `Iteration.ForcedSorted` | lib/pluck_in_batches/iterator.rb:76 | rows sorted by the forced ORDER BY are strictly sorted by their cursor tuples in the directions of `Iteration.SortedDirs` |
| `Iteration.DistinctCursorKeepsDirs` | lib/pluck_in_batches/iterator.rb:192-196 | with distinct cursor column names, the directions the rows are sorted by are those of `batch_orders` |
| `Iteration.RepeatedColumnOrders` | lib/pluck_in_batches/iterator.rb:192-196 | `cursor_column: [:id, :id], order: [:asc, :desc]` gives `batch_orders` directions ascending then descending, one hash entry `id` descending, and sorts both positions descending |
| `Iteration.RepeatedColumnAsWritten` | lib/pluck_in_batches/iterator.rb:113-117 | for that call, the cursor values read off the row with id 4 are the one value `[4]`; the condition built from them as written (`id > 4 OR (id = 4 AND id < NULL)`) admits the row with id 5, which the sort put before it, and refuses the row with id 3, which comes after it |
| `Iteration.RepeatedColumnCorrected` | lib/pluck_in_batches/iterator.rb:113-117 | with the directions the rows are sorted by, the condition built from the same `[4]` refuses the row with id 5 and admits the row with id 3 |
| `Iteration.ApplyLimits` | lib/pluck_in_batches/iterator.rb:153-157 | one condition per given bound; fails exactly when a bound is given over an empty cursor |
| `Iteration.LimitsMeaning` | lib/pluck_in_batches/iterator.rb:153-171 | a row passes the `start`/`finish` conditions exactly when its cursor tuple lies between them |
| `Iteration.FilterWithin` | lib/pluck_in_batches/iterator.rb:153-171 | filtering by the `start`/`finish` conditions keeps exactly the rows in range, in order |
| `Iteration.OneColumnRange` | lib/pluck_in_batches/iterator.rb:159-171 | on one column `start` and `finish` are inclusive; on a descending column `start` is the larger bound |
| `Iteration.ShortStartIsStrict` | lib/pluck_in_batches/iterator.rb:173-182 | a one-value `start` over a two-column cursor admits only rows whose first column is strictly larger |
| `Iteration.SizeQuery` | lib/pluck_in_batches/iterator.rb:59-63 | the enumerator's size: an error for a bound over an empty cursor or a zero batch size, else the ceiling of the rows in range, under the LIMIT, divided by the batch size |
| `Iteration.PlanReady` | lib/pluck_in_batches/iterator.rb:46-57 | the resolved pluck list and indexes give a plan on which the loop's facts hold, the rows sorted by the cursor columns in the directions of `Iteration.SortedDirs` |
| `Iteration.ExpectedIsWanted` | lib/pluck_in_batches/iterator.rb:56-77 | the loop's target equals the unbatched pluck between `start` and `finish`, and the enumerator's size counts its batches |
| `Iteration.RunLoop` | lib/pluck_in_batches/iterator.rb:70-120 | for the call's own arguments: the batches read together are a prefix of the unbatched pluck between `start` and `finish`, and all of it with their count equal to the enumerator's size unless the run failed or the batch size is zero; batches hold 1 to `batch_limit` rows, all full but the last; one query more than batches exactly when there were none, or the run did not fail, the last batch was full and the LIMIT was not used up; it fails exactly when the cursor list is empty and its one batch is full with LIMIT left |
| `Iteration.EachBatch` | lib/pluck_in_batches/iterator.rb:29-121 | validation errors come first; without a block, an enumerator whose size is counted; with one, the call raises exactly when an ignored ORDER BY is refused or a bound is given over an empty cursor, and otherwise runs; a run yields the unbatched pluck between `start` and `finish`, in batches as many as the enumerator's size, with the batch loop's count of queries; it fails part way exactly when the cursor list is empty and its one batch is full with LIMIT left |
| `Iteration.EachSizeAsWritten` | lib/pluck_in_batches/iterator.rb:22-25 | the size of `each`'s enumerator, as written, always raises |
| `Iteration.EachSize` | lib/pluck_in_batches/iterator.rb:22-25 | the size `each`'s enumerator is meant to report: the number of rows in range under the LIMIT |
| `Iteration.EachSizeAsWrittenDiffers` | lib/pluck_in_batches/iterator.rb:22-25 | whenever a row count exists, the size as written disagrees with it |
| `Iteration.Each` | lib/pluck_in_batches/iterator.rb:13-27 | no columns raises; without a block, an enumerator whose size is the corrected `Iteration.EachSize` (the row count), not the raising `Iteration.EachSizeAsWritten` (see Findings); with one, the call raises exactly when `each_batch` does and otherwise runs, yielding the rows of `each_batch` one by one, which are the unbatched pluck and as many as that size; a run with `n` rows and no failure made `n / bl` queries plus one more unless the LIMIT ran out on a full batch (`bl` is `Engine.BatchLimit`), so a batch size of 1 over 20 rows makes 21; a failed run made one; it fails part way exactly when the cursor list is empty and a full batch was yielded with LIMIT left |
| `Iteration.RowsGiveFetches` | lib/pluck_in_batches/iterator.rb:82-119 | for batches full but the last, the batch loop's query count (one per batch, plus one when the last batch was full and LIMIT was left, or when there was none) equals `n / bl` plus one unless `n` rows filled whole batches up to the LIMIT; with `bl` zero there are no rows and one query |

## Left out

- ActiveRecord and Arel are not modelled: `bind_attribute`, the SQL text, type casting, `skip_query_cache!` and the query cache. A query is a filter followed by a prefix over the sorted table.
- The database's behaviour is assumed, not modelled. The rows come back sorted by the forced order, cursor tuples are distinct, and every spelling of a cursor column reads the same value. Collations, NULL cursor values and NULL ordering are not modelled.
- Column values are integers. Strings and other types need only a total order, and integers have one.
- Enumerator laziness is not modelled: an enumerator is its size. Iterating it is the block form, modelled by `Iteration.EachBatch` and `Iteration.Each`.
- The arguments `to_enum` and `enum_for` are given are not modelled, and neither is `__callee__`.
- `batch_size` is a natural number. A negative batch size reaches the database as a negative LIMIT, and what happens then depends on the adapter.
- The `error_on_ignored_order` lookup is a boolean parameter. The model does not choose between the configuration's two locations by ActiveRecord version (`ar_version`).
- The logger's side effect is the `warned` flag of a run (`Iteration.Outcome`'s `Ran` case). A call that raises has no such flag, so a warning logged before `apply_limits` raises is not recorded.
- A row is an integer map, so a value cannot be an array. When the pluck list has one column, the model reads the cursor tuple as that one value (`Array(batch.last)`).
- The fallback index at line 90 (`batch.last.size - cursor_column_indexes.size + index`) is unreachable after lines 49-54, so it is not modelled.
- An error raised by the caller's block, and any other exception the database raises, are not modelled.
- lib/pluck_in_batches/extensions.rb is not part of this model. It only forwards to the iterator. It does not forward `cursor_column`, so that option is reachable only through the iterator itself.
- Concurrent writes to the table during iteration are not modelled: the table is one snapshot.
- A `start` or `finish` given over an empty cursor column list makes ActiveRecord fail while building the condition. The model reports this as `NoCursorColumns`, whatever exception ActiveRecord actually raises. The same applies after the first full batch when LIMIT is left, where the loop advances over an empty cursor list (`Engine.BatchLoop` states exactly when).
- A short order list is padded with `:asc`, not with its last element (`Arguments.PaddingIsAscending`).
- Iteration.EachBatch, Iteration.RunLoop, Iteration.Each: with a cursor column named twice under two directions, the model's advance condition uses the direction `batch_orders.to_h` keeps (the corrected behaviour, see Findings). The source as written repeats and skips rows there (`Iteration.RepeatedColumnAsWritten`). The `start` and `finish` conditions keep the directions of `batch_orders` position by position, as the source's do.

## Findings

| source | as written | input that shows it | evidently intended | confidence | as-written member | corrected member |
|---|---|---|---|---|---|---|
| lib/pluck_in_batches/iterator.rb:22-25 | The size block of `each`'s enumerator calls `build_batch_orders(order)`, which takes two arguments, and then calls `apply_limits` with four of its five arguments. | `User.pluck_each(:id).size` raises `ArgumentError` (wrong number of arguments). | The number of rows the enumerator yields: the rows between `start` and `finish`, under the relation's LIMIT. | high (read from the code; not executed) | `Iteration.EachSizeAsWritten`, `Iteration.EachSizeAsWrittenDiffers` | `Iteration.EachSize`, used by `Iteration.Each` |
| lib/pluck_in_batches/iterator.rb:113-117 | The operators past a batch take each cursor position's direction from `batch_orders`. The query is sorted by `batch_orders.to_h` (line 76), which keeps one direction per column name, the last one given. | `each_batch(:id, cursor_column: [:id, :id], order: [:asc, :desc], batch_size: 2)` over ids 1 to 5: the rows come as 5, 4, 3, 2, 1, and only `id` is plucked, so the values read off the row with id 4 are `[4]` and `zip` pads the second position with `nil`; past 4 the condition `id > 4 OR (id = 4 AND id < NULL)` selects only 5. The batches are `[5, 4]` then `[5]`, which repeats 5 and skips 3, 2 and 1. | Each cursor column is compared in the direction the rows are sorted by, so no row repeats and none is skipped. | medium (read from the code; not executed) | `Iteration.RepeatedColumnAsWritten` | `Iteration.RepeatedColumnCorrected`, `Reorder.SortDirsAgree`, `Iteration.ForcedSorted`; `Iteration.PlanOf` uses `Iteration.SortedDirs` |
