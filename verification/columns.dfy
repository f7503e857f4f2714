/**
 * Column references, plucked rows, and the resolution of cursor columns
 * against the list of columns the caller asked to pluck
 * (`Iterator#cursor_column_indexes` and the fix-up loop in `each_batch`).
 */
module Columns {
  import opened Results

  /**
   * A column given to `pluck_in_batches`: a name (symbols and strings are
   * both turned into strings) or an Arel node, which is kept as it is and
   * never matches a cursor column name.
   */
  datatype ColumnRef = Named(name: string) | Raw(id: nat)

  /**
   * How the model class spells its table: `table_name`, `quoted_table_name`
   * and the connection's `quote_column_name`. These come from the database
   * adapter, so they are parameters here.
   */
  datatype Naming = Naming(table: string, quotedTable: string, quote: string -> string)

  /** `"users.id"` for cursor column `"id"`. */
  function Qualified(n: Naming, c: string): string
  {
    n.table + "." + c
  }

  /** `"\"users\".\"id\""` for cursor column `"id"`, in the adapter's quoting. */
  function Quoted(n: Naming, c: string): string
  {
    n.quotedTable + "." + n.quote(c)
  }

  /** `p` is one of the three spellings under which cursor column `c` is looked up. */
  predicate Denotes(n: Naming, p: ColumnRef, c: string)
  {
    p == Named(c) || p == Named(Qualified(n, c)) || p == Named(Quoted(n, c))
  }

  /** Ruby's `Array#index`: the position of the first element equal to `p`, or `nil`. */
  function IndexOf(cols: seq<ColumnRef>, p: ColumnRef): (r: Option<nat>)
    ensures r.None? <==> p !in cols
    ensures r.Some? ==> r.value < |cols| && cols[r.value] == p && p !in cols[..r.value]
  {
    if |cols| == 0 then None
    else if cols[0] == p then Some(0)
    else
      match IndexOf(cols[1..], p)
      case None => None
      case Some(i) =>
        assert cols[..i + 1] == [cols[0]] + cols[1..][..i];
        Some(i + 1)
  }

  /**
   * Where cursor column `c` already sits in `cols`: by plain name first, then
   * `table.column`, then the quoted form; `nil` when none of them is there.
   */
  function Lookup(n: Naming, cols: seq<ColumnRef>, c: string): (r: Option<nat>)
    ensures r.Some? ==> r.value < |cols| && Denotes(n, cols[r.value], c)
    ensures r.None? <==> forall j :: 0 <= j < |cols| ==> !Denotes(n, cols[j], c)
    ensures Named(c) in cols ==> r.Some? && cols[r.value] == Named(c)
  {
    match IndexOf(cols, Named(c))
    case Some(i) => Some(i)
    case None =>
      match IndexOf(cols, Named(Qualified(n, c)))
      case Some(i) => Some(i)
      case None => IndexOf(cols, Named(Quoted(n, c)))
  }

  /** The cursor columns none of whose spellings is plucked, in cursor order. */
  function Unresolved(n: Naming, cols: seq<ColumnRef>, cursor: seq<string>): seq<string>
  {
    if |cursor| == 0 then []
    else
      var c := cursor[|cursor| - 1];
      Unresolved(n, cols, cursor[..|cursor| - 1]) + (if Lookup(n, cols, c).None? then [c] else [])
  }

  /** Names as plucked columns. */
  function AsColumns(names: seq<string>): (r: seq<ColumnRef>)
    ensures |r| == |names|
    ensures forall i :: 0 <= i < |names| ==> r[i] == Named(names[i])
  {
    seq(|names|, i requires 0 <= i < |names| => Named(names[i]))
  }

  /**
   * Looks every cursor column up in the requested columns, then appends each
   * unresolved one to the pluck list and points its index there.
   *   - `pluck` is the requested list unchanged, followed by the unresolved
   *     cursor columns in cursor order;
   *   - `missing` is the number of columns so appended;
   *   - every index is in range and points at a spelling of its cursor column,
   *     and a column that was found keeps the position it was found at.
   */
  method ResolveCursorColumns(n: Naming, columns: seq<ColumnRef>, cursor: seq<string>)
    returns (pluck: seq<ColumnRef>, indexes: seq<nat>, missing: nat)
    ensures pluck == columns + AsColumns(Unresolved(n, columns, cursor))
    ensures missing == |pluck| - |columns|
    ensures |indexes| == |cursor|
    ensures forall i :: 0 <= i < |cursor| ==> indexes[i] < |pluck| && Denotes(n, pluck[indexes[i]], cursor[i])
    ensures forall i :: 0 <= i < |cursor| && Lookup(n, columns, cursor[i]).Some? ==>
              indexes[i] == Lookup(n, columns, cursor[i]).value
  {
    var found := seq(|cursor|, i requires 0 <= i < |cursor| => Lookup(n, columns, cursor[i]));
    pluck := columns;
    indexes := [];
    missing := 0;
    var i := 0;
    assert cursor[..0] == [];
    while i < |cursor|
      invariant 0 <= i <= |cursor|
      invariant ResolvedUpTo(n, columns, cursor, i, pluck, indexes, missing)
    {
      assert found[i] == Lookup(n, columns, cursor[i]);
      match found[i] {
        case Some(j) =>
          FoundKeeps(n, columns, cursor, i, pluck, indexes, missing);
          indexes := indexes + [j];
        case None =>
          MissingKeeps(n, columns, cursor, i, pluck, indexes, missing);
          indexes := indexes + [|pluck|];
          pluck := pluck + [Named(cursor[i])];
          missing := missing + 1;
      }
      i := i + 1;
    }
    assert cursor[..i] == cursor;
  }

  /** The state of `ResolveCursorColumns` once the first `i` cursor columns are placed. */
  predicate ResolvedUpTo(n: Naming, columns: seq<ColumnRef>, cursor: seq<string>, i: nat,
                         pluck: seq<ColumnRef>, indexes: seq<nat>, missing: nat)
    requires i <= |cursor|
  {
    && pluck == columns + AsColumns(Unresolved(n, columns, cursor[..i]))
    && missing == |pluck| - |columns|
    && |indexes| == i
    && (forall k :: 0 <= k < i ==> indexes[k] < |pluck| && Denotes(n, pluck[indexes[k]], cursor[k]))
    && (forall k :: 0 <= k < i && Lookup(n, columns, cursor[k]).Some? ==> indexes[k] == Lookup(n, columns, cursor[k]).value)
  }

  /** Scanning one more cursor column adds it to the unresolved ones exactly when it is not plucked. */
  lemma UnresolvedStep(n: Naming, columns: seq<ColumnRef>, cursor: seq<string>, i: nat)
    requires i < |cursor|
    ensures Unresolved(n, columns, cursor[..i + 1]) ==
            Unresolved(n, columns, cursor[..i]) + (if Lookup(n, columns, cursor[i]).None? then [cursor[i]] else [])
  {
    assert cursor[..i + 1][..i] == cursor[..i];
  }

  /** A cursor column found among the requested ones keeps the index it was found at. */
  lemma FoundKeeps(n: Naming, columns: seq<ColumnRef>, cursor: seq<string>, i: nat,
                   pluck: seq<ColumnRef>, indexes: seq<nat>, missing: nat)
    requires i < |cursor| && ResolvedUpTo(n, columns, cursor, i, pluck, indexes, missing)
    requires Lookup(n, columns, cursor[i]).Some?
    ensures ResolvedUpTo(n, columns, cursor, i + 1, pluck, indexes + [Lookup(n, columns, cursor[i]).value], missing)
  {
    UnresolvedStep(n, columns, cursor, i);
    assert Unresolved(n, columns, cursor[..i + 1]) == Unresolved(n, columns, cursor[..i]);
    var j := Lookup(n, columns, cursor[i]).value;
    assert pluck[j] == columns[j];
  }

  /** A cursor column not found is appended to the pluck list and indexed there. */
  lemma MissingKeeps(n: Naming, columns: seq<ColumnRef>, cursor: seq<string>, i: nat,
                     pluck: seq<ColumnRef>, indexes: seq<nat>, missing: nat)
    requires i < |cursor| && ResolvedUpTo(n, columns, cursor, i, pluck, indexes, missing)
    requires Lookup(n, columns, cursor[i]).None?
    ensures ResolvedUpTo(n, columns, cursor, i + 1, pluck + [Named(cursor[i])], indexes + [|pluck|], missing + 1)
  {
    UnresolvedStep(n, columns, cursor, i);
    AsColumnsAppend(Unresolved(n, columns, cursor[..i]), cursor[i]);
    var next := pluck + [Named(cursor[i])];
    assert forall k :: 0 <= k < |pluck| ==> next[k] == pluck[k];
  }

  lemma AsColumnsAppend(names: seq<string>, c: string)
    ensures AsColumns(names + [c]) == AsColumns(names) + [Named(c)]
  {
  }

  /** A database row, read through any column reference the database understands. */
  type Record = map<ColumnRef, int>

  /** Every column of `cols` can be read from `rec`. */
  predicate Covers(rec: Record, cols: seq<ColumnRef>)
  {
    forall j :: 0 <= j < |cols| ==> cols[j] in rec
  }

  /** Every cursor column can be read from `rec` by its plain name. */
  predicate HasCursor(rec: Record, cursor: seq<string>)
  {
    forall i :: 0 <= i < |cursor| ==> Named(cursor[i]) in rec
  }

  /**
   * Every cursor column is readable by its plain name, and any other
   * spelling of it the row understands reads the same value.
   */
  predicate Consistent(n: Naming, rec: Record, cursor: seq<string>)
  {
    && HasCursor(rec, cursor)
    && (forall i, p :: 0 <= i < |cursor| && p in rec && Denotes(n, p, cursor[i]) ==> rec[p] == rec[Named(cursor[i])])
  }

  /** The row's cursor tuple: its value in every cursor column, in cursor order. */
  function Key(rec: Record, cursor: seq<string>): (k: seq<int>)
    requires HasCursor(rec, cursor)
    ensures |k| == |cursor|
  {
    seq(|cursor|, i requires 0 <= i < |cursor| => rec[Named(cursor[i])])
  }

  /** What `pluck(*cols)` returns for one row, as an array of values. */
  function Pluck(rec: Record, cols: seq<ColumnRef>): (row: seq<int>)
    requires Covers(rec, cols)
    ensures |row| == |cols|
  {
    seq(|cols|, j requires 0 <= j < |cols| => rec[cols[j]])
  }

  /**
   * The cursor tuple read off the last plucked row: with a single plucked
   * column that column's value (`Array(batch.last)`), otherwise the value at
   * each cursor column's resolved index.
   */
  function CursorValues(row: seq<int>, indexes: seq<nat>): (vals: seq<int>)
    requires |row| > 0
    requires forall i :: 0 <= i < |indexes| ==> indexes[i] < |row|
    ensures |row| == 1 ==> vals == [row[0]]
    ensures |row| > 1 ==> |vals| == |indexes| && forall i :: 0 <= i < |indexes| ==> vals[i] == row[indexes[i]]
  {
    if |row| == 1 then [row[0]]
    else seq(|indexes|, i requires 0 <= i < |indexes| => row[indexes[i]])
  }
}
