/**
 * The relation seen as an in-memory table: its rows in the forced batch
 * order, filtered by conditions and cut by a LIMIT, which is all the batch
 * loop asks of the database.
 */
module Table {
  import opened Keyset
  import opened Columns
  import opened Predicates

  /** `rec` passes every condition of a `where` chain. */
  predicate Satisfies(rec: Record, preds: seq<Pred>)
  {
    forall i :: 0 <= i < |preds| ==> Eval(preds[i], rec)
  }

  /** The rows of `rows` that pass `preds`, in their original order. */
  function Filter(rows: seq<Record>, preds: seq<Pred>): (r: seq<Record>)
    ensures |r| <= |rows|
    ensures forall x :: x in r ==> x in rows
  {
    if |rows| == 0 then []
    else (if Satisfies(rows[0], preds) then [rows[0]] else []) + Filter(rows[1..], preds)
  }

  /** SQL `LIMIT n`: the first `n` rows, or all of them when there are fewer. */
  function Take<T>(n: nat, s: seq<T>): (r: seq<T>)
    ensures |r| == if n <= |s| then n else |s|
    ensures r == s[..|r|]
  {
    if n <= |s| then s[..n] else s
  }

  /**
   * The rows carry their cursor columns and are strictly ordered by them in
   * the batch order: the order `reorder(batch_orders)` forces, with no two
   * rows sharing a cursor tuple.
   */
  predicate SortedBy(rows: seq<Record>, cursor: seq<string>, dirs: seq<Direction>)
  {
    && (forall x :: x in rows ==> HasCursor(x, cursor))
    && (forall i, j :: 0 <= i < j < |rows| ==> Compare(dirs, Key(rows[i], cursor), Key(rows[j], cursor)) == Before)
  }

  lemma SortedTail(rows: seq<Record>, cursor: seq<string>, dirs: seq<Direction>)
    requires |rows| > 0 && SortedBy(rows, cursor, dirs)
    ensures SortedBy(rows[1..], cursor, dirs)
  {
    forall i, j | 0 <= i < j < |rows| - 1
      ensures Compare(dirs, Key(rows[1..][i], cursor), Key(rows[1..][j], cursor)) == Before
    {
      assert rows[1..][i] == rows[i + 1] && rows[1..][j] == rows[j + 1];
    }
  }

  lemma SatisfiesAppend(rec: Record, preds: seq<Pred>, p: Pred)
    ensures Satisfies(rec, preds + [p]) <==> Satisfies(rec, preds) && Eval(p, rec)
  {
    if Satisfies(rec, preds) && Eval(p, rec) {
      forall i | 0 <= i < |preds| + 1 ensures Eval((preds + [p])[i], rec) {
        if i < |preds| {
          assert (preds + [p])[i] == preds[i];
        }
      }
    }
    if Satisfies(rec, preds + [p]) {
      forall i | 0 <= i < |preds| ensures Eval(preds[i], rec) {
        assert (preds + [p])[i] == preds[i];
      }
      assert (preds + [p])[|preds|] == p;
    }
  }

  /** A condition that every row passes changes nothing. */
  lemma {:induction false} FilterAllPass(rows: seq<Record>, preds: seq<Pred>, p: Pred)
    requires forall x :: x in rows ==> Eval(p, x)
    ensures Filter(rows, preds + [p]) == Filter(rows, preds)
    decreases |rows|
  {
    if |rows| > 0 {
      SatisfiesAppend(rows[0], preds, p);
      FilterAllPass(rows[1..], preds, p);
    }
  }

  /** `p` holds on exactly the rows whose cursor tuple is strictly after `key` in batch order. */
  predicate PastKey(rows: seq<Record>, cursor: seq<string>, dirs: seq<Direction>, p: Pred, key: seq<int>)
    requires forall x :: x in rows ==> HasCursor(x, cursor)
  {
    forall x :: x in rows ==> (Eval(p, x) <==> Compare(dirs, Key(x, cursor), key) == After)
  }

  lemma PastKeyTail(rows: seq<Record>, cursor: seq<string>, dirs: seq<Direction>, p: Pred, key: seq<int>)
    requires |rows| > 0 && forall x :: x in rows ==> HasCursor(x, cursor)
    requires PastKey(rows, cursor, dirs, p, key)
    ensures PastKey(rows[1..], cursor, dirs, p, key)
  {
    forall x | x in rows[1..] ensures x in rows {
      var j :| 0 <= j < |rows| - 1 && rows[1..][j] == x;
      assert rows[j + 1] == x;
    }
  }

  /** A first row that fails the conditions is dropped with or without `p`. */
  lemma FilterHeadFails(rows: seq<Record>, preds: seq<Pred>, p: Pred)
    requires |rows| > 0 && !Satisfies(rows[0], preds)
    ensures Filter(rows, preds) == Filter(rows[1..], preds)
    ensures Filter(rows, preds + [p]) == Filter(rows[1..], preds + [p])
  {
    SatisfiesAppend(rows[0], preds, p);
  }

  /** A first row that passes the conditions but not `p` is kept only without `p`. */
  lemma FilterHeadKept(rows: seq<Record>, preds: seq<Pred>, p: Pred)
    requires |rows| > 0 && Satisfies(rows[0], preds) && !Eval(p, rows[0])
    ensures Filter(rows, preds) == [rows[0]] + Filter(rows[1..], preds)
    ensures Filter(rows, preds + [p]) == Filter(rows[1..], preds + [p])
  {
    SatisfiesAppend(rows[0], preds, p);
  }

  /** The first row of a sorted table is at or before every row of it. */
  lemma HeadNotPast(rows: seq<Record>, cursor: seq<string>, dirs: seq<Direction>, x: Record)
    requires SortedBy(rows, cursor, dirs) && |rows| > 0
    requires x in rows
    ensures Compare(dirs, Key(rows[0], cursor), Key(x, cursor)) != After
  {
    var j :| 0 <= j < |rows| && rows[j] == x;
    if j == 0 {
      CompareSelf(dirs, Key(x, cursor));
    } else {
      CompareSwap(dirs, Key(rows[0], cursor), Key(x, cursor));
    }
  }

  /** Every row after the first of a sorted table is strictly after it. */
  lemma RestPastHead(rows: seq<Record>, cursor: seq<string>, dirs: seq<Direction>, x: Record)
    requires SortedBy(rows, cursor, dirs) && |rows| > 0
    requires x in rows[1..]
    ensures Compare(dirs, Key(x, cursor), Key(rows[0], cursor)) == After
  {
    var j :| 0 <= j < |rows| - 1 && rows[1..][j] == x;
    assert rows[j + 1] == x;
    CompareSwap(dirs, Key(rows[0], cursor), Key(x, cursor));
  }

  /**
   * The induction behind `FilterPastRow`, with the cursor tuple of the
   * `k`-th selected row held fixed as `key`; each case of the first row is
   * a lemma of its own below.
   */
  lemma {:induction false} FilterPastKey(rows: seq<Record>, cursor: seq<string>, dirs: seq<Direction>,
                                         preds: seq<Pred>, p: Pred, k: nat, key: seq<int>)
    requires SortedBy(rows, cursor, dirs)
    requires k < |Filter(rows, preds)| && key == Key(Filter(rows, preds)[k], cursor)
    requires PastKey(rows, cursor, dirs, p, key)
    ensures Filter(rows, preds + [p]) == Filter(rows, preds)[k + 1..]
    decreases |rows|, 1
  {
    if !Satisfies(rows[0], preds) {
      PastSkippedHead(rows, cursor, dirs, preds, p, k, key);
    } else if k == 0 {
      PastBoundHead(rows, cursor, dirs, preds, p, key);
    } else {
      PastKeptHead(rows, cursor, dirs, preds, p, k, key);
    }
  }

  /** The first row fails the conditions: the rest of the table decides. */
  lemma {:induction false} PastSkippedHead(rows: seq<Record>, cursor: seq<string>, dirs: seq<Direction>,
                                           preds: seq<Pred>, p: Pred, k: nat, key: seq<int>)
    requires SortedBy(rows, cursor, dirs)
    requires k < |Filter(rows, preds)| && key == Key(Filter(rows, preds)[k], cursor)
    requires PastKey(rows, cursor, dirs, p, key)
    requires |rows| > 0 && !Satisfies(rows[0], preds)
    ensures Filter(rows, preds + [p]) == Filter(rows, preds)[k + 1..]
    decreases |rows|, 0
  {
    SortedTail(rows, cursor, dirs);
    PastKeyTail(rows, cursor, dirs, p, key);
    FilterHeadFails(rows, preds, p);
    FilterPastKey(rows[1..], cursor, dirs, preds, p, k, key);
  }

  /** The first row is the bound itself: every later row is past it. */
  lemma PastBoundHead(rows: seq<Record>, cursor: seq<string>, dirs: seq<Direction>,
                      preds: seq<Pred>, p: Pred, key: seq<int>)
    requires SortedBy(rows, cursor, dirs)
    requires 0 < |Filter(rows, preds)| && key == Key(Filter(rows, preds)[0], cursor)
    requires PastKey(rows, cursor, dirs, p, key)
    requires |rows| > 0 && Satisfies(rows[0], preds)
    ensures Filter(rows, preds + [p]) == Filter(rows, preds)[1..]
  {
    var r, rest := rows[0], rows[1..];
    CompareSelf(dirs, Key(r, cursor));
    assert !Eval(p, r);
    FilterHeadKept(rows, preds, p);
    forall x | x in rest ensures Eval(p, x) {
      RestPastHead(rows, cursor, dirs, x);
      assert x in rows;
    }
    FilterAllPass(rest, preds, p);
  }

  /** On a sorted table `p` fails on the first row when some row has the cursor tuple `key`. */
  lemma HeadNotPastKey(rows: seq<Record>, cursor: seq<string>, dirs: seq<Direction>, p: Pred, bound: Record, key: seq<int>)
    requires SortedBy(rows, cursor, dirs) && |rows| > 0
    requires bound in rows && key == Key(bound, cursor)
    requires PastKey(rows, cursor, dirs, p, key)
    ensures !Eval(p, rows[0])
  {
    HeadNotPast(rows, cursor, dirs, bound);
  }

  /** A selected first row that fails `p` shifts the bound one down the rest. */
  lemma KeptHeadFacts(rows: seq<Record>, preds: seq<Pred>, p: Pred, k: nat)
    requires |rows| > 0 && Satisfies(rows[0], preds) && !Eval(p, rows[0])
    requires 0 < k < |Filter(rows, preds)|
    ensures k - 1 < |Filter(rows[1..], preds)| && Filter(rows, preds)[k] == Filter(rows[1..], preds)[k - 1]
    ensures Filter(rows, preds + [p]) == Filter(rows[1..], preds + [p])
    ensures Filter(rows, preds)[k + 1..] == Filter(rows[1..], preds)[k..]
  {
    FilterHeadKept(rows, preds, p);
  }

  /** The first row is selected before the bound: it is dropped by `p` and the bound moves one down. */
  lemma {:induction false} PastKeptHead(rows: seq<Record>, cursor: seq<string>, dirs: seq<Direction>,
                                        preds: seq<Pred>, p: Pred, k: nat, key: seq<int>)
    requires SortedBy(rows, cursor, dirs)
    requires k < |Filter(rows, preds)| && key == Key(Filter(rows, preds)[k], cursor)
    requires PastKey(rows, cursor, dirs, p, key)
    requires |rows| > 0 && Satisfies(rows[0], preds) && k > 0
    ensures Filter(rows, preds + [p]) == Filter(rows, preds)[k + 1..]
    decreases |rows|, 0
  {
    HeadNotPastKey(rows, cursor, dirs, p, Filter(rows, preds)[k], key);
    KeptHeadFacts(rows, preds, p, k);
    SortedTail(rows, cursor, dirs);
    PastKeyTail(rows, cursor, dirs, p, key);
    FilterPastKey(rows[1..], cursor, dirs, preds, p, k - 1, key);
  }

  /**
   * On a sorted table, adding "strictly after the `k`-th selected row"
   * to the conditions selects exactly the rows that came after it: keyset
   * pagination neither repeats nor skips a row.
   */
  lemma FilterPastRow(rows: seq<Record>, cursor: seq<string>, dirs: seq<Direction>,
                      preds: seq<Pred>, p: Pred, k: nat)
    requires SortedBy(rows, cursor, dirs)
    requires k < |Filter(rows, preds)|
    requires forall x :: x in rows ==>
               (Eval(p, x) <==> Compare(dirs, Key(x, cursor), Key(Filter(rows, preds)[k], cursor)) == After)
    ensures Filter(rows, preds + [p]) == Filter(rows, preds)[k + 1..]
  {
    FilterPastKey(rows, cursor, dirs, preds, p, k, Key(Filter(rows, preds)[k], cursor));
  }
}
