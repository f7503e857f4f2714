/**
 * `reorder(batch_orders.to_h)`: the ORDER BY the batch relation is sorted by.
 * `to_h` keeps one entry per column name, where the name first appears, with
 * the direction the name was given last. When a cursor column is named more
 * than once, its directions per position can therefore differ from the
 * order the database applies.
 */
module Reorder {
  import opened Keyset
  import opened Columns
  import opened Arguments

  /** The column names of a list of batch orders. */
  function Names(orders: seq<(string, Direction)>): (n: seq<string>)
    ensures |n| == |orders|
    ensures forall i :: 0 <= i < |orders| ==> n[i] == orders[i].0
  {
    seq(|orders|, i requires 0 <= i < |orders| => orders[i].0)
  }

  /** No name occurs twice. */
  predicate Unique(h: seq<(string, Direction)>)
  {
    forall i, j :: 0 <= i < j < |h| ==> h[i].0 != h[j].0
  }

  /** `h[c] = d` on an insertion-ordered hash: overwrite in place, or append. */
  function Put(h: seq<(string, Direction)>, c: string, d: Direction): (r: seq<(string, Direction)>)
    ensures |r| == if Absent(h, c) then |h| + 1 else |h|
  {
    if |h| == 0 then [(c, d)]
    else if h[0].0 == c then [(c, d)] + h[1..]
    else
      assert Absent(h, c) <==> Absent(h[1..], c) by {
        assert forall i :: 0 < i < |h| ==> h[i] == h[1..][i - 1];
      }
      [h[0]] + Put(h[1..], c, d)
  }

  /** No entry of `h` is named `c`. */
  predicate Absent(h: seq<(string, Direction)>, c: string)
  {
    forall i :: 0 <= i < |h| ==> h[i].0 != c
  }

  /** Putting a name keeps the names in place and appends a new one. */
  lemma PutNames(h: seq<(string, Direction)>, c: string, d: Direction)
    ensures Names(Put(h, c, d)) == if c in Names(h) then Names(h) else Names(h) + [c]
  {
    assert c in Names(h) <==> !Absent(h, c);
    PutKeeps(h, c, d);
  }

  lemma {:induction false} PutKeeps(h: seq<(string, Direction)>, c: string, d: Direction)
    ensures forall i :: 0 <= i < |h| ==> Put(h, c, d)[i].0 == h[i].0
    ensures Absent(h, c) ==> Put(h, c, d)[|h|].0 == c
    decreases |h|
  {
    if |h| > 0 && h[0].0 != c {
      var r := Put(h[1..], c, d);
      PutKeeps(h[1..], c, d);
      assert Put(h, c, d) == [h[0]] + r;
      assert forall i :: 0 < i < |h| ==> h[i] == h[1..][i - 1];
    }
  }

  /** After `h[c] = d`, `h[c]` is `d` and every other name reads as before. */
  lemma {:induction false} PutGet(h: seq<(string, Direction)>, c: string, d: Direction, c': string)
    ensures Get(Put(h, c, d), c') == if c' == c then d else Get(h, c')
    decreases |h|
  {
    if |h| > 0 && h[0].0 != c {
      PutGet(h[1..], c, d, c');
    }
  }

  /** `h[c]`: the direction of the first entry named `c` (`:asc` when there is none). */
  function Get(h: seq<(string, Direction)>, c: string): Direction
  {
    if |h| == 0 then Asc
    else if h[0].0 == c then h[0].1
    else Get(h[1..], c)
  }

  /** `Array#to_h` on `[name, direction]` pairs, one pair after the other. */
  function ToH(orders: seq<(string, Direction)>): (h: seq<(string, Direction)>)
    ensures Names(h) == Firsts(Names(orders))
    decreases |orders|
  {
    if |orders| == 0 then []
    else
      var init := orders[..|orders| - 1];
      var last := orders[|orders| - 1];
      assert Names(orders) == Names(init) + [last.0];
      FirstsHas(Names(init), last.0);
      PutNames(ToH(init), last.0, last.1);
      Put(ToH(init), last.0, last.1)
  }

  /** Each name once, where it first appears. */
  function Firsts(n: seq<string>): (r: seq<string>)
    decreases |n|
  {
    if |n| == 0 then []
    else
      var p := Firsts(n[..|n| - 1]);
      if n[|n| - 1] in p then p else p + [n[|n| - 1]]
  }

  lemma {:induction false} FirstsHas(n: seq<string>, c: string)
    ensures c in Firsts(n) <==> c in n
    decreases |n|
  {
    if |n| > 0 {
      var init := n[..|n| - 1];
      FirstsHas(init, c);
      assert n == init + [n[|n| - 1]];
    }
  }

  lemma {:induction false} FirstsUnique(n: seq<string>)
    ensures forall i, j :: 0 <= i < j < |Firsts(n)| ==> Firsts(n)[i] != Firsts(n)[j]
    decreases |n|
  {
    if |n| > 0 {
      FirstsUnique(n[..|n| - 1]);
    }
  }

  /** In a hash without repeated names, each entry is what looking up its name gives. */
  lemma {:induction false} GetEntry(h: seq<(string, Direction)>, i: nat)
    requires i < |h| && Unique(h)
    ensures Get(h, h[i].0) == h[i].1
    decreases i
  {
    if i > 0 {
      assert h[1..][i - 1] == h[i];
      GetEntry(h[1..], i - 1);
    }
  }

  /** The directions the forced ORDER BY gives the cursor columns, position by position. */
  function SortDirs(orders: seq<(string, Direction)>): (d: seq<Direction>)
    ensures |d| == |orders|
    ensures forall i :: 0 <= i < |orders| ==> d[i] == Get(ToH(orders), orders[i].0)
  {
    var h := ToH(orders);
    seq(|orders|, i requires 0 <= i < |orders| => Get(h, orders[i].0))
  }

  /** The directions `h` gives the names `n`, in turn. */
  function Lookups(h: seq<(string, Direction)>, n: seq<string>): (d: seq<Direction>)
    ensures |d| == |n|
  {
    seq(|n|, i requires 0 <= i < |n| => Get(h, n[i]))
  }

  /**
   * A name given one direction wherever it appears keeps that direction in
   * the hash: without conflicting repeats, sorting by the hash is sorting by
   * the batch orders as they are.
   */
  lemma {:induction false} NoConflictKeeps(orders: seq<(string, Direction)>)
    requires forall i, j :: 0 <= i < |orders| && 0 <= j < |orders| && orders[i].0 == orders[j].0 ==> orders[i].1 == orders[j].1
    ensures SortDirs(orders) == Directions(orders)
    decreases |orders|
  {
    if |orders| > 0 {
      var init := orders[..|orders| - 1];
      var last := orders[|orders| - 1];
      var h := ToH(init);
      NoConflictKeeps(init);
      assert ToH(orders) == Put(h, last.0, last.1);
      forall i | 0 <= i < |orders| ensures Get(ToH(orders), orders[i].0) == orders[i].1 {
        PutGet(h, last.0, last.1, orders[i].0);
        if i < |init| && orders[i].0 != last.0 {
          assert orders[i] == init[i];
          assert SortDirs(init)[i] == Directions(init)[i];
        }
      }
    }
  }

  /** The hash's own entries, read back by name. */
  lemma ToHEntries(orders: seq<(string, Direction)>)
    ensures Unique(ToH(orders))
    ensures Directions(ToH(orders)) == Lookups(ToH(orders), Names(ToH(orders)))
  {
    var h := ToH(orders);
    FirstsUnique(Names(orders));
    assert forall i :: 0 <= i < |h| ==> h[i].0 == Names(h)[i];
    forall i | 0 <= i < |h| ensures Directions(h)[i] == Lookups(h, Names(h))[i] {
      GetEntry(h, i);
    }
  }

  /** Appending one more column to a comparison only breaks a tie. */
  lemma {:induction false} CompareSnoc(dirs: seq<Direction>, a: seq<int>, b: seq<int>, e: Direction, p: int, q: int)
    requires |dirs| == |a| == |b|
    ensures Compare(dirs + [e], a + [p], b + [q]) ==
            if Compare(dirs, a, b) == Same then CompareValue(e, p, q) else Compare(dirs, a, b)
    decreases |dirs|
  {
    if |dirs| > 0 {
      assert (dirs + [e])[1..] == dirs[1..] + [e];
      assert (a + [p])[1..] == a[1..] + [p];
      assert (b + [q])[1..] == b[1..] + [q];
      CompareSnoc(dirs[1..], a[1..], b[1..], e, p, q);
    }
  }

  /** Comparing two rows on the names `n`, each name in the direction `h` gives it. */
  function CompareOn(h: seq<(string, Direction)>, n: seq<string>, x: Record, y: Record): Ordering
    requires HasCursor(x, n) && HasCursor(y, n)
  {
    Compare(Lookups(h, n), Key(x, n), Key(y, n))
  }

  /** One more name compared last. */
  lemma CompareOnSnoc(h: seq<(string, Direction)>, n: seq<string>, c: string, x: Record, y: Record)
    requires HasCursor(x, n + [c]) && HasCursor(y, n + [c])
    ensures HasCursor(x, n) && HasCursor(y, n) && Named(c) in x && Named(c) in y
    ensures CompareOn(h, n + [c], x, y) ==
            if CompareOn(h, n, x, y) == Same then CompareValue(Get(h, c), x[Named(c)], y[Named(c)]) else CompareOn(h, n, x, y)
  {
    assert forall i :: 0 <= i < |n| ==> (n + [c])[i] == n[i];
    assert (n + [c])[|n|] == c;
    assert Lookups(h, n + [c]) == Lookups(h, n) + [Get(h, c)];
    assert Key(x, n + [c]) == Key(x, n) + [x[Named(c)]];
    assert Key(y, n + [c]) == Key(y, n) + [y[Named(c)]];
    CompareSnoc(Lookups(h, n), Key(x, n), Key(y, n), Get(h, c), x[Named(c)], y[Named(c)]);
  }

  /** Two rows that tie on `n` agree on every name of it. */
  lemma TieAgrees(h: seq<(string, Direction)>, n: seq<string>, c: string, x: Record, y: Record)
    requires HasCursor(x, n) && HasCursor(y, n) && c in n
    requires CompareOn(h, n, x, y) == Same
    ensures Named(c) in x && Named(c) in y && x[Named(c)] == y[Named(c)]
  {
    var i :| 0 <= i < |n| && n[i] == c;
    assert Key(x, n)[i] == Key(y, n)[i];
  }

  /**
   * Comparing on a name a second time changes nothing: on every name list,
   * with one direction per name, the comparison equals the one on the list
   * with each name kept only where it first appears.
   */
  lemma {:induction false} FirstsCompare(h: seq<(string, Direction)>, n: seq<string>, x: Record, y: Record)
    requires HasCursor(x, n) && HasCursor(y, n)
    ensures HasCursor(x, Firsts(n)) && HasCursor(y, Firsts(n))
    ensures CompareOn(h, n, x, y) == CompareOn(h, Firsts(n), x, y)
    decreases |n|
  {
    if |n| > 0 {
      var init, c := n[..|n| - 1], n[|n| - 1];
      assert n == init + [c];
      assert forall i :: 0 <= i < |init| ==> init[i] == n[i];
      FirstsCompare(h, init, x, y);
      CompareOnSnoc(h, init, c, x, y);
      FirstsHas(init, c);
      if c in Firsts(init) {
        if CompareOn(h, init, x, y) == Same {
          TieAgrees(h, init, c, x, y);
        }
      } else {
        CompareOnSnoc(h, Firsts(init), c, x, y);
      }
    }
  }

  /**
   * The forced ORDER BY, read position by position: comparing two rows on
   * the cursor columns with `SortDirs` gives what the database's
   * `ORDER BY` over the hash gives.
   */
  lemma SortDirsAgree(orders: seq<(string, Direction)>, x: Record, y: Record)
    requires HasCursor(x, Names(orders)) && HasCursor(y, Names(orders))
    ensures HasCursor(x, Names(ToH(orders))) && HasCursor(y, Names(ToH(orders)))
    ensures Compare(SortDirs(orders), Key(x, Names(orders)), Key(y, Names(orders))) ==
            Compare(Directions(ToH(orders)), Key(x, Names(ToH(orders))), Key(y, Names(ToH(orders))))
  {
    var h := ToH(orders);
    ToHEntries(orders);
    assert SortDirs(orders) == Lookups(h, Names(orders));
    FirstsCompare(h, Names(orders), x, y);
  }
}
