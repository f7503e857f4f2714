/**
 * The composite keyset predicate built by `Iterator#batch_condition`, its
 * operator choices for `start`, `finish` and advancing past a batch, and its
 * meaning as a direction-aware lexicographic comparison.
 */
module Predicates {
  import opened Results
  import opened Keyset
  import opened Columns

  /** The Arel comparison operators the conditions use. */
  datatype Op = Gt | Gteq | Lt | Lteq | Eq

  /**
   * A WHERE condition over cursor columns. A comparison whose bound value is
   * `nil` (a `zip` ran out of values) never holds: SQL compares nothing to NULL.
   */
  datatype Pred =
    | Cmp(column: string, op: Op, value: Option<int>)
    | Or(left: Pred, right: Pred)
    | And(left: Pred, right: Pred)

  function Holds(op: Op, x: int, v: int): bool
  {
    match op
    case Gt => x > v
    case Gteq => x >= v
    case Lt => x < v
    case Lteq => x <= v
    case Eq => x == v
  }

  /** Whether row `rec` satisfies `p`. */
  function Eval(p: Pred, rec: Record): bool
  {
    match p
    case Cmp(c, op, v) => v.Some? && Named(c) in rec && Holds(op, rec[Named(c)], v.value)
    case Or(l, r) => Eval(l, rec) || Eval(r, rec)
    case And(l, r) => Eval(l, rec) && Eval(r, rec)
  }

  /** One entry of `columns.zip(values, operators)`. */
  datatype Position = Position(column: string, value: Option<int>, op: Op)

  /** `Array(columns).zip(Array(values), operators)`: missing values become `nil`, surplus ones are dropped. */
  function Positions(cols: seq<string>, vals: seq<int>, ops: seq<Op>): (ps: seq<Position>)
    requires |ops| == |cols|
    ensures |ps| == |cols|
  {
    seq(|cols|, i requires 0 <= i < |cols| => Position(cols[i], if i < |vals| then Some(vals[i]) else None, ops[i]))
  }

  /** The strict operator used for a column that is not the last one. */
  function StrictOf(op: Op): Op
  {
    if op == Lteq then Lt else Gt
  }

  /** `column <strict> value OR (column = value AND inner)`. */
  function Wrap(p: Position, inner: Pred): Pred
  {
    Or(Cmp(p.column, StrictOf(p.op), p.value), And(Cmp(p.column, Eq, p.value), inner))
  }

  /** Walks `ps` from its last entry back to its first, wrapping `acc` each time (`reverse_each`). */
  function FoldRight(ps: seq<Position>, acc: Pred): Pred
    decreases |ps|
  {
    if |ps| == 0 then acc
    else FoldRight(ps[..|ps| - 1], Wrap(ps[|ps| - 1], acc))
  }

  /** The condition comparing the cursor columns `cols` against `vals` with `ops`, built as the source does. */
  function BatchCondition(cols: seq<string>, vals: seq<int>, ops: seq<Op>): (p: Pred)
    requires |cols| > 0 && |ops| == |cols|
    ensures |cols| == 1 ==> p == Cmp(cols[0], ops[0], if |vals| > 0 then Some(vals[0]) else None)
  {
    var ps := Positions(cols, vals, ops);
    var last := ps[|ps| - 1];
    FoldRightIsNest(ps[..|ps| - 1], Cmp(last.column, last.op, last.value));
    FoldRight(ps[..|ps| - 1], Cmp(last.column, last.op, last.value))
  }

  /** The same nesting, read from the first position inwards. */
  function Nest(ps: seq<Position>, acc: Pred): Pred
    decreases |ps|
  {
    if |ps| == 0 then acc
    else Wrap(ps[0], Nest(ps[1..], acc))
  }

  lemma {:induction false} NestAppend(ps: seq<Position>, p: Position, acc: Pred)
    ensures Nest(ps + [p], acc) == Nest(ps, Wrap(p, acc))
    decreases |ps|
  {
    if |ps| != 0 {
      assert (ps + [p])[1..] == ps[1..] + [p];
      NestAppend(ps[1..], p, acc);
    }
  }

  /** Folding from the right yields the nesting read from the left. */
  lemma {:induction false} FoldRightIsNest(ps: seq<Position>, acc: Pred)
    ensures FoldRight(ps, acc) == Nest(ps, acc)
    decreases |ps|
  {
    if |ps| != 0 {
      var init, last := ps[..|ps| - 1], ps[|ps| - 1];
      FoldRightIsNest(init, Wrap(last, acc));
      NestAppend(init, last, acc);
      assert init + [last] == ps;
    }
  }

  /** Which boundary a condition draws. */
  datatype Mode = StartMode | FinishMode | AdvanceMode

  /** The inclusive operator of a column sorted in direction `d`. */
  function BoundOp(mode: Mode, d: Direction): Op
  {
    if mode == FinishMode then (if d == Desc then Gteq else Lteq)
    else (if d == Desc then Lteq else Gteq)
  }

  /**
   * The operator of each cursor column: `start` uses `gteq` (`lteq` on a
   * descending column), `finish` the reverse, and advancing past a batch
   * uses the `start` operators with the last one made strict.
   */
  function Operators(mode: Mode, dirs: seq<Direction>): (ops: seq<Op>)
    ensures |ops| == |dirs|
    ensures forall i :: 0 <= i < |dirs| && (mode != AdvanceMode || i < |dirs| - 1) ==> ops[i] == BoundOp(mode, dirs[i])
    ensures mode == AdvanceMode && |dirs| > 0 ==> ops[|dirs| - 1] == StrictOf(BoundOp(StartMode, dirs[|dirs| - 1]))
  {
    var bound := seq(|dirs|, i requires 0 <= i < |dirs| => BoundOp(mode, dirs[i]));
    if mode == AdvanceMode && |dirs| > 0 then
      bound[..|dirs| - 1] + [if dirs[|dirs| - 1] == Desc then Lt else Gt]
    else bound
  }

  /**
   * The intended meaning of a condition whose row tuple compares as `o`
   * against the bound: at or after `start`, at or before `finish`, strictly
   * after the cursor. When the bound tuple is shorter than the cursor
   * (`full` is false) only its prefix is compared, and strictly.
   */
  function Admits(mode: Mode, o: Ordering, full: bool): bool
  {
    if !full then (if mode == FinishMode then o == Before else o == After)
    else
      match mode
      case StartMode => o != Before
      case FinishMode => o != After
      case AdvanceMode => o == After
  }

  lemma OperatorsTail(mode: Mode, dirs: seq<Direction>)
    requires |dirs| > 1
    ensures Operators(mode, dirs)[1..] == Operators(mode, dirs[1..])
  {
    var ops, tail := Operators(mode, dirs), Operators(mode, dirs[1..]);
    forall i | 0 <= i < |tail|
      ensures ops[1..][i] == tail[i]
    {
      assert dirs[1..][i] == dirs[i + 1];
    }
  }

  /** Peeling the first cursor column off a condition of two or more columns. */
  lemma BatchConditionUnfold(cols: seq<string>, vals: seq<int>, ops: seq<Op>)
    requires |cols| > 1 && |ops| == |cols|
    ensures BatchCondition(cols, vals, ops) ==
            Wrap(Positions(cols, vals, ops)[0], BatchCondition(cols[1..], if |vals| > 0 then vals[1..] else [], ops[1..]))
  {
    var ps := Positions(cols, vals, ops);
    var tail := Positions(cols[1..], if |vals| > 0 then vals[1..] else [], ops[1..]);
    assert ps[1..] == tail;
    var last := ps[|ps| - 1];
    FoldRightIsNest(ps[..|ps| - 1], Cmp(last.column, last.op, last.value));
    FoldRightIsNest(tail[..|tail| - 1], Cmp(last.column, last.op, last.value));
    assert ps[..|ps| - 1][1..] == tail[..|tail| - 1];
  }

  /** One wrapping step compares its column first and defers to `inner` on a tie. */
  lemma WrapMeaning(mode: Mode, d: Direction, c: string, v: int, inner: Pred, rec: Record, rest: Ordering, full: bool)
    requires Named(c) in rec
    requires Eval(inner, rec) == Admits(mode, rest, full)
    ensures Eval(Wrap(Position(c, Some(v), BoundOp(mode, d)), inner), rec) ==
            Admits(mode, if rec[Named(c)] == v then rest else CompareValue(d, rec[Named(c)], v), full)
  {
    var x := rec[Named(c)];
    var o := CompareValue(d, x, v);
    assert Eval(Cmp(c, Eq, Some(v)), rec) == (x == v);
    if x != v {
      assert Eval(Cmp(c, StrictOf(BoundOp(mode, d)), Some(v)), rec) == (if mode == FinishMode then o == Before else o == After);
    }
  }

  /**
   * The condition means what it is for: `eval` of the built predicate on any
   * row equals the direction-aware lexicographic comparison of the row's
   * cursor tuple with the bound values, read through `Admits`.
   */
  lemma {:induction false} BatchConditionMeaning(mode: Mode, cols: seq<string>, dirs: seq<Direction>, vals: seq<int>, rec: Record)
    requires |cols| == |dirs| > 0
    requires HasCursor(rec, cols)
    ensures Eval(BatchCondition(cols, vals, Operators(mode, dirs)), rec) ==
            Admits(mode, Compare(dirs, Key(rec, cols), vals), |vals| >= |cols|)
    decreases |cols|, 1
  {
    if |cols| == 1 {
      LastColumnMeaning(mode, cols, dirs, vals, rec);
    } else {
      OuterColumnMeaning(mode, cols, dirs, vals, rec);
    }
  }

  /** The base case: one cursor column, one comparison. */
  lemma LastColumnMeaning(mode: Mode, cols: seq<string>, dirs: seq<Direction>, vals: seq<int>, rec: Record)
    requires |cols| == |dirs| == 1
    requires HasCursor(rec, cols)
    ensures Eval(BatchCondition(cols, vals, Operators(mode, dirs)), rec) ==
            Admits(mode, Compare(dirs, Key(rec, cols), vals), |vals| >= |cols|)
  {
    var ops := Operators(mode, dirs);
    var key := Key(rec, cols);
    var p := Positions(cols, vals, ops)[0];
    assert BatchCondition(cols, vals, ops) == Cmp(cols[0], ops[0], p.value);
    if |vals| > 0 {
      assert Compare(dirs[1..], key[1..], vals[1..]) == Same;
      assert Compare(dirs, key, vals) == CompareValue(dirs[0], key[0], vals[0]);
      assert ops[0] == (match mode
                        case StartMode => if dirs[0] == Desc then Lteq else Gteq
                        case FinishMode => if dirs[0] == Desc then Gteq else Lteq
                        case AdvanceMode => if dirs[0] == Desc then Lt else Gt);
    }
  }

  /** The step: the first column's comparison wrapped around the condition on the others. */
  lemma {:induction false} OuterColumnMeaning(mode: Mode, cols: seq<string>, dirs: seq<Direction>, vals: seq<int>, rec: Record)
    requires |cols| == |dirs| > 1
    requires HasCursor(rec, cols)
    ensures Eval(BatchCondition(cols, vals, Operators(mode, dirs)), rec) ==
            Admits(mode, Compare(dirs, Key(rec, cols), vals), |vals| >= |cols|)
    decreases |cols|, 0
  {
    var rest := if |vals| > 0 then vals[1..] else [];
    BatchConditionMeaning(mode, cols[1..], dirs[1..], rest, rec);
    OuterStep(mode, cols, dirs, vals, rec);
  }

  /** Given the meaning of the condition on the inner columns, the meaning of the whole. */
  lemma OuterStep(mode: Mode, cols: seq<string>, dirs: seq<Direction>, vals: seq<int>, rec: Record)
    requires |cols| == |dirs| > 1
    requires HasCursor(rec, cols)
    requires var rest := if |vals| > 0 then vals[1..] else [];
             Eval(BatchCondition(cols[1..], rest, Operators(mode, dirs[1..])), rec) ==
             Admits(mode, Compare(dirs[1..], Key(rec, cols[1..]), rest), |rest| >= |cols| - 1)
    ensures Eval(BatchCondition(cols, vals, Operators(mode, dirs)), rec) ==
            Admits(mode, Compare(dirs, Key(rec, cols), vals), |vals| >= |cols|)
  {
    BatchConditionUnfold(cols, vals, Operators(mode, dirs));
    OperatorsTail(mode, dirs);
    if |vals| > 0 {
      BoundedOuterStep(mode, cols, dirs, vals, rec);
    } else {
      assert Positions(cols, vals, Operators(mode, dirs))[0].value == None;
    }
  }

  /** The step of `OuterStep` when the outer column has a bound value. */
  lemma BoundedOuterStep(mode: Mode, cols: seq<string>, dirs: seq<Direction>, vals: seq<int>, rec: Record)
    requires |cols| == |dirs| > 1 && |vals| > 0
    requires HasCursor(rec, cols)
    requires Eval(BatchCondition(cols[1..], vals[1..], Operators(mode, dirs[1..])), rec) ==
             Admits(mode, Compare(dirs[1..], Key(rec, cols[1..]), vals[1..]), |vals| - 1 >= |cols| - 1)
    ensures Eval(Wrap(Position(cols[0], Some(vals[0]), BoundOp(mode, dirs[0])),
                      BatchCondition(cols[1..], vals[1..], Operators(mode, dirs[1..]))), rec) ==
            Admits(mode, Compare(dirs, Key(rec, cols), vals), |vals| >= |cols|)
  {
    var key := Key(rec, cols);
    var rest := vals[1..];
    var inner := BatchCondition(cols[1..], rest, Operators(mode, dirs[1..]));
    var o := Compare(dirs[1..], key[1..], rest);
    assert Eval(inner, rec) == Admits(mode, o, |rest| >= |cols| - 1) by {
      assert key[1..] == Key(rec, cols[1..]);
    }
    assert Compare(dirs, key, vals) == if key[0] == vals[0] then o else CompareValue(dirs[0], key[0], vals[0]);
    assert key[0] == rec[Named(cols[0])];
    WrapMeaning(mode, dirs[0], cols[0], vals[0], inner, rec, o, |rest| >= |cols| - 1);
  }
}
