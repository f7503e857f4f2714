/**
 * The small pure decisions of `Iterator#each_batch`: argument validation,
 * `build_batch_orders`, the ignored-order policy of `act_on_ignored_order`,
 * and the size of the enumerator returned without a block.
 */
module Arguments {
  import opened Results
  import opened Keyset

  /**
   * The errors the iteration raises. `NoColumns`, `BadOrder` and
   * `IgnoredOrder` are the source's `ArgumentError`s; `NoCursorColumns` is
   * the failure Ruby/Arel raises when a condition has to be built over an
   * empty cursor column list; `ZeroBatchSize` is the `ZeroDivisionError` of
   * the enumerator's size formula; `WrongArity` is the `ArgumentError` Ruby
   * raises when a method is called with the wrong number of arguments.
   */
  datatype Error = NoColumns | BadOrder | IgnoredOrder | NoCursorColumns | ZeroBatchSize | WrongArity

  /** An element of the `order:` argument: `:asc`, `:desc`, or any other Ruby value. */
  datatype OrderArg = AscArg | DescArg | OtherArg(repr: string)

  /** Every element of `Array(order)` is `:asc` or `:desc`. */
  predicate ValidOrders(order: seq<OrderArg>)
  {
    forall i :: 0 <= i < |order| ==> !order[i].OtherArg?
  }

  /**
   * The checks made before anything else: at least one column, then every
   * order element valid. The first failing check decides the error.
   */
  function Validate(columnCount: nat, order: seq<OrderArg>): (r: Option<Error>)
    ensures r == None <==> columnCount > 0 && ValidOrders(order)
    ensures columnCount == 0 ==> r == Some(NoColumns)
    ensures columnCount > 0 && !ValidOrders(order) ==> r == Some(BadOrder)
  {
    if columnCount == 0 then Some(NoColumns)
    else if exists i :: 0 <= i < |order| && order[i].OtherArg? then Some(BadOrder)
    else None
  }

  function DirectionOf(a: OrderArg): Direction
  {
    if a == DescArg then Desc else Asc
  }

  /**
   * `cursor_columns.zip(Array(order))`, with `:asc` for a column the order
   * list does not reach; surplus order elements are dropped. Only `:desc`
   * makes a column descending: the operator choices test `order == :desc`,
   * so any other element reads as ascending.
   */
  function BuildBatchOrders(cursor: seq<string>, order: seq<OrderArg>): (r: seq<(string, Direction)>)
    ensures |r| == |cursor|
    ensures forall i :: 0 <= i < |cursor| ==> r[i].0 == cursor[i]
    ensures forall i :: 0 <= i < |cursor| ==> (r[i].1 == Desc <==> i < |order| && order[i] == DescArg)
  {
    seq(|cursor|, i requires 0 <= i < |cursor| => (cursor[i], if i < |order| then DirectionOf(order[i]) else Asc))
  }

  /** The directions of a list of batch orders, in cursor order. */
  function Directions(orders: seq<(string, Direction)>): (dirs: seq<Direction>)
    ensures |dirs| == |orders|
    ensures forall i :: 0 <= i < |orders| ==> dirs[i] == orders[i].1
  {
    seq(|orders|, i requires 0 <= i < |orders| => orders[i].1)
  }

  /**
   * A short order list is padded with `:asc`, not with its last element:
   * `order: [:desc]` over two cursor columns sorts the second one ascending.
   */
  lemma PaddingIsAscending(a: string, b: string)
    ensures Directions(BuildBatchOrders([a, b], [DescArg])) == [Desc, Asc]
  {
    var r := BuildBatchOrders([a, b], [DescArg]);
    assert r[0].1 == Desc && r[1].1 == Asc;
  }

  /** What `act_on_ignored_order` does about a relation that already has an ORDER BY. */
  datatype Reaction = Raise | Warn | Silent

  /**
   * An explicit `error_on_ignore` wins over the configured default; raising
   * is decided first, and only a non-raising call warns, and only when a
   * logger is configured.
   */
  function IgnoredOrderReaction(explicit: Option<bool>, configured: bool, hasLogger: bool): (r: Reaction)
    ensures r == Raise <==> (explicit == Some(true) || (explicit == None && configured))
    ensures r == Warn <==> r != Raise && hasLogger
    ensures r == Silent <==> r != Raise && !hasLogger
  {
    var raise := if explicit.None? then configured else explicit.value;
    if raise then Raise
    else if hasLogger then Warn
    else Silent
  }

  /**
   * `(total - 1).div(batch_size) + 1`. Ruby's `div` floors, which is what
   * Dafny's `/` does for a positive divisor; a zero batch size divides by zero.
   * For a positive batch size the result is the ceiling of `total / batch_size`.
   */
  function EnumeratorSize(total: nat, batchSize: nat): (r: Result<int, Error>)
    ensures batchSize == 0 <==> r == Err(ZeroBatchSize)
    ensures batchSize > 0 ==> r.Ok? && r.value >= 0 && (r.value - 1) * batchSize < total <= r.value * batchSize
    ensures r.Ok? && total == 0 ==> r.value == 0
  {
    if batchSize == 0 then Err(ZeroBatchSize)
    else
      var q := (total - 1) / batchSize;
      assert batchSize * q <= total - 1 < batchSize * q + batchSize;
      Ok(q + 1)
  }
}
