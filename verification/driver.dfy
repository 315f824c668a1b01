/** The weekly sampling loop of `main` (weETH-USDC.py:94-165) as a pure step
    function over (cursor, baseline) and a recursive run. */
module Driver {
  import opened Wrappers
  import opened Normalize
  import opened Metrics

  /** One week in seconds: the only step the cursor ever takes. */
  const Week: int := 7 * 86400

  /** What the loop consults outside itself: the block index (timestamp to block
      number), the pool index at a block (with the pool id fixed), and the
      platform square root. */
  datatype Env = Env(
    blockAt: int -> Option<int>,
    poolAt: int -> Option<RawPool>,
    sqrt: real -> real)

  /** One emitted row. The timestamp is the cursor itself, not the block's time. */
  datatype Row = Row(
    timestamp: int,
    blockNumber: int,
    totalInvariant: real,
    totalSupply: real,
    lastPrice: real,
    lpReturn: Option<real>,
    spotReturn: Option<real>)

  /** Outcome of one loop iteration: the loop goes on from `next` with `baseline`,
      having emitted a row or not, or the iteration raised and the run is over. */
  datatype Transition =
    | Advance(emitted: Option<Row>, next: int, baseline: Option<Baseline>)
    | Crash

  /** The block lookup as the loop tests it: no block and block number 0 are both
      a miss, since the source tests the number for truthiness. */
  function ResolveBlock(env: Env, cursor: int): (r: Option<int>)
    ensures r.Some? <==> env.blockAt(cursor).Some? && env.blockAt(cursor).value != 0
    ensures r.Some? ==> r.value == env.blockAt(cursor).value
  {
    match env.blockAt(cursor)
    case Some(b) => if b != 0 then Some(b) else None
    case None => None
  }

  /** True when the iteration at `cursor` reaches the success branch: a block is
      resolved and the pool index has a record for it. */
  predicate Hit(env: Env, cursor: int) {
    ResolveBlock(env, cursor).Some? && env.poolAt(ResolveBlock(env, cursor).value).Some?
  }

  /** The pool record at a hit. */
  function PoolAt(env: Env, cursor: int): RawPool
    requires Hit(env, cursor)
  {
    env.poolAt(ResolveBlock(env, cursor).value).value
  }

  /** The baseline a row's own values would set. */
  function BaselineOfRow(row: Row): Baseline {
    Baseline(row.totalInvariant, row.totalSupply, row.lastPrice)
  }

  /** True when both metrics of `row` are present and are the ones measured
      against baseline `b`. */
  predicate MeasuredAgainst(row: Row, b: Baseline, sqrt: real -> real) {
    && MetricsDefined(row.totalSupply, row.lastPrice, b)
    && row.lpReturn == Some(LpReturn(row.totalInvariant, row.totalSupply, row.lastPrice, b, sqrt))
    && row.spotReturn == Some(SpotReturn(row.lastPrice, b.lastPrice))
  }

  /** True when `row` is what the success branch makes of the record found at
      `cursor`: its time and block, and values that scale back to the raw record. */
  predicate RowFromHit(env: Env, cursor: int, row: Row)
    requires Hit(env, cursor)
  {
    var raw := PoolAt(env, cursor);
    && row.timestamp == cursor
    && row.blockNumber == ResolveBlock(env, cursor).value
    && raw.lpInvariant.Numeric? && raw.lpBorrowedInvariant.Numeric?
    && raw.lastPrice.Numeric? && raw.totalSupply.Numeric?
    && Scale(row.totalInvariant, InvariantDecimals)
       == (raw.lpInvariant.value + raw.lpBorrowedInvariant.value) as real
    && Scale(row.totalSupply, SupplyDecimals) == raw.totalSupply.value as real
    && Scale(row.lastPrice, PriceDecimals) == raw.lastPrice.value as real
  }

  /** The baseline in force for the metrics of an iteration: the stored one, or
      the sample's own values the first time. */
  function Effective(baseline: Option<Baseline>, s: Sample): Baseline {
    match baseline
    case Some(b) => b
    case None => BaselineOf(s)
  }

  /** One iteration of the loop body at `cursor`. */
  function Step(env: Env, cursor: int, baseline: Option<Baseline>): (t: Transition)
    // every path that does not raise moves the cursor on by exactly one week
    ensures t.Advance? ==> t.next == cursor + Week
    // a row is emitted exactly on the hits that do not raise, and only hits can raise
    ensures t.Crash? ==> Hit(env, cursor)
    // a hit raises exactly when a field is non-numeric or a metric is undefined
    ensures Hit(env, cursor) ==>
      (t.Crash? <==>
        NormalizePool(PoolAt(env, cursor)).None? ||
        !MetricsDefined(NormalizePool(PoolAt(env, cursor)).value.totalSupply,
                        NormalizePool(PoolAt(env, cursor)).value.lastPrice,
                        Effective(baseline, NormalizePool(PoolAt(env, cursor)).value)))
    ensures t.Advance? ==> (t.emitted.Some? <==> Hit(env, cursor))
    // the baseline is set once, from the first row, and never changed afterwards
    ensures t.Advance? && (baseline.Some? || t.emitted.None?) ==> t.baseline == baseline
    ensures t.Advance? && t.emitted.Some? ==> t.baseline == Some(
      if baseline.Some? then baseline.value else BaselineOfRow(t.emitted.value))
    ensures t.Advance? && t.emitted.Some? ==>
      RowFromHit(env, cursor, t.emitted.value) &&
      MeasuredAgainst(t.emitted.value, t.baseline.value, env.sqrt)
  {
    match ResolveBlock(env, cursor)
    case None => Advance(None, cursor + Week, baseline)
    case Some(block) =>
      match env.poolAt(block)
      case None => Advance(None, cursor + Week, baseline)
      case Some(raw) =>
        match NormalizePool(raw)
        case None => Crash
        case Some(s) =>
          var b := Effective(baseline, s);
          if !MetricsDefined(s.totalSupply, s.lastPrice, b) then Crash
          else
            var totalInvariant := TotalInvariant(s);
            var lpReturn := LpReturn(totalInvariant, s.totalSupply, s.lastPrice, b, env.sqrt);
            var spotReturn := SpotReturn(s.lastPrice, b.lastPrice);
            var row := Row(cursor, block, totalInvariant, s.totalSupply, s.lastPrice,
                           Some(lpReturn), Some(spotReturn));
            assert Scale(totalInvariant, InvariantDecimals)
                   == Scale(s.lpInvariant, InvariantDecimals) + Scale(s.lpBorrowedInvariant, BorrowedInvariantDecimals);
            Advance(Some(row), cursor + Week, Some(b))
  }

  /** Number of times `while cursor <= end` enters its body when every step
      adds one week. */
  function IterationCount(cursor: int, end: int): nat {
    if cursor <= end then (end - cursor) / Week + 1 else 0
  }

  /** True when `t` is one of the cursor values the loop visits from `start`. */
  predicate Visited(start: int, end: int, t: int) {
    start <= t <= end && (t - start) % Week == 0
  }

  /** How a run ended: the cursor passed the end bound, or the iteration at
      cursor `at` raised. */
  datatype Halt = Finished | Crashed(at: int)

  datatype RunResult = RunResult(
    rows: seq<Row>,
    iterations: nat,
    baseline: Option<Baseline>,
    halt: Halt)

  /** True when the rows' timestamps strictly increase. */
  predicate Increasing(rows: seq<Row>) {
    forall i, j :: 0 <= i < j < |rows| ==> rows[i].timestamp < rows[j].timestamp
  }

  /** The loop from `cursor` until the cursor passes `end`, returning the rows in
      the order they are appended to the output. */
  function Run(env: Env, cursor: int, end: int, baseline: Option<Baseline>): (r: RunResult)
    ensures r.halt.Finished? ==> r.iterations == IterationCount(cursor, end)
    ensures r.halt.Crashed? ==>
      Visited(cursor, end, r.halt.at) && r.iterations == (r.halt.at - cursor) / Week + 1
    // a run stops early only at a hit that raises, under the baseline then in force
    ensures r.halt.Crashed? ==> Step(env, r.halt.at, r.baseline).Crash?
    // the raising iteration ends the process: every row was written before it
    ensures r.halt.Crashed? ==> forall i :: 0 <= i < |r.rows| ==> r.rows[i].timestamp < r.halt.at
    ensures |r.rows| <= r.iterations <= IterationCount(cursor, end)
    ensures baseline.Some? ==> r.baseline == baseline
    ensures r.baseline.Some? <==> baseline.Some? || |r.rows| > 0
    decreases end - cursor
  {
    if cursor > end then RunResult([], 0, baseline, Finished)
    else
      match Step(env, cursor, baseline)
      case Crash => RunResult([], 1, baseline, Crashed(cursor))
      case Advance(emitted, next, baseline') =>
        var rest := Run(env, next, end, baseline');
        var rows := if emitted.Some? then [emitted.value] + rest.rows else rest.rows;
        StepCount(cursor, end);
        CrashShift(cursor, rest.halt);
        RunResult(rows, rest.iterations + 1, rest.baseline, rest.halt)
  }

  /** The rows' timestamps are cursor values the loop visits, in strictly
      increasing order. */
  lemma {:induction false} RowsOrdered(env: Env, cursor: int, end: int, baseline: Option<Baseline>)
    ensures var rows := Run(env, cursor, end, baseline).rows;
      (forall i :: 0 <= i < |rows| ==> Visited(cursor, end, rows[i].timestamp)) && Increasing(rows)
    decreases end - cursor
  {
    if cursor <= end {
      var t := Step(env, cursor, baseline);
      if t.Advance? {
        var rest := Run(env, t.next, end, t.baseline).rows;
        RowsOrdered(env, t.next, end, t.baseline);
        VisitedShift(cursor, end, rest);
        if t.emitted.Some? {
          var row := t.emitted.value;
          assert Run(env, cursor, end, baseline).rows == [row] + rest;
          assert Visited(cursor, end, row.timestamp);
          assert forall i :: 0 <= i < |rest| ==> row.timestamp < rest[i].timestamp;
        } else {
          assert Run(env, cursor, end, baseline).rows == rest;
        }
      }
    }
  }

  /** Peeling one week off the front of the loop removes one iteration. */
  lemma StepCount(cursor: int, end: int)
    requires cursor <= end
    ensures IterationCount(cursor, end) == IterationCount(cursor + Week, end) + 1
  {
  }

  /** A cursor visited from the next week on is visited from this one. */
  lemma VisitedShift(cursor: int, end: int, rows: seq<Row>)
    requires forall i :: 0 <= i < |rows| ==> Visited(cursor + Week, end, rows[i].timestamp)
    ensures forall i :: 0 <= i < |rows| ==> Visited(cursor, end, rows[i].timestamp)
  {
  }

  /** Moves a crash position's week count and phase from the next cursor to this one. */
  lemma CrashShift(cursor: int, halt: Halt)
    ensures halt.Crashed? && halt.at >= cursor + Week ==>
      (halt.at - cursor) / Week == (halt.at - (cursor + Week)) / Week + 1 &&
      (halt.at - cursor) % Week == (halt.at - (cursor + Week)) % Week
  {
  }
}
