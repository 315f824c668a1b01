/** What a whole run of the sampling loop promises about the rows it emits and
    the baseline it keeps (weETH-USDC.py:98-165). */
module DriverProperties {
  import opened Wrappers
  import opened Normalize
  import opened Metrics
  import opened Driver

  /** Soundness: every row comes from an iteration whose block lookup found a
      nonzero block and whose pool lookup found a record, and carries that
      record's values at the hardcoded scales. */
  lemma {:induction false} RowsAreHits(env: Env, cursor: int, end: int, baseline: Option<Baseline>)
    ensures forall i :: 0 <= i < |Run(env, cursor, end, baseline).rows| ==>
      var row := Run(env, cursor, end, baseline).rows[i];
      Hit(env, row.timestamp) && RowFromHit(env, row.timestamp, row)
    decreases end - cursor
  {
    if cursor <= end {
      match Step(env, cursor, baseline)
      case Crash =>
      case Advance(emitted, next, baseline') =>
        RowsAreHits(env, next, end, baseline');
    }
  }

  /** Completeness: every visited cursor whose lookups both succeed, and which the
      run reached before any crash, produced a row with that timestamp. */
  lemma {:induction false} HitsAreRows(env: Env, cursor: int, end: int, baseline: Option<Baseline>, t: int)
    requires Visited(cursor, end, t) && Hit(env, t)
    requires Run(env, cursor, end, baseline).halt.Crashed? ==> t < Run(env, cursor, end, baseline).halt.at
    ensures exists i :: 0 <= i < |Run(env, cursor, end, baseline).rows| &&
                        Run(env, cursor, end, baseline).rows[i].timestamp == t
    decreases end - cursor
  {
    var r := Run(env, cursor, end, baseline);
    var step := Step(env, cursor, baseline);
    if step.Crash? {
      assert false;
    }
    var rest := Run(env, step.next, end, step.baseline);
    if t == cursor {
      assert r.rows[0].timestamp == t;
    } else {
      assert r.halt == rest.halt;
      VisitedNext(cursor, end, t);
      HitsAreRows(env, step.next, end, step.baseline, t);
      var i :| 0 <= i < |rest.rows| && rest.rows[i].timestamp == t;
      if step.emitted.Some? {
        assert r.rows[i + 1] == rest.rows[i];
      } else {
        assert r.rows[i] == rest.rows[i];
      }
    }
  }

  /** A visited cursor other than the first is visited from the next week on. */
  lemma VisitedNext(cursor: int, end: int, t: int)
    requires Visited(cursor, end, t) && t != cursor
    ensures Visited(cursor + Week, end, t)
  {
  }

  /** The baseline every row is measured against: the one the run started with,
      or else the values of the first row. */
  function Anchor(baseline: Option<Baseline>, rows: seq<Row>): Baseline
    requires baseline.Some? || |rows| > 0
  {
    if baseline.Some? then baseline.value else BaselineOfRow(rows[0])
  }

  /** Set-once baseline: the first row fixes the baseline, the run ends with that
      same baseline, and every row's metrics are measured against it. */
  lemma {:induction false} RowsMeasuredAgainstAnchor(env: Env, cursor: int, end: int, baseline: Option<Baseline>)
    requires baseline.Some? || |Run(env, cursor, end, baseline).rows| > 0
    ensures var r := Run(env, cursor, end, baseline);
      r.baseline == Some(Anchor(baseline, r.rows)) &&
      forall i :: 0 <= i < |r.rows| ==> MeasuredAgainst(r.rows[i], Anchor(baseline, r.rows), env.sqrt)
    decreases end - cursor
  {
    var r := Run(env, cursor, end, baseline);
    if cursor <= end {
      var t := Step(env, cursor, baseline);
      if t.Advance? {
        var rest := Run(env, t.next, end, t.baseline);
        assert r.baseline == rest.baseline;
        if t.emitted.Some? {
          var row := t.emitted.value;
          assert r.rows == [row] + rest.rows;
          var b := t.baseline.value;
          assert Anchor(baseline, r.rows) == b;
          if |rest.rows| > 0 {
            RowsMeasuredAgainstAnchor(env, t.next, end, t.baseline);
          }
          MeasuredPrepend(row, rest.rows, b, env.sqrt);
        } else {
          assert r.rows == rest.rows;
          RowsMeasuredAgainstAnchor(env, t.next, end, t.baseline);
        }
      }
    }
  }

  /** Putting a row measured against `b` in front of rows measured against `b`. */
  lemma MeasuredPrepend(row: Row, rest: seq<Row>, b: Baseline, sqrt: real -> real)
    requires MeasuredAgainst(row, b, sqrt)
    requires forall i :: 0 <= i < |rest| ==> MeasuredAgainst(rest[i], b, sqrt)
    ensures forall i :: 0 <= i < |[row] + rest| ==> MeasuredAgainst(([row] + rest)[i], b, sqrt)
  {
  }

  /** Both metrics are exactly zero in the row that set the baseline. */
  lemma FirstRowReturnsZero(env: Env, cursor: int, end: int)
    requires env.sqrt(1.0) == 1.0
    requires |Run(env, cursor, end, None).rows| > 0
    ensures Run(env, cursor, end, None).rows[0].lpReturn == Some(0.0)
    ensures Run(env, cursor, end, None).rows[0].spotReturn == Some(0.0)
  {
    var rows := Run(env, cursor, end, None).rows;
    RowsMeasuredAgainstAnchor(env, cursor, end, None);
    var row := rows[0];
    assert MeasuredAgainst(row, BaselineOfRow(row), env.sqrt);
    LpReturnZeroWhenUnchanged(row.totalInvariant, row.totalSupply, row.lastPrice,
                              BaselineOfRow(row), env.sqrt);
  }

  /** True when the block index never maps a later timestamp to an earlier block,
      as "earliest block at or after t" does. */
  ghost predicate MonotoneBlocks(env: Env) {
    forall t1, t2 :: t1 <= t2 && env.blockAt(t1).Some? && env.blockAt(t2).Some? ==>
      env.blockAt(t1).value <= env.blockAt(t2).value
  }

  /** With a monotone block index, block numbers never decrease down the rows. */
  lemma BlocksNondecreasing(env: Env, cursor: int, end: int, baseline: Option<Baseline>)
    requires MonotoneBlocks(env)
    ensures var rows := Run(env, cursor, end, baseline).rows;
      forall i, j :: 0 <= i < j < |rows| ==> rows[i].blockNumber <= rows[j].blockNumber
  {
    RowsAreHits(env, cursor, end, baseline);
    RowsOrdered(env, cursor, end, baseline);
  }
}
