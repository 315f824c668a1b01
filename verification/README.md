# weETH-USDC weekly sampling driver — Dafny model

The repository produces a weekly time series of return metrics for one GammaSwap
liquidity pool (weETH/USDC on Arbitrum). Its core is the sampling loop in `main`.
Starting from a cursor timestamp, each iteration does the following:

1. It asks the block index for the first block at or after the cursor.
2. It asks the pool index for the pool record at that block.
3. It normalises the record's four fixed-point fields.
4. On the first success only, it latches a baseline `{totalInvariant, totalSupply, lastPrice}`.
5. It computes the LP return and the spot return against that baseline and appends a row.
6. It advances the cursor by one week.

A failed lookup skips the iteration; the cursor still advances.

The model is a set of pure functions:

- `Normalize` decodes raw fields (`normalize_value` and the hardcoded scales 12, 12, 6 and 12).
- `Metrics` holds the baseline, the two return formulas and the conditions under which they raise.
- `Driver.Step` is one iteration: `(cursor, baseline) -> Advance(row?, cursor', baseline') | Crash`.
- `Driver.Run` is the loop. It terminates on `end - cursor`.
- `DriverProperties` and `Scenarios` state what whole runs promise.

The two network lookups and `math.sqrt` are oracle functions held in `Driver.Env`. The output file becomes the returned sequence of rows.

The source has no guard against a non-numeric field, a zero baseline component, a zero supply or a negative price ratio. Each of these raises inside the iteration, and the process stops. The model keeps that behaviour as the `Crash` transition. The run ends with `Crashed(cursor)` and keeps the rows emitted before it, because those rows were already appended to the file. No skip path is invented.

Block number 0 counts as a miss, because the source tests the number for truthiness. A pool lookup with an empty answer counts as a miss too.

Bounds one week apart give two iterations, because the loop test `cursor <= end` (weETH-USDC.py:100) is inclusive: `IterationCount(t, t + Week) == 2`, and `Scenarios.FirstWeekMissed` runs twice.

## Model

| member | source | states |
|---|---|---|
| Normalize.NormalizeValue | weETH-USDC.py:7-12 | a non-numeric field gives None and a numeric one never does; the result times 10^decimals is the raw value |
| Normalize.NormalizeUnique | weETH-USDC.py:9 | the normalised value is the only decimal that scales back to the raw value |
| Normalize.NormalizePool | weETH-USDC.py:115-118 | the record normalises exactly when all four fields are numeric; each field then scales back to its raw value at 12, 12, 6 and 12 decimals |
| Normalize.DecodesOnlyNormalized | weETH-USDC.py:115-118 | converse: any sample that scales back to the record is its normalisation |
| Metrics.SpotReturn | weETH-USDC.py:142-144 | the spot return is half the relative price change; it is zero exactly when the price equals the baseline price; with a positive baseline price it is positive exactly when the price rose |
| Metrics.LpReturn | weETH-USDC.py:134-140 | LP return + 1 is the invariant-per-share growth over the baseline times sqrt(price / baseline price); it is defined only when the source does not raise |
| Metrics.MetricsDefined | weETH-USDC.py:136-144 | the conditions under which both metrics evaluate without raising: nonzero baseline invariant, baseline supply and baseline price, nonzero current supply, and a nonnegative price ratio for the square root |
| Metrics.PerShareGrowthSwap | weETH-USDC.py:137-138 | the source's (I/I0)/(S/S0) equals (I/S)/(I0/S0), the growth of invariant per unit of supply |
| Metrics.LpReturnZeroWhenUnchanged | weETH-USDC.py:136-140 | with sqrt(1) = 1, unchanged per-share invariant and price give an LP return of zero |
| Metrics.ReturnsZeroAtBaseline | weETH-USDC.py:120-144 | both metrics of the sample that set the baseline are zero |
| Driver.ResolveBlock | weETH-USDC.py:101-105 | a lookup is a hit exactly when a block is found and its number is nonzero |
| Driver.Step | weETH-USDC.py:100-165 | every path that does not raise moves the cursor by exactly 604800 s; only hits can raise, and a hit raises exactly when a field is non-numeric or a metric is undefined (a zero baseline invariant, supply or price, a zero supply, or a negative price ratio under the square root, lines 122-139); every other hit emits a row; the baseline is set once from the first row and is unchanged otherwise; the row's time, block and scaled values match the record; both metrics are present and measured against the baseline |
| Driver.Run | weETH-USDC.py:95-165 | a finished run makes (end - start) / 604800 + 1 iterations when start <= end and none otherwise; a crash happens only at a visited hit that raises, under the baseline in force there, and every row of a crashed run comes from an earlier cursor; rows <= iterations; a given baseline is kept; a baseline exists at the end exactly when one was given or a row was emitted |
| Driver.RowsOrdered | weETH-USDC.py:146-161 | every row timestamp is a visited cursor (start plus a whole number of weeks, at most end); timestamps strictly increase down the rows |
| Driver.StepCount | weETH-USDC.py:100-104 | advancing the cursor one week removes exactly one iteration |
| DriverProperties.RowsAreHits | weETH-USDC.py:101-118 | every row comes from an iteration whose block and pool lookups both succeeded, with that record's values |
| DriverProperties.HitsAreRows | weETH-USDC.py:100-157 | every visited cursor with both lookups succeeding, reached before any crash, produced a row; so a hit never raises silently: it emits a row or it ends the run |
| DriverProperties.RowsMeasuredAgainstAnchor | weETH-USDC.py:120-144 | a run ends with the baseline it started with, or else with the first row's values; every row's metrics are measured against that same baseline |
| DriverProperties.FirstRowReturnsZero | weETH-USDC.py:120-144 | with sqrt(1) = 1, the first row of a run that starts without a baseline has both returns 0 |
| DriverProperties.BlocksNondecreasing | weETH-USDC.py:14-43 | if the block index never maps a later time to an earlier block, row block numbers never decrease |
| Scenarios.SingleSampleRun | weETH-USDC.py:100-161 | start = end with block 100 gives one row (12.0, 10.0, 1.0, 0, 0); that row's values become the baseline |
| Scenarios.FirstWeekMissed | weETH-USDC.py:100-105 | no block at the first cursor gives no row there; the row at the next week supplies the baseline; two iterations |
| Scenarios.BlockZeroIsMiss | weETH-USDC.py:102-105 | block number 0 emits nothing and latches no baseline |
| Scenarios.ZeroSupplyCrashes | weETH-USDC.py:136-140 | a zero supply on the first hit raises at once, with no rows |

## Left out

- HTTP/GraphQL queries (`get_block_from_timestamp`, `query_pool_at_block`, weETH-USDC.py:14-72): network I/O. They are the `blockAt` and `poolAt` oracles of `Driver.Env`. Error status, GraphQL errors and empty results all appear as None.
- CSV appending and header detection (`save_to_csv`, weETH-USDC.py:74-86): file I/O. The output is the returned `seq<Row>`.
- Wall-clock and local-time handling of the start and end bounds (weETH-USDC.py:94, 96): they depend on the environment. `start` and `end` are integer parameters.
- UTC string formatting of the row timestamp (weETH-USDC.py:146): the row carries the raw cursor.
- IEEE float arithmetic and `round(..., 6)` (weETH-USDC.py:151-155): quantities are exact `real`s, and rounding is not modelled.
- `math.sqrt`: this is a platform call. It is the `sqrt` oracle of `Driver.Env`.
- Metrics.LpReturn: the LP return holds for any `sqrt`. The zero-at-baseline properties assume only `sqrt(1.0) == 1.0`, not the real square root.
- DriverProperties.FirstRowReturnsZero: assumes `sqrt(1.0) == 1.0` of the oracle, for the same reason.
- Python exception kinds: `TypeError`, `ZeroDivisionError` and `ValueError` all become `Crash`. The order in which the source raises only decides which kind is raised, and the kind is not modelled.
- Non-integer numeric strings accepted by `float()` (such as "1.5", "inf" or "nan"): raw fields are integers or non-numeric.
- Raising lookups: `requests.post` on a connection failure (weETH-USDC.py:24, 60), `response.json()` on a body that is not JSON (30, 66) and `block["number"]` on a record without a number (43) raise and end the process. The `Option`-valued oracles cannot express this, so the model promises nothing about such runs, and only a hit can crash in the model.
- Parsing of the `token0`/`token1` decimals (weETH-USDC.py:113-114): the values are never used. `int(...)` raises on a null or non-integer decimal count and ends the process. The model treats such a hit as if the decimals parsed.
- The pool id and endpoint URLs (weETH-USDC.py:89-92): constants that the oracles close over.
- All `print` logging.
