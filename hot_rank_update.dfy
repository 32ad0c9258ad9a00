/**
 * The daily hot-rank refresh of daily_update/hot_rank_update.py: a retry
 * wrapper with exponential back-off, the Beijing-exchange symbol rewrite,
 * the choice and truncation of the codes to refresh, and the per-code upsert
 * of `stock_hot_rank` rows keyed by (stock_code, date).
 */
module HotRankUpdate {
  import opened Common
  import opened Models
  import opened KeyedTable

  // ---------------------------------------------------------------------------
  // retry_with_delay
  // ---------------------------------------------------------------------------

  /** How a wrapped call ends: the first successful result, the last error re-raised, or no call at all. */
  datatype RetryOutcome<T, E> = Returned(value: T) | Raised(error: E) | NoAttempt

  function Pow2(n: nat): (r: nat)
    ensures r >= 1
  {
    if n == 0 then 1 else 2 * Pow2(n - 1)
  }

  /** The wrapper from attempt `i` on (counting from 0): the outcome and how many calls were made in all. */
  function RetriedFrom<T, E>(maxRetries: int, call: nat -> Result<T, E>, i: nat): (RetryOutcome<T, E>, nat)
    requires i < maxRetries
    decreases maxRetries - i
  {
    match call(i)
    case Ok(v) => (Returned(v), i + 1)
    case Err(e) => if i + 1 >= maxRetries then (Raised(e), i + 1) else RetriedFrom(maxRetries, call, i + 1)
  }

  /**
   * The outcome of a wrapped call whose i-th attempt returns `call(i)`, and
   * the number of attempts. With `max_retries <= 0` the loop never runs and
   * the wrapper returns `None` without calling.
   */
  function Retried<T, E>(maxRetries: int, call: nat -> Result<T, E>): (RetryOutcome<T, E>, nat)
  {
    if maxRetries <= 0 then (NoAttempt, 0) else RetriedFrom(maxRetries, call, 0)
  }

  lemma {:induction false} RetriedFromMeaning<T, E>(maxRetries: int, call: nat -> Result<T, E>, i: nat)
    requires i < maxRetries
    requires forall j :: 0 <= j < i ==> call(j).Err?
    ensures var (outcome, calls) := RetriedFrom(maxRetries, call, i);
      && i < calls <= maxRetries
      && !outcome.NoAttempt?
      && (forall j :: 0 <= j < calls - 1 ==> call(j).Err?)
      && (outcome.Returned? ==> call(calls - 1) == Ok(outcome.value))
      && (outcome.Raised? ==> calls == maxRetries && call(calls - 1) == Err(outcome.error))
    decreases maxRetries - i
  {
    if call(i).Err? && i + 1 < maxRetries {
      RetriedFromMeaning(maxRetries, call, i + 1);
    }
  }

  /**
   * The wrapper calls at most `max_retries` times; it returns the first
   * successful result at once, after failed attempts only; it re-raises the
   * last error exactly when all `max_retries` attempts fail.
   */
  lemma RetriedMeaning<T, E>(maxRetries: int, call: nat -> Result<T, E>)
    ensures var (outcome, calls) := Retried(maxRetries, call);
      && (outcome.NoAttempt? <==> maxRetries <= 0)
      && (outcome.NoAttempt? ==> calls == 0)
      && (maxRetries > 0 ==> 1 <= calls <= maxRetries)
      && (forall j :: 0 <= j < calls - 1 ==> call(j).Err?)
      && (outcome.Returned? ==> call(calls - 1) == Ok(outcome.value))
      && (outcome.Raised? ==> calls == maxRetries && call(calls - 1) == Err(outcome.error))
      && (outcome.Raised? <==> maxRetries > 0 && forall j :: 0 <= j < maxRetries ==> call(j).Err?)
  {
    if maxRetries > 0 {
      RetriedFromMeaning(maxRetries, call, 0);
      var (outcome, calls) := Retried(maxRetries, call);
      if forall j :: 0 <= j < maxRetries ==> call(j).Err? {
        assert call(calls - 1).Err?;
      }
    }
  }

  /**
   * The wrapper's loop. `call(i)` is what the i-th attempt returns and
   * `jitterFactor(i)` the i-th `random.uniform(0.1, 0.5)`; `waits` are the
   * sleeps, one between each two attempts.
   */
  method RetryWithDelay<T, E>(maxRetries: int, initialDelay: real, call: nat -> Result<T, E>, jitterFactor: nat -> real)
    returns (outcome: RetryOutcome<T, E>, calls: nat, waits: seq<real>)
    ensures (outcome, calls) == Retried(maxRetries, call)
    ensures |waits| == if calls == 0 then 0 else calls - 1
    ensures forall i :: 0 <= i < |waits| ==> waits[i] == Wait(initialDelay, jitterFactor, i)
  {
    var retries := 0;
    var delay := initialDelay;
    waits := [];
    calls := 0;
    outcome := NoAttempt;
    while retries < maxRetries
      invariant 0 <= retries && calls == retries
      invariant retries > 0 ==> retries < maxRetries && Retried(maxRetries, call) == RetriedFrom(maxRetries, call, retries)
      invariant delay == BaseDelay(initialDelay, retries)
      invariant |waits| == retries
      invariant forall i :: 0 <= i < retries ==> waits[i] == Wait(initialDelay, jitterFactor, i)
      decreases maxRetries - retries
    {
      calls := calls + 1;
      match call(retries) {
        case Ok(v) =>
          return Returned(v), calls, waits;
        case Err(e) =>
          retries := retries + 1;
          if retries >= maxRetries {
            return Raised(e), calls, waits;
          }
          var jitter := jitterFactor(retries - 1) * delay;
          BackOffStep(initialDelay, jitterFactor, retries - 1);
          waits := waits + [delay + jitter];
          delay := delay * 2.0;
      }
    }
  }

  /** The base delay before the wait that follows failed attempt i: `initial_delay` doubled i times. */
  function BaseDelay(initialDelay: real, i: nat): real
  {
    Pow2(i) as real * initialDelay
  }

  /** The sleep after failed attempt i: the base delay plus its jitter. */
  function Wait(initialDelay: real, jitterFactor: nat -> real, i: nat): real
  {
    BaseDelay(initialDelay, i) * (1.0 + jitterFactor(i))
  }

  /** The arithmetic of one retried failure: the wait is delay + jitter, and the delay doubles. */
  lemma BackOffStep(initialDelay: real, jitterFactor: nat -> real, i: nat)
    ensures BaseDelay(initialDelay, i) + jitterFactor(i) * BaseDelay(initialDelay, i) == Wait(initialDelay, jitterFactor, i)
    ensures BaseDelay(initialDelay, i) * 2.0 == BaseDelay(initialDelay, i + 1)
  {
  }

  /** Each wait lies between 1.1 and 1.5 times the current base delay, which doubles from `initial_delay`. */
  lemma WaitBounds(initialDelay: real, jitterFactor: nat -> real, i: nat)
    requires initialDelay >= 0.0 && 0.1 <= jitterFactor(i) <= 0.5
    ensures 1.1 * BaseDelay(initialDelay, i) <= Wait(initialDelay, jitterFactor, i) <= 1.5 * BaseDelay(initialDelay, i)
  {
    assert BaseDelay(initialDelay, i) >= 0.0;
  }

  // ---------------------------------------------------------------------------
  // get_stock_hot_rank: the symbol rewrite
  // ---------------------------------------------------------------------------

  /**
   * An ASCII code whose upper-cased form starts with "BJ". Python's `upper()`
   * also maps a few non-ASCII letters (such as U+01F0) to a "J" followed by a
   * combining mark; stock codes are ASCII, so those are not modelled.
   */
  predicate IsBeijingCode(code: string)
  {
    |code| >= 2 && (code[0] == 'B' || code[0] == 'b') && (code[1] == 'J' || code[1] == 'j')
  }

  /** The symbol sent to the data source: a Beijing code is looked up under "SZ" and the rest of the code. */
  function HotRankSymbol(code: string): string
  {
    if IsBeijingCode(code) then "SZ" + code[2..] else code
  }

  /**
   * The rewrite keeps the length and everything after the prefix, changes
   * exactly the Beijing codes, never yields a Beijing code, and so is
   * idempotent.
   */
  lemma HotRankSymbolProperties(code: string)
    ensures |HotRankSymbol(code)| == |code|
    ensures HotRankSymbol(code) != code <==> IsBeijingCode(code)
    ensures IsBeijingCode(code) ==> HotRankSymbol(code)[..2] == "SZ" && HotRankSymbol(code)[2..] == code[2..]
    ensures !IsBeijingCode(HotRankSymbol(code))
    ensures HotRankSymbol(HotRankSymbol(code)) == HotRankSymbol(code)
  {
    if IsBeijingCode(code) {
      assert HotRankSymbol(code)[0] == 'S';
    }
  }

  // ---------------------------------------------------------------------------
  // update_hot_rank_data: which codes
  // ---------------------------------------------------------------------------

  /** Python's `xs[:n]` (and `DataFrame.head(n)`): a negative n drops the last |n| items. */
  function SlicePrefix<T>(xs: seq<T>, n: int): (r: seq<T>)
    ensures |r| <= |xs| && r == xs[..|r|]
  {
    if n >= 0 then (if n <= |xs| then xs[..n] else xs)
    else if |xs| + n >= 0 then xs[..|xs| + n] else []
  }

  /** `max_stocks` is truthy: given and non-zero. */
  predicate Limited(maxStocks: Option<int>)
  {
    maxStocks.Some? && maxStocks.value != 0
  }

  /**
   * The codes refreshed: the given codes, or, when none are given, the
   * fetched stock list cut to `max_stocks`; then cut to `max_stocks` again
   * when longer.
   */
  function CodesToUpdate(stockCodes: seq<string>, stockList: seq<string>, maxStocks: Option<int>): seq<string>
  {
    var codes := if stockCodes != [] then stockCodes
                 else if Limited(maxStocks) then SlicePrefix(stockList, maxStocks.value)
                 else stockList;
    if Limited(maxStocks) && |codes| > maxStocks.value then SlicePrefix(codes, maxStocks.value) else codes
  }

  /**
   * With a positive limit the codes are the first `max_stocks` of the source
   * (or all of it when shorter); without one they are the whole source.
   */
  lemma CodesToUpdateBound(stockCodes: seq<string>, stockList: seq<string>, maxStocks: Option<int>)
    ensures var source := if stockCodes != [] then stockCodes else stockList;
      var codes := CodesToUpdate(stockCodes, stockList, maxStocks);
      && (Limited(maxStocks) && maxStocks.value > 0 ==>
            |codes| == (if |source| < maxStocks.value then |source| else maxStocks.value) && codes == source[..|codes|])
      && (!Limited(maxStocks) ==> codes == source)
  {
  }

  // ---------------------------------------------------------------------------
  // save_hot_rank_to_db
  // ---------------------------------------------------------------------------

  /** One fetched row: the `时间` text as a date (`None` when `strptime` rejects it), rank and ratios. */
  datatype HotRankRow = HotRankRow(date: Option<Date>, rank: int, newFansRatio: real, loyalFansRatio: real)

  /** What the fetch handed over: not a DataFrame, or a frame of rows. */
  datatype HotRankInput = NotFrame | Frame(rows: seq<HotRankRow>)

  /** The `stock_hot_rank` table, keyed by (stock_code, date). */
  type HotRankTable = map<(string, Date), HotRank>

  /** How a save ended: skipped (nothing to save), saved with its counts, or raised after rolling back. */
  datatype SaveOutcome = Skipped | Saved(updates: nat, inserts: nat) | SaveRaised

  predicate AllDatesParse(rows: seq<HotRankRow>)
  {
    forall k :: 0 <= k < |rows| ==> rows[k].date.Some?
  }

  /** The (key, row) pairs the upsert loop applies, in frame order. */
  function HotRankPairs(code: string, rows: seq<HotRankRow>): (pairs: seq<((string, Date), HotRank)>)
    requires AllDatesParse(rows)
    ensures |pairs| == |rows|
  {
    seq(|rows|, k requires 0 <= k < |rows| => ((code, rows[k].date.value), HotRank(rows[k].rank, rows[k].newFansRatio, rows[k].loyalFansRatio)))
  }

  /**
   * Whether the transaction fails: a date that does not parse, or the store
   * raising at statement `failAt`. Either rolls the whole transaction back.
   */
  predicate SaveFails(rows: seq<HotRankRow>, failAt: Option<nat>)
  {
    !AllDatesParse(rows) || (failAt.Some? && failAt.value < |rows|)
  }

  /** The table after `save_hot_rank_to_db`, and how it ended. */
  function SaveHotRank(table: HotRankTable, code: string, input: HotRankInput, failAt: Option<nat>): (HotRankTable, SaveOutcome)
  {
    if input.NotFrame? || input.rows == [] then (table, Skipped)
    else if SaveFails(input.rows, failAt) then (table, SaveRaised)
    else
      var pairs := HotRankPairs(code, input.rows);
      var inserts := InsertCount(table, pairs);
      InsertCountIsGrowth(table, pairs);
      (Upserted(table, pairs), Saved(|pairs| - inserts, inserts))
  }

  /**
   * A save writes all its rows or none. When it writes, it upserts the
   * frame's rows in order, updates plus inserts is the number of rows, and
   * the table grows by the inserts.
   */
  lemma SaveHotRankCounts(table: HotRankTable, code: string, input: HotRankInput, failAt: Option<nat>)
    ensures var (newTable, outcome) := SaveHotRank(table, code, input, failAt);
      && (!outcome.Saved? ==> newTable == table)
      && (outcome.Saved? <==> input.Frame? && input.rows != [] && !SaveFails(input.rows, failAt))
      && (outcome.Saved? ==>
            && newTable == Upserted(table, HotRankPairs(code, input.rows))
            && outcome.updates + outcome.inserts == |input.rows|
            && |newTable| == |table| + outcome.inserts)
  {
    var (newTable, outcome) := SaveHotRank(table, code, input, failAt);
    if outcome.Saved? {
      InsertCountIsGrowth(table, HotRankPairs(code, input.rows));
    }
  }

  /**
   * Upserting a frame's rows: every row lands under (code, its date), the
   * last row of a date winning; the table gains exactly those keys; nothing
   * under another code changes.
   */
  lemma UpsertedRows(table: HotRankTable, code: string, rows: seq<HotRankRow>)
    requires AllDatesParse(rows)
    ensures var newTable := Upserted(table, HotRankPairs(code, rows));
      && (forall key :: key in newTable <==> key in table || exists k :: 0 <= k < |rows| && key == (code, rows[k].date.value))
      && (forall key :: key in table && key.0 != code ==> newTable[key] == table[key])
      && (forall k :: 0 <= k < |rows| && (forall j :: k < j < |rows| ==> rows[j].date != rows[k].date) ==>
            newTable[(code, rows[k].date.value)] == HotRank(rows[k].rank, rows[k].newFansRatio, rows[k].loyalFansRatio))
  {
    var pairs := HotRankPairs(code, rows);
    UpsertedFrame(table, pairs);
    forall key ensures key in KeysOf(pairs) <==> exists k :: 0 <= k < |rows| && key == (code, rows[k].date.value) {
      if key in KeysOf(pairs) {
        var i :| 0 <= i < |pairs| && pairs[i].0 == key;
      }
      if exists k :: 0 <= k < |rows| && key == (code, rows[k].date.value) {
        var k :| 0 <= k < |rows| && key == (code, rows[k].date.value);
        assert pairs[k].0 == key;
      }
    }
    forall k | 0 <= k < |rows| && (forall j :: k < j < |rows| ==> rows[j].date != rows[k].date)
      ensures Upserted(table, pairs)[(code, rows[k].date.value)] == HotRank(rows[k].rank, rows[k].newFansRatio, rows[k].loyalFansRatio)
    {
      UpsertedLastWins(table, pairs, k);
    }
  }

  /** One more row of the upsert loop. */
  lemma SaveStep(table: HotRankTable, code: string, rows: seq<HotRankRow>, k: int)
    requires 0 <= k < |rows| && AllDatesParse(rows[..k]) && rows[k].date.Some?
    ensures AllDatesParse(rows[..k + 1])
    ensures var prev := Upserted(table, HotRankPairs(code, rows[..k]));
      var key := (code, rows[k].date.value);
      && Upserted(table, HotRankPairs(code, rows[..k + 1])) == prev[key := HotRank(rows[k].rank, rows[k].newFansRatio, rows[k].loyalFansRatio)]
      && InsertCount(table, HotRankPairs(code, rows[..k + 1])) == InsertCount(table, HotRankPairs(code, rows[..k])) + if key in prev then 0 else 1
  {
    assert forall j :: 0 <= j < k + 1 ==> rows[..k + 1][j] == rows[j];
    var next := HotRankPairs(code, rows[..k + 1]);
    assert next[..k] == HotRankPairs(code, rows[..k]);
  }

  /** A row whose date does not parse, or whose statement raises, fails the whole save. */
  lemma SaveFailsAt(rows: seq<HotRankRow>, failAt: Option<nat>, k: int)
    requires 0 <= k < |rows|
    requires rows[k].date.None? || failAt == Some(k)
    ensures SaveFails(rows, failAt)
  {
  }

  /** The statements of the transaction, row by row, with their counts; `raised` when one raises. */
  method UpsertRows(table: HotRankTable, code: string, rows: seq<HotRankRow>, failAt: Option<nat>)
    returns (newTable: HotRankTable, updateCount: nat, insertCount: nat, raised: bool)
    ensures raised <==> SaveFails(rows, failAt)
    ensures !raised ==> && newTable == Upserted(table, HotRankPairs(code, rows))
                        && insertCount == InsertCount(table, HotRankPairs(code, rows))
                        && updateCount + insertCount == |rows|
  {
    updateCount, insertCount := 0, 0;
    newTable := table;
    for k := 0 to |rows|
      invariant AllDatesParse(rows[..k])
      invariant failAt.Some? ==> failAt.value >= k
      invariant newTable == Upserted(table, HotRankPairs(code, rows[..k]))
      invariant insertCount == InsertCount(table, HotRankPairs(code, rows[..k])) && updateCount + insertCount == k
    {
      if rows[k].date.None? || failAt == Some(k) {
        SaveFailsAt(rows, failAt, k);
        return newTable, updateCount, insertCount, true;
      }
      SaveStep(table, code, rows, k);
      var key := (code, rows[k].date.value);
      var isUpdate := key in newTable;
      updateCount := if isUpdate then updateCount + 1 else updateCount;
      insertCount := if isUpdate then insertCount else insertCount + 1;
      newTable := newTable[key := HotRank(rows[k].rank, rows[k].newFansRatio, rows[k].loyalFansRatio)];
    }
    assert rows[..|rows|] == rows;
    raised := false;
  }

  /**
   * `save_hot_rank_to_db`: inside one transaction, each row updates the row
   * of its (code, date) when one exists and inserts one otherwise; a raise
   * rolls the transaction back.
   */
  method SaveHotRankToDb(table: HotRankTable, code: string, input: HotRankInput, failAt: Option<nat>)
    returns (newTable: HotRankTable, outcome: SaveOutcome)
    ensures (newTable, outcome) == SaveHotRank(table, code, input, failAt)
  {
    if input.NotFrame? || |input.rows| == 0 {
      return table, Skipped;
    }
    var written, updateCount, insertCount, raised := UpsertRows(table, code, input.rows, failAt);
    if raised {
      return table, SaveRaised;
    }
    newTable, outcome := written, Saved(updateCount, insertCount);
  }

  // ---------------------------------------------------------------------------
  // update_hot_rank_data
  // ---------------------------------------------------------------------------

  /**
   * The table after refreshing the codes in order: each code's rows are
   * fetched under its rewritten symbol and saved under the code itself; a
   * failing save leaves the table as it was and the loop goes on.
   */
  function RefreshCodes(table: HotRankTable, codes: seq<string>, fetched: string -> HotRankInput,
                        failAt: string -> Option<nat>): HotRankTable
  {
    if codes == [] then table
    else
      var code := codes[|codes| - 1];
      SaveHotRank(RefreshCodes(table, codes[..|codes| - 1], fetched, failAt), code, fetched(HotRankSymbol(code)), failAt(code)).0
  }

  /** Only rows of refreshed codes change. */
  lemma {:induction false} RefreshCodesFrame(table: HotRankTable, codes: seq<string>, fetched: string -> HotRankInput,
                                             failAt: string -> Option<nat>)
    ensures var r := RefreshCodes(table, codes, fetched, failAt);
      && table.Keys <= r.Keys
      && forall key :: key in table && key.0 !in codes ==> r[key] == table[key]
  {
    if codes != [] {
      var prefix := codes[..|codes| - 1];
      var code := codes[|codes| - 1];
      RefreshCodesFrame(table, prefix, fetched, failAt);
      var prev := RefreshCodes(table, prefix, fetched, failAt);
      var input := fetched(HotRankSymbol(code));
      SaveHotRankCounts(prev, code, input, failAt(code));
      if SaveHotRank(prev, code, input, failAt(code)).1.Saved? {
        UpsertedRows(prev, code, input.rows);
      }
    }
  }

  /** A code whose save fails does not disturb the others: the table is what the earlier codes made it. */
  lemma RefreshCodesIsolation(table: HotRankTable, codes: seq<string>, fetched: string -> HotRankInput,
                              failAt: string -> Option<nat>, code: string)
    requires SaveHotRank(RefreshCodes(table, codes, fetched, failAt), code, fetched(HotRankSymbol(code)), failAt(code)).1.SaveRaised?
    ensures RefreshCodes(table, codes + [code], fetched, failAt) == RefreshCodes(table, codes, fetched, failAt)
  {
    assert (codes + [code])[..|codes|] == codes;
  }

  lemma RefreshStep(table: HotRankTable, codes: seq<string>, fetched: string -> HotRankInput,
                    failAt: string -> Option<nat>, i: int)
    requires 0 <= i < |codes|
    ensures RefreshCodes(table, codes[..i + 1], fetched, failAt) ==
      SaveHotRank(RefreshCodes(table, codes[..i], fetched, failAt), codes[i], fetched(HotRankSymbol(codes[i])), failAt(codes[i])).0
  {
    assert codes[..i + 1][..i] == codes[..i];
  }

  /**
   * `update_hot_rank_data`. `stockList` is what `get_stock_list` returns
   * (`None` when it raises after its retries, which ends the update with
   * nothing written), `fetched` what `get_stock_hot_rank` yields for a
   * symbol, and `failAt` the statement at which a code's save raises.
   */
  method UpdateHotRankData(table: HotRankTable, stockCodes: seq<string>, stockList: Option<seq<string>>, maxStocks: Option<int>,
                           fetched: string -> HotRankInput, failAt: string -> Option<nat>)
    returns (newTable: HotRankTable, raised: bool)
    ensures raised <==> stockCodes == [] && stockList.None?
    ensures raised ==> newTable == table
    ensures !raised ==> newTable == RefreshCodes(table, CodesToUpdate(stockCodes, if stockList.Some? then stockList.value else [], maxStocks), fetched, failAt)
  {
    if stockCodes == [] && stockList.None? {
      return table, true;
    }
    var codes := CodesToUpdate(stockCodes, if stockList.Some? then stockList.value else [], maxStocks);
    newTable := table;
    for i := 0 to |codes|
      invariant newTable == RefreshCodes(table, codes[..i], fetched, failAt)
    {
      RefreshStep(table, codes, fetched, failAt, i);
      var code := codes[i];
      var input := fetched(HotRankSymbol(code));
      var saved, outcome := SaveHotRankToDb(newTable, code, input, failAt(code));
      newTable := saved;
    }
    assert codes[..|codes|] == codes;
    raised := false;
  }
}
