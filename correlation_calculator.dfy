/**
 * The stock-to-index similarity ranker of
 * StockDownloader/src/utils/correlation_calculator.py.
 *
 * For one stock and one year it visits every date on which the stock has a
 * non-null `real_change`. On each such date it sorts the indices that have a
 * non-null change that day by |index change - stock change| and gives them
 * standard competition ranks ("1, 2, 2, 4"); each index adds its rank to a
 * running score and counts one valid day. The winner is the index with the
 * lowest average score, the first one in `index_symbols` order on a tie. A
 * batch loop writes winners into `stock_info.index_<year>`.
 *
 * The derived-index data is the long-format view the algorithm reads: one
 * (symbol, date, real_change) row per index and date.
 */
module CorrelationCalculator {
  import opened Common
  import opened Models
  import opened Sums
  import opened Selection
  import opened KeyedTable

  /** One row of `derived_stock` or of the long-format index view. */
  datatype DerivedRow = DerivedRow(symbol: string, date: Date, realChange: Option<real>)

  /** One entry of a day's `differences` list: an index and its distance to the stock. */
  datatype Diff = Diff(symbol: string, diff: real)

  /** What `calculate_correlation_for_stock` returns: the best index, the scores and the valid-day counts. */
  datatype Outcome = Outcome(best: Option<string>, scores: map<string, int>, validDays: map<string, int>)

  /** The `(None, {}, {})` return. */
  const NoMatch := Outcome(None, map[], map[])

  // ---------------------------------------------------------------------------
  // The two queries against the store
  // ---------------------------------------------------------------------------

  /** The stock's rows dated within the year. */
  function YearRows(table: seq<DerivedRow>, symbol: string, year: int): (r: seq<DerivedRow>)
    ensures forall row :: row in r <==> row in table && row.symbol == symbol && row.date.year == year
  {
    if table == [] then []
    else
      var row := table[|table| - 1];
      assert table == table[..|table| - 1] + [row];
      var prev := YearRows(table[..|table| - 1], symbol, year);
      if row.symbol == symbol && row.date.year == year then prev + [row] else prev
  }

  /** The index rows of one date. */
  function RowsOn(table: seq<DerivedRow>, d: Date): (r: seq<DerivedRow>)
    ensures forall row :: row in r <==> row in table && row.date == d
  {
    if table == [] then []
    else
      var row := table[|table| - 1];
      assert table == table[..|table| - 1] + [row];
      var prev := RowsOn(table[..|table| - 1], d);
      if row.date == d then prev + [row] else prev
  }

  /** (symbol, date) identifies at most one row, as the view's key promises. */
  predicate UniqueKeys(table: seq<DerivedRow>)
  {
    forall i, j :: 0 <= i < j < |table| ==> table[i].symbol != table[j].symbol || table[i].date != table[j].date
  }

  // ---------------------------------------------------------------------------
  // The stock's valid days: the `stock_changes` dictionary
  // ---------------------------------------------------------------------------

  /** The `stock_changes` values: per date, the last non-null change seen. */
  function Changes(rows: seq<DerivedRow>): (m: map<Date, real>)
    ensures forall d :: d in m <==> exists i :: 0 <= i < |rows| && rows[i].date == d && rows[i].realChange.Some?
    ensures forall d :: d in m ==> exists i :: LastChangeAt(rows, i, d) && rows[i].realChange == Some(m[d])
  {
    if rows == [] then map[]
    else
      var prefix := rows[..|rows| - 1];
      var row := rows[|rows| - 1];
      var prev := Changes(prefix);
      assert forall i :: 0 <= i < |prefix| ==> prefix[i] == rows[i];
      ChangesStep(rows, prev);
      if row.realChange.Some? then prev[row.date := row.realChange.value] else prev
  }

  /** One more row keeps every stored change the one of its date's last non-null row. */
  lemma ChangesStep(rows: seq<DerivedRow>, prev: map<Date, real>)
    requires |rows| > 0
    requires forall d :: d in prev ==> exists i :: LastChangeAt(rows[..|rows| - 1], i, d) && rows[i].realChange == Some(prev[d])
    ensures var row := rows[|rows| - 1];
      var m := if row.realChange.Some? then prev[row.date := row.realChange.value] else prev;
      forall d :: d in m ==> exists i :: LastChangeAt(rows, i, d) && rows[i].realChange == Some(m[d])
  {
    var prefix, row := rows[..|rows| - 1], rows[|rows| - 1];
    var m := if row.realChange.Some? then prev[row.date := row.realChange.value] else prev;
    forall d | d in m ensures exists i :: LastChangeAt(rows, i, d) && rows[i].realChange == Some(m[d]) {
      if row.realChange.Some? && d == row.date {
        assert LastChangeAt(rows, |rows| - 1, d);
      } else {
        var i :| LastChangeAt(prefix, i, d) && rows[i].realChange == Some(prev[d]);
        assert LastChangeAt(rows, i, d);
      }
    }
  }

  /** Row i has date d, and no later row of date d has a non-null change. */
  ghost predicate LastChangeAt(rows: seq<DerivedRow>, i: int, d: Date)
  {
    0 <= i < |rows| && rows[i].date == d && forall j :: i < j < |rows| && rows[j].date == d ==> rows[j].realChange.None?
  }

  /** The `stock_changes` keys in insertion order: each valid date once. */
  function ValidDates(rows: seq<DerivedRow>): (ds: seq<Date>)
    ensures forall d :: d in ds <==> d in Changes(rows)
    ensures forall i, j :: 0 <= i < j < |ds| ==> ds[i] != ds[j]
    ensures |ds| == |Changes(rows)|
  {
    if rows == [] then []
    else
      var prefix := rows[..|rows| - 1];
      var row := rows[|rows| - 1];
      var prev := ValidDates(prefix);
      KeyOrderStep(prev, Changes(prefix), row.date, row.realChange);
      if row.realChange.Some? && row.date !in Changes(prefix) then prev + [row.date] else prev
  }

  /** Storing one more entry in a dict extends its key order by the key exactly when the key is new. */
  lemma KeyOrderStep(keys: seq<Date>, m: map<Date, real>, d: Date, v: Option<real>)
    requires forall x :: x in keys <==> x in m
    requires forall i, j :: 0 <= i < j < |keys| ==> keys[i] != keys[j]
    requires |keys| == |m|
    ensures var m' := if v.Some? then m[d := v.value] else m;
      var keys' := if v.Some? && d !in m then keys + [d] else keys;
      && (forall x :: x in keys' <==> x in m')
      && (forall i, j :: 0 <= i < j < |keys'| ==> keys'[i] != keys'[j])
      && |keys'| == |m'|
  {
    if v.Some? {
      if d !in m {
        assert m[d := v.value].Keys == m.Keys + {d};
      } else {
        assert m[d := v.value].Keys == m.Keys;
      }
    }
  }

  // ---------------------------------------------------------------------------
  // One day: the differences, their order and their competition ranks
  // ---------------------------------------------------------------------------

  /** The day's `differences` list: one entry per index row with a non-null change, in row order. */
  function DayDiffs(rows: seq<DerivedRow>, stockChange: real): (es: seq<Diff>)
    ensures forall e :: e in es <==> exists row :: row in rows && row.realChange.Some? && e == DiffOf(row, stockChange)
    ensures |es| == SumBy(rows, ChangeTerm)
  {
    if rows == [] then []
    else
      var row := rows[|rows| - 1];
      assert rows == rows[..|rows| - 1] + [row];
      var prev := DayDiffs(rows[..|rows| - 1], stockChange);
      if row.realChange.Some? then prev + [DiffOf(row, stockChange)] else prev
  }

  /** `(idx.symbol, abs(idx.real_change - stock_changes[date]))` for a row with a change. */
  function DiffOf(row: DerivedRow, stockChange: real): Diff
    requires row.realChange.Some?
  {
    Diff(row.symbol, Abs(row.realChange.value - stockChange))
  }

  /** 1 for a row with a non-null change. */
  function ChangeTerm(row: DerivedRow): int
  {
    if row.realChange.Some? then 1 else 0
  }

  predicate SortedByDiff(es: seq<Diff>)
  {
    forall i, j :: 0 <= i < j < |es| ==> es[i].diff <= es[j].diff
  }

  lemma SortedSnoc(es: seq<Diff>, x: Diff)
    requires SortedByDiff(es)
    requires forall k :: 0 <= k < |es| ==> es[k].diff <= x.diff
    ensures SortedByDiff(es + [x])
  {
  }

  /** Inserts e after every entry whose difference is not larger (keeps the sort stable). */
  function InsertByDiff(e: Diff, es: seq<Diff>): (r: seq<Diff>)
    requires SortedByDiff(es)
    ensures SortedByDiff(r)
    ensures multiset(r) == multiset(es) + multiset{e}
  {
    if es == [] || es[|es| - 1].diff <= e.diff then
      SortedSnoc(es, e);
      es + [e]
    else
      var init := es[..|es| - 1];
      var last := es[|es| - 1];
      assert es == init + [last];
      var rest := InsertByDiff(e, init);
      BoundedByLast(rest, init, e, last);
      SortedSnoc(rest, last);
      rest + [last]
  }

  /** The entries of a sorted prefix plus one smaller entry all lie at or below the last entry. */
  lemma BoundedByLast(rest: seq<Diff>, init: seq<Diff>, e: Diff, last: Diff)
    requires multiset(rest) == multiset(init) + multiset{e}
    requires forall k :: 0 <= k < |init| ==> init[k].diff <= last.diff
    requires e.diff <= last.diff
    ensures forall k :: 0 <= k < |rest| ==> rest[k].diff <= last.diff
  {
    forall k | 0 <= k < |rest| ensures rest[k].diff <= last.diff {
      assert rest[k] in multiset(rest);
      if rest[k] != e {
        assert rest[k] in multiset(init);
        var m :| 0 <= m < |init| && init[m] == rest[k];
      }
    }
  }

  /** `differences.sort(key=lambda x: x[1])`: ascending by difference, a permutation of the input. */
  function SortByDiff(es: seq<Diff>): (r: seq<Diff>)
    ensures SortedByDiff(r)
    ensures multiset(r) == multiset(es)
  {
    if es == [] then []
    else
      assert es == es[..|es| - 1] + [es[|es| - 1]];
      InsertByDiff(es[|es| - 1], SortByDiff(es[..|es| - 1]))
  }

  function CloserTerm(x: real): Diff -> int
  {
    (e: Diff) => if e.diff < x then 1 else 0
  }

  /** How many entries of the day are strictly closer to the stock than distance x. */
  function CountCloser(es: seq<Diff>, x: real): int
  {
    SumBy(es, CloserTerm(x))
  }

  /**
   * The standard competition rank of distance x among the day's entries: one
   * more than the number of strictly closer entries. It depends on the set of
   * distances only, not on their order.
   */
  function CompetitionRank(es: seq<Diff>, x: real): int
  {
    1 + CountCloser(es, x)
  }

  function RankTerm(all: seq<Diff>, s: string): Diff -> int
  {
    (e: Diff) => if e.symbol == s then CompetitionRank(all, e.diff) else 0
  }

  function CountTerm(s: string): Diff -> int
  {
    (e: Diff) => if e.symbol == s then 1 else 0
  }

  /** What index s adds to its score on a day with entries es. */
  function DayScore(es: seq<Diff>, s: string): int
  {
    SumBy(es, RankTerm(es, s))
  }

  /** What index s adds to its valid-day count on a day with entries es. */
  function DayCount(es: seq<Diff>, s: string): int
  {
    SumBy(es, CountTerm(s))
  }

  /**
   * The rule of the ranking loop: in sorted order the first entry and every
   * entry whose distance differs from its predecessor's get their 1-based position.
   */
  lemma SortedRankIsPosition(es: seq<Diff>, i: int)
    requires SortedByDiff(es) && 0 <= i < |es|
    requires i == 0 || es[i - 1].diff < es[i].diff
    ensures CompetitionRank(es, es[i].diff) == i + 1
  {
    var f := CloserTerm(es[i].diff);
    assert es == es[..i] + es[i..];
    SumByAppend(es[..i], es[i..], f);
    CloserBefore(es, i);
    CloserFrom(es, i);
  }

  /** In sorted order, every entry before a strict step up is closer than the entry after it. */
  lemma CloserBefore(es: seq<Diff>, i: int)
    requires SortedByDiff(es) && 0 <= i < |es|
    requires i == 0 || es[i - 1].diff < es[i].diff
    ensures SumBy(es[..i], CloserTerm(es[i].diff)) == i
  {
    var f, before := CloserTerm(es[i].diff), es[..i];
    forall j | 0 <= j < |before| ensures f(before[j]) == 1 {
      assert before[j] == es[j];
      assert es[j].diff <= es[i - 1].diff;
    }
    SumByOnes(before, f);
  }

  /** In sorted order, no entry from position i on is closer than entry i. */
  lemma CloserFrom(es: seq<Diff>, i: int)
    requires SortedByDiff(es) && 0 <= i < |es|
    ensures SumBy(es[i..], CloserTerm(es[i].diff)) == 0
  {
    var f, after := CloserTerm(es[i].diff), es[i..];
    forall j | 0 <= j < |after| ensures f(after[j]) == 0 {
      assert after[j] == es[i + j];
    }
    SumByZeros(after, f);
  }

  /** Every rank of a day lies in 1..(number of indices ranked that day). */
  lemma RankBounds(es: seq<Diff>, i: int)
    requires 0 <= i < |es|
    ensures 1 <= CompetitionRank(es, es[i].diff) <= |es|
  {
    var f := CloserTerm(es[i].diff);
    assert es == es[..i] + [es[i]] + es[i + 1..];
    SumByAppend(es[..i] + [es[i]], es[i + 1..], f);
    SumByAppend(es[..i], [es[i]], f);
    assert [es[i]][..0] == [];
    SumByIndicator(es[..i], f);
    SumByIndicator(es[i + 1..], f);
  }

  /** Ranks never decrease along the sorted order. */
  lemma RankMonotone(es: seq<Diff>, i: int, j: int)
    requires SortedByDiff(es) && 0 <= i <= j < |es|
    ensures CompetitionRank(es, es[i].diff) <= CompetitionRank(es, es[j].diff)
  {
    SumByMonotone(es, CloserTerm(es[i].diff), CloserTerm(es[j].diff));
  }

  /** Distances 0.01, 0.02, 0.02, 0.05 are ranked 1, 2, 2, 4. */
  lemma RankExample()
    ensures var es := [Diff("A", 0.01), Diff("B", 0.02), Diff("C", 0.02), Diff("D", 0.05)];
            && CompetitionRank(es, 0.01) == 1 && CompetitionRank(es, 0.02) == 2
            && CompetitionRank(es, 0.05) == 4
  {
    var es := [Diff("A", 0.01), Diff("B", 0.02), Diff("C", 0.02), Diff("D", 0.05)];
    SortedRankIsPosition(es, 0);
    SortedRankIsPosition(es, 1);
    SortedRankIsPosition(es, 3);
  }

  /** Sorting the day's entries changes neither any index's rank sum nor its count. */
  lemma DayScoreSortInvariant(es: seq<Diff>, s: string)
    ensures DayScore(SortByDiff(es), s) == DayScore(es, s)
    ensures DayCount(SortByDiff(es), s) == DayCount(es, s)
  {
    var t := SortByDiff(es);
    forall i | 0 <= i < |t| ensures RankTerm(t, s)(t[i]) == RankTerm(es, s)(t[i]) {
      SumByPermutation(t, es, CloserTerm(t[i].diff));
    }
    SumByCongruent(t, RankTerm(t, s), RankTerm(es, s));
    SumByPermutation(t, es, RankTerm(es, s));
    SumByPermutation(t, es, CountTerm(s));
  }

  /** A competition rank is at least 1: the best difference ranks first. */
  lemma RankAtLeastOne(es: seq<Diff>, x: real)
    ensures CompetitionRank(es, x) >= 1
  {
    SumByIndicator(es, CloserTerm(x));
  }

  // ---------------------------------------------------------------------------
  // Whole-year totals, averages and the winner
  // ---------------------------------------------------------------------------

  /** The differences of date d; none when the stock has no change on d. */
  function DayDiffsOn(indexTable: seq<DerivedRow>, changes: map<Date, real>, d: Date): seq<Diff>
  {
    if d in changes then DayDiffs(RowsOn(indexTable, d), changes[d]) else []
  }

  function ScoreTerm(indexTable: seq<DerivedRow>, changes: map<Date, real>, s: string): Date -> int
  {
    (d: Date) => DayScore(DayDiffsOn(indexTable, changes, d), s)
  }

  function DaysTerm(indexTable: seq<DerivedRow>, changes: map<Date, real>, s: string): Date -> int
  {
    (d: Date) => DayCount(DayDiffsOn(indexTable, changes, d), s)
  }

  /** `index_scores[s]` after visiting the given dates. */
  function TotalScore(dates: seq<Date>, indexTable: seq<DerivedRow>, changes: map<Date, real>, s: string): int
  {
    SumBy(dates, ScoreTerm(indexTable, changes, s))
  }

  /** `index_valid_days[s]` after visiting the given dates. */
  function TotalDays(dates: seq<Date>, indexTable: seq<DerivedRow>, changes: map<Date, real>, s: string): int
  {
    SumBy(dates, DaysTerm(indexTable, changes, s))
  }

  /** The average score of s; absent when s has no valid day. */
  function Average(scores: map<string, int>, days: map<string, int>, s: string): Option<real>
  {
    if s in scores && s in days && days[s] > 0 then Some(scores[s] as real / days[s] as real) else None
  }

  /** The `valid_indices` values, in `index_symbols` order. */
  function Averages(symbols: seq<string>, scores: map<string, int>, days: map<string, int>): (avgs: seq<Option<real>>)
    ensures |avgs| == |symbols|
    ensures forall i :: 0 <= i < |symbols| ==> avgs[i] == Average(scores, days, symbols[i])
  {
    seq(|symbols|, i requires 0 <= i < |symbols| => Average(scores, days, symbols[i]))
  }

  /** The `min` over `valid_indices`: the first symbol of lowest average, if any symbol has one. */
  function BestOf(symbols: seq<string>, scores: map<string, int>, days: map<string, int>): Option<string>
  {
    match FirstMin(Averages(symbols, scores, days))
    case None => None
    case Some(k) => Some(symbols[k])
  }

  /** What `calculate_correlation_for_stock` returns for the stock and the year. */
  function Correlation(stockTable: seq<DerivedRow>, indexTable: seq<DerivedRow>, indexSymbols: seq<string>,
                       symbol: string, year: int): Outcome
  {
    var stockData := YearRows(stockTable, symbol, year);
    var changes := Changes(stockData);
    if stockData == [] || |changes| == 0 || indexSymbols == [] then NoMatch
    else
      var dates := ValidDates(stockData);
      var scores := map s | s in indexSymbols :: TotalScore(dates, indexTable, changes, s);
      var days := map s | s in indexSymbols :: TotalDays(dates, indexTable, changes, s);
      var best := BestOf(indexSymbols, scores, days);
      if best.None? then NoMatch else Outcome(best, scores, days)
  }

  // ---------------------------------------------------------------------------
  // What the outcome means
  // ---------------------------------------------------------------------------

  /**
   * The chosen symbol is a listed index with at least one valid day, no other
   * index with a valid day has a lower average, and on a tie it comes first
   * in the listed order.
   */
  lemma BestOfIsFirstLowest(symbols: seq<string>, scores: map<string, int>, days: map<string, int>)
    ensures var best := BestOf(symbols, scores, days);
      best.Some? ==>
        && best.value in symbols
        && Average(scores, days, best.value).Some?
        && (forall t :: t in symbols && Average(scores, days, t).Some? ==>
              Average(scores, days, best.value).value <= Average(scores, days, t).value)
        && (forall j :: 0 <= j < |symbols| && Average(scores, days, symbols[j]).Some?
              && Average(scores, days, symbols[j]).value == Average(scores, days, best.value).value
              ==> best.value in symbols[..j + 1])
  {
    var best := BestOf(symbols, scores, days);
    if best.Some? {
      var avgs := Averages(symbols, scores, days);
      var k := FirstMin(avgs).value;
      assert symbols[k] == best.value;
      forall t | t in symbols && Average(scores, days, t).Some?
        ensures Average(scores, days, best.value).value <= Average(scores, days, t).value
      {
        var j :| 0 <= j < |symbols| && symbols[j] == t;
        assert avgs[j].Some?;
      }
      forall j | 0 <= j < |symbols| && Average(scores, days, symbols[j]).Some?
              && Average(scores, days, symbols[j]).value == Average(scores, days, best.value).value
        ensures best.value in symbols[..j + 1]
      {
        assert avgs[j].Some?;
        assert symbols[..j + 1][k] == symbols[k];
      }
    }
  }

  /** The winner of a stock and year is the first listed index of lowest average score. */
  lemma CorrelationWinner(stockTable: seq<DerivedRow>, indexTable: seq<DerivedRow>, indexSymbols: seq<string>,
                          symbol: string, year: int)
    ensures var o := Correlation(stockTable, indexTable, indexSymbols, symbol, year);
      o.best.Some? ==>
        && o.best == BestOf(indexSymbols, o.scores, o.validDays)
        && o.best.value in indexSymbols
        && Average(o.scores, o.validDays, o.best.value).Some?
        && (forall t :: t in indexSymbols && Average(o.scores, o.validDays, t).Some? ==>
              Average(o.scores, o.validDays, o.best.value).value <= Average(o.scores, o.validDays, t).value)
  {
    var o := Correlation(stockTable, indexTable, indexSymbols, symbol, year);
    BestOfIsFirstLowest(indexSymbols, o.scores, o.validDays);
  }

  /** No symbol is chosen exactly when no listed symbol has a valid day. */
  lemma BestOfNone(symbols: seq<string>, scores: map<string, int>, days: map<string, int>)
    ensures BestOf(symbols, scores, days).None? <==> forall t :: t in symbols ==> Average(scores, days, t).None?
  {
    var avgs := Averages(symbols, scores, days);
    if exists t :: t in symbols && Average(scores, days, t).Some? {
      var t :| t in symbols && Average(scores, days, t).Some?;
      var j :| 0 <= j < |symbols| && symbols[j] == t;
      assert avgs[j].Some?;
    }
  }

  /**
   * There is no winner exactly when the stock has no row in the year, none of
   * its rows has a change, no index is listed, or no index has a valid day.
   */
  lemma CorrelationNoMatch(stockTable: seq<DerivedRow>, indexTable: seq<DerivedRow>, indexSymbols: seq<string>,
                           symbol: string, year: int)
    ensures var stockData := YearRows(stockTable, symbol, year);
      var changes := Changes(stockData);
      Correlation(stockTable, indexTable, indexSymbols, symbol, year).best.None?
      <==>
      (|| stockData == [] || |changes| == 0 || indexSymbols == []
       || forall t :: t in indexSymbols ==> TotalDays(ValidDates(stockData), indexTable, changes, t) <= 0)
  {
    var stockData := YearRows(stockTable, symbol, year);
    var changes := Changes(stockData);
    var dates := ValidDates(stockData);
    var scores := map s | s in indexSymbols :: TotalScore(dates, indexTable, changes, s);
    var days := map s | s in indexSymbols :: TotalDays(dates, indexTable, changes, s);
    BestOfNoneDays(indexSymbols, scores, days);
  }

  /** With every listed symbol counted, there is no winner exactly when no listed symbol has a valid day. */
  lemma BestOfNoneDays(symbols: seq<string>, scores: map<string, int>, days: map<string, int>)
    requires forall t :: t in symbols ==> t in scores && t in days
    ensures BestOf(symbols, scores, days).None? <==> forall t :: t in symbols ==> days[t] <= 0
  {
    BestOfNone(symbols, scores, days);
  }

  /** On one day an index's rank is at least its count: each entry's rank is at least 1. */
  lemma DayScoreAtLeastCount(es: seq<Diff>, s: string)
    ensures 0 <= DayCount(es, s) <= DayScore(es, s)
  {
    forall k | 0 <= k < |es| ensures 0 <= CountTerm(s)(es[k]) <= RankTerm(es, s)(es[k]) {
      RankAtLeastOne(es, es[k].diff);
    }
    SumByMonotone(es, CountTerm(s), RankTerm(es, s));
    SumByIndicator(es, CountTerm(s));
  }

  /** Each valid day contributes a rank of at least one: every score is at least its valid-day count. */
  lemma {:induction false} ScoreAtLeastDays(dates: seq<Date>, indexTable: seq<DerivedRow>, changes: map<Date, real>, s: string)
    ensures TotalScore(dates, indexTable, changes, s) >= TotalDays(dates, indexTable, changes, s) >= 0
  {
    var score, days := ScoreTerm(indexTable, changes, s), DaysTerm(indexTable, changes, s);
    forall i | 0 <= i < |dates| ensures 0 <= days(dates[i]) <= score(dates[i]) {
      DayScoreAtLeastCount(DayDiffsOn(indexTable, changes, dates[i]), s);
    }
    SumByMonotone(dates, days, score);
    SumByMonotone(dates, (d: Date) => 0, days);
    SumByZeros(dates, (d: Date) => 0);
  }

  /** The order in which the valid days are visited does not matter. */
  lemma ScoresOrderIndependent(dates1: seq<Date>, dates2: seq<Date>, indexTable: seq<DerivedRow>,
                               changes: map<Date, real>, s: string)
    requires multiset(dates1) == multiset(dates2)
    ensures TotalScore(dates1, indexTable, changes, s) == TotalScore(dates2, indexTable, changes, s)
    ensures TotalDays(dates1, indexTable, changes, s) == TotalDays(dates2, indexTable, changes, s)
  {
    SumByPermutation(dates1, dates2, ScoreTerm(indexTable, changes, s));
    SumByPermutation(dates1, dates2, DaysTerm(indexTable, changes, s));
  }

  /**
   * A day counts for index s only when the stock has a change that day and s
   * has a row with a non-null change on that date.
   */
  lemma ValidDayNeedsBothChanges(indexTable: seq<DerivedRow>, changes: map<Date, real>, d: Date, s: string)
    requires DaysTerm(indexTable, changes, s)(d) > 0
    ensures d in changes
    ensures exists row :: row in indexTable && row.symbol == s && row.date == d && row.realChange.Some?
  {
    var es := DayDiffsOn(indexTable, changes, d);
    forall k | 0 <= k < |es| ensures 0 <= CountTerm(s)(es[k]) { }
    SumByPositive(es, CountTerm(s));
    var k :| 0 <= k < |es| && CountTerm(s)(es[k]) > 0;
    assert es[k] in es;
  }

  function HasChangeTerm(s: string): DerivedRow -> int
  {
    (row: DerivedRow) => if row.symbol == s && row.realChange.Some? then 1 else 0
  }

  lemma {:induction false} DayCountIsRowCount(rows: seq<DerivedRow>, x: real, s: string)
    ensures DayCount(DayDiffs(rows, x), s) == SumBy(rows, HasChangeTerm(s))
  {
    if rows != [] {
      var prefix := rows[..|rows| - 1];
      var row := rows[|rows| - 1];
      DayCountIsRowCount(prefix, x, s);
      if row.realChange.Some? {
        var prev := DayDiffs(prefix, x);
        var e := Diff(row.symbol, Abs(row.realChange.value - x));
        assert (prev + [e])[..|prev|] == prev;
      }
    }
  }

  lemma {:induction false} AtMostOneRowPerKey(table: seq<DerivedRow>, s: string, d: Date)
    requires UniqueKeys(table)
    ensures 0 <= SumBy(RowsOn(table, d), HasChangeTerm(s)) <= 1
  {
    if table != [] {
      var prefix := table[..|table| - 1];
      var row := table[|table| - 1];
      assert UniqueKeys(prefix) by {
        forall i, j | 0 <= i < j < |prefix| ensures prefix[i].symbol != prefix[j].symbol || prefix[i].date != prefix[j].date {
          assert prefix[i] == table[i] && prefix[j] == table[j];
        }
      }
      AtMostOneRowPerKey(prefix, s, d);
      var before := RowsOn(prefix, d);
      if row.date == d {
        assert (before + [row])[..|before|] == before;
        if row.symbol == s && row.realChange.Some? {
          forall k | 0 <= k < |before| ensures HasChangeTerm(s)(before[k]) == 0 {
            assert before[k] in before;
            var m :| 0 <= m < |prefix| && prefix[m] == before[k];
            assert table[m] == prefix[m];
          }
          SumByZeros(before, HasChangeTerm(s));
        }
      }
    }
  }

  /**
   * With (symbol, date) unique in the index data, an index's valid-day count
   * never exceeds the number of the stock's days with a non-null change.
   */
  lemma ValidDaysBounded(stockTable: seq<DerivedRow>, indexTable: seq<DerivedRow>, indexSymbols: seq<string>,
                         symbol: string, year: int)
    requires UniqueKeys(indexTable)
    ensures var o := Correlation(stockTable, indexTable, indexSymbols, symbol, year);
      forall t :: t in o.validDays ==> 0 <= o.validDays[t] <= |Changes(YearRows(stockTable, symbol, year))|
  {
    var stockData := YearRows(stockTable, symbol, year);
    var changes := Changes(stockData);
    var dates := ValidDates(stockData);
    forall t | t in indexSymbols ensures 0 <= TotalDays(dates, indexTable, changes, t) <= |dates| {
      TotalDaysBounded(dates, indexTable, changes, t);
    }
  }

  /** With one row per (symbol, date), an index has at most one valid day per date visited. */
  lemma TotalDaysBounded(dates: seq<Date>, indexTable: seq<DerivedRow>, changes: map<Date, real>, t: string)
    requires UniqueKeys(indexTable)
    ensures 0 <= TotalDays(dates, indexTable, changes, t) <= |dates|
  {
    var days := DaysTerm(indexTable, changes, t);
    forall i | 0 <= i < |dates| ensures 0 <= days(dates[i]) <= 1 {
      if dates[i] in changes {
        DayCountIsRowCount(RowsOn(indexTable, dates[i]), changes[dates[i]], t);
        AtMostOneRowPerKey(indexTable, t, dates[i]);
      }
    }
    SumByIndicator(dates, days);
  }

  // ---------------------------------------------------------------------------
  // The loops of calculate_correlation_for_stock
  // ---------------------------------------------------------------------------

  /** Builds `stock_changes`: a later row of the same date overwrites the value but keeps the key's place. */
  method CollectStockChanges(stockData: seq<DerivedRow>) returns (changes: map<Date, real>, dates: seq<Date>)
    ensures changes == Changes(stockData)
    ensures dates == ValidDates(stockData)
  {
    changes, dates := map[], [];
    for k := 0 to |stockData|
      invariant changes == Changes(stockData[..k])
      invariant dates == ValidDates(stockData[..k])
    {
      assert stockData[..k + 1][..k] == stockData[..k];
      var row := stockData[k];
      if row.realChange.Some? {
        if row.date !in changes {
          dates := dates + [row.date];
        }
        changes := changes[row.date := row.realChange.value];
      }
    }
    assert stockData[..|stockData|] == stockData;
  }

  /** Builds the day's `differences` list from the index rows of that date. */
  method CollectDifferences(rows: seq<DerivedRow>, stockChange: real) returns (differences: seq<Diff>)
    ensures differences == DayDiffs(rows, stockChange)
  {
    differences := [];
    for k := 0 to |rows|
      invariant differences == DayDiffs(rows[..k], stockChange)
    {
      assert rows[..k + 1][..k] == rows[..k];
      var row := rows[k];
      if row.realChange.Some? {
        differences := differences + [Diff(row.symbol, Abs(row.realChange.value - stockChange))];
      }
    }
    assert rows[..|rows|] == rows;
  }

  lemma PrefixStep<T>(s: seq<T>, i: int, f: T -> int)
    requires 0 <= i < |s|
    ensures SumBy(s[..i + 1], f) == SumBy(s[..i], f) + f(s[i])
  {
    assert s[..i + 1][..i] == s[..i];
  }

  /** The rank the loop hands out at position i is the entry's competition rank. */
  /** What `prev_diff` and `current_score` hold after the first i sorted entries. */
  ghost predicate RankSoFar(sorted: seq<Diff>, i: int, prevDiff: Option<real>, currentScore: int)
    requires 0 <= i <= |sorted|
  {
    if i == 0 then prevDiff.None? && currentScore == 1
    else prevDiff == Some(sorted[i - 1].diff) && currentScore == CompetitionRank(sorted, sorted[i - 1].diff)
  }

  lemma LoopRank(sorted: seq<Diff>, i: int, prevDiff: Option<real>, currentScore: int)
    requires SortedByDiff(sorted) && 0 <= i < |sorted|
    requires i == 0 ==> currentScore == 1 && prevDiff.None?
    requires i > 0 && sorted[i - 1].diff != sorted[i].diff ==> currentScore == i + 1
    requires i > 0 && sorted[i - 1].diff == sorted[i].diff ==> RankSoFar(sorted, i, prevDiff, currentScore)
    ensures currentScore == CompetitionRank(sorted, sorted[i].diff)
    ensures RankSoFar(sorted, i + 1, Some(sorted[i].diff), currentScore)
  {
    if i == 0 || sorted[i - 1].diff != sorted[i].diff {
      SortedRankIsPosition(sorted, i);
    }
  }

  /** After the first i sorted entries, each index has added its ranks of those entries. */
  ghost predicate ScoresAccumulated(sorted: seq<Diff>, i: int, scores: map<string, int>, newScores: map<string, int>)
    requires 0 <= i <= |sorted|
  {
    && newScores.Keys == scores.Keys
    && forall s :: s in scores ==> newScores[s] == scores[s] + SumBy(sorted[..i], RankTerm(sorted, s))
  }

  /** After the first i sorted entries, each index has counted its entries among those. */
  ghost predicate DaysAccumulated(sorted: seq<Diff>, i: int, validDays: map<string, int>, newDays: map<string, int>)
    requires 0 <= i <= |sorted|
  {
    && newDays.Keys == validDays.Keys
    && forall s :: s in validDays ==> newDays[s] == validDays[s] + SumBy(sorted[..i], CountTerm(s))
  }

  /** Entry i adds its rank to its own index only. */
  lemma ScoresStep(sorted: seq<Diff>, i: int, scores: map<string, int>, newScores: map<string, int>)
    requires 0 <= i < |sorted| && ScoresAccumulated(sorted, i, scores, newScores) && sorted[i].symbol in newScores
    ensures var e := sorted[i];
      ScoresAccumulated(sorted, i + 1, scores, newScores[e.symbol := newScores[e.symbol] + CompetitionRank(sorted, e.diff)])
  {
    forall s ensures SumBy(sorted[..i + 1], RankTerm(sorted, s)) == SumBy(sorted[..i], RankTerm(sorted, s)) + RankTerm(sorted, s)(sorted[i]) {
      PrefixStep(sorted, i, RankTerm(sorted, s));
    }
  }

  /** Entry i adds one valid day to its own index only. */
  lemma DaysStep(sorted: seq<Diff>, i: int, validDays: map<string, int>, newDays: map<string, int>)
    requires 0 <= i < |sorted| && DaysAccumulated(sorted, i, validDays, newDays) && sorted[i].symbol in newDays
    ensures var e := sorted[i];
      DaysAccumulated(sorted, i + 1, validDays, newDays[e.symbol := newDays[e.symbol] + 1])
  {
    forall s ensures SumBy(sorted[..i + 1], CountTerm(s)) == SumBy(sorted[..i], CountTerm(s)) + CountTerm(s)(sorted[i]) {
      PrefixStep(sorted, i, CountTerm(s));
    }
  }

  /**
   * The `current_score` / `prev_diff` loop over the sorted differences: every
   * index adds its competition rank of the day to its score and one valid day.
   */
  method AccumulateDay(sorted: seq<Diff>, scores: map<string, int>, validDays: map<string, int>)
    returns (newScores: map<string, int>, newDays: map<string, int>)
    requires SortedByDiff(sorted)
    requires forall e :: e in sorted ==> e.symbol in scores && e.symbol in validDays
    ensures newScores.Keys == scores.Keys && newDays.Keys == validDays.Keys
    ensures forall s :: s in scores ==> newScores[s] == scores[s] + DayScore(sorted, s)
    ensures forall s :: s in validDays ==> newDays[s] == validDays[s] + DayCount(sorted, s)
  {
    newScores, newDays := scores, validDays;
    var currentScore := 1;
    var prevDiff: Option<real> := None;
    for i := 0 to |sorted|
      invariant DayProgress(sorted, i, scores, validDays, newScores, newDays, prevDiff, currentScore)
    {
      var e := sorted[i];
      assert e in sorted;
      ghost var scoresBefore, daysBefore, prevBefore, scoreBefore := newScores, newDays, prevDiff, currentScore;
      AccumulateKeys(sorted, i, scores, validDays, newScores, newDays, prevDiff, currentScore);
      currentScore := if prevDiff.Some? && e.diff != prevDiff.value then i + 1 else currentScore;
      newScores := newScores[e.symbol := newScores[e.symbol] + currentScore];
      newDays := newDays[e.symbol := newDays[e.symbol] + 1];
      prevDiff := Some(e.diff);
      AccumulateStep(sorted, i, scores, validDays, scoresBefore, daysBefore, prevBefore, scoreBefore,
                     newScores, newDays, prevDiff, currentScore);
    }
    AccumulatedDay(sorted, scores, validDays, newScores, newDays, prevDiff, currentScore);
  }

  /** The state of the ranking loop after the first i sorted entries. */
  ghost predicate DayProgress(sorted: seq<Diff>, i: int, scores: map<string, int>, validDays: map<string, int>,
                              newScores: map<string, int>, newDays: map<string, int>, prevDiff: Option<real>, currentScore: int)
  {
    && 0 <= i <= |sorted|
    && ScoresAccumulated(sorted, i, scores, newScores)
    && DaysAccumulated(sorted, i, validDays, newDays)
    && RankSoFar(sorted, i, prevDiff, currentScore)
  }

  /** The entry's index is counted in both tables. */
  lemma AccumulateKeys(sorted: seq<Diff>, i: int, scores: map<string, int>, validDays: map<string, int>,
                       newScores: map<string, int>, newDays: map<string, int>, prevDiff: Option<real>, currentScore: int)
    requires DayProgress(sorted, i, scores, validDays, newScores, newDays, prevDiff, currentScore)
    requires i < |sorted| && sorted[i].symbol in scores && sorted[i].symbol in validDays
    ensures sorted[i].symbol in newScores && sorted[i].symbol in newDays
  {
  }

  /** One turn of the ranking loop keeps its state. */
  lemma AccumulateStep(sorted: seq<Diff>, i: int, scores: map<string, int>, validDays: map<string, int>,
                       newScores: map<string, int>, newDays: map<string, int>, prevDiff: Option<real>, currentScore: int,
                       nextScores: map<string, int>, nextDays: map<string, int>, nextPrev: Option<real>, nextScore: int)
    requires SortedByDiff(sorted) && 0 <= i < |sorted| && sorted[i].symbol in scores && sorted[i].symbol in validDays
    requires DayProgress(sorted, i, scores, validDays, newScores, newDays, prevDiff, currentScore)
    requires nextScore == if prevDiff.Some? && sorted[i].diff != prevDiff.value then i + 1 else currentScore
    requires nextPrev == Some(sorted[i].diff)
    requires sorted[i].symbol in newScores && nextScores == newScores[sorted[i].symbol := newScores[sorted[i].symbol] + nextScore]
    requires sorted[i].symbol in newDays && nextDays == newDays[sorted[i].symbol := newDays[sorted[i].symbol] + 1]
    ensures DayProgress(sorted, i + 1, scores, validDays, nextScores, nextDays, nextPrev, nextScore)
  {
    LoopRank(sorted, i, prevDiff, nextScore);
    ScoresStep(sorted, i, scores, newScores);
    DaysStep(sorted, i, validDays, newDays);
  }

  /** Once every entry is visited, each index has added its whole day. */
  lemma AccumulatedDay(sorted: seq<Diff>, scores: map<string, int>, validDays: map<string, int>,
                       newScores: map<string, int>, newDays: map<string, int>, prevDiff: Option<real>, currentScore: int)
    requires DayProgress(sorted, |sorted|, scores, validDays, newScores, newDays, prevDiff, currentScore)
    ensures newScores.Keys == scores.Keys && newDays.Keys == validDays.Keys
    ensures forall s :: s in scores ==> newScores[s] == scores[s] + DayScore(sorted, s)
    ensures forall s :: s in validDays ==> newDays[s] == validDays[s] + DayCount(sorted, s)
  {
    assert sorted[..|sorted|] == sorted;
  }

  /** The `valid_indices` loop and the `min` over it. */
  method SelectBestIndex(indexSymbols: seq<string>, scores: map<string, int>, validDays: map<string, int>)
    returns (best: Option<string>)
    ensures best == BestOf(indexSymbols, scores, validDays)
  {
    var averages: seq<Option<real>> := [];
    for k := 0 to |indexSymbols|
      invariant averages == Averages(indexSymbols[..k], scores, validDays)
    {
      var s := indexSymbols[k];
      if s in scores && s in validDays && validDays[s] > 0 {
        averages := averages + [Some(scores[s] as real / validDays[s] as real)];
      } else {
        averages := averages + [None];
      }
    }
    assert indexSymbols[..|indexSymbols|] == indexSymbols;
    var k := FirstMin(averages);
    best := if k.None? then None else Some(indexSymbols[k.value]);
  }

  /** The body of the loop over the valid days: scores one date. */
  method ScoreDay(indexTable: seq<DerivedRow>, indexSymbols: seq<string>, changes: map<Date, real>, date: Date,
                  scores: map<string, int>, validDays: map<string, int>)
    returns (newScores: map<string, int>, newDays: map<string, int>)
    requires forall row :: row in indexTable ==> row.symbol in indexSymbols
    requires date in changes
    requires forall s :: s in scores <==> s in indexSymbols
    requires forall s :: s in validDays <==> s in indexSymbols
    ensures forall s :: s in newScores <==> s in indexSymbols
    ensures forall s :: s in newDays <==> s in indexSymbols
    ensures forall s :: s in scores ==> newScores[s] == scores[s] + ScoreTerm(indexTable, changes, s)(date)
    ensures forall s :: s in validDays ==> newDays[s] == validDays[s] + DaysTerm(indexTable, changes, s)(date)
  {
    var differences := CollectDifferences(RowsOn(indexTable, date), changes[date]);
    assert differences == DayDiffsOn(indexTable, changes, date);
    if differences == [] {
      return scores, validDays;
    }
    var sorted := SortByDiff(differences);
    SortedDay(indexTable, indexSymbols, changes, date, sorted);
    newScores, newDays := AccumulateDay(sorted, scores, validDays);
  }

  /** Every entry of a day's differences belongs to a listed index. */
  lemma DayDiffsListed(indexTable: seq<DerivedRow>, indexSymbols: seq<string>, changes: map<Date, real>, date: Date)
    requires forall row :: row in indexTable ==> row.symbol in indexSymbols
    ensures forall e :: e in DayDiffsOn(indexTable, changes, date) ==> e.symbol in indexSymbols
  {
    if date in changes {
      forall e | e in DayDiffsOn(indexTable, changes, date) ensures e.symbol in indexSymbols {
        var row :| row in RowsOn(indexTable, date) && row.realChange.Some? && e == DiffOf(row, changes[date]);
      }
    }
  }

  /** The sorted entries of a day belong to listed indices and score as the unsorted ones. */
  lemma SortedDay(indexTable: seq<DerivedRow>, indexSymbols: seq<string>, changes: map<Date, real>, date: Date, sorted: seq<Diff>)
    requires forall row :: row in indexTable ==> row.symbol in indexSymbols
    requires sorted == SortByDiff(DayDiffsOn(indexTable, changes, date))
    ensures forall e :: e in sorted ==> e.symbol in indexSymbols
    ensures forall s :: DayScore(sorted, s) == ScoreTerm(indexTable, changes, s)(date)
    ensures forall s :: DayCount(sorted, s) == DaysTerm(indexTable, changes, s)(date)
  {
    var differences := DayDiffsOn(indexTable, changes, date);
    DayDiffsListed(indexTable, indexSymbols, changes, date);
    forall e | e in sorted ensures e.symbol in indexSymbols {
      assert e in multiset(differences);
    }
    forall s ensures DayScore(sorted, s) == DayScore(differences, s) && DayCount(sorted, s) == DayCount(differences, s) {
      DayScoreSortInvariant(differences, s);
    }
  }

  /** Adding date k's scores to the totals over the first k dates gives the totals over k + 1 dates. */
  lemma ScoresExtend(dates: seq<Date>, k: int, indexTable: seq<DerivedRow>, changes: map<Date, real>,
                     scores: map<string, int>, newScores: map<string, int>)
    requires 0 <= k < |dates|
    requires forall s :: s in scores ==> scores[s] == TotalScore(dates[..k], indexTable, changes, s)
    requires forall s :: s in scores ==> s in newScores && newScores[s] == scores[s] + ScoreTerm(indexTable, changes, s)(dates[k])
    ensures forall s :: s in scores ==> newScores[s] == TotalScore(dates[..k + 1], indexTable, changes, s)
  {
    assert dates[..k + 1][..k] == dates[..k];
  }

  /** The same for the valid-day counts. */
  lemma DaysExtend(dates: seq<Date>, k: int, indexTable: seq<DerivedRow>, changes: map<Date, real>,
                   days: map<string, int>, newDays: map<string, int>)
    requires 0 <= k < |dates|
    requires forall s :: s in days ==> days[s] == TotalDays(dates[..k], indexTable, changes, s)
    requires forall s :: s in days ==> s in newDays && newDays[s] == days[s] + DaysTerm(indexTable, changes, s)(dates[k])
    ensures forall s :: s in days ==> newDays[s] == TotalDays(dates[..k + 1], indexTable, changes, s)
  {
    assert dates[..k + 1][..k] == dates[..k];
  }

  /** The loop over the stock's valid days, from all-zero scores and counts. */
  method ScoreAllDays(indexTable: seq<DerivedRow>, indexSymbols: seq<string>, changes: map<Date, real>, dates: seq<Date>)
    returns (scores: map<string, int>, validDays: map<string, int>)
    requires forall row :: row in indexTable ==> row.symbol in indexSymbols
    requires forall d :: d in dates ==> d in changes
    ensures scores == map s | s in indexSymbols :: TotalScore(dates, indexTable, changes, s)
    ensures validDays == map s | s in indexSymbols :: TotalDays(dates, indexTable, changes, s)
  {
    scores := map s | s in indexSymbols :: 0;
    validDays := map s | s in indexSymbols :: 0;
    assert dates[..0] == [];
    for k := 0 to |dates|
      invariant TotalsSoFar(dates, k, indexTable, indexSymbols, changes, scores, validDays)
    {
      assert dates[k] in dates;
      var newScores, newDays := ScoreDay(indexTable, indexSymbols, changes, dates[k], scores, validDays);
      TotalsStep(dates, k, indexTable, indexSymbols, changes, scores, validDays, newScores, newDays);
      scores, validDays := newScores, newDays;
    }
    TotalsDone(dates, indexTable, indexSymbols, changes, scores, validDays);
  }

  /** The totals of the stock's first k valid days, one entry per listed index. */
  ghost predicate TotalsSoFar(dates: seq<Date>, k: int, indexTable: seq<DerivedRow>, indexSymbols: seq<string>,
                              changes: map<Date, real>, scores: map<string, int>, validDays: map<string, int>)
  {
    && 0 <= k <= |dates|
    && (forall s :: s in scores <==> s in indexSymbols)
    && (forall s :: s in validDays <==> s in indexSymbols)
    && (forall s :: s in scores ==> scores[s] == TotalScore(dates[..k], indexTable, changes, s))
    && (forall s :: s in validDays ==> validDays[s] == TotalDays(dates[..k], indexTable, changes, s))
  }

  /** Scoring day k carries the totals from k days to k + 1. */
  lemma TotalsStep(dates: seq<Date>, k: int, indexTable: seq<DerivedRow>, indexSymbols: seq<string>, changes: map<Date, real>,
                   scores: map<string, int>, validDays: map<string, int>, newScores: map<string, int>, newDays: map<string, int>)
    requires TotalsSoFar(dates, k, indexTable, indexSymbols, changes, scores, validDays) && k < |dates|
    requires forall s :: s in newScores <==> s in indexSymbols
    requires forall s :: s in newDays <==> s in indexSymbols
    requires forall s :: s in scores ==> newScores[s] == scores[s] + ScoreTerm(indexTable, changes, s)(dates[k])
    requires forall s :: s in validDays ==> newDays[s] == validDays[s] + DaysTerm(indexTable, changes, s)(dates[k])
    ensures TotalsSoFar(dates, k + 1, indexTable, indexSymbols, changes, newScores, newDays)
  {
    ScoresExtend(dates, k, indexTable, changes, scores, newScores);
    DaysExtend(dates, k, indexTable, changes, validDays, newDays);
  }

  /** After every day, the tables are the stock's totals. */
  lemma TotalsDone(dates: seq<Date>, indexTable: seq<DerivedRow>, indexSymbols: seq<string>, changes: map<Date, real>,
                   scores: map<string, int>, validDays: map<string, int>)
    requires TotalsSoFar(dates, |dates|, indexTable, indexSymbols, changes, scores, validDays)
    ensures scores == map s | s in indexSymbols :: TotalScore(dates, indexTable, changes, s)
    ensures validDays == map s | s in indexSymbols :: TotalDays(dates, indexTable, changes, s)
  {
    assert dates[..|dates|] == dates;
  }

  /**
   * `calculate_correlation_for_stock`. The index data's rows all carry one of
   * the listed symbols (`index_symbols` is the distinct symbol query of the
   * same table), so no score lookup fails.
   */
  method CalculateCorrelationForStock(stockTable: seq<DerivedRow>, indexTable: seq<DerivedRow>, indexSymbols: seq<string>,
                                     symbol: string, year: int)
    returns (best: Option<string>, scores: map<string, int>, validDays: map<string, int>)
    requires forall row :: row in indexTable ==> row.symbol in indexSymbols
    ensures Outcome(best, scores, validDays) == Correlation(stockTable, indexTable, indexSymbols, symbol, year)
  {
    var stockData := YearRows(stockTable, symbol, year);
    if stockData == [] {
      return None, map[], map[];
    }
    var changes, dates := CollectStockChanges(stockData);
    if |changes| == 0 || indexSymbols == [] {
      return None, map[], map[];
    }
    scores, validDays := ScoreAllDays(indexTable, indexSymbols, changes, dates);
    best := SelectBestIndex(indexSymbols, scores, validDays);
    if best.None? {
      return None, map[], map[];
    }
  }

  // ---------------------------------------------------------------------------
  // update_stock_index_correlation
  // ---------------------------------------------------------------------------

  /** The years processed when the caller names none. */
  const DefaultYears: seq<int> := [2020, 2021, 2022, 2023, 2024]

  /** The winner of each year for one stock. */
  function WinnerOf(stockTable: seq<DerivedRow>, indexTable: seq<DerivedRow>, indexSymbols: seq<string>, symbol: string): int -> Option<string>
  {
    (year: int) => Correlation(stockTable, indexTable, indexSymbols, symbol, year).best
  }

  /**
   * One stock's `index_<year>` columns after the year loop, given each year's
   * winner: a year after the current one is skipped, a year without a winner
   * (or whose winner is the empty string, which is falsy) leaves its column
   * alone, and only the years that have a column are stored.
   */
  function UpdatedIndexColumns(cols: map<int, string>, years: seq<int>, currentYear: int, winner: int -> Option<string>): map<int, string>
  {
    if years == [] then cols
    else
      var prev := UpdatedIndexColumns(cols, years[..|years| - 1], currentYear, winner);
      var year := years[|years| - 1];
      if year > currentYear then prev
      else
        var best := winner(year);
        if best.Some? && best.value != "" && IsIndexColumn(year) then prev[year := best.value] else prev
  }

  /** One stock's row after the year loop. */
  function Refreshed(stock: StockInfo, symbol: string, years: seq<int>, currentYear: int,
                     stockTable: seq<DerivedRow>, indexTable: seq<DerivedRow>, indexSymbols: seq<string>): StockInfo
  {
    stock.(indexByYear := UpdatedIndexColumns(stock.indexByYear, years, currentYear, WinnerOf(stockTable, indexTable, indexSymbols, symbol)))
  }

  /** The `stock_info` table after refreshing the given stocks. */
  function RefreshAll(info: map<string, StockInfo>, targets: set<string>, years: seq<int>, currentYear: int,
                      stockTable: seq<DerivedRow>, indexTable: seq<DerivedRow>, indexSymbols: seq<string>): map<string, StockInfo>
  {
    map sym | sym in info ::
      if sym in targets then Refreshed(info[sym], sym, years, currentYear, stockTable, indexTable, indexSymbols)
      else info[sym]
  }

  /** The `stock_info` table after the batch. */
  function CorrelationBatch(info: map<string, StockInfo>, stockSymbol: Option<string>, years: seq<int>, currentYear: int,
                            stockTable: seq<DerivedRow>, indexTable: seq<DerivedRow>, indexSymbols: seq<string>): map<string, StockInfo>
  {
    RefreshAll(info, SelectedStocks(info, stockSymbol), years, currentYear, stockTable, indexTable, indexSymbols)
  }

  lemma RefreshNothing(info: map<string, StockInfo>, years: seq<int>, currentYear: int,
                       stockTable: seq<DerivedRow>, indexTable: seq<DerivedRow>, indexSymbols: seq<string>)
    ensures RefreshAll(info, {}, years, currentYear, stockTable, indexTable, indexSymbols) == info
  {
  }

  /**
   * A column the year loop changes is an `index_2020` … `index_2024` column of
   * a requested year that is not in the future, and it then holds that year's
   * non-empty winner.
   */
  lemma {:induction false} UpdatedColumnsFrame(cols: map<int, string>, years: seq<int>, currentYear: int, winner: int -> Option<string>)
    ensures var r := UpdatedIndexColumns(cols, years, currentYear, winner);
      && r.Keys >= cols.Keys
      && forall y :: y in r && (y !in cols || r[y] != cols[y]) ==>
           y in years && y <= currentYear && IsIndexColumn(y) && winner(y) == Some(r[y]) && r[y] != ""
  {
    if years != [] {
      UpdatedColumnsFrame(cols, years[..|years| - 1], currentYear, winner);
      var r := UpdatedIndexColumns(cols, years, currentYear, winner);
      forall y | y in r && (y !in cols || r[y] != cols[y]) ensures y in years {
        if y != years[|years| - 1] {
          assert y in years[..|years| - 1];
        }
      }
    }
  }

  /** A requested column year that is not in the future and has a non-empty winner ends up holding it. */
  lemma {:induction false} UpdatedColumnsWritten(cols: map<int, string>, years: seq<int>, currentYear: int,
                                                 winner: int -> Option<string>, y: int)
    requires y in years && y <= currentYear && IsIndexColumn(y)
    requires winner(y).Some? && winner(y).value != ""
    ensures var r := UpdatedIndexColumns(cols, years, currentYear, winner);
      y in r && Some(r[y]) == winner(y)
  {
    if years[|years| - 1] != y {
      assert y in years[..|years| - 1] by {
        var i :| 0 <= i < |years| && years[i] == y;
        assert years[..|years| - 1][i] == y;
      }
      UpdatedColumnsWritten(cols, years[..|years| - 1], currentYear, winner, y);
    }
  }

  /** One more year of the year loop. */
  lemma ColumnsStep(cols: map<int, string>, years: seq<int>, k: int, currentYear: int, winner: int -> Option<string>)
    requires 0 <= k < |years|
    ensures var prev := UpdatedIndexColumns(cols, years[..k], currentYear, winner);
      var year := years[k];
      UpdatedIndexColumns(cols, years[..k + 1], currentYear, winner) ==
        if year > currentYear then prev
        else if winner(year).Some? && winner(year).value != "" && IsIndexColumn(year) then prev[year := winner(year).value]
        else prev
  {
    assert years[..k + 1][..k] == years[..k];
  }

  /** The year loop of one stock. */
  method RefreshIndexColumns(cols: map<int, string>, symbol: string, years: seq<int>, currentYear: int,
                             stockTable: seq<DerivedRow>, indexTable: seq<DerivedRow>, indexSymbols: seq<string>)
    returns (newCols: map<int, string>)
    requires forall row :: row in indexTable ==> row.symbol in indexSymbols
    ensures newCols == UpdatedIndexColumns(cols, years, currentYear, WinnerOf(stockTable, indexTable, indexSymbols, symbol))
  {
    newCols := cols;
    for k := 0 to |years|
      invariant newCols == UpdatedIndexColumns(cols, years[..k], currentYear, WinnerOf(stockTable, indexTable, indexSymbols, symbol))
    {
      ColumnsStep(cols, years, k, currentYear, WinnerOf(stockTable, indexTable, indexSymbols, symbol));
      var year := years[k];
      if year > currentYear {
        continue;
      }
      var best, _, _ := CalculateCorrelationForStock(stockTable, indexTable, indexSymbols, symbol, year);
      if best.Some? && best.value != "" && IsIndexColumn(year) {
        newCols := newCols[year := best.value];
      }
    }
    assert years[..|years|] == years;
  }

  /** The stocks among `xs`. */
  function StockSet(xs: seq<string>): set<string>
  {
    set s | s in xs
  }

  /** No stock is listed twice. */
  predicate Distinct(xs: seq<string>)
  {
    forall i, j :: 0 <= i < j < |xs| ==> xs[i] != xs[j]
  }

  /**
   * The position of the first stock whose turn raises (a query or its
   * commit fails), or `|stocks|` when none does.
   */
  function FirstFailing(stocks: seq<string>, failing: set<string>): (f: nat)
    ensures f <= |stocks|
    ensures forall j :: 0 <= j < f ==> stocks[j] !in failing
    ensures f < |stocks| ==> stocks[f] in failing
  {
    if stocks == [] then 0
    else if stocks[0] in failing then 0
    else 1 + FirstFailing(stocks[1..], failing)
  }

  /**
   * The stocks the batch visits, in the order the query yields them: the
   * named stock when a non-empty symbol names a known one, nothing when it
   * names an unknown one, otherwise the whole `stock_info` table in `order`.
   */
  function BatchStocks(info: map<string, StockInfo>, stockSymbol: Option<string>, order: seq<string>): seq<string>
  {
    if stockSymbol.Some? && stockSymbol.value != "" then
      if stockSymbol.value in info then [stockSymbol.value] else []
    else order
  }

  /**
   * The stocks loop over `stocks`: each stock is committed after its years;
   * the first stock whose turn raises ends the run, its uncommitted columns
   * are dropped when the session closes, and the error propagates.
   */
  function RunStocks(info: map<string, StockInfo>, stocks: seq<string>, failing: set<string>, years: seq<int>, currentYear: int,
                     stockTable: seq<DerivedRow>, indexTable: seq<DerivedRow>, indexSymbols: seq<string>): (map<string, StockInfo>, bool)
  {
    var f := FirstFailing(stocks, failing);
    (RefreshAll(info, StockSet(stocks[..f]), years, currentYear, stockTable, indexTable, indexSymbols), f < |stocks|)
  }

  /**
   * The `stock_info` table after `update_stock_index_correlation`, and
   * whether it raised: `queryFails` is a failing stock query, `failing` the
   * stocks whose turn raises.
   */
  function CorrelationRun(info: map<string, StockInfo>, stockSymbol: Option<string>, order: seq<string>,
                          failing: set<string>, queryFails: bool, years: seq<int>, currentYear: int,
                          stockTable: seq<DerivedRow>, indexTable: seq<DerivedRow>, indexSymbols: seq<string>): (map<string, StockInfo>, bool)
  {
    if queryFails then (info, true)
    else RunStocks(info, BatchStocks(info, stockSymbol, order), failing, years, currentYear, stockTable, indexTable, indexSymbols)
  }

  /** Refreshing one more stock changes that stock's row alone. */
  lemma RefreshAllStep(info: map<string, StockInfo>, done: set<string>, sym: string, years: seq<int>, currentYear: int,
                       stockTable: seq<DerivedRow>, indexTable: seq<DerivedRow>, indexSymbols: seq<string>)
    requires sym in info && sym !in done
    ensures var before := RefreshAll(info, done, years, currentYear, stockTable, indexTable, indexSymbols);
      && sym in before && before[sym] == info[sym]
      && RefreshAll(info, done + {sym}, years, currentYear, stockTable, indexTable, indexSymbols) ==
         before[sym := Refreshed(info[sym], sym, years, currentYear, stockTable, indexTable, indexSymbols)]
  {
  }

  /**
   * What the batch does: it raises exactly when the stock query fails or a
   * visited stock's turn raises; a stock's row is refreshed exactly when it
   * is visited before any failing stock; every other row keeps its values.
   */
  lemma CorrelationRunOutcome(info: map<string, StockInfo>, stockSymbol: Option<string>, order: seq<string>,
                              failing: set<string>, queryFails: bool, years: seq<int>, currentYear: int,
                              stockTable: seq<DerivedRow>, indexTable: seq<DerivedRow>, indexSymbols: seq<string>, sym: string)
    ensures var stocks := BatchStocks(info, stockSymbol, order);
      var (r, raised) := CorrelationRun(info, stockSymbol, order, failing, queryFails, years, currentYear, stockTable, indexTable, indexSymbols);
      && r.Keys == info.Keys
      && (raised <==> queryFails || exists i :: 0 <= i < |stocks| && stocks[i] in failing)
      && (sym in info ==>
            r[sym] == if !queryFails && exists i :: 0 <= i < |stocks| && stocks[i] == sym && forall j :: 0 <= j <= i ==> stocks[j] !in failing
                      then Refreshed(info[sym], sym, years, currentYear, stockTable, indexTable, indexSymbols)
                      else info[sym])
  {
    var stocks := BatchStocks(info, stockSymbol, order);
    var f := FirstFailing(stocks, failing);
    var early := exists i :: 0 <= i < |stocks| && stocks[i] == sym && forall j :: 0 <= j <= i ==> stocks[j] !in failing;
    if early {
      var i :| 0 <= i < |stocks| && stocks[i] == sym && forall j :: 0 <= j <= i ==> stocks[j] !in failing;
      assert i < f;
      assert stocks[..f][i] == sym;
    }
  }

  /**
   * When nothing raises, the batch refreshes exactly the selected stocks,
   * whatever order the query yields them in.
   */
  lemma CorrelationRunWithoutFailure(info: map<string, StockInfo>, stockSymbol: Option<string>, order: seq<string>,
                                     failing: set<string>, years: seq<int>, currentYear: int,
                                     stockTable: seq<DerivedRow>, indexTable: seq<DerivedRow>, indexSymbols: seq<string>)
    requires forall s :: s in order <==> s in info
    requires forall s :: s in BatchStocks(info, stockSymbol, order) ==> s !in failing
    ensures CorrelationRun(info, stockSymbol, order, failing, false, years, currentYear, stockTable, indexTable, indexSymbols) ==
            (CorrelationBatch(info, stockSymbol, years, currentYear, stockTable, indexTable, indexSymbols), false)
  {
    var stocks := BatchStocks(info, stockSymbol, order);
    assert stocks[..FirstFailing(stocks, failing)] == stocks;
    assert StockSet(stocks) == SelectedStocks(info, stockSymbol);
  }

  /** The stocks loop; stops at the first stock whose turn raises. */
  method RefreshStocks(info: map<string, StockInfo>, stocks: seq<string>, failing: set<string>, years: seq<int>, currentYear: int,
                       stockTable: seq<DerivedRow>, indexTable: seq<DerivedRow>, indexSymbols: seq<string>)
    returns (newInfo: map<string, StockInfo>, raised: bool)
    requires Distinct(stocks)
    requires forall s :: s in stocks ==> s in info
    requires forall row :: row in indexTable ==> row.symbol in indexSymbols
    ensures (newInfo, raised) == RunStocks(info, stocks, failing, years, currentYear, stockTable, indexTable, indexSymbols)
  {
    newInfo := info;
    RefreshNothing(info, years, currentYear, stockTable, indexTable, indexSymbols);
    for k := 0 to |stocks|
      invariant forall j :: 0 <= j < k ==> stocks[j] !in failing
      invariant newInfo == RefreshAll(info, StockSet(stocks[..k]), years, currentYear, stockTable, indexTable, indexSymbols)
    {
      var sym := stocks[k];
      if sym in failing {
        // the stock's uncommitted columns are lost when the session closes
        assert FirstFailing(stocks, failing) == k;
        return newInfo, true;
      }
      assert sym !in StockSet(stocks[..k]);
      RefreshAllStep(info, StockSet(stocks[..k]), sym, years, currentYear, stockTable, indexTable, indexSymbols);
      var stock := newInfo[sym];
      var cols := RefreshIndexColumns(stock.indexByYear, sym, years, currentYear, stockTable, indexTable, indexSymbols);
      newInfo := newInfo[sym := stock.(indexByYear := cols)];
      assert StockSet(stocks[..k + 1]) == StockSet(stocks[..k]) + {sym} by {
        assert stocks[..k + 1] == stocks[..k] + [sym];
      }
    }
    assert FirstFailing(stocks, failing) == |stocks|;
    assert stocks[..|stocks|] == stocks;
    raised := false;
  }

  /**
   * `update_stock_index_correlation`: for each visited stock and each year,
   * computes the winner and stores it in the year's column, committing after
   * each stock. `order` is the order in which the stock query yields the
   * `stock_info` rows, `currentYear` stands for the clock, and `failing` and
   * `queryFails` say which database calls raise.
   */
  method UpdateStockIndexCorrelation(info: map<string, StockInfo>, stockSymbol: Option<string>, years: Option<seq<int>>,
                                     currentYear: int, order: seq<string>, failing: set<string>, queryFails: bool,
                                     stockTable: seq<DerivedRow>, indexTable: seq<DerivedRow>, indexSymbols: seq<string>)
    returns (newInfo: map<string, StockInfo>, raised: bool)
    requires Distinct(order) && forall s :: s in order <==> s in info
    requires forall row :: row in indexTable ==> row.symbol in indexSymbols
    ensures (newInfo, raised) == CorrelationRun(info, stockSymbol, order, failing, queryFails,
                                                if years.None? then DefaultYears else years.value,
                                                currentYear, stockTable, indexTable, indexSymbols)
  {
    var ys := if years.None? then DefaultYears else years.value;
    if queryFails {
      return info, true;
    }
    var stocks := BatchStocks(info, stockSymbol, order);
    newInfo, raised := RefreshStocks(info, stocks, failing, ys, currentYear, stockTable, indexTable, indexSymbols);
  }
}
