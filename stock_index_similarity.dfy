/**
 * The annual-return nearest index of stock_index_similarity.py.
 *
 * Every stock and every index gets one return per calendar year in its daily
 * closes: (last close - first close) / first close, over the earliest and the
 * latest date of that year. For each of the stock's years the index whose
 * return of the same year is nearest wins; the indices are scanned in
 * `groupby('symbol')` order, which is sorted, with a strict `<`, so on a tie
 * the lexicographically smallest symbol is kept. The winners are stored per
 * stock as a JSON object keyed by `str(year)`.
 */
module StockIndexSimilarity {
  import opened Common
  import opened Models
  import opened Decimal
  import opened Selection
  import opened KeyedTable

  /** One daily close of a stock or of an index. */
  datatype PriceRow = PriceRow(symbol: string, date: Date, close: real)

  // ---------------------------------------------------------------------------
  // Symbol order: the sorted keys of `groupby('symbol')`
  // ---------------------------------------------------------------------------

  /** Python's `<` on strings: code-point lexicographic order. */
  predicate StrLess(a: string, b: string)
  {
    if |a| == 0 then |b| > 0
    else if |b| == 0 then false
    else if a[0] != b[0] then a[0] < b[0]
    else StrLess(a[1..], b[1..])
  }

  lemma {:induction false} StrLessIrreflexive(a: string)
    ensures !StrLess(a, a)
  {
    if |a| > 0 {
      StrLessIrreflexive(a[1..]);
    }
  }

  lemma {:induction false} StrLessTransitive(a: string, b: string, c: string)
    requires StrLess(a, b) && StrLess(b, c)
    ensures StrLess(a, c)
  {
    if |a| > 0 && |b| > 0 && |c| > 0 && a[0] == b[0] && b[0] == c[0] {
      StrLessTransitive(a[1..], b[1..], c[1..]);
    }
  }

  lemma {:induction false} StrLessTotal(a: string, b: string)
    requires a != b
    ensures StrLess(a, b) || StrLess(b, a)
  {
    if |a| > 0 && |b| > 0 && a[0] == b[0] {
      assert a == [a[0]] + a[1..] && b == [b[0]] + b[1..];
      StrLessTotal(a[1..], b[1..]);
    }
  }

  predicate StrictlySorted(xs: seq<string>)
  {
    forall i, j :: 0 <= i < j < |xs| ==> StrLess(xs[i], xs[j])
  }

  lemma SortedSnoc(xs: seq<string>, x: string)
    requires StrictlySorted(xs)
    requires forall k :: 0 <= k < |xs| ==> StrLess(xs[k], x)
    ensures StrictlySorted(xs + [x])
  {
  }

  /** Adds x to a strictly sorted sequence of distinct symbols, keeping it so. */
  function SortedInsert(xs: seq<string>, x: string): (r: seq<string>)
    requires StrictlySorted(xs)
    ensures StrictlySorted(r)
    ensures forall y :: y in r <==> y in xs || y == x
  {
    if xs == [] then [x]
    else
      var init, last := xs[..|xs| - 1], xs[|xs| - 1];
      assert xs == init + [last];
      if last == x then xs
      else if StrLess(last, x) then
        forall k | 0 <= k < |xs| ensures StrLess(xs[k], x) {
          if k < |xs| - 1 {
            StrLessTransitive(xs[k], last, x);
          }
        }
        SortedSnoc(xs, x);
        xs + [x]
      else
        StrLessTotal(last, x);
        var rest := SortedInsert(init, x);
        forall k | 0 <= k < |rest| ensures StrLess(rest[k], last) {
          assert rest[k] in rest;
          if rest[k] != x {
            var m :| 0 <= m < |init| && init[m] == rest[k];
            assert xs[m] == init[m];
          }
        }
        SortedSnoc(rest, last);
        rest + [last]
  }

  /** The distinct symbols of the rows, in sorted order. */
  function SymbolOrder(rows: seq<PriceRow>): (order: seq<string>)
    ensures StrictlySorted(order)
    ensures forall s :: s in order <==> exists i :: 0 <= i < |rows| && rows[i].symbol == s
  {
    if rows == [] then []
    else
      var prefix := rows[..|rows| - 1];
      assert forall i :: 0 <= i < |prefix| ==> prefix[i] == rows[i];
      SortedInsert(SymbolOrder(prefix), rows[|rows| - 1].symbol)
  }

  /** The rows of one symbol. */
  function RowsOf(rows: seq<PriceRow>, symbol: string): (r: seq<PriceRow>)
    ensures forall row :: row in r <==> row in rows && row.symbol == symbol
  {
    if rows == [] then []
    else
      var row := rows[|rows| - 1];
      assert rows == rows[..|rows| - 1] + [row];
      var prev := RowsOf(rows[..|rows| - 1], symbol);
      if row.symbol == symbol then prev + [row] else prev
  }

  // ---------------------------------------------------------------------------
  // calculate_annual_return
  // ---------------------------------------------------------------------------

  /** The calendar years present in the rows. */
  function YearsOf(rows: seq<PriceRow>): set<int>
  {
    set i | 0 <= i < |rows| :: rows[i].date.year
  }

  /** The rows of one calendar year. */
  function RowsInYear(rows: seq<PriceRow>, year: int): (r: seq<PriceRow>)
    ensures forall row :: row in r <==> row in rows && row.date.year == year
  {
    if rows == [] then []
    else
      var row := rows[|rows| - 1];
      assert rows == rows[..|rows| - 1] + [row];
      var prev := RowsInYear(rows[..|rows| - 1], year);
      if row.date.year == year then prev + [row] else prev
  }

  /** A row of the earliest date (the first such row when dates repeat). */
  function Earliest(rows: seq<PriceRow>): (r: PriceRow)
    requires rows != []
    ensures r in rows
    ensures forall row :: row in rows ==> DateLe(r.date, row.date)
  {
    if |rows| == 1 then rows[0]
    else
      var prev := Earliest(rows[..|rows| - 1]);
      var row := rows[|rows| - 1];
      assert rows == rows[..|rows| - 1] + [row];
      if DateLe(prev.date, row.date) then prev else row
  }

  /** A row of the latest date (the last such row when dates repeat). */
  function Latest(rows: seq<PriceRow>): (r: PriceRow)
    requires rows != []
    ensures r in rows
    ensures forall row :: row in rows ==> DateLe(row.date, r.date)
  {
    if |rows| == 1 then rows[0]
    else
      var prev := Latest(rows[..|rows| - 1]);
      var row := rows[|rows| - 1];
      assert rows == rows[..|rows| - 1] + [row];
      if DateLe(row.date, prev.date) && row.date != prev.date then prev else row
  }

  /**
   * The return of one year's rows: (last - first) / first. A zero first close
   * makes pandas produce an infinite or NaN value, which no comparison can
   * select; such a return is `None` here.
   */
  function YearReturn(group: seq<PriceRow>): Option<real>
    requires group != []
  {
    var first := Earliest(group).close;
    var last := Latest(group).close;
    if first == 0.0 then None else Some((last - first) / first)
  }

  /** `calculate_annual_return`: one entry per calendar year present in the rows. */
  function AnnualReturns(rows: seq<PriceRow>): (r: map<int, Option<real>>)
    ensures forall y :: y in r <==> exists i :: 0 <= i < |rows| && rows[i].date.year == y
  {
    map y | y in YearsOf(rows) :: YearReturn(YearGroup(rows, y))
  }

  lemma YearPresent(rows: seq<PriceRow>, y: int)
    requires y in YearsOf(rows)
    ensures RowsInYear(rows, y) != []
  {
    var i :| 0 <= i < |rows| && rows[i].date.year == y;
    assert rows[i] in RowsInYear(rows, y);
  }

  /** The `groupby('year')` group of a year present in the rows. */
  function YearGroup(rows: seq<PriceRow>, y: int): (g: seq<PriceRow>)
    requires y in YearsOf(rows)
    ensures g != []
  {
    YearPresent(rows, y);
    RowsInYear(rows, y)
  }

  /** A date determines its row, as the (symbol, date) key of the price tables ensures. */
  predicate DatesDetermineRows(rows: seq<PriceRow>)
  {
    forall r1, r2 :: r1 in rows && r2 in rows && r1.date == r2.date ==> r1 == r2
  }

  lemma GroupReturn(g: seq<PriceRow>, first: PriceRow, last: PriceRow)
    requires DatesDetermineRows(g) && first in g && last in g
    requires forall r :: r in g ==> DateLe(first.date, r.date) && DateLe(r.date, last.date)
    ensures YearReturn(g) == if first.close == 0.0 then None else Some((last.close - first.close) / first.close)
  {
    var e, l := Earliest(g), Latest(g);
    assert e.date == first.date && l.date == last.date;
  }

  /**
   * With one row per date, a year's return is computed from the closes of its
   * earliest and of its latest trading day.
   */
  lemma AnnualReturnValue(rows: seq<PriceRow>, y: int, first: PriceRow, last: PriceRow)
    requires DatesDetermineRows(rows)
    requires first in rows && last in rows && first.date.year == y && last.date.year == y
    requires forall r :: r in rows && r.date.year == y ==> DateLe(first.date, r.date) && DateLe(r.date, last.date)
    ensures y in AnnualReturns(rows)
    ensures AnnualReturns(rows)[y] == if first.close == 0.0 then None else Some((last.close - first.close) / first.close)
  {
    var i :| 0 <= i < |rows| && rows[i] == first;
    assert y in YearsOf(rows);
    var g := YearGroup(rows, y);
    GroupReturn(g, first, last);
  }

  /** A year with a single trading day and a non-zero close has return 0. */
  lemma SingleDayYearReturnsZero(rows: seq<PriceRow>, y: int, i: int)
    requires 0 <= i < |rows| && rows[i].date.year == y && rows[i].close != 0.0
    requires forall k :: 0 <= k < |rows| && k != i ==> rows[k].date.year != y
    ensures y in AnnualReturns(rows) && AnnualReturns(rows)[y] == Some(0.0)
  {
    var g := YearGroup(rows, y);
    forall row | row in g ensures row == rows[i] {
      var k :| 0 <= k < |rows| && rows[k] == row;
    }
    var e, l := Earliest(g), Latest(g);
    assert e == rows[i] && l == rows[i];
  }

  /** Some rows give some year: the "no annual returns" skip never fires after the "no rows" skip. */
  lemma AnnualReturnsNonEmpty(rows: seq<PriceRow>)
    requires rows != []
    ensures |AnnualReturns(rows)| > 0
  {
    assert rows[0].date.year in AnnualReturns(rows);
  }

  /** The returns of the given years. */
  function ReturnsFor(rows: seq<PriceRow>, years: set<int>): map<int, Option<real>>
    requires years <= YearsOf(rows)
  {
    map y | y in years :: YearReturn(YearGroup(rows, y))
  }

  lemma ReturnsForStep(rows: seq<PriceRow>, years: set<int>, y: int)
    requires years <= YearsOf(rows) && y in YearsOf(rows)
    ensures ReturnsFor(rows, years + {y}) == ReturnsFor(rows, years)[y := YearReturn(YearGroup(rows, y))]
  {
  }

  /** The `annual_returns` loop over the `groupby('year')` groups, in any order. */
  method CalculateAnnualReturn(rows: seq<PriceRow>) returns (yearly: map<int, Option<real>>)
    ensures yearly == AnnualReturns(rows)
  {
    var years := YearsOf(rows);
    yearly := map[];
    var todo := years;
    while todo != {}
      invariant todo <= years
      invariant yearly == ReturnsFor(rows, years - todo)
      decreases |todo|
    {
      var y := Pick(todo);
      var group := YearGroup(rows, y);
      var first := Earliest(group).close;
      var last := Latest(group).close;
      var annualReturn := if first == 0.0 then None else Some((last - first) / first);
      assert annualReturn == YearReturn(group);
      ReturnsForStep(rows, years - todo, y);
      yearly := yearly[y := annualReturn];
      assert years - (todo - {y}) == (years - todo) + {y};
      todo := todo - {y};
    }
    assert years - todo == years;
  }

  // ---------------------------------------------------------------------------
  // find_most_similar_index
  // ---------------------------------------------------------------------------

  /**
   * How far an index's return of the year is from the stock's: absent when
   * the index has no such year or either return is not a finite number (a
   * comparison with such a distance is never true).
   */
  function Distance(stockReturn: Option<real>, year: int, indexReturns: map<int, Option<real>>): Option<real>
  {
    if stockReturn.Some? && year in indexReturns && indexReturns[year].Some? then
      Some(Abs(stockReturn.value - indexReturns[year].value))
    else None
  }

  function Distances(stockReturn: Option<real>, year: int, order: seq<string>, all: map<string, map<int, Option<real>>>): (ds: seq<Option<real>>)
    requires forall s :: s in order ==> s in all
    ensures |ds| == |order|
    ensures forall k :: 0 <= k < |order| ==> ds[k] == Distance(stockReturn, year, all[order[k]])
  {
    seq(|order|, k requires 0 <= k < |order| => Distance(stockReturn, year, all[order[k]]))
  }

  /** The index kept by the strict-`<` scan of the indices in `order`. */
  function NearestIndex(stockReturn: Option<real>, year: int, order: seq<string>, all: map<string, map<int, Option<real>>>): Option<string>
    requires forall s :: s in order ==> s in all
  {
    match FirstMin(Distances(stockReturn, year, order, all))
    case None => None
    case Some(k) => Some(order[k])
  }

  /**
   * Over symbols in sorted order, the scan keeps an index of the smallest
   * distance, the lexicographically smallest on a tie, and finds none exactly
   * when no index has a finite distance for the year.
   */
  lemma NearestIndexIsClosest(stockReturn: Option<real>, year: int, order: seq<string>, all: map<string, map<int, Option<real>>>)
    requires forall s :: s in order ==> s in all
    requires StrictlySorted(order)
    ensures var r := NearestIndex(stockReturn, year, order, all);
      && (r.None? <==> forall s :: s in order ==> Distance(stockReturn, year, all[s]).None?)
      && (r.Some? ==>
            && r.value in order
            && Distance(stockReturn, year, all[r.value]).Some?
            && forall s :: s in order && Distance(stockReturn, year, all[s]).Some? ==>
                 && Distance(stockReturn, year, all[r.value]).value <= Distance(stockReturn, year, all[s]).value
                 && ((Distance(stockReturn, year, all[s]).value == Distance(stockReturn, year, all[r.value]).value
                      && s != r.value) ==> StrLess(r.value, s)))
  {
    var ds := Distances(stockReturn, year, order, all);
    var fm := FirstMin(ds);
    if fm.None? {
      forall s | s in order ensures Distance(stockReturn, year, all[s]).None? {
        var k :| 0 <= k < |order| && order[k] == s;
        assert ds[k].None?;
      }
    } else {
      var k := fm.value;
      assert Distance(stockReturn, year, all[order[k]]).Some?;
      forall s | s in order && Distance(stockReturn, year, all[s]).Some?
        ensures Distance(stockReturn, year, all[order[k]]).value <= Distance(stockReturn, year, all[s]).value
        ensures (Distance(stockReturn, year, all[s]).value == Distance(stockReturn, year, all[order[k]]).value
                 && s != order[k]) ==> StrLess(order[k], s)
      {
        var j :| 0 <= j < |order| && order[j] == s;
        assert ds[j].Some?;
        if ds[j].value == ds[k].value && j != k {
          assert !(j < k);
        }
      }
    }
  }

  /** The inner loop of `find_most_similar_index`: `min_diff` starts at infinity (`None` here). */
  method FindNearestForYear(stockReturn: Option<real>, year: int, order: seq<string>, all: map<string, map<int, Option<real>>>)
    returns (mostSimilar: Option<string>)
    requires forall s :: s in order ==> s in all
    ensures mostSimilar == NearestIndex(stockReturn, year, order, all)
  {
    ghost var ds := Distances(stockReturn, year, order, all);
    var minDiff: Option<real> := None;
    mostSimilar := None;
    for k := 0 to |order|
      invariant ScanState(ds[..k], order, mostSimilar, minDiff)
    {
      ScanStep(ds, k, order, mostSimilar, minDiff);
      var symbol := order[k];
      var indexReturns := all[symbol];
      if year in indexReturns {
        var diff := Distance(stockReturn, year, indexReturns);
        if diff.Some? && (minDiff.None? || diff.value < minDiff.value) {
          minDiff := diff;
          mostSimilar := Some(symbol);
        }
      }
    }
    assert ds[..|order|] == ds;
  }

  /** What `min_diff` and `most_similar_index` hold after scanning the distances ds. */
  ghost predicate ScanState(ds: seq<Option<real>>, order: seq<string>, mostSimilar: Option<string>, minDiff: Option<real>)
  {
    match FirstMin(ds)
    case None => mostSimilar.None? && minDiff.None?
    case Some(j) => j < |ds| && j < |order| && mostSimilar == Some(order[j]) && minDiff == ds[j]
  }

  /** One more index: it is kept exactly when its distance is finite and strictly smaller. */
  lemma ScanStep(ds: seq<Option<real>>, k: int, order: seq<string>, mostSimilar: Option<string>, minDiff: Option<real>)
    requires 0 <= k < |ds| && k < |order|
    requires ScanState(ds[..k], order, mostSimilar, minDiff)
    ensures var d := ds[k];
      && (d.Some? && (minDiff.None? || d.value < minDiff.value) ==> ScanState(ds[..k + 1], order, Some(order[k]), d))
      && (!(d.Some? && (minDiff.None? || d.value < minDiff.value)) ==> ScanState(ds[..k + 1], order, mostSimilar, minDiff))
  {
    assert ds[..k + 1][..k] == ds[..k];
  }

  /** Whether a year gets an entry: some index was kept and its symbol is truthy. */
  predicate HasSimilar(stockReturns: map<int, Option<real>>, y: int, order: seq<string>, all: map<string, map<int, Option<real>>>)
    requires forall s :: s in order ==> s in all
  {
    y in stockReturns && NearestIndex(stockReturns[y], y, order, all).Some?
    && NearestIndex(stockReturns[y], y, order, all).value != ""
  }

  /** The `similar_indices` entries of the given years, keyed by `str(year)`. */
  function SimilarFor(years: set<int>, stockReturns: map<int, Option<real>>, order: seq<string>,
                      all: map<string, map<int, Option<real>>>): map<string, string>
    requires forall s :: s in order ==> s in all
  {
    IntToStringInjective();
    map y | y in years && HasSimilar(stockReturns, y, order, all) :: IntToString(y) := NearestIndex(stockReturns[y], y, order, all).value
  }

  /** `find_most_similar_index`. */
  function SimilarIndices(stockReturns: map<int, Option<real>>, order: seq<string>, all: map<string, map<int, Option<real>>>): map<string, string>
    requires forall s :: s in order ==> s in all
  {
    SimilarFor(stockReturns.Keys, stockReturns, order, all)
  }

  /**
   * The result holds one `str(year)` entry per stock year that some index
   * covers with a finite distance, holding that year's nearest index, and
   * nothing else.
   */
  lemma SimilarIndicesKeys(stockReturns: map<int, Option<real>>, order: seq<string>, all: map<string, map<int, Option<real>>>)
    requires forall s :: s in order ==> s in all
    ensures var r := SimilarIndices(stockReturns, order, all);
      && (forall key :: key in r ==> exists y :: y in stockReturns && key == IntToString(y))
      && (forall y :: IntToString(y) in r <==> HasSimilar(stockReturns, y, order, all))
      && (forall y :: IntToString(y) in r ==> Some(r[IntToString(y)]) == NearestIndex(stockReturns[y], y, order, all))
  {
    IntToStringInjective();
  }

  lemma SimilarForStep(years: set<int>, y: int, stockReturns: map<int, Option<real>>, order: seq<string>,
                       all: map<string, map<int, Option<real>>>)
    requires forall s :: s in order ==> s in all
    requires y !in years
    ensures SimilarFor(years + {y}, stockReturns, order, all) ==
      if HasSimilar(stockReturns, y, order, all) then
        SimilarFor(years, stockReturns, order, all)[IntToString(y) := NearestIndex(stockReturns[y], y, order, all).value]
      else SimilarFor(years, stockReturns, order, all)
  {
    SimilarForStepKeys(years, y, stockReturns, order, all);
    SimilarForStepValues(years, y, stockReturns, order, all);
  }

  lemma SimilarForStepKeys(years: set<int>, y: int, stockReturns: map<int, Option<real>>, order: seq<string>,
                           all: map<string, map<int, Option<real>>>)
    requires forall s :: s in order ==> s in all
    ensures var before, after := SimilarFor(years, stockReturns, order, all), SimilarFor(years + {y}, stockReturns, order, all);
      forall key :: key in after <==> key in before || (HasSimilar(stockReturns, y, order, all) && key == IntToString(y))
  {
    var before, after := SimilarFor(years, stockReturns, order, all), SimilarFor(years + {y}, stockReturns, order, all);
    forall key | key in after ensures key in before || (HasSimilar(stockReturns, y, order, all) && key == IntToString(y)) {
      var x :| x in years + {y} && HasSimilar(stockReturns, x, order, all) && key == IntToString(x);
    }
    forall key | key in before ensures key in after {
      var x :| x in years && HasSimilar(stockReturns, x, order, all) && key == IntToString(x);
    }
  }

  lemma SimilarForStepValues(years: set<int>, y: int, stockReturns: map<int, Option<real>>, order: seq<string>,
                             all: map<string, map<int, Option<real>>>)
    requires forall s :: s in order ==> s in all
    requires y !in years
    ensures var before, after := SimilarFor(years, stockReturns, order, all), SimilarFor(years + {y}, stockReturns, order, all);
      && (HasSimilar(stockReturns, y, order, all) ==>
            IntToString(y) in after && after[IntToString(y)] == NearestIndex(stockReturns[y], y, order, all).value)
      && (forall key :: key in after && key in before ==> after[key] == before[key])
  {
    IntToStringInjective();
    var before, after := SimilarFor(years, stockReturns, order, all), SimilarFor(years + {y}, stockReturns, order, all);
    forall key | key in after && key in before ensures after[key] == before[key] {
      var x :| x in years && HasSimilar(stockReturns, x, order, all) && key == IntToString(x);
    }
  }

  /** The body of the outer loop of `find_most_similar_index`: one more year. */
  method AddSimilarYear(similar: map<string, string>, done: set<int>, y: int, stockReturns: map<int, Option<real>>,
                        order: seq<string>, all: map<string, map<int, Option<real>>>)
    returns (newSimilar: map<string, string>)
    requires forall s :: s in order ==> s in all
    requires y in stockReturns && y !in done
    requires similar == SimilarFor(done, stockReturns, order, all)
    ensures newSimilar == SimilarFor(done + {y}, stockReturns, order, all)
  {
    var mostSimilar := FindNearestForYear(stockReturns[y], y, order, all);
    SimilarForStep(done, y, stockReturns, order, all);
    newSimilar := similar;
    if mostSimilar.Some? && mostSimilar.value != "" {
      newSimilar := similar[IntToString(y) := mostSimilar.value];
    }
  }

  /** The outer loop of `find_most_similar_index`, over the stock's years in any order. */
  method FindMostSimilarIndex(stockReturns: map<int, Option<real>>, order: seq<string>, all: map<string, map<int, Option<real>>>)
    returns (similar: map<string, string>)
    requires forall s :: s in order ==> s in all
    ensures similar == SimilarIndices(stockReturns, order, all)
  {
    similar := map[];
    var years := stockReturns.Keys;
    var todo := years;
    while todo != {}
      invariant todo <= years
      invariant similar == SimilarFor(years - todo, stockReturns, order, all)
      decreases |todo|
    {
      var y := Pick(todo);
      similar := AddSimilarYear(similar, years - todo, y, stockReturns, order, all);
      assert years - (todo - {y}) == (years - todo) + {y};
      todo := todo - {y};
    }
    assert years - todo == years;
  }

  // ---------------------------------------------------------------------------
  // update_stock_similar_indices
  // ---------------------------------------------------------------------------

  /** `all_index_returns` over the given index symbols: each index's returns over its own rows. */
  function IndexReturns(indexRows: seq<PriceRow>, symbols: seq<string>): map<string, map<int, Option<real>>>
  {
    map s | s in symbols :: AnnualReturns(RowsOf(indexRows, s))
  }

  /** The years of the annual returns are the years of the rows. */
  lemma ReturnYears(rows: seq<PriceRow>, y: int)
    ensures y in AnnualReturns(rows) <==> exists row :: row in rows && row.date.year == y
  {
    if exists row :: row in rows && row.date.year == y {
      var row :| row in rows && row.date.year == y;
      var i :| 0 <= i < |rows| && rows[i] == row;
    }
  }

  /**
   * `all_index_returns` holds exactly the symbols that have index rows, each
   * with one return per year of its own rows.
   */
  lemma IndexReturnsCoverIndices(indexRows: seq<PriceRow>, s: string, y: int)
    ensures var all := IndexReturns(indexRows, SymbolOrder(indexRows));
      && (s in all <==> exists i :: 0 <= i < |indexRows| && indexRows[i].symbol == s)
      && (s in all ==> (y in all[s] <==> exists row :: row in indexRows && row.symbol == s && row.date.year == y))
  {
    var rows := RowsOf(indexRows, s);
    ReturnYears(rows, y);
    if exists row :: row in rows && row.date.year == y {
      var row :| row in rows && row.date.year == y;
      assert row in indexRows && row.symbol == s;
    }
  }

  lemma IndexReturnsStep(indexRows: seq<PriceRow>, symbols: seq<string>, k: int)
    requires 0 <= k < |symbols|
    ensures IndexReturns(indexRows, symbols[..k + 1]) ==
      IndexReturns(indexRows, symbols[..k])[symbols[k] := AnnualReturns(RowsOf(indexRows, symbols[k]))]
  {
    assert symbols[..k + 1] == symbols[..k] + [symbols[k]];
  }

  /** The index loop: one `calculate_annual_return` per `groupby('symbol')` group, in sorted order. */
  method ComputeIndexReturns(indexRows: seq<PriceRow>) returns (order: seq<string>, all: map<string, map<int, Option<real>>>)
    ensures order == SymbolOrder(indexRows)
    ensures all == IndexReturns(indexRows, order)
  {
    order := SymbolOrder(indexRows);
    all := map[];
    for k := 0 to |order|
      invariant all == IndexReturns(indexRows, order[..k])
    {
      IndexReturnsStep(indexRows, order, k);
      var yearly := CalculateAnnualReturn(RowsOf(indexRows, order[k]));
      all := all[order[k] := yearly];
    }
    assert order[..|order|] == order;
  }

  /**
   * The `similar_indices` value a stock's rows produce, or `None` when the
   * stock is skipped: no rows, or no annual returns.
   */
  function StockSimilar(stockRows: seq<PriceRow>, order: seq<string>, all: map<string, map<int, Option<real>>>): Option<map<string, string>>
    requires forall s :: s in order ==> s in all
  {
    if |stockRows| == 0 then None
    else
      var stockReturns := AnnualReturns(stockRows);
      if |stockReturns| == 0 then None
      else Some(SimilarIndices(stockReturns, order, all))
  }

  /** A stock is written exactly when it has rows: the second skip never fires. */
  lemma StockSimilarWritten(stockRows: seq<PriceRow>, order: seq<string>, all: map<string, map<int, Option<real>>>)
    requires forall s :: s in order ==> s in all
    ensures StockSimilar(stockRows, order, all).Some? <==> stockRows != []
    ensures stockRows != [] ==> StockSimilar(stockRows, order, all) == Some(SimilarIndices(AnnualReturns(stockRows), order, all))
  {
    if stockRows != [] {
      AnnualReturnsNonEmpty(stockRows);
    }
  }

  /** One stock's row after its turn: only `similar_indices` can change. */
  function SimilarRefreshed(stock: StockInfo, stockRows: seq<PriceRow>, order: seq<string>,
                            all: map<string, map<int, Option<real>>>): StockInfo
    requires forall s :: s in order ==> s in all
  {
    match StockSimilar(stockRows, order, all)
    case None => stock
    case Some(similar) => stock.(similarIndices := Some(similar))
  }

  /** The `stock_info` table after refreshing the given stocks. */
  function SimilarRefreshAll(info: map<string, StockInfo>, targets: set<string>, stockRows: seq<PriceRow>,
                             order: seq<string>, all: map<string, map<int, Option<real>>>): map<string, StockInfo>
    requires forall s :: s in order ==> s in all
  {
    map sym | sym in info :: if sym in targets then SimilarRefreshed(info[sym], RowsOf(stockRows, sym), order, all) else info[sym]
  }

  /**
   * The `stock_info` table after `update_stock_similar_indices`. The stocks in
   * `failing` raise inside their own `try` (a store error while reading their
   * rows or writing their row) and are skipped; `aborted` stands for an error
   * outside that `try` (adding the column, reading the index rows, the
   * commit), after which the rollback discards every change.
   */
  function SimilarityBatch(info: map<string, StockInfo>, stockSymbol: Option<string>, stockRows: seq<PriceRow>,
                           indexRows: seq<PriceRow>, failing: set<string>, aborted: bool): map<string, StockInfo>
  {
    if aborted then info
    else
      var order := SymbolOrder(indexRows);
      SimilarRefreshAll(info, SelectedStocks(info, stockSymbol) - failing, stockRows, order, IndexReturns(indexRows, order))
  }

  /**
   * Only `similar_indices` changes, and only for a selected stock that did not
   * fail, has rows, and was not rolled back; such a stock then holds the
   * nearest index of each of its years, computed against every index.
   */
  lemma SimilarityBatchRows(info: map<string, StockInfo>, stockSymbol: Option<string>, stockRows: seq<PriceRow>,
                            indexRows: seq<PriceRow>, failing: set<string>, aborted: bool, sym: string)
    requires sym in info
    ensures var r := SimilarityBatch(info, stockSymbol, stockRows, indexRows, failing, aborted);
      var order := SymbolOrder(indexRows);
      var updated := !aborted && sym in SelectedStocks(info, stockSymbol) && sym !in failing && RowsOf(stockRows, sym) != [];
      && r.Keys == info.Keys
      && r[sym].name == info[sym].name
      && r[sym].indexByYear == info[sym].indexByYear
      && (!updated ==> r[sym] == info[sym])
      && (updated ==> r[sym].similarIndices == Some(SimilarIndices(AnnualReturns(RowsOf(stockRows, sym)), order, IndexReturns(indexRows, order))))
  {
    if !aborted {
      var order := SymbolOrder(indexRows);
      var all := IndexReturns(indexRows, order);
      SimilarRefreshAllRows(info, SelectedStocks(info, stockSymbol) - failing, stockRows, order, all, sym);
    }
  }

  lemma SimilarRefreshAllRows(info: map<string, StockInfo>, targets: set<string>, stockRows: seq<PriceRow>,
                              order: seq<string>, all: map<string, map<int, Option<real>>>, sym: string)
    requires forall s :: s in order ==> s in all
    requires sym in info
    ensures var r := SimilarRefreshAll(info, targets, stockRows, order, all);
      var updated := sym in targets && RowsOf(stockRows, sym) != [];
      && r.Keys == info.Keys
      && r[sym].name == info[sym].name
      && r[sym].indexByYear == info[sym].indexByYear
      && (!updated ==> r[sym] == info[sym])
      && (updated ==> r[sym].similarIndices == Some(SimilarIndices(AnnualReturns(RowsOf(stockRows, sym)), order, all)))
  {
    var r := SimilarRefreshAll(info, targets, stockRows, order, all);
    var rows := RowsOf(stockRows, sym);
    assert r[sym] == if sym in targets then SimilarRefreshed(info[sym], rows, order, all) else info[sym];
    if sym in targets {
      StockSimilarWritten(rows, order, all);
    }
  }

  /**
   * A stock's outcome depends only on its own failure: the per-stock `try`
   * isolates the other stocks' errors.
   */
  lemma SimilarityIsolation(info: map<string, StockInfo>, stockSymbol: Option<string>, stockRows: seq<PriceRow>,
                            indexRows: seq<PriceRow>, failing: set<string>, aborted: bool, sym: string, other: string)
    requires sym in info && other != sym
    ensures SimilarityBatch(info, stockSymbol, stockRows, indexRows, failing + {other}, aborted)[sym] ==
            SimilarityBatch(info, stockSymbol, stockRows, indexRows, failing, aborted)[sym]
  {
  }

  /** The refreshed table has the same stocks, and a stock that is not a target is as it was. */
  lemma SimilarRefreshAllFrame(info: map<string, StockInfo>, targets: set<string>, stockRows: seq<PriceRow>,
                               order: seq<string>, all: map<string, map<int, Option<real>>>)
    requires forall s :: s in order ==> s in all
    ensures var r := SimilarRefreshAll(info, targets, stockRows, order, all);
      && r.Keys == info.Keys
      && (forall sym :: sym in info && sym !in targets ==> r[sym] == info[sym])
      && (forall sym :: sym in info && sym in targets ==> r[sym] == SimilarRefreshed(info[sym], RowsOf(stockRows, sym), order, all))
  {
  }

  /** One stock's turn of the stocks loop. */
  method RefreshSimilar(stock: StockInfo, stockRows: seq<PriceRow>, order: seq<string>,
                        all: map<string, map<int, Option<real>>>) returns (newStock: StockInfo)
    requires forall s :: s in order ==> s in all
    ensures newStock == SimilarRefreshed(stock, stockRows, order, all)
  {
    newStock := stock;
    if |stockRows| == 0 {
      return;
    }
    var stockReturns := CalculateAnnualReturn(stockRows);
    if |stockReturns| == 0 {
      return;
    }
    var similar := FindMostSimilarIndex(stockReturns, order, all);
    newStock := stock.(similarIndices := Some(similar));
  }

  /** The stocks loop, in whatever order the table yields the stocks; a failing stock is left as it was. */
  method RefreshSimilarStocks(info: map<string, StockInfo>, stocks: set<string>, failing: set<string>, stockRows: seq<PriceRow>,
                              order: seq<string>, all: map<string, map<int, Option<real>>>)
    returns (newInfo: map<string, StockInfo>)
    requires forall s :: s in order ==> s in all
    requires stocks <= info.Keys
    ensures newInfo == SimilarRefreshAll(info, stocks - failing, stockRows, order, all)
  {
    ghost var goal := SimilarRefreshAll(info, stocks - failing, stockRows, order, all);
    SimilarRefreshAllFrame(info, stocks - failing, stockRows, order, all);
    newInfo := info;
    var todo := stocks;
    while todo != {}
      invariant todo <= stocks
      invariant RowsProgress(info, newInfo, stocks - todo, goal)
      decreases |todo|
    {
      var sym := Pick(todo);
      assert stocks - (todo - {sym}) == (stocks - todo) + {sym};
      if sym !in failing {
        var stock := RefreshSimilar(newInfo[sym], RowsOf(stockRows, sym), order, all);
        RowsProgressStep(info, newInfo, stocks - todo, goal, sym);
        newInfo := newInfo[sym := stock];
      } else {
        RowsProgressSkip(info, newInfo, stocks - todo, goal, sym);
      }
      todo := todo - {sym};
    }
    RowsProgressDone(info, newInfo, stocks, goal);
  }

  /**
   * `update_stock_similar_indices`: index returns first, then each selected
   * stock, then one commit, or a rollback to the table as it was.
   */
  method UpdateStockSimilarIndices(info: map<string, StockInfo>, stockSymbol: Option<string>, stockRows: seq<PriceRow>,
                                   indexRows: seq<PriceRow>, failing: set<string>, aborted: bool)
    returns (newInfo: map<string, StockInfo>)
    ensures newInfo == SimilarityBatch(info, stockSymbol, stockRows, indexRows, failing, aborted)
  {
    var order, all := ComputeIndexReturns(indexRows);
    newInfo := RefreshSimilarStocks(info, SelectedStocks(info, stockSymbol), failing, stockRows, order, all);
    if aborted {
      newInfo := info;
    }
  }

  // ---------------------------------------------------------------------------
  // What the commit saves as written
  // ---------------------------------------------------------------------------

  /**
   * What `db.commit()` stores as written: `StockInfo` maps only the symbol,
   * the name and the `index_<year>` columns, so `similar_indices` set on a
   * loaded row is a plain attribute the session does not track, and every
   * stored row keeps its old `similar_indices`.
   */
  function CommittedAsWritten(info: map<string, StockInfo>, session: map<string, StockInfo>): map<string, StockInfo>
    requires forall sym :: sym in info ==> sym in session
  {
    map sym | sym in info :: session[sym].(similarIndices := info[sym].similarIndices)
  }

  /** The `stock_info` table that `update_stock_similar_indices` as written leaves stored. */
  function SimilarityBatchAsWritten(info: map<string, StockInfo>, stockSymbol: Option<string>, stockRows: seq<PriceRow>,
                                   indexRows: seq<PriceRow>, failing: set<string>, aborted: bool): map<string, StockInfo>
  {
    CommittedAsWritten(info, SimilarityBatch(info, stockSymbol, stockRows, indexRows, failing, aborted))
  }

  /** As written, the batch stores nothing: every row is as it was. */
  lemma SimilarityBatchAsWrittenSavesNothing(info: map<string, StockInfo>, stockSymbol: Option<string>, stockRows: seq<PriceRow>,
                                   indexRows: seq<PriceRow>, failing: set<string>, aborted: bool)
    ensures SimilarityBatchAsWritten(info, stockSymbol, stockRows, indexRows, failing, aborted) == info
  {
    forall sym | sym in info
      ensures SimilarityBatchAsWritten(info, stockSymbol, stockRows, indexRows, failing, aborted)[sym] == info[sym]
    {
      SimilarityBatchRows(info, stockSymbol, stockRows, indexRows, failing, aborted, sym);
    }
  }

  /**
   * The smallest input that shows it: one stock with one price row and one
   * index priced on the same day. The batch computes a `similar_indices`
   * value for the stock, and the stored table is still unchanged.
   */
  lemma UnmappedColumnExample()
    ensures var info := map["000001" := StockInfo("PingAn", map[], None)];
      var stockRows := [PriceRow("000001", Date(2023, 1, 3), 10.0)];
      var indexRows := [PriceRow("000300", Date(2023, 1, 3), 5.0)];
      && SimilarityBatch(info, None, stockRows, indexRows, {}, false)["000001"].similarIndices.Some?
      && SimilarityBatchAsWritten(info, None, stockRows, indexRows, {}, false) == info
  {
    var info := map["000001" := StockInfo("PingAn", map[], None)];
    var stockRows := [PriceRow("000001", Date(2023, 1, 3), 10.0)];
    var indexRows := [PriceRow("000300", Date(2023, 1, 3), 5.0)];
    assert stockRows[0] in RowsOf(stockRows, "000001");
    SimilarityBatchRows(info, None, stockRows, indexRows, {}, false, "000001");
    SimilarityBatchAsWrittenSavesNothing(info, None, stockRows, indexRows, {}, false);
  }

  /** `update_stock_similar_indices` as written: the session's changes, then the commit of the mapped columns. */
  method UpdateStockSimilarIndicesAsWritten(info: map<string, StockInfo>, stockSymbol: Option<string>, stockRows: seq<PriceRow>,
                                   indexRows: seq<PriceRow>, failing: set<string>, aborted: bool)
    returns (saved: map<string, StockInfo>)
    ensures saved == SimilarityBatchAsWritten(info, stockSymbol, stockRows, indexRows, failing, aborted)
    ensures saved == info
  {
    var session := UpdateStockSimilarIndices(info, stockSymbol, stockRows, indexRows, failing, aborted);
    saved := CommittedAsWritten(info, session);
    SimilarityBatchAsWrittenSavesNothing(info, stockSymbol, stockRows, indexRows, failing, aborted);
  }
}
