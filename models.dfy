/**
 * The rows of the store that the modelled operations read and write, and
 * calendar dates. Tables are values: a sequence of rows in query order, or a
 * map from a table's unique key to its row.
 */
module Models {
  import opened Common

  /** A calendar date (the `Date` columns). */
  datatype Date = Date(year: int, month: int, day: int)

  /** a is on or before b. */
  predicate DateLe(a: Date, b: Date)
  {
    a.year < b.year || (a.year == b.year && (a.month < b.month || (a.month == b.month && a.day <= b.day)))
  }

  /**
   * One `stock_info` row, keyed by symbol. `indexByYear` holds the
   * `index_2020` … `index_2024` columns that are set. `similarIndices` is the
   * JSON column the annual-return script adds with DDL (absent until first
   * written); the `StockInfo` mapping has no attribute for it, so a commit
   * does not store what the script sets there.
   */
  datatype StockInfo = StockInfo(name: string, indexByYear: map<int, string>, similarIndices: Option<map<string, string>>)

  /** The years that have an `index_<year>` column in `stock_info`. */
  predicate IsIndexColumn(year: int)
  {
    2020 <= year <= 2024
  }

  /**
   * The `stock_info` rows a batch visits: the named stock when a non-empty
   * symbol is given (none when it is unknown), otherwise every stock.
   */
  function SelectedStocks(info: map<string, StockInfo>, stockSymbol: Option<string>): (r: set<string>)
    ensures forall s :: s in r <==> s in info && (stockSymbol.None? || stockSymbol.value == "" || s == stockSymbol.value)
  {
    if stockSymbol.Some? && stockSymbol.value != "" then
      if stockSymbol.value in info then {stockSymbol.value} else {}
    else info.Keys
  }

  /** The value columns of one `stock_hot_rank` row, keyed by (stock_code, date). */
  datatype HotRank = HotRank(rank: int, newFansRatio: real, loyalFansRatio: real)

  /** The ten value columns of one `daily_etf` row, keyed by (symbol, date). */
  datatype EtfDaily = EtfDaily(
    open: real, close: real, high: real, low: real, volume: int, amount: real,
    amplitude: real, changeRate: real, changeAmount: real, turnoverRate: real)
}
