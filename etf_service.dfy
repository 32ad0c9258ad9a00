/**
 * The ETF upserts of StockDownloader/src/services/etf_service.py: the ETF
 * list is upserted into `etf_info` by symbol, each ETF's daily bars into
 * `daily_etf` by (symbol, date), each save in one transaction, and one
 * ETF's failure does not stop the others.
 */
module EtfService {
  import opened Common
  import opened Models
  import opened KeyedTable

  /** One row of the fetched ETF list (`代码`, `名称`). */
  datatype EtfListRow = EtfListRow(symbol: string, name: string)

  /** One fetched daily bar: its date (`None` when it does not parse) and the ten value columns. */
  datatype EtfDailyRow = EtfDailyRow(date: Option<Date>, values: EtfDaily)

  /** `etf_info`: name by symbol. */
  type EtfInfoTable = map<string, string>

  /** `daily_etf`, keyed by (symbol, date). */
  type EtfDailyTable = map<(string, Date), EtfDaily>

  /** How a save ended: committed with its update and insert counts, or rolled back and raised `DataSaveError`. */
  datatype SaveOutcome = Saved(updated: nat, inserted: nat) | SaveRaised

  /**
   * Whether the store raises while a save applies its rows: at the statement
   * of row `failAt`, when there is such a row.
   */
  predicate FailsWithin(failAt: Option<nat>, n: nat)
  {
    failAt.Some? && failAt.value < n
  }

  // ---------------------------------------------------------------------------
  // save_etf_list_to_db
  // ---------------------------------------------------------------------------

  function ListPairs(list: seq<EtfListRow>): (pairs: seq<(string, string)>)
    ensures |pairs| == |list|
  {
    seq(|list|, k requires 0 <= k < |list| => (list[k].symbol, list[k].name))
  }

  /** `etf_info` after the save: every listed symbol holds its (last) listed name, or nothing changed. */
  function SaveEtfList(info: EtfInfoTable, list: seq<EtfListRow>, failAt: Option<nat>): (EtfInfoTable, bool)
  {
    if FailsWithin(failAt, |list|) then (info, true) else (Upserted(info, ListPairs(list)), false)
  }

  /**
   * A successful list save gives every listed symbol the name of its last
   * row, adds exactly the unlisted symbols, and leaves every other ETF as it
   * was.
   */
  lemma SaveEtfListEffect(info: EtfInfoTable, list: seq<EtfListRow>, failAt: Option<nat>)
    ensures var (newInfo, raised) := SaveEtfList(info, list, failAt);
      && (raised ==> newInfo == info)
      && (!raised ==>
            && (forall s :: s in newInfo <==> s in info || exists k :: 0 <= k < |list| && list[k].symbol == s)
            && (forall s :: s in info && (forall k :: 0 <= k < |list| ==> list[k].symbol != s) ==> newInfo[s] == info[s])
            && (forall k :: 0 <= k < |list| && (forall j :: k < j < |list| ==> list[j].symbol != list[k].symbol) ==>
                  newInfo[list[k].symbol] == list[k].name))
  {
    var pairs := ListPairs(list);
    UpsertedFrame(info, pairs);
    forall s ensures s in KeysOf(pairs) <==> exists k :: 0 <= k < |list| && list[k].symbol == s {
      if exists k :: 0 <= k < |list| && list[k].symbol == s {
        var k :| 0 <= k < |list| && list[k].symbol == s;
        assert pairs[k].0 == s;
      }
    }
    forall k | 0 <= k < |list| && (forall j :: k < j < |list| ==> list[j].symbol != list[k].symbol)
      ensures Upserted(info, pairs)[list[k].symbol] == list[k].name
    {
      UpsertedLastWins(info, pairs, k);
    }
  }

  /** `save_etf_list_to_db`: update the name of a known symbol, add an unknown one; commit once, or roll back. */
  method SaveEtfListToDb(info: EtfInfoTable, list: seq<EtfListRow>, failAt: Option<nat>) returns (newInfo: EtfInfoTable, raised: bool)
    ensures (newInfo, raised) == SaveEtfList(info, list, failAt)
  {
    newInfo := info;
    for k := 0 to |list|
      invariant newInfo == Upserted(info, ListPairs(list)[..k])
      invariant failAt.Some? ==> failAt.value >= k
    {
      if failAt == Some(k) {
        return info, true;
      }
      UpsertedSnoc(info, ListPairs(list)[..k], (list[k].symbol, list[k].name));
      assert ListPairs(list)[..k + 1] == ListPairs(list)[..k] + [(list[k].symbol, list[k].name)];
      newInfo := newInfo[list[k].symbol := list[k].name];
    }
    assert ListPairs(list)[..|list|] == ListPairs(list);
    raised := false;
  }

  // ---------------------------------------------------------------------------
  // save_etf_daily_data_to_db
  // ---------------------------------------------------------------------------

  /** The (key, bar) pairs of the rows whose date parses, in order; the others are skipped. */
  function DailyPairs(symbol: string, rows: seq<EtfDailyRow>): seq<((string, Date), EtfDaily)>
  {
    if rows == [] then []
    else
      var row := rows[|rows| - 1];
      DailyPairs(symbol, rows[..|rows| - 1]) + if row.date.Some? then [((symbol, row.date.value), row.values)] else []
  }

  /** The number of rows whose date parses. */
  function ValidCount(rows: seq<EtfDailyRow>): nat
  {
    if rows == [] then 0 else ValidCount(rows[..|rows| - 1]) + if rows[|rows| - 1].date.Some? then 1 else 0
  }

  /**
   * One pair per row with a valid date, keyed by this ETF's symbol and that
   * date, holding that row's bar; rows without a valid date contribute
   * nothing.
   */
  lemma {:induction false} DailyPairsMeaning(symbol: string, rows: seq<EtfDailyRow>)
    ensures |DailyPairs(symbol, rows)| == ValidCount(rows)
    ensures forall p :: p in DailyPairs(symbol, rows) <==>
      exists k :: 0 <= k < |rows| && rows[k].date.Some? && p == ((symbol, rows[k].date.value), rows[k].values)
  {
    if rows != [] {
      var prefix := rows[..|rows| - 1];
      DailyPairsMeaning(symbol, prefix);
      forall p ensures p in DailyPairs(symbol, rows) <==>
        exists k :: 0 <= k < |rows| && rows[k].date.Some? && p == ((symbol, rows[k].date.value), rows[k].values)
      {
        if p in DailyPairs(symbol, prefix) {
          var k :| 0 <= k < |prefix| && prefix[k].date.Some? && p == ((symbol, prefix[k].date.value), prefix[k].values);
          assert rows[k] == prefix[k];
        }
        if exists k :: 0 <= k < |rows| && rows[k].date.Some? && p == ((symbol, rows[k].date.value), rows[k].values) {
          var k :| 0 <= k < |rows| && rows[k].date.Some? && p == ((symbol, rows[k].date.value), rows[k].values);
          if k < |rows| - 1 {
            assert prefix[k] == rows[k];
          }
        }
      }
    }
  }

  /** `daily_etf` after saving one ETF's bars, and how the save ended. */
  function SaveEtfDaily(table: EtfDailyTable, symbol: string, rows: seq<EtfDailyRow>, failAt: Option<nat>): (EtfDailyTable, SaveOutcome)
  {
    if FailsWithin(failAt, |rows|) then (table, SaveRaised)
    else
      var pairs := DailyPairs(symbol, rows);
      var inserted := InsertCount(table, pairs);
      InsertCountIsGrowth(table, pairs);
      (Upserted(table, pairs), Saved(|pairs| - inserted, inserted))
  }

  /**
   * A daily save is all or nothing. When it commits, updates plus inserts is
   * the number of rows with a valid date, the table grows by the inserts,
   * and only keys of this symbol change, each to the bar of a row of that
   * date.
   */
  lemma SaveEtfDailyEffect(table: EtfDailyTable, symbol: string, rows: seq<EtfDailyRow>, failAt: Option<nat>)
    ensures var (newTable, outcome) := SaveEtfDaily(table, symbol, rows, failAt);
      && (outcome.SaveRaised? ==> newTable == table)
      && (outcome.Saved? ==>
            && outcome.updated + outcome.inserted == ValidCount(rows)
            && |newTable| == |table| + outcome.inserted
            && (forall key :: key in table ==> key in newTable)
            && (forall key :: key in newTable && (key !in table || newTable[key] != table[key]) ==>
                  key.0 == symbol && exists k :: 0 <= k < |rows| && rows[k].date == Some(key.1) && newTable[key] == rows[k].values))
  {
    var (newTable, outcome) := SaveEtfDaily(table, symbol, rows, failAt);
    if outcome.Saved? {
      var pairs := DailyPairs(symbol, rows);
      DailyPairsMeaning(symbol, rows);
      InsertCountIsGrowth(table, pairs);
      UpsertedWritesPairs(table, pairs);
      UpsertedFrame(table, pairs);
      forall key | key in newTable && (key !in table || newTable[key] != table[key])
        ensures key.0 == symbol && exists k :: 0 <= k < |rows| && rows[k].date == Some(key.1) && newTable[key] == rows[k].values
      {
        var i :| 0 <= i < |pairs| && pairs[i] == (key, newTable[key]);
        assert pairs[i] in pairs;
      }
    }
  }

  /** Every row an upsert changes or adds holds the value of one of the pairs of its key. */
  lemma {:induction false} UpsertedWritesPairs<K, V>(table: map<K, V>, pairs: seq<(K, V)>)
    ensures forall k :: k in Upserted(table, pairs) && (k !in table || Upserted(table, pairs)[k] != table[k]) ==>
      exists i :: 0 <= i < |pairs| && pairs[i] == (k, Upserted(table, pairs)[k])
  {
    if pairs != [] {
      var prefix := pairs[..|pairs| - 1];
      UpsertedWritesPairs(table, prefix);
      var r := Upserted(table, pairs);
      forall k | k in r && (k !in table || r[k] != table[k])
        ensures exists i :: 0 <= i < |pairs| && pairs[i] == (k, r[k])
      {
        if k != pairs[|pairs| - 1].0 {
          var i :| 0 <= i < |prefix| && prefix[i] == (k, Upserted(table, prefix)[k]);
          assert pairs[i] == prefix[i];
        } else {
          assert pairs[|pairs| - 1] == (k, r[k]);
        }
      }
    }
  }

  lemma DailyStep(symbol: string, rows: seq<EtfDailyRow>, k: int)
    requires 0 <= k < |rows|
    ensures DailyPairs(symbol, rows[..k + 1]) ==
      DailyPairs(symbol, rows[..k]) + if rows[k].date.Some? then [((symbol, rows[k].date.value), rows[k].values)] else []
  {
    assert rows[..k + 1][..k] == rows[..k];
  }

  /** The row loop of one daily save, with its counts; `raised` when a statement raises. */
  method UpsertDailyRows(table: EtfDailyTable, symbol: string, rows: seq<EtfDailyRow>, failAt: Option<nat>)
    returns (newTable: EtfDailyTable, updatedCount: nat, insertedCount: nat, raised: bool)
    ensures raised <==> FailsWithin(failAt, |rows|)
    ensures !raised ==> && newTable == Upserted(table, DailyPairs(symbol, rows))
                        && insertedCount == InsertCount(table, DailyPairs(symbol, rows))
                        && updatedCount + insertedCount == |DailyPairs(symbol, rows)|
  {
    newTable := table;
    updatedCount, insertedCount := 0, 0;
    for k := 0 to |rows|
      invariant failAt.Some? ==> failAt.value >= k
      invariant newTable == Upserted(table, DailyPairs(symbol, rows[..k]))
      invariant insertedCount == InsertCount(table, DailyPairs(symbol, rows[..k]))
      invariant updatedCount + insertedCount == |DailyPairs(symbol, rows[..k])|
    {
      if failAt == Some(k) {
        return newTable, updatedCount, insertedCount, true;
      }
      DailyStep(symbol, rows, k);
      var row := rows[k];
      if row.date.None? {
        assert DailyPairs(symbol, rows[..k]) + [] == DailyPairs(symbol, rows[..k]);
        assert DailyPairs(symbol, rows[..k + 1]) == DailyPairs(symbol, rows[..k]);
        continue;
      }
      var key := (symbol, row.date.value);
      assert DailyPairs(symbol, rows[..k + 1]) == DailyPairs(symbol, rows[..k]) + [(key, row.values)];
      UpsertedSnoc(table, DailyPairs(symbol, rows[..k]), (key, row.values));
      if key in newTable {
        updatedCount := updatedCount + 1;
      } else {
        insertedCount := insertedCount + 1;
      }
      newTable := newTable[key := row.values];
    }
    assert rows[..|rows|] == rows;
    raised := false;
  }

  /**
   * `save_etf_daily_data_to_db`: skip a row whose date does not parse,
   * overwrite the ten values of an existing (symbol, date), insert
   * otherwise; commit once, or roll back and raise.
   */
  method SaveEtfDailyDataToDb(table: EtfDailyTable, symbol: string, rows: seq<EtfDailyRow>, failAt: Option<nat>)
    returns (newTable: EtfDailyTable, outcome: SaveOutcome)
    ensures (newTable, outcome) == SaveEtfDaily(table, symbol, rows, failAt)
  {
    var written, updatedCount, insertedCount, raised := UpsertDailyRows(table, symbol, rows, failAt);
    if raised {
      return table, SaveRaised;
    }
    newTable, outcome := written, Saved(updatedCount, insertedCount);
  }

  // ---------------------------------------------------------------------------
  // update_etf_data
  // ---------------------------------------------------------------------------

  /**
   * `daily_etf` after visiting the listed ETFs in order. `fetched(s)` is
   * what `fetch_etf_daily_data(s)` returns (`None` when it raises
   * `DataFetchError`); an ETF whose fetch or save raises leaves the table as
   * it was and the loop goes on.
   */
  function RefreshEtfs(table: EtfDailyTable, list: seq<EtfListRow>, fetched: string -> Option<seq<EtfDailyRow>>,
                       failAt: string -> Option<nat>): EtfDailyTable
  {
    if list == [] then table
    else
      var prev := RefreshEtfs(table, list[..|list| - 1], fetched, failAt);
      var symbol := list[|list| - 1].symbol;
      match fetched(symbol)
      case None => prev
      case Some(rows) => SaveEtfDaily(prev, symbol, rows, failAt(symbol)).0
  }

  /** Only bars of listed ETFs change: every other row of `daily_etf` is as it was. */
  lemma {:induction false} RefreshEtfsFrame(table: EtfDailyTable, list: seq<EtfListRow>, fetched: string -> Option<seq<EtfDailyRow>>,
                                            failAt: string -> Option<nat>)
    ensures var r := RefreshEtfs(table, list, fetched, failAt);
      && (forall key :: key in table ==> key in r)
      && (forall key :: key in r && (forall k :: 0 <= k < |list| ==> list[k].symbol != key.0) ==>
            key in table && r[key] == table[key])
  {
    if list != [] {
      var prefix := list[..|list| - 1];
      RefreshEtfsFrame(table, prefix, fetched, failAt);
      var prev := RefreshEtfs(table, prefix, fetched, failAt);
      var symbol := list[|list| - 1].symbol;
      if fetched(symbol).Some? {
        SaveEtfDailyEffect(prev, symbol, fetched(symbol).value, failAt(symbol));
      }
      forall key | key in RefreshEtfs(table, list, fetched, failAt) && (forall k :: 0 <= k < |list| ==> list[k].symbol != key.0)
        ensures forall k :: 0 <= k < |prefix| ==> prefix[k].symbol != key.0
      {
        assert forall k :: 0 <= k < |prefix| ==> prefix[k] == list[k];
      }
    }
  }

  /** One ETF's failure does not disturb the others: the table is what the earlier ETFs made it. */
  lemma RefreshEtfsIsolation(table: EtfDailyTable, list: seq<EtfListRow>, fetched: string -> Option<seq<EtfDailyRow>>,
                             failAt: string -> Option<nat>, row: EtfListRow)
    requires fetched(row.symbol).None? || SaveEtfDaily(RefreshEtfs(table, list, fetched, failAt), row.symbol,
                                                       fetched(row.symbol).value, failAt(row.symbol)).1.SaveRaised?
    ensures RefreshEtfs(table, list + [row], fetched, failAt) == RefreshEtfs(table, list, fetched, failAt)
  {
    assert (list + [row])[..|list|] == list;
  }

  lemma RefreshEtfsStep(table: EtfDailyTable, list: seq<EtfListRow>, fetched: string -> Option<seq<EtfDailyRow>>,
                        failAt: string -> Option<nat>, i: int)
    requires 0 <= i < |list|
    ensures var prev := RefreshEtfs(table, list[..i], fetched, failAt);
      RefreshEtfs(table, list[..i + 1], fetched, failAt) ==
        match fetched(list[i].symbol)
        case None => prev
        case Some(rows) => SaveEtfDaily(prev, list[i].symbol, rows, failAt(list[i].symbol)).0
  {
    assert list[..i + 1][..i] == list[..i];
  }

  /**
   * `update_etf_data`: fetch and save the list, then each ETF's bars in list
   * order. `list` is what `fetch_etf_list` returns (`None` when it raises).
   * The result is false exactly when fetching or saving the list fails, in
   * which case no bar is touched.
   */
  method UpdateEtfData(info: EtfInfoTable, daily: EtfDailyTable, list: Option<seq<EtfListRow>>, listFailAt: Option<nat>,
                       fetched: string -> Option<seq<EtfDailyRow>>, failAt: string -> Option<nat>)
    returns (newInfo: EtfInfoTable, newDaily: EtfDailyTable, ok: bool)
    ensures ok <==> list.Some? && !FailsWithin(listFailAt, |list.value|)
    ensures !ok ==> newInfo == info && newDaily == daily
    ensures ok ==> (newInfo == SaveEtfList(info, list.value, listFailAt).0
                    && newDaily == RefreshEtfs(daily, list.value, fetched, failAt))
  {
    if list.None? {
      return info, daily, false;
    }
    var etfs := list.value;
    var raised;
    newInfo, raised := SaveEtfListToDb(info, etfs, listFailAt);
    if raised {
      return info, daily, false;
    }
    newDaily := daily;
    for i := 0 to |etfs|
      invariant newDaily == RefreshEtfs(daily, etfs[..i], fetched, failAt)
    {
      RefreshEtfsStep(daily, etfs, fetched, failAt, i);
      var symbol := etfs[i].symbol;
      var etfData := fetched(symbol);
      if etfData.None? {
        continue;
      }
      var saved, outcome := SaveEtfDailyDataToDb(newDaily, symbol, etfData.value, failAt(symbol));
      newDaily := saved;
    }
    assert etfs[..|etfs|] == etfs;
    ok := true;
  }
}
