/**
 * The hot-rank download task of StockDownloader/src/tasks/download_hot_rank_task.py:
 * the provider's answer for one stock is dispatched on its type, its rows
 * are upserted into `stock_hot_rank` by (stock_code, date) in one
 * transaction, and the task over all stocks skips empty codes and goes on
 * after a stock that fails.
 */
module DownloadHotRankTask {
  import opened Common
  import opened Models
  import opened KeyedTable
  import opened HotRankUpdate

  /**
   * What `stock_hot_rank_detail_em` hands back for one stock: `None`, a
   * list of records, a DataFrame, a value of another type, or an exception.
   */
  datatype ProviderResult =
    | NoneResult
    | ListResult(records: seq<HotRankRow>)
    | FrameResult(rows: seq<HotRankRow>)
    | OtherResult
    | FetchRaised

  /**
   * The rows the task goes on to save, or `None` when it returns early: no
   * result, an empty list, an empty frame or an unknown type. A raising
   * fetch is not here: it propagates.
   */
  function RowsToSave(result: ProviderResult): (r: Option<seq<HotRankRow>>)
    requires !result.FetchRaised?
    ensures r.Some? ==> r.value != []
  {
    match result
    case NoneResult => None
    case ListResult(records) => if records == [] then None else Some(records)
    case FrameResult(rows) => if rows == [] then None else Some(rows)
    case OtherResult => None
  }

  /**
   * The table after `download_hot_rank_data(code)`, and how it ended. Its
   * row loop and single commit are those of `save_hot_rank_to_db`.
   */
  function Download(table: HotRankTable, code: string, result: ProviderResult, failAt: Option<nat>): (HotRankTable, SaveOutcome)
  {
    if result.FetchRaised? then (table, SaveRaised)
    else match RowsToSave(result)
      case None => (table, Skipped)
      case Some(rows) => SaveHotRank(table, code, Frame(rows), failAt)
  }

  /**
   * The dispatch: nothing is written exactly when the result is `None`, an
   * empty list, an empty frame or of another type; a raising fetch, a date
   * `strptime` rejects or a failing statement writes nothing either; and a
   * list is saved exactly as a frame of the same rows.
   */
  lemma DownloadDispatch(table: HotRankTable, code: string, result: ProviderResult, failAt: Option<nat>)
    ensures var (newTable, outcome) := Download(table, code, result, failAt);
      && (outcome.Skipped? <==>
            result.NoneResult? || result.OtherResult? || result == ListResult([]) || result == FrameResult([]))
      && (outcome.SaveRaised? <==>
            result.FetchRaised? || (RowsToSave(result).Some? && SaveFails(RowsToSave(result).value, failAt)))
      && (!outcome.Saved? ==> newTable == table)
      && (result.ListResult? ==> (newTable, outcome) == Download(table, code, FrameResult(result.records), failAt))
  {
  }

  /**
   * A download that saves upserts every row under (code, its date), the
   * last row of a date winning, touches no other code, and counts one
   * update or insert per row, the table growing by the inserts.
   */
  lemma DownloadSaves(table: HotRankTable, code: string, result: ProviderResult, failAt: Option<nat>)
    requires Download(table, code, result, failAt).1.Saved?
    ensures var (newTable, outcome) := Download(table, code, result, failAt);
      var rows := RowsToSave(result).value;
      && outcome.updates + outcome.inserts == |rows|
      && |newTable| == |table| + outcome.inserts
      && (forall key :: key in newTable <==> key in table || exists k :: 0 <= k < |rows| && key == (code, rows[k].date.value))
      && (forall key :: key in table && key.0 != code ==> newTable[key] == table[key])
      && (forall k :: 0 <= k < |rows| && (forall j :: k < j < |rows| ==> rows[j].date != rows[k].date) ==>
            newTable[(code, rows[k].date.value)] == HotRank(rows[k].rank, rows[k].newFansRatio, rows[k].loyalFansRatio))
  {
    var rows := RowsToSave(result).value;
    SaveHotRankCounts(table, code, Frame(rows), failAt);
    UpsertedRows(table, code, rows);
  }

  /**
   * `download_hot_rank_data`: dispatch on the result's type, then update
   * rank and both ratios of an existing (code, date) or insert a record,
   * committing once after the loop.
   */
  method DownloadHotRankData(table: HotRankTable, code: string, result: ProviderResult, failAt: Option<nat>)
    returns (newTable: HotRankTable, outcome: SaveOutcome)
    ensures (newTable, outcome) == Download(table, code, result, failAt)
  {
    if result.FetchRaised? {
      return table, SaveRaised;
    }
    var rows: seq<HotRankRow>;
    match result {
      case NoneResult =>
        return table, Skipped;
      case ListResult(records) =>
        if |records| == 0 {
          return table, Skipped;
        }
        rows := records;
      case FrameResult(frame) =>
        if |frame| == 0 {
          return table, Skipped;
        }
        rows := frame;
      case OtherResult =>
        return table, Skipped;
    }
    var written, updateCount, insertCount, raised := UpsertRows(table, code, rows, failAt);
    if raised {
      return table, SaveRaised;
    }
    newTable, outcome := written, Saved(updateCount, insertCount);
  }

  // ---------------------------------------------------------------------------
  // download_all_hot_rank_data
  // ---------------------------------------------------------------------------

  /**
   * The table after visiting the codes in order: an empty code is skipped,
   * any other is downloaded with `results(code)`, and a download that raises
   * leaves the table as it was while the loop goes on.
   */
  function DownloadCodes(table: HotRankTable, codes: seq<string>, results: string -> ProviderResult,
                         failAt: string -> Option<nat>): HotRankTable
  {
    if codes == [] then table
    else
      var prev := DownloadCodes(table, codes[..|codes| - 1], results, failAt);
      var code := codes[|codes| - 1];
      if code == "" then prev else Download(prev, code, results(code), failAt(code)).0
  }

  /** What `get_stock_list` gives the task: an exception, `None`, or the codes. */
  datatype StockList = ListRaised | NoList | Codes(codes: seq<string>)

  /**
   * The table after the whole task, and whether it raised: a stock list
   * that raises propagates out of the task, a missing or empty one ends it
   * quietly, and neither writes anything; otherwise the codes are visited
   * and nothing raises, since every stock's error is caught.
   */
  function DownloadAll(table: HotRankTable, stockList: StockList, results: string -> ProviderResult,
                       failAt: string -> Option<nat>): (r: (HotRankTable, bool))
    ensures r.1 <==> stockList.ListRaised?
    ensures !stockList.Codes? || stockList.codes == [] ==> r.0 == table
  {
    match stockList
    case ListRaised => (table, true)
    case NoList => (table, false)
    case Codes(codes) => (DownloadCodes(table, codes, results, failAt), false)
  }

  /**
   * The task only writes under the codes it visits: no row is dropped, and
   * a row whose code is empty or not in the list is as it was.
   */
  lemma {:induction false} DownloadCodesFrame(table: HotRankTable, codes: seq<string>, results: string -> ProviderResult,
                                              failAt: string -> Option<nat>)
    ensures var r := DownloadCodes(table, codes, results, failAt);
      && (forall key :: key in table ==> key in r)
      && (forall key :: key in r && (key.0 == "" || forall k :: 0 <= k < |codes| ==> codes[k] != key.0) ==>
            key in table && r[key] == table[key])
  {
    if codes != [] {
      var prefix := codes[..|codes| - 1];
      DownloadCodesFrame(table, prefix, results, failAt);
      var prev := DownloadCodes(table, prefix, results, failAt);
      var code := codes[|codes| - 1];
      if code != "" && Download(prev, code, results(code), failAt(code)).1.Saved? {
        DownloadSaves(prev, code, results(code), failAt(code));
      }
      forall key | key in DownloadCodes(table, codes, results, failAt) && (forall k :: 0 <= k < |codes| ==> codes[k] != key.0)
        ensures forall k :: 0 <= k < |prefix| ==> prefix[k] != key.0
      {
        assert forall k :: 0 <= k < |prefix| ==> prefix[k] == codes[k];
      }
    }
  }

  /**
   * A stock that is skipped or fails does not disturb the others: after an
   * empty code, or a code whose download raises, the table is what the
   * earlier stocks made it.
   */
  lemma DownloadCodesIsolation(table: HotRankTable, codes: seq<string>, results: string -> ProviderResult,
                               failAt: string -> Option<nat>, code: string)
    requires code == "" || Download(DownloadCodes(table, codes, results, failAt), code, results(code), failAt(code)).1.SaveRaised?
    ensures DownloadCodes(table, codes + [code], results, failAt) == DownloadCodes(table, codes, results, failAt)
  {
    assert (codes + [code])[..|codes|] == codes;
  }

  lemma DownloadStep(table: HotRankTable, codes: seq<string>, results: string -> ProviderResult,
                     failAt: string -> Option<nat>, i: int)
    requires 0 <= i < |codes|
    ensures var prev := DownloadCodes(table, codes[..i], results, failAt);
      DownloadCodes(table, codes[..i + 1], results, failAt) ==
        if codes[i] == "" then prev else Download(prev, codes[i], results(codes[i]), failAt(codes[i])).0
  {
    assert codes[..i + 1][..i] == codes[..i];
  }

  /**
   * `download_all_hot_rank_data`: re-raise when fetching the stock list
   * raises, return at once for a missing or empty stock list, otherwise
   * download each non-empty code in order, going on after one that raises.
   */
  method DownloadAllHotRankData(table: HotRankTable, stockList: StockList, results: string -> ProviderResult,
                                failAt: string -> Option<nat>)
    returns (newTable: HotRankTable, raised: bool)
    ensures (newTable, raised) == DownloadAll(table, stockList, results, failAt)
  {
    if stockList.ListRaised? {
      return table, true;
    }
    if stockList.NoList? || |stockList.codes| == 0 {
      return table, false;
    }
    var codes := stockList.codes;
    raised := false;
    newTable := table;
    for i := 0 to |codes|
      invariant newTable == DownloadCodes(table, codes[..i], results, failAt)
    {
      DownloadStep(table, codes, results, failAt, i);
      var code := codes[i];
      if code == "" {
        continue;
      }
      var saved, outcome := DownloadHotRankData(newTable, code, results(code), failAt(code));
      newTable := saved;
    }
    assert codes[..|codes|] == codes;
  }
}
