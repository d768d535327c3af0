/**
 * The Finviz save of the current pipeline: the scan is written as a
 * snapshot of its own, then merged into the master file exactly as the
 * older file manager does (existing rows first, the first row of each trade
 * kept, latest transaction first), and the result is normalised to the
 * shared schema before it is written.
 */
module StorageManager {
  import opened Wrappers
  import opened Seqs
  import opened Frames
  import opened FileManager
  import opened DataPreparation

  /** The master file as written: the merged trades over exactly the required columns. */
  function NormalizedMaster(existing: Option<Frame>, newTrades: Frame): Frame
  {
    Reindex(FinvizMaster(existing, newTrades), REQUIRED_COLS, NA)
  }

  /**
   * `save_finviz_trades_to_csv`: the snapshot is the scan as it is; the
   * master file is the merge, normalised.  `existing` is `None` when there
   * is no master file yet.
   */
  method SaveFinvizTradesToCsv(existing: Option<Frame>, newTrades: Frame) returns (snapshot: Frame, master: Frame)
    ensures snapshot == newTrades
    ensures master == NormalizedMaster(existing, newTrades)
    ensures master.columns == REQUIRED_COLS
  {
    var merged;
    snapshot, merged := FileManager.SaveFinvizTradesToCsv(existing, newTrades);
    master := NormalizeSchema(merged, REQUIRED_COLS);
  }

  /** Every identifying column of a Finviz trade is one of the required columns. */
  lemma KeyColumnsRequired()
    ensures forall j :: 0 <= j < |FINVIZ_KEY| ==> FINVIZ_KEY[j] in REQUIRED_COLS
    ensures "transaction_date" in REQUIRED_COLS
  {
  }

  /** The columns of the merged master file include those of the scan. */
  lemma MasterColumns(existing: Option<Frame>, newTrades: Frame)
    ensures forall c :: c in newTrades.columns ==> c in FinvizMaster(existing, newTrades).columns
  {
  }

  /**
   * When the scan carries the key columns (`drop_duplicates` and
   * `sort_values` fail otherwise), normalising keeps every row's key and
   * date, so the written master file holds one row per trade, latest
   * transaction first.
   */
  lemma NormalizedMasterDistinctSorted(existing: Option<Frame>, newTrades: Frame)
    requires forall j :: 0 <= j < |FINVIZ_KEY| ==> FINVIZ_KEY[j] in newTrades.columns
    requires "transaction_date" in newTrades.columns
    ensures KeysDistinct(NormalizedMaster(existing, newTrades).rows, RowKey(FINVIZ_KEY))
    ensures SortedByRank(NormalizedMaster(existing, newTrades).rows, DayRank("transaction_date"))
  {
    KeyColumnsRequired();
    ReindexedMasterDistinctSorted(existing, newTrades, REQUIRED_COLS);
  }

  /** The merged master file, reindexed over any columns that include the key and date columns, keeps one row per trade, latest first. */
  lemma ReindexedMasterDistinctSorted(existing: Option<Frame>, newTrades: Frame, cols: seq<string>)
    requires forall j :: 0 <= j < |FINVIZ_KEY| ==> FINVIZ_KEY[j] in cols && FINVIZ_KEY[j] in newTrades.columns
    requires "transaction_date" in cols && "transaction_date" in newTrades.columns
    ensures KeysDistinct(Reindex(FinvizMaster(existing, newTrades), cols, NA).rows, RowKey(FINVIZ_KEY))
    ensures SortedByRank(Reindex(FinvizMaster(existing, newTrades), cols, NA).rows, DayRank("transaction_date"))
  {
    var combined := match existing case Some(prior) => Concat(prior, newTrades) case None => newTrades;
    KeepFirstDistinctSorted(combined, FINVIZ_KEY, "transaction_date");
    MasterColumns(existing, newTrades);
    ReindexKeepsKeysAndOrder(FinvizMaster(existing, newTrades), cols, NA, FINVIZ_KEY, "transaction_date");
  }

  /**
   * An existing trade wins over a rescraped one: the written master file
   * has a row that agrees with the first existing row of that trade on every
   * column of the file that the merged table has.
   */
  lemma NormalizedMasterKeepsExisting(prior: Frame, newTrades: Frame, k: seq<Value>)
    requires HasKey(prior.rows, RowKey(FINVIZ_KEY), k)
    ensures var n := NormalizedMaster(Some(prior), newTrades);
      exists i :: 0 <= i < |n.rows| &&
        AgreeOn(n.rows[i], FirstWithKey(prior.rows, RowKey(FINVIZ_KEY), k), REQUIRED_COLS, Concat(prior, newTrades).columns)
  {
    var merged := FinvizMaster(Some(prior), newTrades);
    FinvizExistingWins(prior, newTrades, k);
    var first := FirstWithKey(prior.rows, RowKey(FINVIZ_KEY), k);
    var i := ReindexKeepsRow(merged, REQUIRED_COLS, NA, first);
    var n := NormalizedMaster(Some(prior), newTrades);
    assert n == Reindex(merged, REQUIRED_COLS, NA);
    assert merged.columns == Concat(prior, newTrades).columns;
    assert 0 <= i < |n.rows| && AgreeOn(n.rows[i], first, REQUIRED_COLS, Concat(prior, newTrades).columns);
  }

  /** Deduplication only drops rows: the master file holds at most the old rows and the scan together. */
  lemma NormalizedMasterRowCount(existing: Option<Frame>, newTrades: Frame)
    ensures |NormalizedMaster(existing, newTrades).rows| <= |newTrades.rows| + (if existing.Some? then |existing.value.rows| else 0)
  {
  }
}
