/**
 * The merge rules of the trade files: a new batch of trades is appended to
 * the existing file, rows repeating a key are dropped (keeping the newest
 * for the per-ticker and daily files, the oldest for the Finviz master
 * file), and the file is sorted by date, latest first.  The latest filing
 * date of a ticker's file is the largest date it holds.
 */
module FileManager {
  import opened Wrappers
  import opened Seqs
  import opened Frames

  /** The columns that identify a trade in a per-ticker file. */
  const TRADE_KEY: seq<string> := ["insider_name", "title", "filing_date", "shares", "price", "code"]
  /** The daily feed also tells trades apart by their filing. */
  const DAILY_KEY: seq<string> := TRADE_KEY + ["filing_url"]
  /** The columns that identify a trade in the Finviz master file. */
  const FINVIZ_KEY: seq<string> := ["ticker", "insider_name", "relationship", "transaction_date", "transaction_type", "price", "shares", "sec_form4"]

  /** The concatenation with the rows of each key after the last one dropped, latest date first. */
  function MergeKeepLast(existing: Frame, incoming: Frame, keys: seq<string>, dateCol: string): Frame
  {
    SortDescending(DropDuplicates(Concat(existing, incoming), keys, true), dateCol)
  }

  /** The rows of each key after the first one dropped, latest date first. */
  function MergeKeepFirst(combined: Frame, keys: seq<string>, dateCol: string): Frame
  {
    SortDescending(DropDuplicates(combined, keys, false), dateCol)
  }

  /** The file written when a batch of trades is saved; `existing` is `None` when there is no file yet. */
  function SavedTrades(existing: Option<Frame>, trades: Frame, keys: seq<string>): Frame
  {
    match existing
    case Some(prior) => MergeKeepLast(prior, trades, keys, "filing_date")
    case None => SortDescending(trades, "filing_date")
  }

  /**
   * `save_trades_to_csv`: with a file, concatenate, drop repeated keys
   * keeping the last, sort by filing date descending; without one, only
   * sort the batch.  The dates are already parsed.
   */
  method SaveTradesToCsv(existing: Option<Frame>, trades: Frame) returns (written: Frame)
    ensures written == SavedTrades(existing, trades, TRADE_KEY)
  {
    if existing.Some? {
      var combined := Concat(existing.value, trades);
      combined := DropDuplicates(combined, TRADE_KEY, true);
      combined := SortDescending(combined, "filing_date");
      written := combined;
    } else {
      var sorted := SortDescending(trades, "filing_date");
      written := sorted;
    }
  }

  /**
   * The daily file as `save_daily_trades_to_csv` writes it.  The old file is
   * read without date parsing, so its filing dates are still text while the
   * repeated keys are dropped; they are parsed only afterwards, for the sort.
   */
  function SavedDaily(existing: Option<Frame>, trades: Frame, parse: string -> int): Frame
  {
    match existing
    case Some(prior) =>
      SortDescending(ToDatetime(DropDuplicates(Concat(prior, trades), DAILY_KEY, true), "filing_date", parse), "filing_date")
    case None => SortDescending(trades, "filing_date")
  }

  /**
   * `save_daily_trades_to_csv`: concatenate the old file as read (dates as
   * text) with the batch, drop repeated daily keys keeping the last, parse
   * the filing dates with `parse`, sort latest first.  Without a file, only
   * sort the batch.
   */
  method SaveDailyTradesToCsv(existing: Option<Frame>, trades: Frame, parse: string -> int) returns (written: Frame)
    ensures written == SavedDaily(existing, trades, parse)
  {
    if existing.Some? {
      var combined := Concat(existing.value, trades);
      combined := DropDuplicates(combined, DAILY_KEY, true);
      combined := ToDatetime(combined, "filing_date", parse);
      combined := SortDescending(combined, "filing_date");
      written := combined;
    } else {
      var sorted := SortDescending(trades, "filing_date");
      written := sorted;
    }
  }

  /**
   * A trade saved again on a later run of the same day is written twice: the
   * old copy's filing date is text and the new copy's a date, so the two
   * keys differ when the repeats are dropped, and agree once parsed.
   */
  lemma DailyRepeatSurvives(columns: seq<string>, trade: Row, text: string, parse: string -> int)
    requires "filing_date" in trade && trade["filing_date"] == Day(parse(text))
    ensures var saved := SavedDaily(Some(Frame(columns, [trade["filing_date" := Str(text)]])), Frame(columns, [trade]), parse).rows;
      saved == [trade, trade] && !KeysDistinct(saved, RowKey(DAILY_KEY))
  {
    var earlier := trade["filing_date" := Str(text)];
    var combined := Concat(Frame(columns, [earlier]), Frame(columns, [trade]));
    assert KeyOf(earlier, DAILY_KEY)[2] != KeyOf(trade, DAILY_KEY)[2];
    DedupeLastPair(earlier, trade, RowKey(DAILY_KEY));
    var deduped := DropDuplicates(combined, DAILY_KEY, true);
    assert deduped.rows == [earlier, trade];
    var parsed := ToDatetime(deduped, "filing_date", parse);
    ToDatetimeRow(deduped, "filing_date", parse, 0);
    ToDatetimeRow(deduped, "filing_date", parse, 1);
    assert parsed.rows[0] == earlier["filing_date" := Day(parse(text))] == trade;
    assert parsed.rows[1] == trade["filing_date" := trade["filing_date"]] == trade;
    assert |parsed.rows| == 2;
    assert parsed.rows == [trade, trade];
    SortTwins(trade, DayRank("filing_date"));
    assert RowKey(DAILY_KEY)(trade) == RowKey(DAILY_KEY)(trade);
  }

  /** An old file read with its filing dates parsed, as the per-ticker save reads its file. */
  function ParsedFile(existing: Option<Frame>, parse: string -> int): Option<Frame>
  {
    match existing
    case Some(prior) => Some(ToDatetime(prior, "filing_date", parse))
    case None => None
  }

  /**
   * The daily save with the old file read with `parse_dates`, so both copies
   * of a trade carry a date when repeats are dropped: one row per daily key,
   * latest first, whenever there was a file to merge with.
   */
  function SavedDailyParsed(existing: Option<Frame>, trades: Frame, parse: string -> int): (written: Frame)
    ensures existing.Some? ==> KeysDistinct(written.rows, RowKey(DAILY_KEY))
    ensures SortedByRank(written.rows, DayRank("filing_date"))
  {
    var file := ParsedFile(existing, parse);
    if file.Some? then KeepLastDistinctSorted(file.value, trades, DAILY_KEY, "filing_date"); SavedTrades(file, trades, DAILY_KEY)
    else SavedTrades(file, trades, DAILY_KEY)
  }

  /** With the dates parsed on reading, the repeat of `DailyRepeatSurvives` is written once. */
  lemma DailyRepeatDroppedWhenParsed(columns: seq<string>, trade: Row, text: string, parse: string -> int)
    requires "filing_date" in trade && trade["filing_date"] == Day(parse(text))
    ensures SavedDailyParsed(Some(Frame(columns, [trade["filing_date" := Str(text)]])), Frame(columns, [trade]), parse).rows == [trade]
  {
    var prior := Frame(columns, [trade["filing_date" := Str(text)]]);
    var file := ToDatetime(prior, "filing_date", parse);
    ToDatetimeRow(prior, "filing_date", parse, 0);
    assert trade["filing_date" := Str(text)]["filing_date" := Day(parse(text))] == trade;
    assert file.rows == [trade];
    DedupeLastPair(trade, trade, RowKey(DAILY_KEY));
    assert Concat(file, Frame(columns, [trade])).rows == [trade, trade];
  }

  /** The master file the Finviz save writes: existing rows first, the first row of each key kept. */
  function FinvizMaster(existing: Option<Frame>, newTrades: Frame): Frame
  {
    var combined := match existing case Some(prior) => Concat(prior, newTrades) case None => newTrades;
    MergeKeepFirst(combined, FINVIZ_KEY, "transaction_date")
  }

  /**
   * `save_finviz_trades_to_csv`: the scan is written as the day's file as it
   * is, and merged into the master file.
   */
  method SaveFinvizTradesToCsv(existing: Option<Frame>, newTrades: Frame) returns (daily: Frame, master: Frame)
    ensures daily == newTrades
    ensures master == FinvizMaster(existing, newTrades)
  {
    daily := newTrades;
    var combined := if existing.Some? then Concat(existing.value, newTrades) else newTrades;
    combined := DropDuplicates(combined, FINVIZ_KEY, false);
    combined := SortDescending(combined, "transaction_date");
    master := combined;
  }

  /** The parsed filing dates of a file's rows, in row order; missing or unparsed cells are skipped. */
  function FilingDates(rows: seq<Row>): (days: seq<int>)
    ensures forall d :: d in days <==> exists i :: 0 <= i < |rows| && Cell(rows[i], "filing_date") == Day(d)
  {
    if rows == [] then []
    else
      var rest := FilingDates(rows[1..]);
      assert forall i :: 1 <= i < |rows| ==> rows[i] == rows[1..][i - 1];
      match Cell(rows[0], "filing_date")
      case Day(d) => [d] + rest
      case _ => rest
  }

  function MaxDay(days: seq<int>): (m: int)
    requires |days| > 0
    ensures m in days && forall i :: 0 <= i < |days| ==> days[i] <= m
  {
    if |days| == 1 then days[0]
    else
      var rest := MaxDay(days[1..]);
      assert forall i :: 1 <= i < |days| ==> days[i] == days[1..][i - 1];
      if days[0] >= rest then days[0] else rest
  }

  /**
   * `get_latest_filing_date`: nothing without a file or a `filing_date`
   * column, or when every date is missing; otherwise the latest date in the
   * file.  An unreadable file is `None` as well.
   */
  function LatestFilingDate(file: Option<Frame>): (latest: Option<int>)
    ensures file.None? || "filing_date" !in file.value.columns ==> latest.None?
    ensures latest.None? && file.Some? && "filing_date" in file.value.columns ==>
              forall i :: 0 <= i < |file.value.rows| ==> !Cell(file.value.rows[i], "filing_date").Day?
    ensures latest.Some? ==>
              (exists i :: 0 <= i < |file.value.rows| && Cell(file.value.rows[i], "filing_date") == Day(latest.value)) &&
              forall i, d :: 0 <= i < |file.value.rows| && Cell(file.value.rows[i], "filing_date") == Day(d) ==> d <= latest.value
  {
    match file
    case None => None
    case Some(df) =>
      if "filing_date" !in df.columns then None
      else
        var days := FilingDates(df.rows);
        if days == [] then None
        else
          var m := MaxDay(days);
          assert forall i, d :: 0 <= i < |df.rows| && Cell(df.rows[i], "filing_date") == Day(d) ==> d <= m by {
            forall i, d | 0 <= i < |df.rows| && Cell(df.rows[i], "filing_date") == Day(d) ensures d <= m {
              assert d in days;
              var j :| 0 <= j < |days| && days[j] == d;
            }
          }
          Some(m)
  }

  /** Merging with keep-last leaves one row per key, in filing-date order, latest first. */
  lemma KeepLastDistinctSorted(existing: Frame, incoming: Frame, keys: seq<string>, dateCol: string)
    ensures KeysDistinct(MergeKeepLast(existing, incoming, keys, dateCol).rows, RowKey(keys))
    ensures SortedByRank(MergeKeepLast(existing, incoming, keys, dateCol).rows, DayRank(dateCol))
  {
    var deduped := DedupeLast(existing.rows + incoming.rows, RowKey(keys));
    PermutationKeysDistinct(deduped, SortByRank(deduped, DayRank(dateCol)), RowKey(keys));
  }

  /** The last row of each key is among the rows a keep-last merge writes. */
  lemma KeptLastIsWritten(all: seq<Row>, keys: seq<string>, dateCol: string, k: seq<Value>)
    requires HasKey(all, RowKey(keys), k)
    ensures LastWithKey(all, RowKey(keys), k) in SortByRank(DedupeLast(all, RowKey(keys)), DayRank(dateCol))
  {
    var deduped := DedupeLast(all, RowKey(keys));
    LastWithKeyDedupe(all, RowKey(keys), k);
    var x := LastWithKey(all, RowKey(keys), k);
    assert x in multiset(deduped);
  }

  /**
   * With keep-last, every key of the new batch is represented by the batch's
   * own last row of that key: a new trade replaces an existing one.
   */
  lemma KeepLastNewWins(existing: Frame, incoming: Frame, keys: seq<string>, dateCol: string, k: seq<Value>)
    requires HasKey(incoming.rows, RowKey(keys), k)
    ensures LastWithKey(incoming.rows, RowKey(keys), k) in MergeKeepLast(existing, incoming, keys, dateCol).rows
  {
    var all := existing.rows + incoming.rows;
    LastWithKeyConcat(existing.rows, incoming.rows, RowKey(keys), k);
    KeptLastIsWritten(all, keys, dateCol, k);
  }

  /** An existing key the batch does not repeat keeps its last existing row. */
  lemma KeepLastExistingSurvives(existing: Frame, incoming: Frame, keys: seq<string>, dateCol: string, k: seq<Value>)
    requires HasKey(existing.rows, RowKey(keys), k) && !HasKey(incoming.rows, RowKey(keys), k)
    ensures LastWithKey(existing.rows, RowKey(keys), k) in MergeKeepLast(existing, incoming, keys, dateCol).rows
  {
    var all := existing.rows + incoming.rows;
    LastWithKeySkip(existing.rows, incoming.rows, RowKey(keys), k);
    KeptLastIsWritten(all, keys, dateCol, k);
  }

  /** The merge invents no rows and loses no key. */
  lemma KeepLastRows(existing: Frame, incoming: Frame, keys: seq<string>, dateCol: string)
    ensures var out := MergeKeepLast(existing, incoming, keys, dateCol).rows;
      (forall r :: r in out ==> r in existing.rows || r in incoming.rows) &&
      forall k :: HasKey(out, RowKey(keys), k) <==> HasKey(existing.rows, RowKey(keys), k) || HasKey(incoming.rows, RowKey(keys), k)
  {
    var all := existing.rows + incoming.rows;
    var deduped := DedupeLast(all, RowKey(keys));
    var out := SortByRank(deduped, DayRank(dateCol));
    PermutationHasKey(deduped, out, RowKey(keys));
    forall r | r in out ensures r in all {
      assert r in multiset(deduped);
      var i :| 0 <= i < |deduped| && deduped[i] == r;
    }
    forall k ensures HasKey(all, RowKey(keys), k) <==> HasKey(existing.rows, RowKey(keys), k) || HasKey(incoming.rows, RowKey(keys), k) {
      HasKeyConcat(existing.rows, incoming.rows, RowKey(keys), k);
    }
  }

  /** Merging with keep-first leaves one row per key, in date order, latest first. */
  lemma KeepFirstDistinctSorted(combined: Frame, keys: seq<string>, dateCol: string)
    ensures KeysDistinct(MergeKeepFirst(combined, keys, dateCol).rows, RowKey(keys))
    ensures SortedByRank(MergeKeepFirst(combined, keys, dateCol).rows, DayRank(dateCol))
  {
    var deduped := DedupeFirst(combined.rows, RowKey(keys));
    PermutationKeysDistinct(deduped, SortByRank(deduped, DayRank(dateCol)), RowKey(keys));
  }

  /** With keep-first, every key is represented by its first row, and every row kept is an input row. */
  lemma KeepFirstRows(combined: Frame, keys: seq<string>, dateCol: string)
    ensures var out := MergeKeepFirst(combined, keys, dateCol).rows;
      (forall r :: r in out ==> r in combined.rows) &&
      forall k :: HasKey(combined.rows, RowKey(keys), k) ==> FirstWithKey(combined.rows, RowKey(keys), k) in out
  {
    var deduped := DedupeFirst(combined.rows, RowKey(keys));
    var out := SortByRank(deduped, DayRank(dateCol));
    forall r | r in out ensures r in combined.rows {
      assert r in multiset(deduped);
      var i :| 0 <= i < |deduped| && deduped[i] == r;
    }
    forall k | HasKey(combined.rows, RowKey(keys), k) ensures FirstWithKey(combined.rows, RowKey(keys), k) in out {
      FirstWithKeyDedupe(combined.rows, RowKey(keys), k);
      assert FirstWithKey(combined.rows, RowKey(keys), k) in multiset(deduped);
    }
  }

  /**
   * In the Finviz master file an existing row wins over a new row with the
   * same key: the first existing row of every existing key is kept.
   */
  lemma FinvizExistingWins(prior: Frame, newTrades: Frame, k: seq<Value>)
    requires HasKey(prior.rows, RowKey(FINVIZ_KEY), k)
    ensures FirstWithKey(prior.rows, RowKey(FINVIZ_KEY), k) in FinvizMaster(Some(prior), newTrades).rows
  {
    var combined := Concat(prior, newTrades);
    FirstWithKeyConcat(prior.rows, newTrades.rows, RowKey(FINVIZ_KEY), k);
    KeepFirstRows(combined, FINVIZ_KEY, "transaction_date");
  }

  /** Without a file the batch is only sorted: every trade is written, repeated keys included. */
  lemma FirstSaveKeepsEveryRow(trades: Frame, keys: seq<string>)
    ensures multiset(SavedTrades(None, trades, keys).rows) == multiset(trades.rows)
    ensures SortedByRank(SavedTrades(None, trades, keys).rows, DayRank("filing_date"))
  {
  }
}
