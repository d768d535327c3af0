/**
 * A pandas DataFrame as the rule layer sees it: an ordered list of column
 * names and a sequence of rows.  A row maps column names to cell values; a
 * column a row has no entry for reads as NA, which is how `pd.concat` fills
 * the columns one side lacks.
 */
module Frames {
  import opened Wrappers
  import opened Seqs

  /** A cell: missing (NaN/NA/None), an integer, a real, a string, a parsed date (day number) or a list of tags. */
  datatype Value = NA | Int(i: int) | Num(x: real) | Str(s: string) | Day(d: int) | List(items: seq<string>)

  type Row = map<string, Value>

  datatype Frame = Frame(columns: seq<string>, rows: seq<Row>)

  /** `row[c]`, NA when the row has no entry for `c`. */
  function Cell(r: Row, c: string): Value
  {
    if c in r then r[c] else NA
  }

  /** The column `c` as a series. */
  function Column(f: Frame, c: string): (s: seq<Value>)
    ensures |s| == |f.rows|
    ensures forall i :: 0 <= i < |s| ==> s[i] == Cell(f.rows[i], c)
  {
    seq(|f.rows|, i requires 0 <= i < |f.rows| => Cell(f.rows[i], c))
  }

  /** `df[c] = values`: overwrite column `c` in place, or append it as the last column. */
  function SetColumn(f: Frame, c: string, values: seq<Value>): (g: Frame)
    requires |values| == |f.rows|
    ensures g.columns == if c in f.columns then f.columns else f.columns + [c]
    ensures |g.rows| == |f.rows|
    ensures forall i, d :: 0 <= i < |g.rows| ==> Cell(g.rows[i], d) == if d == c then values[i] else Cell(f.rows[i], d)
  {
    Frame(if c in f.columns then f.columns else f.columns + [c],
          seq(|f.rows|, i requires 0 <= i < |f.rows| => f.rows[i][c := values[i]]))
  }

  /** Row `i` after `df[c] = values` is row `i` with its `c` entry replaced. */
  lemma SetColumnRow(f: Frame, c: string, values: seq<Value>, i: int)
    requires |values| == |f.rows| && 0 <= i < |f.rows|
    ensures SetColumn(f, c, values).rows[i] == f.rows[i][c := values[i]]
  {
  }

  /** `df[cols]`: the listed columns, in the listed order. */
  function Select(f: Frame, cols: seq<string>): (g: Frame)
    requires forall c :: c in cols ==> c in f.columns
    ensures g.columns == cols
    ensures |g.rows| == |f.rows|
    ensures forall i, c :: 0 <= i < |g.rows| ==> Cell(g.rows[i], c) == if c in cols then Cell(f.rows[i], c) else NA
    ensures forall i :: 0 <= i < |g.rows| ==> g.rows[i].Keys == set c | c in cols
  {
    Frame(cols, seq(|f.rows|, i requires 0 <= i < |f.rows| => map c | c in cols :: Cell(f.rows[i], c)))
  }

  /** `df[mask]`: the rows satisfying `p`, in order, with the same columns. */
  function Where(f: Frame, p: Row -> bool): (g: Frame)
    ensures g.columns == f.columns
    ensures g.rows == Filter(f.rows, p)
  {
    Frame(f.columns, Filter(f.rows, p))
  }

  /** The columns of `b` not already in `a`, in `b`'s order. */
  function NewColumns(a: seq<string>, b: seq<string>): (r: seq<string>)
    ensures forall c :: c in r <==> c in b && c !in a
  {
    Filter(b, c => c !in a)
  }

  /** `pd.concat([a, b], ignore_index=True)`: the rows of `a` then those of `b`, over the union of the columns. */
  function Concat(a: Frame, b: Frame): (g: Frame)
    ensures g.rows == a.rows + b.rows
    ensures forall c :: c in g.columns <==> c in a.columns || c in b.columns
    ensures g.columns == a.columns + NewColumns(a.columns, b.columns)
  {
    Frame(a.columns + NewColumns(a.columns, b.columns), a.rows + b.rows)
  }

  /** The values of the key columns of a row, as `drop_duplicates(subset=keys)` compares them (NA equals NA). */
  function KeyOf(r: Row, keys: seq<string>): (k: seq<Value>)
    ensures |k| == |keys|
    ensures forall j :: 0 <= j < |keys| ==> k[j] == Cell(r, keys[j])
  {
    seq(|keys|, j requires 0 <= j < |keys| => Cell(r, keys[j]))
  }

  function RowKey(keys: seq<string>): Row -> seq<Value>
  {
    r => KeyOf(r, keys)
  }

  /** `drop_duplicates(subset=keys, keep="first"/"last")`. */
  function DropDuplicates(f: Frame, keys: seq<string>, keepLast: bool): (g: Frame)
    ensures g.columns == f.columns
    ensures g.rows == if keepLast then DedupeLast(f.rows, RowKey(keys)) else DedupeFirst(f.rows, RowKey(keys))
  {
    Frame(f.columns, if keepLast then DedupeLast(f.rows, RowKey(keys)) else DedupeFirst(f.rows, RowKey(keys)))
  }

  /** The sort key of `sort_values(c, ascending=False)` over a date column: NaT sorts last. */
  function DayRank(c: string): Row -> Option<int>
  {
    r => match Cell(r, c) case Day(d) => Some(d) case _ => None
  }

  /** `sort_values(c, ascending=False)` on a date column. */
  function SortDescending(f: Frame, c: string): (g: Frame)
    ensures g.columns == f.columns
    ensures g.rows == SortByRank(f.rows, DayRank(c))
  {
    Frame(f.columns, SortByRank(f.rows, DayRank(c)))
  }

  /** `pd.to_datetime` on one cell: a date written as text becomes that date, everything else stays. */
  function ParsedDate(v: Value, parse: string -> int): Value
  {
    match v
    case Str(s) => Day(parse(s))
    case _ => v
  }

  /**
   * `df[c] = pd.to_datetime(df[c])`: the text cells of column `c` are read as
   * dates by `parse` (the library's date parser); no other cell changes.
   */
  function ToDatetime(f: Frame, c: string, parse: string -> int): (g: Frame)
    ensures g.columns == if c in f.columns then f.columns else f.columns + [c]
    ensures |g.rows| == |f.rows|
    ensures forall i, d :: 0 <= i < |g.rows| && d != c ==> Cell(g.rows[i], d) == Cell(f.rows[i], d)
    ensures forall i :: 0 <= i < |g.rows| ==> !Cell(g.rows[i], c).Str?
    ensures forall i, s :: 0 <= i < |g.rows| && Cell(f.rows[i], c) == Str(s) ==> Cell(g.rows[i], c) == Day(parse(s))
    ensures forall i :: 0 <= i < |g.rows| && !Cell(f.rows[i], c).Str? ==> Cell(g.rows[i], c) == Cell(f.rows[i], c)
  {
    SetColumn(f, c, seq(|f.rows|, i requires 0 <= i < |f.rows| => ParsedDate(Cell(f.rows[i], c), parse)))
  }

  /** Row `i` after the parse is row `i` with its `c` entry parsed. */
  lemma ToDatetimeRow(f: Frame, c: string, parse: string -> int, i: int)
    requires 0 <= i < |f.rows|
    ensures ToDatetime(f, c, parse).rows[i] == f.rows[i][c := ParsedDate(Cell(f.rows[i], c), parse)]
  {
    SetColumnRow(f, c, seq(|f.rows|, i requires 0 <= i < |f.rows| => ParsedDate(Cell(f.rows[i], c), parse)), i);
  }

  /** Apply `g` to every column name. */
  function MapNames(cols: seq<string>, g: string -> string): (r: seq<string>)
    ensures |r| == |cols|
    ensures forall j :: 0 <= j < |cols| ==> r[j] == g(cols[j])
  {
    seq(|cols|, j requires 0 <= j < |cols| => g(cols[j]))
  }

  lemma MapNamesHasKey(cols: seq<string>, g: string -> string, n: string)
    requires n in MapNames(cols, g)
    ensures HasKey(cols, g, n)
  {
    var j :| 0 <= j < |cols| && MapNames(cols, g)[j] == n;
    assert g(cols[j]) == n;
  }

  /**
   * `df.rename(columns=g)`: every column `c` becomes `g(c)`, keeping its
   * values.  Where two columns are renamed to the same name, the renamed
   * column holds the values of the first of them.
   */
  function Rename(f: Frame, g: string -> string): (h: Frame)
    ensures h.columns == MapNames(f.columns, g)
    ensures |h.rows| == |f.rows|
    ensures forall i, c :: 0 <= i < |f.rows| && c in f.columns && FirstWithKey(f.columns, g, g(c)) == c ==>
      Cell(h.rows[i], g(c)) == Cell(f.rows[i], c)
    ensures forall i, n :: 0 <= i < |f.rows| && n !in h.columns ==> Cell(h.rows[i], n) == NA
  {
    var names := MapNames(f.columns, g);
    var h := Frame(names, seq(|f.rows|, i requires 0 <= i < |f.rows| =>
      map n | n in names :: (MapNamesHasKey(f.columns, g, n); Cell(f.rows[i], FirstWithKey(f.columns, g, n)))));
    assert forall c :: c in f.columns ==> g(c) in names by {
      forall c | c in f.columns ensures g(c) in names {
        var j :| 0 <= j < |f.columns| && f.columns[j] == c;
        assert names[j] == g(c);
      }
    }
    h
  }

  /** A renaming that leaves every column name as it is leaves every cell as it is. */
  lemma RenameIdentity(f: Frame, g: string -> string, i: int, c: string)
    requires forall d :: d in f.columns ==> g(d) == d
    requires 0 <= i < |f.rows| && c in f.columns
    ensures Cell(Rename(f, g).rows[i], c) == Cell(f.rows[i], c)
  {
    assert HasKey(f.columns, g, g(c)) by {
      var j :| 0 <= j < |f.columns| && f.columns[j] == c;
      assert g(f.columns[j]) == g(c);
    }
    var first := FirstWithKey(f.columns, g, g(c));
    assert g(first) == g(c) && first in f.columns;
  }

  /** `df.reindex(columns=cols, fill_value=fill)`: exactly the listed columns, absent ones filled. */
  function Reindex(f: Frame, cols: seq<string>, fill: Value): (g: Frame)
    ensures g.columns == cols
    ensures |g.rows| == |f.rows|
    ensures forall i, c :: 0 <= i < |g.rows| && c in cols ==> Cell(g.rows[i], c) == if c in f.columns then Cell(f.rows[i], c) else fill
  {
    Frame(cols, seq(|f.rows|, i requires 0 <= i < |f.rows| => map c | c in cols :: if c in f.columns then Cell(f.rows[i], c) else fill))
  }
  /** Reindexing over columns the frame has keeps every row's value on them. */
  lemma ReindexAgrees(f: Frame, cols: seq<string>, fill: Value, i: int)
    requires 0 <= i < |f.rows|
    ensures forall c :: c in cols && c in f.columns ==> Cell(Reindex(f, cols, fill).rows[i], c) == Cell(f.rows[i], c)
  {
  }

  /** Rows `r` and `x` hold the same value in every column listed in both `a` and `b`. */
  predicate AgreeOn(r: Row, x: Row, a: seq<string>, b: seq<string>)
  {
    forall c :: c in a && c in b ==> Cell(r, c) == Cell(x, c)
  }

  /** Every row of the frame has a reindexed counterpart, at the same position, that agrees with it on the kept columns. */
  lemma ReindexKeepsRow(f: Frame, cols: seq<string>, fill: Value, x: Row) returns (i: int)
    requires x in f.rows
    ensures 0 <= i < |f.rows| && f.rows[i] == x
    ensures AgreeOn(Reindex(f, cols, fill).rows[i], x, cols, f.columns)
  {
    i :| 0 <= i < |f.rows| && f.rows[i] == x;
    ReindexAgrees(f, cols, fill, i);
  }

  /**
   * Reindexing to columns that keep the key and date columns leaves each row's
   * key and date as they were, so distinct keys and date order survive it.
   */
  lemma ReindexKeepsKeysAndOrder(f: Frame, cols: seq<string>, fill: Value, keys: seq<string>, dateCol: string)
    requires forall j :: 0 <= j < |keys| ==> keys[j] in cols && keys[j] in f.columns
    requires dateCol in cols && dateCol in f.columns
    requires KeysDistinct(f.rows, RowKey(keys)) && SortedByRank(f.rows, DayRank(dateCol))
    ensures KeysDistinct(Reindex(f, cols, fill).rows, RowKey(keys))
    ensures SortedByRank(Reindex(f, cols, fill).rows, DayRank(dateCol))
  {
    var g := Reindex(f, cols, fill);
    forall i | 0 <= i < |g.rows| ensures KeyOf(g.rows[i], keys) == KeyOf(f.rows[i], keys) && Cell(g.rows[i], dateCol) == Cell(f.rows[i], dateCol) {
      ReindexAgrees(f, cols, fill, i);
    }
    forall i, j | 0 <= i < j < |g.rows| ensures RowKey(keys)(g.rows[i]) != RowKey(keys)(g.rows[j]) {
      assert RowKey(keys)(f.rows[i]) != RowKey(keys)(f.rows[j]);
    }
    forall i, j | 0 <= i < j < |g.rows| ensures RankGeq(DayRank(dateCol)(g.rows[i]), DayRank(dateCol)(g.rows[j])) {
      assert RankGeq(DayRank(dateCol)(f.rows[i]), DayRank(dateCol)(f.rows[j]));
    }
  }
}
