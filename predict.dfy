/**
 * The prediction-side column handling: bracket sanitising of feature names,
 * the selection of feature columns, and the alignment of the feature matrix
 * with the feature list the trained model expects.
 */
module Predict {
  import opened Text
  import opened Seqs
  import opened Frames
  import Train

  /** `sanitize_column` of the prediction script: `[` and `]` become `_`; `<` and `>` are kept. */
  function SanitizeColumn(col: string): (r: string)
    ensures |r| == |col|
    ensures forall i :: 0 <= i < |col| ==> r[i] == if col[i] == '[' || col[i] == ']' then '_' else col[i]
  {
    ReplaceChar(ReplaceChar(col, '[', "_"), ']', "_")
  }

  /** The sanitised name contains no bracket. */
  lemma SanitizeRemovesBrackets(col: string)
    ensures '[' !in SanitizeColumn(col) && ']' !in SanitizeColumn(col)
  {
    var r := SanitizeColumn(col);
    forall i | 0 <= i < |r| ensures r[i] != '[' && r[i] != ']' {
    }
  }

  /** Sanitising twice is sanitising once. */
  lemma SanitizeIdempotent(col: string)
    ensures SanitizeColumn(SanitizeColumn(col)) == SanitizeColumn(col)
  {
    var once := SanitizeColumn(col);
    assert forall i :: 0 <= i < |once| ==> SanitizeColumn(once)[i] == once[i];
  }

  /** A name without brackets is left as it is. */
  lemma SanitizePlain(col: string)
    requires '[' !in col && ']' !in col
    ensures SanitizeColumn(col) == col
  {
    forall i | 0 <= i < |col| ensures SanitizeColumn(col)[i] == col[i] {
      assert col[i] in col;
    }
  }

  /** A name with no underscore is the sanitised form of itself only. */
  lemma SanitizeOnlyFrom(col: string, name: string)
    requires SanitizeColumn(col) == name && '_' !in name
    ensures col == name
  {
    forall i | 0 <= i < |col| ensures col[i] == name[i] {
      assert name[i] in name;
    }
  }

  /** Sanitising keeps a name's first character unless it is a bracket. */
  lemma SanitizeFirstChar(col: string)
    requires |col| > 0 && col[0] != '[' && col[0] != ']'
    ensures |SanitizeColumn(col)| > 0 && SanitizeColumn(col)[0] == col[0]
  {
  }

  /** On names without `<` or `>` the two sanitisers agree. */
  lemma AgreesWithTraining(col: string)
    requires '<' !in col && '>' !in col
    ensures SanitizeColumn(col) == Train.SanitizeColumn(col)
  {
    var a, b := SanitizeColumn(col), Train.SanitizeColumn(col);
    forall i | 0 <= i < |col| ensures a[i] == b[i] {
      assert col[i] in col;
    }
  }

  /** The two sanitisers differ on `<` and `>`. */
  lemma DisagreesOnAngles()
    ensures SanitizeColumn("a<b") != Train.SanitizeColumn("a<b")
  {
    assert SanitizeColumn("a<b")[1] == '<';
    assert Train.SanitizeColumn("a<b")[1] == '_';
  }

  /** The identifier columns that are not features. */
  const NON_FEATURE_COLUMNS := ["ticker", "insider_name", "transaction_date", "price"]

  /** The feature columns: every column but the identifiers, in their order. */
  function FeatureColumns(columns: seq<string>): (features: seq<string>)
    ensures forall c :: c in features <==> c in columns && c !in NON_FEATURE_COLUMNS
    ensures forall i :: 0 <= i < |features| ==> features[i] !in NON_FEATURE_COLUMNS
  {
    Filter(columns, c => c !in NON_FEATURE_COLUMNS)
  }

  /** Dropping identifier columns keeps the relative order of the rest. */
  lemma FeatureColumnsConcat(a: seq<string>, b: seq<string>)
    ensures FeatureColumns(a + b) == FeatureColumns(a) + FeatureColumns(b)
  {
    FilterConcat(a, b, c => c !in NON_FEATURE_COLUMNS);
  }

  /**
   * The feature matrix handed to the models: columns renamed by `sanitize_column`,
   * identifiers dropped, then `reindex(columns=expected, fill_value=0)`.
   */
  function FeatureMatrix(f: Frame, expected: seq<string>): (x: Frame)
    ensures x.columns == expected
    ensures |x.rows| == |f.rows|
    ensures forall i, c :: 0 <= i < |x.rows| && c in expected ==>
      Cell(x.rows[i], c) ==
        var renamed := Rename(f, SanitizeColumn);
        if c in FeatureColumns(renamed.columns) then Cell(renamed.rows[i], c) else Int(0)
  {
    var renamed := Rename(f, SanitizeColumn);
    var features := FeatureColumns(renamed.columns);
    Reindex(Select(renamed, features), expected, Int(0))
  }

  /** When the file's column names carry no bracket, an expected feature present in the file keeps its values. */
  lemma FeatureMatrixKeepsValues(f: Frame, expected: seq<string>, i: int, c: string)
    requires forall d :: d in f.columns ==> '[' !in d && ']' !in d
    requires 0 <= i < |f.rows| && c in expected && c in f.columns && c !in NON_FEATURE_COLUMNS
    ensures Cell(FeatureMatrix(f, expected).rows[i], c) == Cell(f.rows[i], c)
  {
    forall d | d in f.columns ensures SanitizeColumn(d) == d {
      assert forall k :: 0 <= k < |d| ==> d[k] in d;
    }
    RenameIdentity(f, SanitizeColumn, i, c);
    var renamed := Rename(f, SanitizeColumn);
    assert SanitizeColumn(c) == c;
    assert c in renamed.columns by {
      var j :| 0 <= j < |f.columns| && f.columns[j] == c;
      assert renamed.columns[j] == c;
    }
  }

  /** An expected feature the file lacks is filled with 0. */
  lemma FeatureMatrixFillsMissing(f: Frame, expected: seq<string>, i: int, c: string)
    requires 0 <= i < |f.rows| && c in expected && c !in MapNames(f.columns, SanitizeColumn)
    ensures Cell(FeatureMatrix(f, expected).rows[i], c) == Int(0)
  {
  }
}
