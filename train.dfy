/**
 * Column-name sanitising used before model training: the characters a
 * gradient-boosting library refuses in feature names are replaced by "_".
 */
module Train {

  /** The characters the training-side sanitiser replaces. */
  predicate Forbidden(c: char)
  {
    c == '[' || c == ']' || c == '<' || c == '>'
  }

  /** `sanitize_column` of the training script: every `[`, `]`, `<` and `>` becomes `_`. */
  function SanitizeColumn(col: string): (r: string)
    ensures |r| == |col|
    ensures forall i :: 0 <= i < |col| && !Forbidden(col[i]) ==> r[i] == col[i]
    ensures forall i :: 0 <= i < |col| && Forbidden(col[i]) ==> r[i] == '_'
    ensures forall i :: 0 <= i < |r| ==> !Forbidden(r[i])
  {
    seq(|col|, i requires 0 <= i < |col| => if Forbidden(col[i]) then '_' else col[i])
  }

  /** Sanitising twice is sanitising once. */
  lemma SanitizeIdempotent(col: string)
    ensures SanitizeColumn(SanitizeColumn(col)) == SanitizeColumn(col)
  {
    var once := SanitizeColumn(col);
    assert forall i :: 0 <= i < |once| ==> SanitizeColumn(once)[i] == once[i];
  }

  /** A name without forbidden characters is left as it is. */
  lemma SanitizeCleanName(col: string)
    requires forall i :: 0 <= i < |col| ==> !Forbidden(col[i])
    ensures SanitizeColumn(col) == col
  {
    assert forall i :: 0 <= i < |col| ==> SanitizeColumn(col)[i] == col[i];
  }
}
