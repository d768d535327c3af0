/**
 * String helpers used by the tag rules: substring search (Python's `in` on
 * `str`), lower-casing, whitespace stripping and character replacement.
 */
module Text {

  /** `pat` occurs in `text` starting at position `i`. */
  predicate OccursAt(text: string, pat: string, i: int)
  {
    0 <= i <= |text| - |pat| && text[i..i + |pat|] == pat
  }

  /** Python's `pat in text` for strings. */
  predicate Contains(text: string, pat: string)
    decreases |text|
  {
    if |text| < |pat| then false
    else text[..|pat|] == pat || Contains(text[1..], pat)
  }

  /** Containment means an occurrence at some position. */
  lemma {:induction false} ContainsIff(text: string, pat: string)
    ensures Contains(text, pat) <==> exists i | 0 <= i <= |text| - |pat| :: OccursAt(text, pat, i)
    decreases |text|
  {
    if |text| >= |pat| && text == [] {
      assert OccursAt(text, pat, 0);
    } else if |text| >= |pat| {
      ContainsIff(text[1..], pat);
      assert OccursAt(text, pat, 0) <==> text[..|pat|] == pat;
      forall i | 0 <= i <= |text| - 1 - |pat| ensures OccursAt(text, pat, i + 1) <==> OccursAt(text[1..], pat, i) {
        var a, b := text[i + 1..i + 1 + |pat|], text[1..][i..i + |pat|];
        assert |a| == |b|;
        forall k | 0 <= k < |a| ensures a[k] == b[k] {
          assert a[k] == text[i + 1 + k] && b[k] == text[1..][i + k];
        }
        assert a == b;
      }
      if exists i | 0 <= i <= |text| - |pat| :: OccursAt(text, pat, i) {
        var i :| 0 <= i <= |text| - |pat| && OccursAt(text, pat, i);
        if i > 0 {
          assert OccursAt(text[1..], pat, i - 1);
        }
      }
      if Contains(text[1..], pat) {
        var i :| 0 <= i <= |text[1..]| - |pat| && OccursAt(text[1..], pat, i);
        assert OccursAt(text, pat, i + 1);
      }
    }
  }

  /** An occurrence at a known position is enough. */
  lemma ContainsAt(text: string, pat: string, i: int)
    requires OccursAt(text, pat, i)
    ensures Contains(text, pat)
  {
    ContainsIff(text, pat);
  }

  /** Containment is transitive: a pattern found in a piece of the text is found in the text. */
  lemma ContainsTransitive(text: string, mid: string, pat: string)
    requires Contains(text, mid) && Contains(mid, pat)
    ensures Contains(text, pat)
  {
    ContainsIff(text, mid);
    ContainsIff(mid, pat);
    var i :| 0 <= i <= |text| - |mid| && OccursAt(text, mid, i);
    var j :| 0 <= j <= |mid| - |pat| && OccursAt(mid, pat, j);
    assert text[i..i + |mid|] == mid;
    forall k | 0 <= k < |pat| ensures text[i + j + k] == pat[k] {
      assert mid[j + k] == pat[k];
      assert text[i..i + |mid|][j + k] == text[i + j + k];
    }
    assert text[i + j..i + j + |pat|] == pat;
    ContainsAt(text, pat, i + j);
  }

  /** A pattern with a character absent from the text does not occur in it. */
  lemma NotContainsChar(text: string, pat: string, k: int)
    requires 0 <= k < |pat| && pat[k] !in text
    ensures !Contains(text, pat)
  {
    ContainsIff(text, pat);
  }

  /** Lower-cases one ASCII letter; every other character is left alone. */
  function LowerChar(c: char): (d: char)
    ensures 'A' <= c <= 'Z' ==> 'a' <= d <= 'z'
    ensures !('A' <= c <= 'Z') ==> d == c
  {
    if 'A' <= c <= 'Z' then (c as int - 'A' as int + 'a' as int) as char else c
  }

  /** Python's `str.lower()` restricted to ASCII letters. */
  function Lower(s: string): (r: string)
    ensures |r| == |s|
    ensures forall i :: 0 <= i < |s| ==> r[i] == LowerChar(s[i])
  {
    seq(|s|, i requires 0 <= i < |s| => LowerChar(s[i]))
  }

  lemma LowerIdempotent(s: string)
    ensures Lower(Lower(s)) == Lower(s)
  {
  }

  /** Upper-cases one ASCII letter; every other character is left alone. */
  function UpperChar(c: char): (d: char)
    ensures 'a' <= c <= 'z' ==> 'A' <= d <= 'Z'
    ensures !('a' <= c <= 'z') ==> d == c
  {
    if 'a' <= c <= 'z' then (c as int - 'a' as int + 'A' as int) as char else c
  }

  /** Python's `str.upper()` restricted to ASCII letters. */
  function Upper(s: string): (r: string)
    ensures |r| == |s|
    ensures forall i :: 0 <= i < |s| ==> r[i] == UpperChar(s[i])
  {
    seq(|s|, i requires 0 <= i < |s| => UpperChar(s[i]))
  }

  lemma UpperIdempotent(s: string)
    ensures Upper(Upper(s)) == Upper(s)
  {
  }

  /** Python's `string.whitespace`; `str.strip()` also removes `\x1c`-`\x1f` and Unicode spaces, which are not modelled. */
  predicate IsSpace(c: char)
  {
    c == ' ' || c == '\t' || c == '\n' || c == '\r' || c == '\U{B}' || c == '\U{C}'
  }

  function StripLeft(s: string): (r: string)
    ensures |r| <= |s| && r == s[|s| - |r|..]
    ensures r == [] || !IsSpace(r[0])
    ensures forall i :: 0 <= i < |s| - |r| ==> IsSpace(s[i])
  {
    if s != [] && IsSpace(s[0]) then
      var r := StripLeft(s[1..]);
      assert forall i :: 1 <= i < |s| - |r| ==> s[i] == s[1..][i - 1];
      assert s[1..][|s| - 1 - |r|..] == s[|s| - |r|..];
      r
    else s
  }

  function StripRight(s: string): (r: string)
    ensures |r| <= |s| && r == s[..|r|]
    ensures r == [] || !IsSpace(r[|r| - 1])
    ensures forall i :: |r| <= i < |s| ==> IsSpace(s[i])
  {
    if s != [] && IsSpace(s[|s| - 1]) then
      var r := StripRight(s[..|s| - 1]);
      assert forall i :: |r| <= i < |s| - 1 ==> s[i] == s[..|s| - 1][i];
      assert s[..|s| - 1][..|r|] == s[..|r|];
      r
    else s
  }

  /** `r` is `s` from position `a` on, with only whitespace before and after it. */
  predicate SurroundedBySpace(s: string, a: int, r: string)
  {
    0 <= a <= |s| - |r| && r == s[a..a + |r|] &&
    (forall i :: 0 <= i < a ==> IsSpace(s[i])) && (forall i :: a + |r| <= i < |s| ==> IsSpace(s[i]))
  }

  /** Python's `str.strip()` with no argument. */
  function Strip(s: string): (r: string)
    ensures |r| <= |s|
    ensures r == [] || (!IsSpace(r[0]) && !IsSpace(r[|r| - 1]))
  {
    StripRight(StripLeft(s))
  }

  /** Stripping removes whitespace from the two ends and nothing else. */
  lemma StripRemovesOnlySpace(s: string)
    ensures exists a :: SurroundedBySpace(s, a, Strip(s))
  {
    var left := StripLeft(s);
    var r := Strip(s);
    var a := |s| - |left|;
    assert r == left[..|r|] && left == s[a..];
    assert r == s[a..a + |r|];
    forall i | a + |r| <= i < |s| ensures IsSpace(s[i]) {
      assert s[i] == left[i - a];
    }
    assert SurroundedBySpace(s, a, r);
  }

  /** A string with no surrounding whitespace is its own strip. */
  lemma StripTrimmed(s: string)
    requires s == [] || (!IsSpace(s[0]) && !IsSpace(s[|s| - 1]))
    ensures Strip(s) == s
  {
  }

  /** Python's `s.replace(c, repl)` for a one-character pattern. */
  function ReplaceChar(s: string, c: char, repl: string): (r: string)
    ensures c !in repl ==> c !in r
    ensures c !in s ==> r == s
    ensures |repl| >= 1 ==> |r| >= |s|
    ensures |repl| == 1 ==> |r| == |s| && forall i :: 0 <= i < |s| ==> r[i] == if s[i] == c then repl[0] else s[i]
  {
    if s == [] then []
    else (if s[0] == c then repl else [s[0]]) + ReplaceChar(s[1..], c, repl)
  }

  /** Replacement works character by character, so it distributes over concatenation. */
  lemma {:induction false} ReplaceCharConcat(a: string, b: string, c: char, repl: string)
    ensures ReplaceChar(a + b, c, repl) == ReplaceChar(a, c, repl) + ReplaceChar(b, c, repl)
  {
    if a != [] {
      assert (a + b)[0] == a[0] && (a + b)[1..] == a[1..] + b;
      ReplaceCharConcat(a[1..], b, c, repl);
    } else {
      assert a + b == b;
    }
  }

  /** The pattern character is replaced by the whole replacement; any other character is kept. */
  lemma ReplaceCharOne(x: char, c: char, repl: string)
    ensures ReplaceChar([x], c, repl) == if x == c then repl else [x]
  {
    assert [x][1..] == [];
  }

  /** Lower-casing works character by character, so it distributes over concatenation. */
  lemma LowerConcat(a: string, b: string)
    ensures Lower(a + b) == Lower(a) + Lower(b)
  {
    var l, r := Lower(a + b), Lower(a) + Lower(b);
    assert |l| == |r|;
    forall i | 0 <= i < |l| ensures l[i] == r[i] {
      if i < |a| {
        assert (a + b)[i] == a[i];
      } else {
        assert (a + b)[i] == b[i - |a|];
      }
    }
  }

  /** Replacing a character that is not a letter commutes with lower-casing, when the replacement is already lower case. */
  lemma {:induction false} LowerReplaceChar(s: string, c: char, repl: string)
    requires !('A' <= c <= 'Z') && !('a' <= c <= 'z') && Lower(repl) == repl
    ensures Lower(ReplaceChar(s, c, repl)) == ReplaceChar(Lower(s), c, repl)
  {
    if s != [] {
      LowerReplaceChar(s[1..], c, repl);
      var head := if s[0] == c then repl else [s[0]];
      var low := Lower(s);
      var lowHead := if low[0] == c then repl else [low[0]];
      assert ReplaceChar(s, c, repl) == head + ReplaceChar(s[1..], c, repl);
      LowerConcat(head, ReplaceChar(s[1..], c, repl));
      assert low[0] == c <==> s[0] == c;
      assert Lower(head) == lowHead;
      assert low[1..] == Lower(s[1..]);
      assert ReplaceChar(low, c, repl) == lowHead + ReplaceChar(low[1..], c, repl);
    }
  }
}
