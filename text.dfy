/**
 * Character and string operations that the media registry relies on:
 * Python's `str.lower()` and `<` on strings, the regular-expression
 * normalisation of video names used by duplicate matching, and Python's
 * `s[:k]` slicing.
 *
 * Characters are restricted to ASCII classification: a character at or above
 * code point 128 counts as a word character, and no Unicode case mapping is
 * applied.
 */
module Text {

  // ---------------------------------------------------------------------------
  // Case folding and lexicographic order
  // ---------------------------------------------------------------------------

  /** `c.lower()` on ASCII: upper-case Latin letters map to lower case. */
  function LowerChar(c: char): (r: char)
    ensures 'A' <= c <= 'Z' ==> r as int == c as int + 32
    ensures !('A' <= c <= 'Z') ==> r == c
  {
    if 'A' <= c <= 'Z' then (c as int + 32) as char else c
  }

  /** `s.lower()`, character by character */
  function Lower(s: string): (r: string)
    ensures |r| == |s|
    ensures forall i :: 0 <= i < |s| ==> r[i] == LowerChar(s[i])
  {
    if s == [] then [] else [LowerChar(s[0])] + Lower(s[1..])
  }

  /** Python's `a < b` on strings: code-point lexicographic order. */
  predicate LexLess(a: string, b: string)
  {
    if a == [] then b != []
    else if b == [] then false
    else if a[0] < b[0] then true
    else if a[0] == b[0] then LexLess(a[1..], b[1..])
    else false
  }

  lemma {:induction false} LexLessIrreflexive(a: string)
    ensures !LexLess(a, a)
  {
    if a != [] {
      LexLessIrreflexive(a[1..]);
    }
  }

  lemma {:induction false} LexLessAsymmetric(a: string, b: string)
    requires LexLess(a, b)
    ensures !LexLess(b, a)
  {
    if a != [] && b != [] && a[0] == b[0] {
      LexLessAsymmetric(a[1..], b[1..]);
    }
  }

  lemma {:induction false} LexLessTransitive(a: string, b: string, c: string)
    requires LexLess(a, b) && LexLess(b, c)
    ensures LexLess(a, c)
  {
    if a != [] && b != [] && c != [] && a[0] == b[0] && b[0] == c[0] {
      LexLessTransitive(a[1..], b[1..], c[1..]);
    }
  }

  /** Two different strings are always ordered one way or the other. */
  lemma {:induction false} LexLessTotal(a: string, b: string)
    requires a != b
    ensures LexLess(a, b) || LexLess(b, a)
  {
    if a != [] && b != [] && a[0] == b[0] {
      assert a == [a[0]] + a[1..] && b == [b[0]] + b[1..];
      LexLessTotal(a[1..], b[1..]);
    }
  }

  // ---------------------------------------------------------------------------
  // Character classes of Python's `re` module
  // ---------------------------------------------------------------------------

  /** `\s`: the ASCII whitespace characters of Python's `str.isspace()` */
  predicate IsSpaceChar(c: char)
  {
    c == ' ' || 9 <= c as int <= 13 || 28 <= c as int <= 31
  }

  /** `\w`: letters, digits and underscore (and, here, everything non-ASCII) */
  predicate IsWordChar(c: char)
  {
    'a' <= c <= 'z' || 'A' <= c <= 'Z' || '0' <= c <= '9' || c == '_' || c as int >= 128
  }

  /** `\W` */
  predicate IsNonWord(c: char)
  {
    !IsWordChar(c)
  }

  /** `[\_\s]` */
  predicate IsBlank(c: char)
  {
    c == '_' || IsSpaceChar(c)
  }

  // ---------------------------------------------------------------------------
  // The regular-expression rewrites
  // ---------------------------------------------------------------------------

  /** The rest of `s` once its leading run of `p` characters is skipped */
  function SkipRun(s: string, p: char -> bool): (r: string)
    ensures |r| <= |s| && r == s[|s| - |r|..]
    ensures r != [] ==> !p(r[0])
    ensures forall i :: 0 <= i < |s| - |r| ==> p(s[i])
  {
    if s != [] && p(s[0]) then SkipRun(s[1..], p) else s
  }

  /** `re.sub(P + '+', ' ', s)`: every maximal run of `p` characters becomes one space */
  function CollapseRuns(s: string, p: char -> bool): string
    decreases |s|
  {
    if s == [] then []
    else if p(s[0]) then " " + CollapseRuns(SkipRun(s[1..], p), p)
    else [s[0]] + CollapseRuns(s[1..], p)
  }

  /** `re.sub(r'^\s+', '', s)` */
  function TrimStart(s: string): (r: string)
    ensures |r| <= |s| && r == s[|s| - |r|..]
    ensures r != [] ==> !IsSpaceChar(r[0])
  {
    if s != [] && IsSpaceChar(s[0]) then TrimStart(s[1..]) else s
  }

  /** `re.sub(r'\s+$', '', s)` */
  function TrimEnd(s: string): (r: string)
    ensures |r| <= |s| && r == s[..|r|]
    ensures r != [] ==> !IsSpaceChar(r[|r| - 1])
  {
    if s != [] && IsSpaceChar(s[|s| - 1]) then TrimEnd(s[..|s| - 1]) else s
  }

  /**
   * The four rewrites `find_matching_video` applies to a video name and to
   * the candidate name before comparing them.
   */
  function NormaliseName(s: string): string
  {
    TrimEnd(TrimStart(CollapseRuns(CollapseRuns(s, IsNonWord), IsBlank)))
  }

  /** The shape every normalised name has. */
  ghost predicate NormalForm(r: string)
  {
    && WordsAndSpaces(r)
    && NoDoubleSpace(r)
    && (r != [] ==> r[0] != ' ' && r[|r| - 1] != ' ')
  }

  /** Only spaces and word characters other than the underscore */
  ghost predicate WordsAndSpaces(r: string)
  {
    forall i :: 0 <= i < |r| ==> r[i] == ' ' || (IsWordChar(r[i]) && r[i] != '_')
  }

  /** Characters of the first form: spaces and the characters `p` rejects. */
  ghost predicate OnlySpacesFor(r: string, p: char -> bool)
  {
    forall i :: 0 <= i < |r| ==> r[i] == ' ' || !p(r[i])
  }

  ghost predicate NoDoubleSpace(r: string)
  {
    forall i :: 0 <= i < |r| - 1 ==> !(r[i] == ' ' && r[i + 1] == ' ')
  }

  /** Collapsing only ever introduces spaces: a class that holds of `s` and of ' ' holds of the result. */
  lemma {:induction false} CollapseRunsKeeps(s: string, p: char -> bool, q: char -> bool)
    requires q(' ') && forall i :: 0 <= i < |s| ==> q(s[i])
    ensures forall i :: 0 <= i < |CollapseRuns(s, p)| ==> q(CollapseRuns(s, p)[i])
    decreases |s|
  {
    if s == [] {
    } else if p(s[0]) {
      var rest := SkipRun(s[1..], p);
      assert forall i :: 0 <= i < |rest| ==> rest[i] == s[|s| - |rest| + i];
      CollapseRunsKeeps(rest, p, q);
    } else {
      CollapseRunsKeeps(s[1..], p, q);
    }
  }

  /** No character that `p` accepts survives collapsing, except the spaces it inserts. */
  lemma {:induction false} CollapseRunsOnlySpaces(s: string, p: char -> bool)
    ensures OnlySpacesFor(CollapseRuns(s, p), p)
    decreases |s|
  {
    if s == [] {
    } else if p(s[0]) {
      CollapseRunsOnlySpaces(SkipRun(s[1..], p), p);
    } else {
      CollapseRunsOnlySpaces(s[1..], p);
    }
  }

  /** A collapsed string never holds two spaces in a row, and starts with a space iff `s` starts with a run. */
  lemma {:induction false} CollapseRunsNoDoubleSpace(s: string, p: char -> bool)
    requires p(' ')
    ensures NoDoubleSpace(CollapseRuns(s, p))
    ensures CollapseRuns(s, p) != [] ==> (CollapseRuns(s, p)[0] == ' ' <==> p(s[0]))
    decreases |s|
  {
    if s == [] {
    } else if p(s[0]) {
      var rest := SkipRun(s[1..], p);
      CollapseRunsNoDoubleSpace(rest, p);
      var t := CollapseRuns(rest, p);
      assert CollapseRuns(s, p) == " " + t;
    } else {
      CollapseRunsNoDoubleSpace(s[1..], p);
      var t := CollapseRuns(s[1..], p);
      assert CollapseRuns(s, p) == [s[0]] + t;
    }
  }

  /** Collapsing leaves alone a string whose `p` runs are already single spaces. */
  lemma {:induction false} CollapseRunsFixed(s: string, p: char -> bool)
    requires OnlySpacesFor(s, p) && NoDoubleSpace(s)
    ensures CollapseRuns(s, p) == s
    decreases |s|
  {
    if s == [] {
    } else if p(s[0]) {
      assert s[0] == ' ';
      assert s[1..] != [] ==> !p(s[1..][0]);
      assert SkipRun(s[1..], p) == s[1..];
      CollapseRunsFixed(s[1..], p);
    } else {
      CollapseRunsFixed(s[1..], p);
    }
  }

  lemma {:induction false} TrimStartFixed(s: string)
    requires s != [] ==> !IsSpaceChar(s[0])
    ensures TrimStart(s) == s
  {
  }

  lemma {:induction false} TrimEndFixed(s: string)
    requires s != [] ==> !IsSpaceChar(s[|s| - 1])
    ensures TrimEnd(s) == s
  {
  }

  /**
   * A normalised name has no underscore, no whitespace other than single
   * spaces between words, and no space at either end.
   */
  lemma NormaliseNameShape(s: string)
    ensures NormalForm(NormaliseName(s))
  {
    CollapsedShape(s);
    TrimmedShape(CollapseRuns(CollapseRuns(s, IsNonWord), IsBlank));
  }

  /** Trimming words and single spaces leaves no space at either end. */
  lemma TrimmedShape(b: string)
    requires WordsAndSpaces(b) && NoDoubleSpace(b)
    ensures NormalForm(TrimEnd(TrimStart(b)))
  {
    TrimmedSlice(b);
    var c := TrimStart(b);
    var d := TrimEnd(c);
    if d != [] {
      assert d[0] == c[0];
    }
  }

  /** What the trims leave is a slice of `b`, so it still holds only words and single spaces. */
  lemma TrimmedSlice(b: string)
    requires WordsAndSpaces(b) && NoDoubleSpace(b)
    ensures WordsAndSpaces(TrimEnd(TrimStart(b))) && NoDoubleSpace(TrimEnd(TrimStart(b)))
  {
    var c := TrimStart(b);
    PrefixOfSuffixShape(b, c, TrimEnd(c));
  }

  /** A prefix `d` of a suffix `c` of `b` is a slice of `b`. */
  lemma PrefixOfSuffixShape(b: string, c: string, d: string)
    requires WordsAndSpaces(b) && NoDoubleSpace(b)
    requires |c| <= |b| && c == b[|b| - |c|..] && |d| <= |c| && d == c[..|d|]
    ensures WordsAndSpaces(d) && NoDoubleSpace(d)
  {
    var j := |b| - |c|;
    assert d == b[j..j + |d|];
    SliceShape(b, j, j + |d|);
  }

  /** The two collapsing rewrites leave only words and single spaces. */
  lemma CollapsedShape(s: string)
    ensures var b := CollapseRuns(CollapseRuns(s, IsNonWord), IsBlank);
      WordsAndSpaces(b) && NoDoubleSpace(b)
  {
    var a := CollapseRuns(s, IsNonWord);
    CollapseRunsOnlySpaces(s, IsNonWord);
    var b := CollapseRuns(a, IsBlank);
    CollapseRunsOnlySpaces(a, IsBlank);
    CollapseRunsNoDoubleSpace(a, IsBlank);
    var wordOrSpace := (c: char) => c == ' ' || IsWordChar(c);
    CollapseRunsKeeps(a, IsBlank, wordOrSpace);
    assert WordsAndSpaces(b);
  }

  /** Every slice of a string of words and single spaces is one too. */
  lemma SliceShape(b: string, j: nat, k: nat)
    requires j <= k <= |b| && WordsAndSpaces(b) && NoDoubleSpace(b)
    ensures WordsAndSpaces(b[j..k]) && NoDoubleSpace(b[j..k])
  {
    var d := b[j..k];
    forall i | 0 <= i < |d|
      ensures d[i] == ' ' || (IsWordChar(d[i]) && d[i] != '_')
    {
      assert d[i] == b[j + i];
    }
    forall i | 0 <= i < |d| - 1
      ensures !(d[i] == ' ' && d[i + 1] == ' ')
    {
      assert d[i] == b[j + i] && d[i + 1] == b[j + i + 1];
    }
  }

  /** Normalising a name that is already normalised changes nothing. */
  lemma NormaliseNameIdempotent(s: string)
    requires NormalForm(s)
    ensures NormaliseName(s) == s
  {
    assert OnlySpacesFor(s, IsNonWord);
    CollapseRunsFixed(s, IsNonWord);
    assert OnlySpacesFor(s, IsBlank);
    CollapseRunsFixed(s, IsBlank);
    TrimStartFixed(s);
    TrimEndFixed(s);
  }

  // ---------------------------------------------------------------------------
  // Python slicing
  // ---------------------------------------------------------------------------

  /**
   * `s[:k]`: the first `k` characters for `k >= 0`, all but the last `-k`
   * characters for `k < 0`, clipped to the string in both cases.
   */
  function SliceTo(s: string, k: int): (r: string)
    ensures k >= 0 ==> |r| == (if k < |s| then k else |s|)
    ensures k < 0 ==> |r| == (if |s| + k > 0 then |s| + k else 0)
    ensures r == s[..|r|]
  {
    if k >= 0 then (if k < |s| then s[..k] else s)
    else (if |s| + k > 0 then s[..|s| + k] else [])
  }
}
