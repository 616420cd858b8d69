/**
 * Looking a container's child list up by video name (`find_matching_video`)
 * and by source URL (`check_duplicate_video`).
 */
module Matching {
  import opened Wrappers
  import opened Media
  import opened Text
  import opened Counting

  /** The value of the `match_method` setting: the three it recognises, and anything else */
  datatype MatchMethod = ExactMatch | MatchFirst | IgnoreLast | OtherMethod

  /** The three application settings `find_matching_video` consults */
  datatype MatchConfig = MatchConfig(how: MatchMethod, firstChars: int, ignoreChars: int)

  /**
   * How two normalised names are compared: equal, equal in their first
   * `firstChars` characters, or equal once the last `ignoreChars` are
   * dropped (the slice `[:-ignoreChars]`); an unrecognised method matches nothing.
   */
  predicate NamesAgree(cfg: MatchConfig, a: string, b: string)
  {
    match cfg.how
    case ExactMatch => a == b
    case MatchFirst => SliceTo(a, cfg.firstChars) == SliceTo(b, cfg.firstChars)
    case IgnoreLast => SliceTo(a, -cfg.ignoreChars) == SliceTo(b, -cfg.ignoreChars)
    case OtherMethod => false
  }

  /** The child `k` is a video whose name matches `name` once both are normalised. */
  predicate IsMatch(db: map<int, Media>, cfg: MatchConfig, k: int, name: string)
    requires k in db
  {
    db[k].IsVideo() && NamesAgree(cfg, NormaliseName(db[k].name), NormaliseName(name))
  }

  /** The first element of `ks` that `p` accepts, the loop with early return both scans use */
  function FirstWhere(ks: seq<int>, p: int -> bool): (r: Option<int>)
    ensures r.None? <==> forall i :: 0 <= i < |ks| ==> !p(ks[i])
    ensures r.Some? ==> r.value in ks && p(r.value)
    ensures r.Some? ==> forall j :: 0 <= j < IndexOf(ks, r.value) ==> !p(ks[j])
  {
    if ks == [] then None
    else if p(ks[0]) then Some(ks[0])
    else
      var r := FirstWhere(ks[1..], p);
      assert forall i :: 1 <= i < |ks| ==> ks[i] == ks[1..][i - 1];
      if r.Some? then
        assert IndexOf(ks, r.value) == 1 + IndexOf(ks[1..], r.value);
        r
      else r
  }

  /** Two tests that agree on every element find the same element. */
  lemma {:induction false} FirstWhereAgrees(ks: seq<int>, p: int -> bool, q: int -> bool)
    requires forall i :: 0 <= i < |ks| ==> p(ks[i]) == q(ks[i])
    ensures FirstWhere(ks, p) == FirstWhere(ks, q)
    decreases |ks|
  {
    if ks != [] {
      assert forall i :: 1 <= i < |ks| ==> ks[i] == ks[1..][i - 1];
      FirstWhereAgrees(ks[1..], p, q);
    }
  }

  /**
   * `find_matching_video`: the first child of `ks` that is a matching
   * video, or None when no child matches.
   */
  function FindMatchingVideo(db: map<int, Media>, ks: seq<int>, cfg: MatchConfig, name: string): (r: Option<int>)
    requires AllIn(db, ks)
    ensures r.None? <==> forall i :: 0 <= i < |ks| ==> !IsMatch(db, cfg, ks[i], name)
    ensures r.Some? ==> r.value in ks && IsMatch(db, cfg, r.value, name)
    ensures r.Some? ==> forall j :: 0 <= j < IndexOf(ks, r.value) ==> !IsMatch(db, cfg, ks[j], name)
  {
    FirstWhere(ks, k => k in db && IsMatch(db, cfg, k, name))
  }

  /**
   * With `ignore_last` and `match_ignore_chars` 0, or `match_first` and
   * `match_first_chars` 0, both slices are empty, so any name matches the
   * first video of the list.
   */
  lemma ZeroCharsMatchFirstVideo(db: map<int, Media>, ks: seq<int>, cfg: MatchConfig, name: string)
    requires AllIn(db, ks)
    requires (cfg.how == IgnoreLast && cfg.ignoreChars == 0) || (cfg.how == MatchFirst && cfg.firstChars == 0)
    ensures FindMatchingVideo(db, ks, cfg, name) == FirstWhere(ks, k => k in db && db[k].IsVideo())
  {
    var p := k => k in db && IsMatch(db, cfg, k, name);
    var q := k => k in db && db[k].IsVideo();
    forall i | 0 <= i < |ks|
      ensures p(ks[i]) == q(ks[i])
    {
      var n := db[ks[i]].name;
      assert SliceTo(NormaliseName(n), 0) == [] == SliceTo(NormaliseName(name), 0);
    }
    FirstWhereAgrees(ks, p, q);
  }

  /** Normalising a name first does not change what it matches. */
  lemma NormalisedCandidate(db: map<int, Media>, ks: seq<int>, cfg: MatchConfig, name: string)
    requires AllIn(db, ks)
    ensures FindMatchingVideo(db, ks, cfg, NormaliseName(name)) == FindMatchingVideo(db, ks, cfg, name)
  {
    NormaliseNameShape(name);
    NormaliseNameIdempotent(NormaliseName(name));
    var p := k => k in db && IsMatch(db, cfg, k, NormaliseName(name));
    var q := k => k in db && IsMatch(db, cfg, k, name);
    forall i | 0 <= i < |ks|
      ensures p(ks[i]) == q(ks[i])
    {
    }
    FirstWhereAgrees(ks, p, q);
  }

  /** With `exact_match`, a video whose name is the candidate itself is found, or one before it. */
  lemma ExactMatchFindsSameName(db: map<int, Media>, ks: seq<int>, name: string, i: nat)
    requires AllIn(db, ks) && i < |ks| && db[ks[i]].IsVideo() && db[ks[i]].name == name
    ensures var r := FindMatchingVideo(db, ks, MatchConfig(ExactMatch, 0, 0), name);
      r.Some? && IndexOf(ks, r.value) <= i
  {
    assert IsMatch(db, MatchConfig(ExactMatch, 0, 0), ks[i], name);
  }

  // ---------------------------------------------------------------------------
  // check_duplicate_video
  // ---------------------------------------------------------------------------

  /** The child `k` is a video downloaded from `source`. */
  predicate HasSource(db: map<int, Media>, k: int, source: string)
    requires k in db
  {
    db[k].IsVideo() && db[k].source == Some(source)
  }

  /** `check_duplicate_video`: some video of the child list has this source URL */
  function CheckDuplicateVideo(db: map<int, Media>, ks: seq<int>, source: string): (r: bool)
    requires AllIn(db, ks)
    ensures r <==> exists i :: 0 <= i < |ks| && HasSource(db, ks[i], source)
  {
    if ks == [] then false
    else if HasSource(db, ks[0], source) then true
    else
      assert forall i :: 1 <= i < |ks| ==> ks[i] == ks[1..][i - 1];
      CheckDuplicateVideo(db, ks[1..], source)
  }

  /** Adding a child to the list finds a duplicate exactly when the list had one or the child is one. */
  lemma {:induction false} DuplicateAfterAdd(db: map<int, Media>, ks: seq<int>, x: int, source: string)
    requires AllIn(db, ks) && x in db
    ensures AllIn(db, ks + [x])
    ensures CheckDuplicateVideo(db, ks + [x], source) == (CheckDuplicateVideo(db, ks, source) || HasSource(db, x, source))
    decreases |ks|
  {
    assert AllIn(db, ks + [x]) by {
      forall i | 0 <= i < |ks + [x]|
        ensures (ks + [x])[i] in db
      {
        if i < |ks| {
          assert (ks + [x])[i] == ks[i];
        }
      }
    }
    if ks != [] {
      assert (ks + [x])[1..] == ks[1..] + [x];
      assert AllIn(db, ks[1..]);
      DuplicateAfterAdd(db, ks[1..], x, source);
    }
  }
}
