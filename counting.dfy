/**
 * The six direct-child counters of a container (`vid_count`,
 * `bookmark_count`, `dl_count`, `fav_count`, `new_count`, `waiting_count`)
 * and what they count when they are exact: the direct children that are
 * videos, and among those the ones with each flag set.
 */
module Counting {
  import opened Media

  /** 1 for a set flag, 0 otherwise */
  function Bit(b: bool): int
  {
    if b then 1 else 0
  }

  /** What one direct child adds to its container's counters: nothing unless it is a video */
  function Contribution(m: Media): (r: Counts)
    ensures !m.IsVideo() ==> r == NoCounts
    ensures m.IsVideo() ==> r.vidCount == 1
    ensures r.bookmarkCount == 1 <==> m.IsVideo() && m.video.bookmarkFlag
    ensures r.dlCount == 1 <==> m.IsVideo() && m.video.dlFlag
    ensures r.favCount == 1 <==> m.IsVideo() && m.favFlag
    ensures r.newCount == 1 <==> m.IsVideo() && m.video.newFlag
    ensures r.waitingCount == 1 <==> m.IsVideo() && m.video.waitingFlag
  {
    if m.IsVideo() then
      Counts(1, Bit(m.video.bookmarkFlag), Bit(m.video.dlFlag), Bit(m.favFlag),
             Bit(m.video.newFlag), Bit(m.video.waitingFlag))
    else NoCounts
  }

  function Plus(a: Counts, b: Counts): Counts
  {
    Counts(a.vidCount + b.vidCount, a.bookmarkCount + b.bookmarkCount, a.dlCount + b.dlCount,
           a.favCount + b.favCount, a.newCount + b.newCount, a.waitingCount + b.waitingCount)
  }

  function Minus(a: Counts, b: Counts): Counts
  {
    Counts(a.vidCount - b.vidCount, a.bookmarkCount - b.bookmarkCount, a.dlCount - b.dlCount,
           a.favCount - b.favCount, a.newCount - b.newCount, a.waitingCount - b.waitingCount)
  }

  /** The counters as `recalculate_counts` computes them over the child list `ks` */
  ghost function DirectCounts(db: map<int, Media>, ks: seq<int>): (r: Counts)
    requires AllIn(db, ks)
  {
    if ks == [] then NoCounts
    else Plus(DirectCounts(db, ks[..|ks| - 1]), Contribution(db[ks[|ks| - 1]]))
  }

  lemma PlusZero(c: Counts)
    ensures Plus(c, NoCounts) == c
  {
  }

  lemma PlusAssoc(a: Counts, b: Counts, c: Counts)
    ensures Plus(Plus(a, b), c) == Plus(a, Plus(b, c))
  {
  }

  lemma PlusMinus(a: Counts, x: Counts, b: Counts)
    ensures Minus(Plus(Plus(a, x), b), x) == Plus(a, b)
  {
  }

  /** Counting a list with one more child adds that child's contribution. */
  lemma DirectCountsSnoc(db: map<int, Media>, s: seq<int>, x: int)
    requires AllIn(db, s) && x in db
    ensures AllIn(db, s + [x])
    ensures DirectCounts(db, s + [x]) == Plus(DirectCounts(db, s), Contribution(db[x]))
  {
    assert (s + [x])[..|s + [x]| - 1] == s;
  }

  /** Every dbid of a concatenation is registered when those of both parts are. */
  lemma AllInAppend(db: map<int, Media>, a: seq<int>, b: seq<int>)
    requires AllIn(db, a) && AllIn(db, b)
    ensures AllIn(db, a + b)
  {
    forall i | 0 <= i < |a + b|
      ensures (a + b)[i] in db
    {
      if i >= |a| {
        assert (a + b)[i] == b[i - |a|];
      }
    }
  }

  /** Counting a concatenation is adding the counts of its parts. */
  lemma {:induction false} DirectCountsAppend(db: map<int, Media>, a: seq<int>, b: seq<int>)
    requires AllIn(db, a) && AllIn(db, b)
    ensures AllIn(db, a + b)
    ensures DirectCounts(db, a + b) == Plus(DirectCounts(db, a), DirectCounts(db, b))
    decreases |b|
  {
    AllInAppend(db, a, b);
    if b == [] {
      assert a + b == a;
      PlusZero(DirectCounts(db, a));
    } else {
      var b0, last := b[..|b| - 1], b[|b| - 1];
      assert b == b0 + [last];
      assert AllIn(db, b0);
      assert a + b == (a + b0) + [last];
      DirectCountsAppend(db, a, b0);
      DirectCountsSnoc(db, a + b0, last);
      DirectCountsSnoc(db, b0, last);
      PlusAssoc(DirectCounts(db, a), DirectCounts(db, b0), Contribution(db[last]));
    }
  }

  /** The counts only depend on the nodes the list names. */
  lemma {:induction false} DirectCountsFrame(db: map<int, Media>, db2: map<int, Media>, ks: seq<int>)
    requires AllIn(db, ks) && AllIn(db2, ks)
    requires forall i :: 0 <= i < |ks| ==> db2[ks[i]] == db[ks[i]]
    ensures DirectCounts(db2, ks) == DirectCounts(db, ks)
    decreases |ks|
  {
    if ks != [] {
      DirectCountsFrame(db, db2, ks[..|ks| - 1]);
    }
  }

  /** The position of the first occurrence of `x` in `s` */
  function IndexOf(s: seq<int>, x: int): (i: nat)
    requires x in s
    ensures i < |s| && s[i] == x
    ensures forall j :: 0 <= j < i ==> s[j] != x
  {
    if s[0] == x then 0 else 1 + IndexOf(s[1..], x)
  }

  /** Python's `list.remove(x)` once `x` is known to be present: the first occurrence goes, the rest stay in order. */
  function RemoveFirst(s: seq<int>, x: int): (r: seq<int>)
    requires x in s
    ensures |r| == |s| - 1
    ensures multiset(r) == multiset(s) - multiset{x}
  {
    var i := IndexOf(s, x);
    assert s == s[..i] + [x] + s[i + 1..];
    s[..i] + s[i + 1..]
  }

  /**
   * `del_child` keeps exact counters exact: taking a counted child out of
   * the list takes its contribution off every counter.
   */
  lemma DelChildKeepsCountsExact(db: map<int, Media>, ks: seq<int>, x: int)
    requires AllIn(db, ks) && x in ks
    ensures AllIn(db, RemoveFirst(ks, x))
    ensures DirectCounts(db, RemoveFirst(ks, x)) == Minus(DirectCounts(db, ks), Contribution(db[x]))
  {
    var i := IndexOf(ks, x);
    var a, b := ks[..i], ks[i + 1..];
    assert ks == (a + [x]) + b;
    assert RemoveFirst(ks, x) == a + b;
    assert AllIn(db, a) && AllIn(db, b) by {
      forall j | 0 <= j < |b|
        ensures b[j] in db
      {
        assert b[j] == ks[i + 1 + j];
      }
    }
    var ca, cb, cx := DirectCounts(db, a), DirectCounts(db, b), Contribution(db[x]);
    DirectCountsSnoc(db, a, x);
    DirectCountsAppend(db, a + [x], b);
    DirectCountsAppend(db, a, b);
    assert DirectCounts(db, ks) == Plus(Plus(ca, cx), cb);
    assert DirectCounts(db, a + b) == Plus(ca, cb);
    PlusMinus(ca, cx, cb);
  }

  lemma MinusPlus(a: Counts, x: Counts)
    ensures Plus(Minus(a, x), x) == a
  {
  }

  /** A list with the same members as a registered list is registered. */
  lemma AllInPermutation(db: map<int, Media>, s: seq<int>, t: seq<int>)
    requires AllIn(db, s) && multiset(s) == multiset(t)
    ensures AllIn(db, t)
  {
    forall i | 0 <= i < |t|
      ensures t[i] in db
    {
      assert t[i] in multiset(s);
      var j :| 0 <= j < |s| && s[j] == t[i];
    }
  }

  /** The counters do not depend on the order of the child list, so sorting keeps them exact. */
  lemma {:induction false} DirectCountsPermutation(db: map<int, Media>, s: seq<int>, t: seq<int>)
    requires AllIn(db, s) && multiset(s) == multiset(t)
    ensures AllIn(db, t)
    ensures DirectCounts(db, s) == DirectCounts(db, t)
    decreases |s|
  {
    AllInPermutation(db, s, t);
    if s == [] {
      assert |t| == |multiset(t)| == 0;
    } else {
      var s0, x := s[..|s| - 1], s[|s| - 1];
      assert s == s0 + [x];
      assert x in multiset(t);
      var t0 := RemoveFirst(t, x);
      assert multiset(t0) == multiset(s0);
      assert AllIn(db, s0);
      DirectCountsPermutation(db, s0, t0);
      DelChildKeepsCountsExact(db, t, x);
      MinusPlus(DirectCounts(db, t), Contribution(db[x]));
    }
  }

  /** The six counters of container `id` are what `recalculate_counts` would set them to. */
  ghost predicate CountsExact(db: map<int, Media>, id: int)
    requires id in db
  {
    AllIn(db, Children(db[id])) && db[id].box.counts == DirectCounts(db, Children(db[id]))
  }

  /**
   * `add_child` raises only `vid_count`, so the counters stay exact exactly
   * when the new child contributes nothing but that, as a new video does.
   */
  lemma AddChildKeepsCountsExact(db: map<int, Media>, ks: seq<int>, x: int)
    requires AllIn(db, ks) && x in db
    ensures AllIn(db, ks + [x])
    ensures DirectCounts(db, ks + [x]) == Plus(DirectCounts(db, ks), Contribution(db[x]))
    ensures Contribution(db[x]) == Counts(1, 0, 0, 0, 0, 0) ==>
      DirectCounts(db, ks + [x]) == DirectCounts(db, ks).(vidCount := DirectCounts(db, ks).vidCount + 1)
  {
    assert (ks + [x])[..|ks + [x]| - 1] == ks;
  }

  /** A new video counts towards `vid_count` only. */
  lemma NewVideoContribution(dbid: int, name: string, parent: int)
    ensures Contribution(NewVideo(dbid, name, parent)) == Counts(1, 0, 0, 0, 0, 0)
  {
  }

  // ---------------------------------------------------------------------------
  // The increment and decrement accessors
  // ---------------------------------------------------------------------------

  /** The five counters that have `inc_…_count` and `dec_…_count` accessors */
  datatype Counter = BookmarkCount | DlCount | FavCount | NewCount | WaitingCount

  function CountOf(c: Counts, which: Counter): int
  {
    match which
    case BookmarkCount => c.bookmarkCount
    case DlCount => c.dlCount
    case FavCount => c.favCount
    case NewCount => c.newCount
    case WaitingCount => c.waitingCount
  }

  /** `inc_…_count` (delta 1) and `dec_…_count` (delta -1): one counter moves, nothing else */
  function Bump(c: Counts, which: Counter, delta: int): (r: Counts)
    ensures CountOf(r, which) == CountOf(c, which) + delta
    ensures forall other :: other != which ==> CountOf(r, other) == CountOf(c, other)
    ensures r.vidCount == c.vidCount
  {
    match which
    case BookmarkCount => c.(bookmarkCount := c.bookmarkCount + delta)
    case DlCount => c.(dlCount := c.dlCount + delta)
    case FavCount => c.(favCount := c.favCount + delta)
    case NewCount => c.(newCount := c.newCount + delta)
    case WaitingCount => c.(waitingCount := c.waitingCount + delta)
  }

  /** An increment followed by a decrement of the same counter changes nothing. */
  lemma BumpInverse(c: Counts, which: Counter)
    ensures Bump(Bump(c, which, 1), which, -1) == c
  {
  }
}
