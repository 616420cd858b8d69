/**
 * The two child orders: `Folder.do_sort` (folders, then channels and
 * playlists by name, then videos by time) and `GenericRemoteContainer.do_sort`
 * (videos by playlist index, or by time), and the `sort_children` methods
 * that apply them.
 */
module Ordering {
  import opened Wrappers
  import opened Media
  import opened Text
  import opened Sorting

  /** The three groups of a Folder's children: folders, remote containers, videos */
  function Stratum(m: Media): (r: int)
    ensures 0 <= r <= 2
    ensures r == 0 <==> m.kind == Folder
    ensures r == 1 <==> m.IsRemote()
    ensures r == 2 <==> m.IsVideo()
  {
    match m.kind
    case Folder => 0
    case Channel => 1
    case Playlist => 1
    case Video => 2
  }

  // ---------------------------------------------------------------------------
  // Folder.do_sort
  // ---------------------------------------------------------------------------

  /** `Folder.do_sort(obj1, obj2)` for a folder whose `priv_flag` is `priv` */
  function FolderCompare(priv: bool, a: Media, b: Media): int
  {
    if a.kind == b.kind || (a.IsRemote() && b.IsRemote()) then
      if a.IsVideo() then
        var ua := a.video.uploadTime;
        var ub := b.video.uploadTime;
        if ua.Some? && ub.Some? then
          if ua.value > ub.value then -1
          else if ua.value < ub.value then 1
          else
            var ra := a.video.receiveTime;
            var rb := b.video.receiveTime;
            if ra.Some? && rb.Some? then
              if priv then
                if ra.value > rb.value then -1 else if ra.value < rb.value then 1 else 0
              else
                if ra.value < rb.value then -1 else if ra.value > rb.value then 1 else 0
            else 0
        else 0
      else if LexLess(Lower(a.name), Lower(b.name)) then -1
      else if LexLess(Lower(b.name), Lower(a.name)) then 1
      else 0
    else if a.kind == Folder then -1
    else if b.kind == Folder then 1
    else if a.IsRemote() then -1
    else if b.IsRemote() then 1
    else 0
  }

  /**
   * When one video goes before another: both upload times are known and the
   * first is newer, or they are equal and both receive times are known, the
   * first received earlier (later, in a private folder).
   */
  predicate VideoPrecedes(priv: bool, a: Media, b: Media)
  {
    var ua := a.video.uploadTime;
    var ub := b.video.uploadTime;
    var ra := a.video.receiveTime;
    var rb := b.video.receiveTime;
    && ua.Some? && ub.Some?
    && (|| ua.value > ub.value
        || (&& ua.value == ub.value && ra.Some? && rb.Some?
            && (if priv then ra.value > rb.value else ra.value < rb.value)))
  }

  /** Names compare case-insensitively, by code point. */
  predicate NameBefore(a: Media, b: Media)
  {
    LexLess(Lower(a.name), Lower(b.name))
  }

  /** What the folder comparator's "comes first" means, group by group */
  lemma FolderCompareMeaning(priv: bool, a: Media, b: Media)
    ensures FolderCompare(priv, a, b) < 0 <==>
      || Stratum(a) < Stratum(b)
      || (Stratum(a) == Stratum(b) == 2 && VideoPrecedes(priv, a, b))
      || (Stratum(a) == Stratum(b) < 2 && NameBefore(a, b))
  {
  }

  /** The folder comparator is antisymmetric: swapping the arguments flips the sign. */
  lemma FolderCompareAntisymmetric(priv: bool, a: Media, b: Media)
    ensures FolderCompare(priv, b, a) == -FolderCompare(priv, a, b)
  {
    if Stratum(a) == Stratum(b) && !a.IsVideo() {
      if NameBefore(a, b) {
        LexLessAsymmetric(Lower(a.name), Lower(b.name));
      }
    }
  }

  lemma VideoPrecedesStrict(priv: bool, a: Media, b: Media, c: Media)
    ensures VideoPrecedes(priv, a, b) ==> !VideoPrecedes(priv, b, a)
    ensures VideoPrecedes(priv, a, b) && VideoPrecedes(priv, b, c) ==> VideoPrecedes(priv, a, c)
  {
  }

  lemma NameBeforeStrict(a: Media, b: Media, c: Media)
    ensures NameBefore(a, b) ==> !NameBefore(b, a)
    ensures NameBefore(a, b) && NameBefore(b, c) ==> NameBefore(a, c)
  {
    if NameBefore(a, b) {
      LexLessAsymmetric(Lower(a.name), Lower(b.name));
      if NameBefore(b, c) {
        LexLessTransitive(Lower(a.name), Lower(b.name), Lower(c.name));
      }
    }
  }

  /** A reordering of a child list whose entries are registered has only registered entries. */
  lemma PermutedChildrenPresent(db: map<int, Media>, id: int, s: seq<int>)
    requires id in db
    requires forall k :: k in Children(db[id]) ==> k in db
    requires multiset(s) == multiset(Children(db[id]))
    ensures forall i :: 0 <= i < |s| ==> s[i] in db
  {
    forall i | 0 <= i < |s|
      ensures s[i] in db
    {
      var x := s[i];
      assert x in multiset(s);
      assert x in Children(db[id]);
    }
  }

  /** The folder comparator's "comes first", on the dbids of a registry */
  function FolderBefore(db: map<int, Media>, priv: bool): (int, int) -> bool
  {
    (x: int, y: int) => x in db && y in db && FolderCompare(priv, db[x], db[y]) < 0
  }

  /** `Folder.do_sort` orders any collection of children strictly. */
  lemma FolderBeforeStrict(db: map<int, Media>, priv: bool, xs: multiset<int>)
    ensures StrictOn(FolderBefore(db, priv), xs)
  {
    var before := FolderBefore(db, priv);
    forall x, y | x in xs && y in xs && before(x, y)
      ensures !before(y, x)
    {
      FolderCompareMeaning(priv, db[x], db[y]);
      FolderCompareMeaning(priv, db[y], db[x]);
      VideoPrecedesStrict(priv, db[x], db[y], db[y]);
      NameBeforeStrict(db[x], db[y], db[y]);
    }
    forall x, y, z | x in xs && y in xs && z in xs && before(x, y) && before(y, z)
      ensures before(x, z)
    {
      FolderCompareMeaning(priv, db[x], db[y]);
      FolderCompareMeaning(priv, db[y], db[z]);
      FolderCompareMeaning(priv, db[x], db[z]);
      VideoPrecedesStrict(priv, db[x], db[y], db[z]);
      NameBeforeStrict(db[x], db[y], db[z]);
    }
  }

  /** Both sort keys of a video, its upload time and its receive time, are known. */
  predicate Timed(m: Media)
  {
    m.video.uploadTime.Some? && m.video.receiveTime.Some?
  }

  lemma VideoPrecedesWeak(priv: bool, a: Media, b: Media, c: Media)
    requires Timed(a) && Timed(b) && Timed(c)
    ensures VideoPrecedes(priv, a, c) ==> VideoPrecedes(priv, a, b) || VideoPrecedes(priv, b, c)
  {
  }

  lemma NameBeforeWeak(a: Media, b: Media, c: Media)
    ensures NameBefore(a, c) ==> NameBefore(a, b) || NameBefore(b, c)
  {
    if NameBefore(a, c) && !NameBefore(a, b) && Lower(a.name) != Lower(b.name) {
      LexLessTotal(Lower(a.name), Lower(b.name));
      LexLessTransitive(Lower(b.name), Lower(a.name), Lower(c.name));
    }
  }

  /** Every entry of `xs` is registered, and every video among them is `Timed`. */
  ghost predicate FolderKeysKnown(db: map<int, Media>, xs: multiset<int>)
  {
    forall x :: x in xs ==> x in db && (db[x].IsVideo() ==> Timed(db[x]))
  }

  /**
   * When every video has both times, `Folder.do_sort` is a strict weak order:
   * what comes before `z` comes before `y`, or `y` comes before `z`.
   * (Without them it is not: a video with no upload time ties with two videos
   * that are ordered.)
   */
  lemma FolderBeforeWeak(db: map<int, Media>, priv: bool, xs: multiset<int>)
    requires FolderKeysKnown(db, xs)
    ensures WeakOn(FolderBefore(db, priv), xs)
  {
    var before := FolderBefore(db, priv);
    forall x, y, z | x in xs && y in xs && z in xs && before(x, z)
      ensures before(x, y) || before(y, z)
    {
      FolderCompareMeaning(priv, db[x], db[y]);
      FolderCompareMeaning(priv, db[y], db[z]);
      FolderCompareMeaning(priv, db[x], db[z]);
      if Stratum(db[x]) == Stratum(db[y]) == Stratum(db[z]) == 2 {
        VideoPrecedesWeak(priv, db[x], db[y], db[z]);
      }
      NameBeforeWeak(db[x], db[y], db[z]);
    }
  }

  /** `Folder.sort_children`: the copy of the child list, sorted, replaces it. */
  function FolderSortChildren(db: map<int, Media>, id: int): (r: seq<int>)
    requires id in db
    ensures multiset(r) == multiset(Children(db[id]))
  {
    SortBy(Children(db[id]), FolderBefore(db, db[id].box.privFlag))
  }

  /**
   * After `Folder.sort_children` the children are a permutation of what they
   * were; folders come before channels and playlists, which come before
   * videos; folders among themselves, and channels and playlists among
   * themselves, are in case-insensitive name order; and videos are newest
   * upload first, then by receive time.
   */
  lemma FolderSortOrder(db: map<int, Media>, id: int)
    requires id in db
    requires forall k :: k in Children(db[id]) ==> k in db
    ensures var s := FolderSortChildren(db, id);
      && multiset(s) == multiset(Children(db[id]))
      && (forall i :: 0 <= i < |s| ==> s[i] in db)
    ensures var s := FolderSortChildren(db, id);
      forall i, j :: 0 <= i < j < |s| ==> Stratum(db[s[i]]) <= Stratum(db[s[j]])
    ensures var s := FolderSortChildren(db, id);
      forall i, j :: 0 <= i < j < |s| && Stratum(db[s[i]]) == Stratum(db[s[j]]) < 2 ==>
        Lower(db[s[i]].name) == Lower(db[s[j]].name) || LexLess(Lower(db[s[i]].name), Lower(db[s[j]].name))
    ensures var s := FolderSortChildren(db, id);
      forall i, j :: 0 <= i < j < |s| && db[s[i]].IsVideo() && db[s[j]].IsVideo() ==>
        !VideoPrecedes(db[id].box.privFlag, db[s[j]], db[s[i]])
  {
    var priv := db[id].box.privFlag;
    var before := FolderBefore(db, priv);
    var s := FolderSortChildren(db, id);
    FolderBeforeStrict(db, priv, multiset(Children(db[id])));
    SortBySorted(Children(db[id]), before);
    PermutedChildrenPresent(db, id, s);
    forall i, j | 0 <= i < j < |s|
      ensures Stratum(db[s[i]]) <= Stratum(db[s[j]])
      ensures Stratum(db[s[i]]) == Stratum(db[s[j]]) < 2 ==>
        Lower(db[s[i]].name) == Lower(db[s[j]].name) || LexLess(Lower(db[s[i]].name), Lower(db[s[j]].name))
      ensures db[s[i]].IsVideo() && db[s[j]].IsVideo() ==> !VideoPrecedes(priv, db[s[j]], db[s[i]])
    {
      assert !before(s[j], s[i]);
      FolderCompareMeaning(priv, db[s[j]], db[s[i]]);
      if Lower(db[s[i]].name) != Lower(db[s[j]].name) {
        LexLessTotal(Lower(db[s[i]].name), Lower(db[s[j]].name));
      }
    }
  }

  /**
   * When every video of a folder has both times, the folder's child list
   * after `FolderSortChildren` is the only permutation of it that is sorted
   * and keeps tied children in their old order: the list Python's stable
   * `list.sort` returns.
   */
  lemma FolderSortUnique(db: map<int, Media>, id: int, t: seq<int>)
    requires id in db
    requires FolderKeysKnown(db, multiset(Children(db[id])))
    requires multiset(t) == multiset(Children(db[id]))
    requires Sorted(t, FolderBefore(db, db[id].box.privFlag))
    requires forall z :: z in multiset(Children(db[id])) ==>
      Ties(t, z, FolderBefore(db, db[id].box.privFlag)) == Ties(Children(db[id]), z, FolderBefore(db, db[id].box.privFlag))
    ensures t == FolderSortChildren(db, id)
  {
    var before := FolderBefore(db, db[id].box.privFlag);
    var cs := multiset(Children(db[id]));
    FolderBeforeStrict(db, db[id].box.privFlag, cs);
    FolderBeforeWeak(db, db[id].box.privFlag, cs);
    forall z | z in cs
      ensures Ties(t, z, before) == Ties(Children(db[id]), z, before)
    {
    }
    StableSortUnique(Children(db[id]), t, before);
  }

  // ---------------------------------------------------------------------------
  // GenericRemoteContainer.do_sort
  // ---------------------------------------------------------------------------

  /**
   * `GenericRemoteContainer.do_sort(obj1, obj2)` exactly as written. None is
   * the value of the path that falls off the end of the function: equal upload
   * times with a receive time missing.
   */
  function RemoteCompareAsWritten(isPlaylist: bool, a: Media, b: Media): Option<int>
  {
    var ia := a.video.index;
    var ib := b.video.index;
    var ua := a.video.uploadTime;
    var ub := b.video.uploadTime;
    if isPlaylist && ia.Some? && ib.Some? then
      if ia.value < ib.value then Some(-1) else Some(1)
    else if ua.Some? && ub.Some? then
      if ua.value > ub.value then Some(-1)
      else if ua.value < ub.value then Some(1)
      else
        var ra := a.video.receiveTime;
        var rb := b.video.receiveTime;
        if ra.Some? && rb.Some? then
          if ra.value < rb.value then Some(-1) else if ra.value > rb.value then Some(1) else Some(0)
        else None
    else Some(0)
  }

  /** Exactly when the comparator as written has no result */
  lemma RemoteCompareAsWrittenFallsOff(isPlaylist: bool, a: Media, b: Media)
    ensures RemoteCompareAsWritten(isPlaylist, a, b) == None <==>
      && !(isPlaylist && a.video.index.Some? && b.video.index.Some?)
      && a.video.uploadTime.Some? && a.video.uploadTime == b.video.uploadTime
      && (a.video.receiveTime == None || b.video.receiveTime == None)
  {
  }

  /**
   * Two videos of a channel uploaded at the same time, one of them never
   * received: the comparator returns None, which `functools.cmp_to_key`
   * cannot compare with 0.
   */
  lemma RemoteCompareAsWrittenCounterexample()
    ensures var a := NewVideo(1, "a", 0).(video := NoVideoAttrs.(uploadTime := Some(100), receiveTime := Some(5)));
            var b := NewVideo(2, "b", 0).(video := NoVideoAttrs.(uploadTime := Some(100)));
            RemoteCompareAsWritten(false, a, b) == None
  {
  }

  /** The comparator with the missing case answered 0, as `Folder.do_sort` answers it */
  function RemoteCompare(isPlaylist: bool, a: Media, b: Media): int
  {
    var ia := a.video.index;
    var ib := b.video.index;
    var ua := a.video.uploadTime;
    var ub := b.video.uploadTime;
    var ra := a.video.receiveTime;
    var rb := b.video.receiveTime;
    if isPlaylist && ia.Some? && ib.Some? then
      if ia.value < ib.value then -1 else 1
    else if ua.Some? && ub.Some? then
      if ua.value > ub.value then -1
      else if ua.value < ub.value then 1
      else if ra.Some? && rb.Some? then
        if ra.value < rb.value then -1 else if ra.value > rb.value then 1 else 0
      else 0
    else 0
  }

  /** The corrected comparator answers wherever the original does, with the same value, and 0 elsewhere. */
  lemma RemoteCompareCorrects(isPlaylist: bool, a: Media, b: Media)
    ensures RemoteCompareAsWritten(isPlaylist, a, b).Some? ==>
      RemoteCompare(isPlaylist, a, b) == RemoteCompareAsWritten(isPlaylist, a, b).value
    ensures RemoteCompareAsWritten(isPlaylist, a, b).None? ==> RemoteCompare(isPlaylist, a, b) == 0
  {
  }

  /**
   * Two playlist videos with the same index each compare as coming after the
   * other, so neither goes first and the sort keeps them where they were.
   */
  lemma EqualIndicesTie(a: Media, b: Media)
    requires a.video.index.Some? && a.video.index == b.video.index
    ensures RemoteCompare(true, a, b) == 1 && RemoteCompare(true, b, a) == 1
  {
  }

  /**
   * When one video of a channel or playlist goes before another: by index in
   * a playlist when both have one, otherwise newer upload first and, for
   * equal uploads, earlier receive time first.
   */
  predicate RemotePrecedes(isPlaylist: bool, a: Media, b: Media)
  {
    var ia := a.video.index;
    var ib := b.video.index;
    if isPlaylist && ia.Some? && ib.Some? then ia.value < ib.value
    else VideoPrecedes(false, a, b)
  }

  lemma RemoteCompareMeaning(isPlaylist: bool, a: Media, b: Media)
    ensures RemoteCompare(isPlaylist, a, b) < 0 <==> RemotePrecedes(isPlaylist, a, b)
  {
  }

  /**
   * In a playlist that mixes indexed and unindexed videos the comparator is
   * cyclic: a goes before c by index, c before b and b before a by upload time.
   */
  lemma RemoteCompareMixedCycle()
    ensures var a := NewVideo(1, "a", 0).(video := NoVideoAttrs.(index := Some(1), uploadTime := Some(1), receiveTime := Some(0)));
            var b := NewVideo(2, "b", 0).(video := NoVideoAttrs.(uploadTime := Some(5), receiveTime := Some(0)));
            var c := NewVideo(3, "c", 0).(video := NoVideoAttrs.(index := Some(2), uploadTime := Some(9), receiveTime := Some(0)));
            && RemoteCompare(true, a, c) < 0 && RemoteCompare(true, c, b) < 0 && RemoteCompare(true, b, a) < 0
  {
  }

  /** The remote comparator's "comes first", on the dbids of a registry */
  function RemoteBefore(db: map<int, Media>, isPlaylist: bool): (int, int) -> bool
  {
    (x: int, y: int) => x in db && y in db && RemoteCompare(isPlaylist, db[x], db[y]) < 0
  }

  /** Every video of `xs` has an index, or none has: the case in which the playlist order is consistent */
  ghost predicate IndexUniform(db: map<int, Media>, xs: multiset<int>)
  {
    || (forall x :: x in xs && x in db ==> db[x].video.index.Some?)
    || (forall x :: x in xs && x in db ==> db[x].video.index.None?)
  }

  /**
   * The remote order is a strict order for a channel, and for a playlist
   * whose videos all have an index or all lack one. (When only some have one,
   * the index order and the time order can form a cycle.)
   */
  lemma RemoteBeforeStrict(db: map<int, Media>, isPlaylist: bool, xs: multiset<int>)
    requires isPlaylist ==> IndexUniform(db, xs)
    ensures StrictOn(RemoteBefore(db, isPlaylist), xs)
  {
    var before := RemoteBefore(db, isPlaylist);
    forall x, y | x in xs && y in xs && before(x, y)
      ensures !before(y, x)
    {
      RemoteCompareMeaning(isPlaylist, db[x], db[y]);
      RemoteCompareMeaning(isPlaylist, db[y], db[x]);
      VideoPrecedesStrict(false, db[x], db[y], db[y]);
    }
    forall x, y, z | x in xs && y in xs && z in xs && before(x, y) && before(y, z)
      ensures before(x, z)
    {
      RemoteCompareMeaning(isPlaylist, db[x], db[y]);
      RemoteCompareMeaning(isPlaylist, db[y], db[z]);
      RemoteCompareMeaning(isPlaylist, db[x], db[z]);
      VideoPrecedesStrict(false, db[x], db[y], db[z]);
    }
  }

  /**
   * `GenericRemoteContainer.sort_children`: a sorted copy replaces the child
   * list, and then the list is sorted once more in place.
   */
  function RemoteSortChildren(db: map<int, Media>, id: int): (r: seq<int>)
    requires id in db
    ensures multiset(r) == multiset(Children(db[id]))
  {
    var before := RemoteBefore(db, db[id].kind == Playlist);
    SortBy(SortBy(Children(db[id]), before), before)
  }

  /**
   * The mixed playlist of `RemoteCompareMixedCycle`, listed a, b, c: the first
   * sort gives c, b, a and the second a, c, b, so the second sort is not
   * redundant there.
   */
  lemma RemoteSortMixedTwice()
    ensures var a := NewVideo(1, "a", 10).(video := NoVideoAttrs.(index := Some(1), uploadTime := Some(1), receiveTime := Some(0)));
            var b := NewVideo(2, "b", 10).(video := NoVideoAttrs.(uploadTime := Some(5), receiveTime := Some(0)));
            var c := NewVideo(3, "c", 10).(video := NoVideoAttrs.(index := Some(2), uploadTime := Some(9), receiveTime := Some(0)));
            var p := NewRemote(true, 10, "p", None);
            var db := map[1 := a, 2 := b, 3 := c, 10 := p.(box := p.box.(children := [1, 2, 3]))];
            && SortBy([1, 2, 3], RemoteBefore(db, true)) == [3, 2, 1]
            && RemoteSortChildren(db, 10) == [1, 3, 2]
  {
    var a := NewVideo(1, "a", 10).(video := NoVideoAttrs.(index := Some(1), uploadTime := Some(1), receiveTime := Some(0)));
    var b := NewVideo(2, "b", 10).(video := NoVideoAttrs.(uploadTime := Some(5), receiveTime := Some(0)));
    var c := NewVideo(3, "c", 10).(video := NoVideoAttrs.(index := Some(2), uploadTime := Some(9), receiveTime := Some(0)));
    var p := NewRemote(true, 10, "p", None);
    var db := map[1 := a, 2 := b, 3 := c, 10 := p.(box := p.box.(children := [1, 2, 3]))];
    var before := RemoteBefore(db, true);
    assert before(1, 3) && before(3, 2) && before(2, 1) && !before(3, 1) && !before(2, 3) && !before(1, 2) by {
      RemoteCompareMixedCycle();
    }
    SortCycleTwice(1, 2, 3, before);
    assert db[10].kind == Playlist && Children(db[10]) == [1, 2, 3];
  }

  /**
   * Sorting twice is sorting once, for a channel and for a playlist whose
   * videos are uniformly indexed, and the children stay a permutation.
   */
  lemma RemoteSortOnce(db: map<int, Media>, id: int)
    requires id in db && db[id].IsRemote()
    requires forall k :: k in Children(db[id]) ==> k in db
    requires db[id].kind == Playlist ==> IndexUniform(db, multiset(Children(db[id])))
    ensures RemoteSortChildren(db, id) == SortBy(Children(db[id]), RemoteBefore(db, db[id].kind == Playlist))
    ensures Sorted(RemoteSortChildren(db, id), RemoteBefore(db, db[id].kind == Playlist))
    ensures forall i :: 0 <= i < |RemoteSortChildren(db, id)| ==> RemoteSortChildren(db, id)[i] in db
  {
    var isPlaylist := db[id].kind == Playlist;
    var before := RemoteBefore(db, isPlaylist);
    var cs := Children(db[id]);
    RemoteBeforeStrict(db, isPlaylist, multiset(cs));
    SortByIdempotent(cs, before);
    SortBySorted(cs, before);
    PermutedChildrenPresent(db, id, RemoteSortChildren(db, id));
  }

  /**
   * After `GenericRemoteContainer.sort_children`, for a channel or a playlist
   * whose videos are uniformly indexed: in a playlist with indices the videos
   * are in index order; otherwise videos with known upload times are newest
   * first, and equal upload times are in receive-time order.
   */
  lemma RemoteSortOrder(db: map<int, Media>, id: int)
    requires id in db && db[id].IsRemote()
    requires forall k :: k in Children(db[id]) ==> k in db
    requires db[id].kind == Playlist ==> IndexUniform(db, multiset(Children(db[id])))
    ensures var s := RemoteSortChildren(db, id);
      forall i, j :: 0 <= i < j < |s| ==> (s[i] in db && s[j] in db &&
        var a := db[s[i]].video;
        var b := db[s[j]].video;
        && (db[id].kind == Playlist && a.index.Some? && b.index.Some? ==> a.index.value <= b.index.value)
        && (!(db[id].kind == Playlist && a.index.Some?) && a.uploadTime.Some? && b.uploadTime.Some? ==>
              a.uploadTime.value >= b.uploadTime.value)
        && ((&& !(db[id].kind == Playlist && a.index.Some?)
             && a.uploadTime.Some? && a.uploadTime == b.uploadTime
             && a.receiveTime.Some? && b.receiveTime.Some?) ==>
              a.receiveTime.value <= b.receiveTime.value))
  {
    var isPlaylist := db[id].kind == Playlist;
    var before := RemoteBefore(db, isPlaylist);
    RemoteSortOnce(db, id);
    var s := RemoteSortChildren(db, id);
    forall i, j | 0 <= i < j < |s|
      ensures !RemotePrecedes(isPlaylist, db[s[j]], db[s[i]])
    {
      assert !before(s[j], s[i]);
      RemoteCompareMeaning(isPlaylist, db[s[j]], db[s[i]]);
    }
  }

  /**
   * The sort keys a remote container compares by are known: in a playlist
   * every video has an index, or (in a channel, or a playlist in which no
   * video has one) every video is `Timed`.
   */
  ghost predicate RemoteKeysKnown(db: map<int, Media>, isPlaylist: bool, xs: multiset<int>)
  {
    && (forall x :: x in xs ==> x in db)
    && (|| (isPlaylist && forall x :: x in xs ==> db[x].video.index.Some?)
        || (&& (isPlaylist ==> forall x :: x in xs ==> db[x].video.index.None?)
            && forall x :: x in xs ==> Timed(db[x])))
  }

  /** With its keys known, the remote order is a strict weak order. */
  lemma RemoteBeforeWeak(db: map<int, Media>, isPlaylist: bool, xs: multiset<int>)
    requires RemoteKeysKnown(db, isPlaylist, xs)
    ensures isPlaylist ==> IndexUniform(db, xs)
    ensures WeakOn(RemoteBefore(db, isPlaylist), xs)
  {
    var before := RemoteBefore(db, isPlaylist);
    forall x, y, z | x in xs && y in xs && z in xs && before(x, z)
      ensures before(x, y) || before(y, z)
    {
      RemoteCompareMeaning(isPlaylist, db[x], db[y]);
      RemoteCompareMeaning(isPlaylist, db[y], db[z]);
      RemoteCompareMeaning(isPlaylist, db[x], db[z]);
      if !(isPlaylist && forall w :: w in xs ==> db[w].video.index.Some?) {
        VideoPrecedesWeak(false, db[x], db[y], db[z]);
      }
    }
  }

  /**
   * With its keys known, the child list of a channel or playlist after
   * `RemoteSortChildren` is the only permutation of it that is sorted and
   * keeps tied videos in their old order: what Python's stable `list.sort`
   * returns, once or twice.
   */
  lemma RemoteSortUnique(db: map<int, Media>, id: int, t: seq<int>)
    requires id in db && db[id].IsRemote()
    requires RemoteKeysKnown(db, db[id].kind == Playlist, multiset(Children(db[id])))
    requires multiset(t) == multiset(Children(db[id]))
    requires Sorted(t, RemoteBefore(db, db[id].kind == Playlist))
    requires forall z :: z in multiset(Children(db[id])) ==>
      Ties(t, z, RemoteBefore(db, db[id].kind == Playlist)) == Ties(Children(db[id]), z, RemoteBefore(db, db[id].kind == Playlist))
    ensures t == RemoteSortChildren(db, id)
  {
    var isPlaylist := db[id].kind == Playlist;
    var before := RemoteBefore(db, isPlaylist);
    var cs := multiset(Children(db[id]));
    RemoteBeforeWeak(db, isPlaylist, cs);
    RemoteBeforeStrict(db, isPlaylist, cs);
    forall k | k in Children(db[id])
      ensures k in db
    {
      assert k in cs;
    }
    RemoteSortOnce(db, id);
    forall z | z in cs
      ensures Ties(t, z, before) == Ties(Children(db[id]), z, before)
    {
    }
    StableSortUnique(Children(db[id]), t, before);
  }
}
