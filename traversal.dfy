/**
 * The three recursive walks over a container's subtree:
 * `compile_all_containers` (the containers, in pre-order, the container
 * itself first), `compile_all_videos` (the videos, depth first in child
 * order) and `count_descendants` (how many descendants of each kind).
 *
 * Each walk is specified here as a function of the registry; the methods of
 * the registry class (registry.dfy) run the walks as the source does, with a
 * loop over the child list and a recursive call per child container.
 * `…In(db, rk, id, n)` is the walk over the first `n` children of `id`.
 */
module Traversal {
  import opened Media
  import opened Tree

  /** A container and every container below it, in pre-order */
  ghost function ContainersOf(db: map<int, Media>, rk: Ranks, id: int): (r: seq<int>)
    requires Ranked(db, rk) && id in db && db[id].IsContainer()
    ensures |r| > 0 && r[0] == id
    decreases Height(rk, id), 1, 0
  {
    [id] + ContainersIn(db, rk, id, |Children(db[id])|)
  }

  /** The containers below the first `n` children of `id`, each child container followed by its own */
  ghost function ContainersIn(db: map<int, Media>, rk: Ranks, id: int, n: nat): (r: seq<int>)
    requires Ranked(db, rk) && id in db && db[id].IsContainer() && n <= |Children(db[id])|
    decreases Height(rk, id), 0, n
  {
    if n == 0 then []
    else
      ChildRanked(db, rk, id, n - 1);
      var k := Children(db[id])[n - 1];
      ContainersIn(db, rk, id, n - 1) + (if db[k].IsVideo() then [] else ContainersOf(db, rk, k))
  }

  /** Every video below a container, depth first in child order */
  ghost function VideosOf(db: map<int, Media>, rk: Ranks, id: int): (r: seq<int>)
    requires Ranked(db, rk) && id in db && db[id].IsContainer()
    decreases Height(rk, id), 1, 0
  {
    VideosIn(db, rk, id, |Children(db[id])|)
  }

  /** The videos below the first `n` children of `id` */
  ghost function VideosIn(db: map<int, Media>, rk: Ranks, id: int, n: nat): (r: seq<int>)
    requires Ranked(db, rk) && id in db && db[id].IsContainer() && n <= |Children(db[id])|
    decreases Height(rk, id), 0, n
  {
    if n == 0 then []
    else
      ChildRanked(db, rk, id, n - 1);
      var k := Children(db[id])[n - 1];
      VideosIn(db, rk, id, n - 1) + (if db[k].IsVideo() then [k] else VideosOf(db, rk, k))
  }

  /** Every dbid `compile_all_videos` lists is a registered video. */
  lemma {:induction false} VideosAreVideos(db: map<int, Media>, rk: Ranks, id: int)
    requires Ranked(db, rk) && id in db && db[id].IsContainer()
    ensures forall i :: 0 <= i < |VideosOf(db, rk, id)| ==>
      VideosOf(db, rk, id)[i] in db && db[VideosOf(db, rk, id)[i]].IsVideo()
    decreases Height(rk, id), 1, 0
  {
    VideosInAreVideos(db, rk, id, |Children(db[id])|);
  }

  lemma {:induction false} VideosInAreVideos(db: map<int, Media>, rk: Ranks, id: int, n: nat)
    requires Ranked(db, rk) && id in db && db[id].IsContainer() && n <= |Children(db[id])|
    ensures forall i :: 0 <= i < |VideosIn(db, rk, id, n)| ==>
      VideosIn(db, rk, id, n)[i] in db && db[VideosIn(db, rk, id, n)[i]].IsVideo()
    decreases Height(rk, id), 0, n
  {
    if n > 0 {
      ChildRanked(db, rk, id, n - 1);
      var k := Children(db[id])[n - 1];
      VideosInAreVideos(db, rk, id, n - 1);
      var front := VideosIn(db, rk, id, n - 1);
      var vs := if db[k].IsVideo() then [k] else VideosOf(db, rk, k);
      if !db[k].IsVideo() {
        VideosAreVideos(db, rk, k);
      }
      var all := VideosIn(db, rk, id, n);
      assert all == front + vs;
      forall i | 0 <= i < |all|
        ensures all[i] in db && db[all[i]].IsVideo()
      {
        if i >= |front| {
          assert all[i] == vs[i - |front|];
        } else {
          assert all[i] == front[i];
        }
      }
    }
  }

  /** Every dbid `compile_all_containers` lists is a registered container. */
  lemma {:induction false} ContainersAreContainers(db: map<int, Media>, rk: Ranks, id: int)
    requires Ranked(db, rk) && id in db && db[id].IsContainer()
    ensures forall i :: 0 <= i < |ContainersOf(db, rk, id)| ==>
      ContainersOf(db, rk, id)[i] in db && db[ContainersOf(db, rk, id)[i]].IsContainer()
    decreases Height(rk, id), 1, 0
  {
    ContainersInAreContainers(db, rk, id, |Children(db[id])|);
    var all := ContainersOf(db, rk, id);
    var rest := ContainersIn(db, rk, id, |Children(db[id])|);
    assert all == [id] + rest;
    forall i | 0 <= i < |all|
      ensures all[i] in db && db[all[i]].IsContainer()
    {
      if i > 0 {
        assert all[i] == rest[i - 1];
      }
    }
  }

  lemma {:induction false} ContainersInAreContainers(db: map<int, Media>, rk: Ranks, id: int, n: nat)
    requires Ranked(db, rk) && id in db && db[id].IsContainer() && n <= |Children(db[id])|
    ensures forall i :: 0 <= i < |ContainersIn(db, rk, id, n)| ==>
      ContainersIn(db, rk, id, n)[i] in db && db[ContainersIn(db, rk, id, n)[i]].IsContainer()
    decreases Height(rk, id), 0, n
  {
    if n > 0 {
      ChildRanked(db, rk, id, n - 1);
      var k := Children(db[id])[n - 1];
      ContainersInAreContainers(db, rk, id, n - 1);
      var front := ContainersIn(db, rk, id, n - 1);
      var cs := if db[k].IsVideo() then [] else ContainersOf(db, rk, k);
      if !db[k].IsVideo() {
        ContainersAreContainers(db, rk, k);
      }
      var all := ContainersIn(db, rk, id, n);
      assert all == front + cs;
      forall i | 0 <= i < |all|
        ensures all[i] in db && db[all[i]].IsContainer()
      {
        if i >= |front| {
          assert all[i] == cs[i - |front|];
        } else {
          assert all[i] == front[i];
        }
      }
    }
  }

  /** The `count_list` of `count_descendants`: total, videos, channels, playlists, folders */
  datatype Census = Census(total: int, video: int, channel: int, playlist: int, folder: int)
  {
    predicate NonNegative()
    {
      video >= 0 && channel >= 0 && playlist >= 0 && folder >= 0
    }

    /** Every descendant is counted once in the total and once under its kind. */
    predicate Balanced()
    {
      total == video + channel + playlist + folder
    }

    /** Nonnegative counts that are each balanced add up to balanced nonnegative counts. */
    function Add(o: Census): (r: Census)
      ensures Balanced() && o.Balanced() ==> r.Balanced()
      ensures NonNegative() && o.NonNegative() ==> r.NonNegative()
      ensures r.video == video + o.video
      ensures r.channel + r.playlist + r.folder == channel + playlist + folder + o.channel + o.playlist + o.folder
    {
      Census(total + o.total, video + o.video, channel + o.channel, playlist + o.playlist, folder + o.folder)
    }
  }

  const NoCensus := Census(0, 0, 0, 0, 0)

  /** Adding counts is associative. */
  lemma CensusAddAssoc(a: Census, b: Census, c: Census)
    ensures a.Add(b).Add(c) == a.Add(b.Add(c))
  {
  }

  /** One child counted, under its kind, on top of what was counted below it */
  function Counted(below: Census, m: Media): (r: Census)
    ensures r.total == below.total + 1
    ensures below.Balanced() ==> r.Balanced()
    ensures below.NonNegative() ==> r.NonNegative()
    ensures r.video == below.video + (if m.kind == Video then 1 else 0)
    ensures r.channel + r.playlist + r.folder == below.channel + below.playlist + below.folder + (if m.kind == Video then 0 else 1)
  {
    match m.kind
    case Video => below.(total := below.total + 1, video := below.video + 1)
    case Channel => below.(total := below.total + 1, channel := below.channel + 1)
    case Playlist => below.(total := below.total + 1, playlist := below.playlist + 1)
    case Folder => below.(total := below.total + 1, folder := below.folder + 1)
  }

  /** The descendants of a container, counted by kind */
  ghost function DescendantCensus(db: map<int, Media>, rk: Ranks, id: int): (r: Census)
    requires Ranked(db, rk) && id in db && db[id].IsContainer()
    decreases Height(rk, id), 1, 0
  {
    CensusIn(db, rk, id, |Children(db[id])|)
  }

  /** The first `n` children of `id` and everything below them, counted by kind */
  ghost function CensusIn(db: map<int, Media>, rk: Ranks, id: int, n: nat): (r: Census)
    requires Ranked(db, rk) && id in db && db[id].IsContainer() && n <= |Children(db[id])|
    decreases Height(rk, id), 0, n
  {
    if n == 0 then NoCensus
    else
      ChildRanked(db, rk, id, n - 1);
      CensusIn(db, rk, id, n - 1).Add(ChildCensus(db, rk, Children(db[id])[n - 1]))
  }

  /** One child counted, and everything below it when it is a container */
  ghost function ChildCensus(db: map<int, Media>, rk: Ranks, k: int): (r: Census)
    requires Ranked(db, rk) && k in db
    decreases Height(rk, k), 2, 0
  {
    Counted(if db[k].IsVideo() then NoCensus else DescendantCensus(db, rk, k), db[k])
  }

  /**
   * `count_descendants` keeps its total equal to the sum of the four kind
   * counts, and never counts below zero.
   */
  lemma {:induction false} CensusBalanced(db: map<int, Media>, rk: Ranks, id: int)
    requires Ranked(db, rk) && id in db && db[id].IsContainer()
    ensures DescendantCensus(db, rk, id).Balanced()
    ensures DescendantCensus(db, rk, id).NonNegative()
    decreases Height(rk, id), 1, 0
  {
    CensusInBalanced(db, rk, id, |Children(db[id])|);
  }

  lemma {:induction false} CensusInBalanced(db: map<int, Media>, rk: Ranks, id: int, n: nat)
    requires Ranked(db, rk) && id in db && db[id].IsContainer() && n <= |Children(db[id])|
    ensures CensusIn(db, rk, id, n).Balanced()
    ensures CensusIn(db, rk, id, n).NonNegative()
    decreases Height(rk, id), 0, n
  {
    if n > 0 {
      ChildRanked(db, rk, id, n - 1);
      CensusInBalanced(db, rk, id, n - 1);
      ChildCensusBalanced(db, rk, Children(db[id])[n - 1]);
    }
  }

  lemma {:induction false} ChildCensusBalanced(db: map<int, Media>, rk: Ranks, k: int)
    requires Ranked(db, rk) && k in db
    ensures ChildCensus(db, rk, k).Balanced()
    ensures ChildCensus(db, rk, k).NonNegative()
    decreases Height(rk, k), 2, 0
  {
    if !db[k].IsVideo() {
      CensusBalanced(db, rk, k);
    }
  }

  /**
   * The census agrees with the two lists: it counts as many videos as
   * `compile_all_videos` lists, and as many containers as
   * `compile_all_containers` lists besides the container itself.
   */
  lemma {:induction false} CensusMatchesLists(db: map<int, Media>, rk: Ranks, id: int)
    requires Ranked(db, rk) && id in db && db[id].IsContainer()
    ensures DescendantCensus(db, rk, id).video == |VideosOf(db, rk, id)|
    ensures var c := DescendantCensus(db, rk, id);
      c.channel + c.playlist + c.folder == |ContainersOf(db, rk, id)| - 1
    decreases Height(rk, id), 1, 0
  {
    CensusInMatchesLists(db, rk, id, |Children(db[id])|);
  }

  lemma {:induction false} CensusInMatchesLists(db: map<int, Media>, rk: Ranks, id: int, n: nat)
    requires Ranked(db, rk) && id in db && db[id].IsContainer() && n <= |Children(db[id])|
    ensures CensusIn(db, rk, id, n).video == |VideosIn(db, rk, id, n)|
    ensures var c := CensusIn(db, rk, id, n);
      c.channel + c.playlist + c.folder == |ContainersIn(db, rk, id, n)|
    decreases Height(rk, id), 0, n
  {
    if n > 0 {
      ChildRanked(db, rk, id, n - 1);
      CensusInMatchesLists(db, rk, id, n - 1);
      ChildCensusMatchesLists(db, rk, Children(db[id])[n - 1]);
      CensusInStep(db, rk, id, n);
    }
  }

  /** The step of the induction: one more child, counted and listed the same way */
  lemma CensusInStep(db: map<int, Media>, rk: Ranks, id: int, n: nat)
    requires Ranked(db, rk) && id in db && db[id].IsContainer() && 0 < n <= |Children(db[id])|
    requires CensusIn(db, rk, id, n - 1).video == |VideosIn(db, rk, id, n - 1)|
    requires var c := CensusIn(db, rk, id, n - 1);
      c.channel + c.playlist + c.folder == |ContainersIn(db, rk, id, n - 1)|
    requires var k := Children(db[id])[n - 1];
      k in db && ChildCensus(db, rk, k).video == (if db[k].IsVideo() then 1 else |VideosOf(db, rk, k)|)
    requires var k := Children(db[id])[n - 1]; var c := ChildCensus(db, rk, k);
      k in db && c.channel + c.playlist + c.folder == (if db[k].IsVideo() then 0 else |ContainersOf(db, rk, k)|)
    ensures CensusIn(db, rk, id, n).video == |VideosIn(db, rk, id, n)|
    ensures var c := CensusIn(db, rk, id, n);
      c.channel + c.playlist + c.folder == |ContainersIn(db, rk, id, n)|
  {
    ChildRanked(db, rk, id, n - 1);
    var k := Children(db[id])[n - 1];
    var vs := if db[k].IsVideo() then [k] else VideosOf(db, rk, k);
    var cs := if db[k].IsVideo() then [] else ContainersOf(db, rk, k);
    assert CensusIn(db, rk, id, n) == CensusIn(db, rk, id, n - 1).Add(ChildCensus(db, rk, k));
    assert VideosIn(db, rk, id, n) == VideosIn(db, rk, id, n - 1) + vs;
    assert ContainersIn(db, rk, id, n) == ContainersIn(db, rk, id, n - 1) + cs;
  }

  lemma {:induction false} ChildCensusMatchesLists(db: map<int, Media>, rk: Ranks, k: int)
    requires Ranked(db, rk) && k in db
    ensures ChildCensus(db, rk, k).video == if db[k].IsVideo() then 1 else |VideosOf(db, rk, k)|
    ensures var c := ChildCensus(db, rk, k);
      c.channel + c.playlist + c.folder == if db[k].IsVideo() then 0 else |ContainersOf(db, rk, k)|
    decreases Height(rk, k), 2, 0
  {
    if !db[k].IsVideo() {
      CensusMatchesLists(db, rk, k);
    }
  }

  /**
   * The children of a container that holds only videos (in a valid registry
   * every Channel and Playlist does: see `Registry.RemoteIsFlat`) are exactly
   * its videos, and it is the only container of its subtree.
   */
  lemma {:induction false} FlatContainer(db: map<int, Media>, rk: Ranks, id: int)
    requires Ranked(db, rk) && id in db && db[id].IsContainer()
    requires forall i :: 0 <= i < |Children(db[id])| ==> Children(db[id])[i] in db && db[Children(db[id])[i]].IsVideo()
    ensures VideosOf(db, rk, id) == Children(db[id])
    ensures ContainersOf(db, rk, id) == [id]
  {
    FlatPrefix(db, rk, id, |Children(db[id])|);
  }

  lemma {:induction false} FlatPrefix(db: map<int, Media>, rk: Ranks, id: int, n: nat)
    requires Ranked(db, rk) && id in db && db[id].IsContainer() && n <= |Children(db[id])|
    requires forall i :: 0 <= i < |Children(db[id])| ==> Children(db[id])[i] in db && db[Children(db[id])[i]].IsVideo()
    ensures VideosIn(db, rk, id, n) == Children(db[id])[..n]
    ensures ContainersIn(db, rk, id, n) == []
  {
    if n > 0 {
      FlatPrefix(db, rk, id, n - 1);
      var ks := Children(db[id]);
      assert ks[..n] == ks[..n - 1] + [ks[n - 1]];
    }
  }
}
