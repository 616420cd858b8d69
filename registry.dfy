/**
 * The media registry: every Video, Channel, Playlist and Folder by dbid,
 * with the methods of `media.py` that change nodes in place and the loops
 * and recursive walks that read them.
 *
 * The Python objects hold direct references to their parent and children;
 * here `nodes` maps each dbid to the node's current value, and a method
 * "on" a node takes its dbid. A ghost ranking (`ranks`) orders parents below
 * children, so the walks up the parent links and down the child lists end.
 */
module Registry {
  import opened Wrappers
  import opened Media
  import opened Tree
  import opened Counting
  import opened Ordering
  import opened Sorting
  import opened Aliasing
  import opened ChildList
  import opened Traversal
  import opened Export

  /** Each node is filed under its own dbid. */
  ghost predicate Filed(db: map<int, Media>)
  {
    forall k :: k in db ==> db[k].dbid == k
  }

  /** Every dbid of `cs` is registered and ranks above `id`: what a child list of `id` must be. */
  ghost predicate Above(db: map<int, Media>, rk: Ranks, id: int, cs: seq<int>)
  {
    forall i :: 0 <= i < |cs| ==> cs[i] in db && Rank(rk, id) < Rank(rk, cs[i])
  }

  /** The current children of a registered node rank above it. */
  lemma ChildrenAbove(db: map<int, Media>, rk: Ranks, id: int)
    requires Ranked(db, rk) && id in db
    ensures Above(db, rk, id, Children(db[id]))
  {
    forall i | 0 <= i < |Children(db[id])|
      ensures Children(db[id])[i] in db && Rank(rk, id) < Rank(rk, Children(db[id])[i])
    {
      ChildRanked(db, rk, id, i);
    }
  }

  /** Removing one dbid from a list that ranks above `id` leaves one that ranks above `id`. */
  lemma AboveRemoveFirst(db: map<int, Media>, rk: Ranks, id: int, s: seq<int>, x: int)
    requires Above(db, rk, id, s) && x in s
    ensures Above(db, rk, id, RemoveFirst(s, x))
  {
    var r := RemoveFirst(s, x);
    forall i | 0 <= i < |r|
      ensures r[i] in db && Rank(rk, id) < Rank(rk, r[i])
    {
      assert r[i] in multiset(s);
    }
  }

  /** A reordering of a list that ranks above `id` ranks above `id`. */
  lemma AbovePermutation(db: map<int, Media>, rk: Ranks, id: int, s: seq<int>, t: seq<int>)
    requires Above(db, rk, id, s) && multiset(s) == multiset(t)
    ensures Above(db, rk, id, t)
  {
    forall i | 0 <= i < |t|
      ensures t[i] in db && Rank(rk, id) < Rank(rk, t[i])
    {
      assert t[i] in multiset(s);
      var j :| 0 <= j < |s| && s[j] == t[i];
    }
  }

  /**
   * Replacing a node by one with the same dbid and parent, whose children
   * rank above it, keeps the registry ranked and filed.
   */
  lemma ReplaceKeepsShape(db: map<int, Media>, rk: Ranks, id: int, m: Media)
    requires Ranked(db, rk) && Filed(db) && id in db
    requires m.dbid == id && m.parent == db[id].parent
    requires Above(db, rk, id, Children(m))
    ensures Ranked(db[id := m], rk) && Filed(db[id := m])
  {
    var r := db[id := m];
    forall k, i | k in r && 0 <= i < |Children(r[k])|
      ensures Children(r[k])[i] in r && rk.depth[k] < rk.depth[Children(r[k])[i]]
    {
      if k != id {
        assert r[k] == db[k];
      }
    }
  }

  /** Giving a node a parent that ranks below it keeps the registry ranked and filed. */
  lemma ReparentKeepsShape(db: map<int, Media>, rk: Ranks, id: int, p: Option<int>)
    requires Ranked(db, rk) && Filed(db) && id in db
    requires p.Some? ==> p.value in db && Rank(rk, p.value) < Rank(rk, id)
    ensures Ranked(db[id := db[id].(parent := p)], rk) && Filed(db[id := db[id].(parent := p)])
  {
    var r := db[id := db[id].(parent := p)];
    assert Children(r[id]) == Children(db[id]);
    forall k, i | k in r && 0 <= i < |Children(r[k])|
      ensures Children(r[k])[i] in r && rk.depth[k] < rk.depth[Children(r[k])[i]]
    {
      assert Children(r[k]) == Children(db[k]);
    }
    forall k | k in r && r[k].parent.Some?
      ensures r[k].parent.value in r && rk.depth[r[k].parent.value] < rk.depth[k]
    {
      if k != id {
        assert r[k] == db[k];
      }
    }
  }

  /**
   * Every child of a channel or playlist is a registered video: `add_child`
   * on a channel or playlist takes only videos (and children already listed).
   */
  ghost predicate VideosOnly(db: map<int, Media>)
  {
    forall k, i :: k in db && db[k].IsRemote() && 0 <= i < |Children(db[k])| ==>
      Children(db[k])[i] in db && db[Children(db[k])[i]].IsVideo()
  }

  /** `cs` may be the child list of `m`: anything for a Folder, only registered videos otherwise */
  ghost predicate Admissible(db: map<int, Media>, m: Media, cs: seq<int>)
  {
    m.IsRemote() ==> forall i :: 0 <= i < |cs| ==> cs[i] in db && db[cs[i]].IsVideo()
  }

  /** The current children of a registered node are admissible for it. */
  lemma ChildrenAdmissible(db: map<int, Media>, id: int)
    requires VideosOnly(db) && id in db
    ensures Admissible(db, db[id], Children(db[id]))
  {
  }

  /** A reordering of an admissible list, or one with an entry removed, is admissible. */
  lemma AdmissibleSubset(db: map<int, Media>, m: Media, s: seq<int>, t: seq<int>)
    requires Admissible(db, m, s) && multiset(t) <= multiset(s)
    ensures Admissible(db, m, t)
  {
    if m.IsRemote() {
      forall i | 0 <= i < |t|
        ensures t[i] in db && db[t[i]].IsVideo()
      {
        var x := t[i];
        assert x in multiset(t);
        assert x in multiset(s);
        var j :| 0 <= j < |s| && s[j] == x;
      }
    }
  }

  /** Replacing a node by one of the same kind whose children are admissible keeps `VideosOnly`. */
  lemma ReplaceKeepsVideosOnly(db: map<int, Media>, id: int, m: Media)
    requires VideosOnly(db) && id in db && m.kind == db[id].kind
    requires Admissible(db, m, Children(m))
    ensures VideosOnly(db[id := m])
  {
    var r := db[id := m];
    forall k, i | k in r && r[k].IsRemote() && 0 <= i < |Children(r[k])|
      ensures Children(r[k])[i] in r && r[Children(r[k])[i]].IsVideo()
    {
      var c := Children(r[k])[i];
      if k != id {
        assert r[k] == db[k];
      }
      assert c in db && db[c].IsVideo();
      assert r[c].kind == db[c].kind;
    }
  }

  /** Filing a new childless node keeps `VideosOnly`. */
  lemma EnrolKeepsVideosOnly(db: map<int, Media>, m: Media)
    requires VideosOnly(db) && m.dbid !in db && Children(m) == []
    ensures VideosOnly(db[m.dbid := m])
  {
    var r := db[m.dbid := m];
    forall k, i | k in r && r[k].IsRemote() && 0 <= i < |Children(r[k])|
      ensures Children(r[k])[i] in r && r[Children(r[k])[i]].IsVideo()
    {
      assert k != m.dbid && r[k] == db[k];
      var c := Children(db[k])[i];
      assert c in db && c != m.dbid;
    }
  }

  /** A channel or playlist of a registry kept `VideosOnly` is its subtree's only container, and its videos are its children. */
  lemma RemoteIsFlat(db: map<int, Media>, rk: Ranks, id: int)
    requires Ranked(db, rk) && VideosOnly(db) && id in db && db[id].IsRemote()
    ensures VideosOf(db, rk, id) == Children(db[id])
    ensures ContainersOf(db, rk, id) == [id]
  {
    FlatContainer(db, rk, id);
  }

  /** In a registry kept `VideosOnly`, the flat entry of a wanted channel or playlist is its nested export. */
  lemma RemoteFlatEntry(db: map<int, Media>, rk: Ranks, id: int, acc: map<int, Doc>, f: ExportFlags)
    requires Ranked(db, rk) && Filed(db) && VideosOnly(db) && id in db && db[id].IsRemote() && !Skipped(db[id], f)
    ensures PrepareExport(db, rk, id, f).Some?
    ensures FlatExport(db, rk, id, acc, f) == acc[id := PrepareExport(db, rk, id, f).value]
  {
    FlatEntryIsExport(db, rk, id, acc, f);
  }

  /** The ranking with a new node one rank above its parent (or at rank 0 without one) */
  function Enrolled(rk: Ranks, id: int, p: Option<int>): (r: Ranks)
  {
    var d := if p.Some? then Rank(rk, p.value) + 1 else 0;
    Ranks(rk.depth[id := d], if d + 1 > rk.bound then d + 1 else rk.bound)
  }

  /** Filing a new childless node whose parent is registered keeps the registry ranked and filed. */
  lemma EnrolKeepsShape(db: map<int, Media>, rk: Ranks, m: Media)
    requires Ranked(db, rk) && Filed(db)
    requires m.dbid !in db && Children(m) == [] && (m.parent.Some? ==> m.parent.value in db)
    ensures var rk2 := Enrolled(rk, m.dbid, m.parent);
      && Ranked(db[m.dbid := m], rk2) && Filed(db[m.dbid := m])
      && (m.parent.Some? ==> Rank(rk2, m.parent.value) < Rank(rk2, m.dbid))
      && (forall k :: k in db ==> Rank(rk2, k) == Rank(rk, k))
  {
    var r := db[m.dbid := m];
    var rk2 := Enrolled(rk, m.dbid, m.parent);
    forall k | k in db
      ensures Rank(rk2, k) == Rank(rk, k)
    {
      assert k != m.dbid;
    }
    forall k, i | k in r && 0 <= i < |Children(r[k])|
      ensures Children(r[k])[i] in r && rk2.depth[k] < rk2.depth[Children(r[k])[i]]
    {
      assert k != m.dbid;
      assert Children(r[k])[i] in db;
      assert Children(r[k])[i] != m.dbid;
    }
    forall k | k in r && r[k].parent.Some?
      ensures r[k].parent.value in r && rk2.depth[r[k].parent.value] < rk2.depth[k]
    {
      if k != m.dbid {
        assert r[k].parent.value != m.dbid;
      }
    }
  }

  class MediaRegistry {
    /** `media_reg_dict`: every node by its dbid */
    var nodes: map<int, Media>
    ghost var ranks: Ranks

    ghost predicate Valid()
      reads this
    {
      Ranked(nodes, ranks) && Filed(nodes) && VideosOnly(nodes)
    }

    /** An empty registry */
    constructor ()
      ensures Valid() && nodes == map[]
    {
      nodes := map[];
      ranks := Ranks(map[], 0);
    }

    /** Stores a new value for a node with the same dbid, parent and children. */
    method Update(id: int, m: Media)
      requires Valid() && id in nodes
      requires m.dbid == id && m.kind == nodes[id].kind && m.parent == nodes[id].parent
      requires Children(m) == Children(nodes[id])
      modifies this
      ensures Valid() && ranks == old(ranks)
      ensures nodes == old(nodes)[id := m]
    {
      ChildrenAbove(nodes, ranks, id);
      ReplaceKeepsShape(nodes, ranks, id, m);
      ChildrenAdmissible(nodes, id);
      ReplaceKeepsVideosOnly(nodes, id, m);
      nodes := nodes[id := m];
    }

    /** Replaces the child list of a container by one ranking above it, of videos only for a channel or playlist. */
    method SetChildren(id: int, cs: seq<int>)
      requires Valid() && id in nodes && nodes[id].IsContainer()
      requires Above(nodes, ranks, id, cs) && Admissible(nodes, nodes[id], cs)
      modifies this
      ensures Valid() && ranks == old(ranks)
      ensures nodes == old(nodes)[id := WithChildren(old(nodes)[id], cs)]
    {
      ReplaceKeepsShape(nodes, ranks, id, WithChildren(nodes[id], cs));
      ReplaceKeepsVideosOnly(nodes, id, WithChildren(nodes[id], cs));
      nodes := nodes[id := WithChildren(nodes[id], cs)];
    }

    /** Files a new childless node, one rank above its parent. */
    method Enrol(m: Media)
      requires Valid() && m.dbid !in nodes && Children(m) == []
      requires m.parent.Some? ==> m.parent.value in nodes
      modifies this
      ensures Valid() && nodes == old(nodes)[m.dbid := m]
      ensures m.parent.Some? ==> Rank(ranks, m.parent.value) < Rank(ranks, m.dbid)
    {
      EnrolKeepsShape(nodes, ranks, m);
      EnrolKeepsVideosOnly(nodes, m);
      nodes := nodes[m.dbid := m];
      ranks := Enrolled(ranks, m.dbid, m.parent);
    }

    // -------------------------------------------------------------------------
    // Child lists and counters
    // -------------------------------------------------------------------------

    /**
     * `sort_children`: a Folder replaces its list by a sorted copy; a channel
     * or playlist does the same and then sorts the list once more in place.
     */
    method SortChildren(id: int)
      requires Valid() && id in nodes && nodes[id].IsContainer()
      modifies this
      ensures Valid() && ranks == old(ranks)
      ensures nodes == SortedChildren(old(nodes), id)
    {
      if nodes[id].IsRemote() {
        SortRemoteChildren(id);
      } else {
        SortFolderChildren(id);
      }
    }

    /**
     * `GenericRemoteContainer.sort_children`: the sorted copy, sorted once
     * more in place; the list is stored once both sorts are done
     */
    method SortRemoteChildren(id: int)
      requires Valid() && id in nodes && nodes[id].IsRemote()
      modifies this
      ensures Valid() && ranks == old(ranks)
      ensures nodes == old(nodes)[id := WithChildren(old(nodes)[id], RemoteSortChildren(old(nodes), id))]
    {
      var m := nodes[id];
      ChildrenAbove(nodes, ranks, id);
      var before := RemoteBefore(nodes, m.kind == Playlist);
      var copy := SortBy(m.box.children, before);
      var again := SortBy(copy, before);
      assert again == RemoteSortChildren(nodes, id);
      AbovePermutation(nodes, ranks, id, m.box.children, again);
      ChildrenAdmissible(nodes, id);
      AdmissibleSubset(nodes, m, m.box.children, again);
      SetChildren(id, again);
    }

    /** `Folder.sort_children`: the sorted copy replaces the list */
    method SortFolderChildren(id: int)
      requires Valid() && id in nodes && nodes[id].kind == Folder
      modifies this
      ensures Valid() && ranks == old(ranks)
      ensures nodes == old(nodes)[id := WithChildren(old(nodes)[id], FolderSortChildren(old(nodes), id))]
    {
      var m := nodes[id];
      ChildrenAbove(nodes, ranks, id);
      var copy := SortBy(m.box.children, FolderBefore(nodes, m.box.privFlag));
      assert copy == FolderSortChildren(nodes, id);
      AbovePermutation(nodes, ranks, id, m.box.children, copy);
      SetChildren(id, copy);
    }

    /**
     * `add_child(child_obj, no_sort_flag)` on the container `id`. The child
     * must rank above the container, as every child in the registry does.
     */
    method AddChild(id: int, child: int, noSort: bool)
      requires Valid() && id in nodes && child in nodes && nodes[id].IsContainer()
      requires Rank(ranks, id) < Rank(ranks, child)
      modifies this
      ensures Valid() && ranks == old(ranks)
      ensures nodes == ChildList.AddChild(old(nodes), id, child, noSort)
    {
      var m := nodes[id];
      var accepted := if m.kind == Folder then child !in m.box.children
                      else nodes[child].IsVideo() || child in m.box.children;
      if accepted {
        ChildrenAdmissible(nodes, id);
        Grow(id, child, noSort);
        if nodes[child].IsVideo() {
          CountVideo(id);
        }
      }
    }

    /** The accepted child appended, and the list sorted unless `no_sort_flag` is set */
    method Grow(id: int, child: int, noSort: bool)
      requires Valid() && id in nodes && child in nodes && nodes[id].IsContainer()
      requires Rank(ranks, id) < Rank(ranks, child) && (nodes[id].IsRemote() ==> nodes[child].IsVideo())
      modifies this
      ensures Valid() && ranks == old(ranks)
      ensures nodes == Grown(old(nodes), id, child, noSort)
      ensures nodes[child] == old(nodes)[child] && nodes[id].IsContainer()
    {
      ChildrenAbove(nodes, ranks, id);
      ChildrenAdmissible(nodes, id);
      ghost var grown := nodes[id].box.children + [child];
      assert forall i :: 0 <= i < |grown| - 1 ==> grown[i] == nodes[id].box.children[i];
      SetChildren(id, nodes[id].box.children + [child]);
      if !noSort {
        SortChildren(id);
      }
    }

    /** `vid_count += 1` */
    method CountVideo(id: int)
      requires Valid() && id in nodes && nodes[id].IsContainer()
      modifies this
      ensures Valid() && ranks == old(ranks)
      ensures nodes == VidCounted(old(nodes), id)
    {
      var c := nodes[id].box.counts;
      Update(id, WithCounts(nodes[id], c.(vidCount := c.vidCount + 1)));
    }

    /** `del_child(child_obj)`: whether the child was listed */
    method DelChild(id: int, child: int) returns (found: bool)
      requires Valid() && id in nodes && child in nodes && nodes[id].IsContainer()
      modifies this
      ensures Valid() && ranks == old(ranks)
      ensures ChildList.DelChild(old(nodes), id, child) == Removal(nodes, found)
    {
      var m := nodes[id];
      if child !in m.box.children {
        return false;
      }
      ghost var db := nodes;
      NotOwnChild(nodes, ranks, id);
      Shrink(id, child);
      assert nodes[child] == db[child];
      var lost := Contribution(nodes[child]);
      Update(id, WithCounts(nodes[id], Minus(nodes[id].box.counts, lost)));
      return true;
    }

    /** `child_list.remove(child_obj)`: the first entry of the child goes. */
    method Shrink(id: int, child: int)
      requires Valid() && id in nodes && nodes[id].IsContainer() && child in Children(nodes[id])
      modifies this
      ensures Valid() && ranks == old(ranks)
      ensures nodes == old(nodes)[id := WithChildren(old(nodes)[id], RemoveFirst(Children(old(nodes)[id]), child))]
    {
      var m := nodes[id];
      ChildrenAbove(nodes, ranks, id);
      var rest := RemoveFirst(m.box.children, child);
      AboveRemoveFirst(nodes, ranks, id, m.box.children, child);
      ChildrenAdmissible(nodes, id);
      AdmissibleSubset(nodes, m, m.box.children, rest);
      SetChildren(id, rest);
    }

    /** `recalculate_counts`: the six counters reset, then raised for each direct Video child and its flags */
    method RecalculateCounts(id: int)
      requires Valid() && id in nodes && nodes[id].IsContainer()
      modifies this
      ensures Valid() && ranks == old(ranks)
      ensures AllIn(old(nodes), Children(old(nodes)[id]))
      ensures nodes == Recalculated(old(nodes), id)
      ensures CountsExact(nodes, id)
    {
      NotOwnChild(nodes, ranks, id);
      ghost var db := nodes;
      var c := TallyChildren(nodes[id].box.children);
      Update(id, WithCounts(nodes[id], c));
      RecalculatedIsExact(db, ranks, id);
    }

    /** `recalculate_counts`'s loop: from zero, each child of `cs` in turn adds its contribution */
    method TallyChildren(cs: seq<int>) returns (c: Counts)
      requires AllIn(nodes, cs)
      ensures c == DirectCounts(nodes, cs)
    {
      c := NoCounts;
      for i := 0 to |cs|
        invariant c == DirectCounts(nodes, cs[..i])
      {
        assert cs[..i + 1][..i] == cs[..i];
        c := Tally(c, nodes[cs[i]]);
      }
      assert cs[..|cs|] == cs;
    }

    /** The body of `recalculate_counts`'s loop: one direct child counted */
    static method Tally(c: Counts, v: Media) returns (r: Counts)
      ensures r == Plus(c, Contribution(v))
    {
      r := c;
      if v.IsVideo() {
        r := r.(vidCount := r.vidCount + 1);
        if v.video.bookmarkFlag { r := r.(bookmarkCount := r.bookmarkCount + 1); }
        if v.video.dlFlag { r := r.(dlCount := r.dlCount + 1); }
        if v.favFlag { r := r.(favCount := r.favCount + 1); }
        if v.video.newFlag { r := r.(newCount := r.newCount + 1); }
        if v.video.waitingFlag { r := r.(waitingCount := r.waitingCount + 1); }
      }
    }

    /** `reset_counts`: the six counters take the given values. */
    method ResetCounts(id: int, c: Counts)
      requires Valid() && id in nodes && nodes[id].IsContainer()
      modifies this
      ensures Valid() && ranks == old(ranks)
      ensures nodes == old(nodes)[id := WithCounts(old(nodes)[id], c)]
    {
      Update(id, WithCounts(nodes[id], c));
    }

    /** `inc_…_count`: one counter up by one */
    method IncCount(id: int, which: Counter)
      requires Valid() && id in nodes && nodes[id].IsContainer()
      modifies this
      ensures Valid() && ranks == old(ranks)
      ensures nodes == old(nodes)[id := WithCounts(old(nodes)[id], Bump(old(nodes)[id].box.counts, which, 1))]
    {
      Update(id, WithCounts(nodes[id], Bump(nodes[id].box.counts, which, 1)));
    }

    /** `dec_…_count`: one counter down by one */
    method DecCount(id: int, which: Counter)
      requires Valid() && id in nodes && nodes[id].IsContainer()
      modifies this
      ensures Valid() && ranks == old(ranks)
      ensures nodes == old(nodes)[id := WithCounts(old(nodes)[id], Bump(old(nodes)[id].box.counts, which, -1))]
    {
      Update(id, WithCounts(nodes[id], Bump(nodes[id].box.counts, which, -1)));
    }

    // -------------------------------------------------------------------------
    // The constructors
    // -------------------------------------------------------------------------

    /** `Video(dbid, name, parent_obj, no_sort_flag)`: the new video is filed and added to its parent. */
    method AddVideo(dbid: int, name: string, parent: int, noSort: bool)
      requires Valid() && dbid !in nodes && parent in nodes && nodes[parent].IsContainer()
      modifies this
      ensures Valid()
      ensures nodes == ChildList.AddChild(old(nodes)[dbid := NewVideo(dbid, name, parent)], parent, dbid, noSort)
    {
      Enrol(NewVideo(dbid, name, parent));
      AddChild(parent, dbid, noSort);
    }

    /** `Channel(…)` and `Playlist(…)`: the new container is filed and, when it has a parent, added to it. */
    method AddRemote(isPlaylist: bool, dbid: int, name: string, parent: Option<int>)
      requires Valid() && dbid !in nodes
      requires parent.Some? ==> parent.value in nodes && nodes[parent.value].IsContainer()
      modifies this
      ensures Valid()
      ensures var db := old(nodes)[dbid := NewRemote(isPlaylist, dbid, name, parent)];
        nodes == if parent.Some? then ChildList.AddChild(db, parent.value, dbid, false) else db
    {
      Enrol(NewRemote(isPlaylist, dbid, name, parent));
      if parent.Some? {
        AddChild(parent.value, dbid, false);
      }
    }

    /** `Folder(…)`: the new folder is filed and, when it has a parent, added to it. */
    method AddFolder(dbid: int, name: string, parent: Option<int>, fixed: bool, priv: bool, restrict: bool, temp: bool)
      requires Valid() && dbid !in nodes
      requires parent.Some? ==> parent.value in nodes && nodes[parent.value].IsContainer()
      modifies this
      ensures Valid()
      ensures var db := old(nodes)[dbid := NewFolder(dbid, name, parent, fixed, priv, restrict, temp)];
        nodes == if parent.Some? then ChildList.AddChild(db, parent.value, dbid, false) else db
    {
      Enrol(NewFolder(dbid, name, parent, fixed, priv, restrict, temp));
      if parent.Some? {
        AddChild(parent.value, dbid, false);
      }
    }

    // -------------------------------------------------------------------------
    // Alternative download destinations
    // -------------------------------------------------------------------------

    /** `add_slave_dbid(x)` on the container `target`: a scan for `x`, then an append if it was not found */
    method AddSlaveDbid(target: int, x: int)
      requires Valid() && target in nodes && nodes[target].IsContainer()
      modifies this
      ensures Valid() && ranks == old(ranks)
      ensures nodes == old(nodes)[target := WithSlaves(old(nodes)[target], WithSlave(SlavesOf(old(nodes)[target]), x))]
    {
      var s := nodes[target].box.slaveDbids;
      var matched := false;
      var i := 0;
      while i < |s|
        invariant 0 <= i <= |s|
        invariant x !in s[..i]
      {
        if s[i] == x {
          matched := true;
          break;
        }
        i := i + 1;
      }
      assert !matched ==> s[..i] == s;
      if !matched {
        Update(target, WithSlaves(nodes[target], s + [x]));
      }
    }

    /** `del_slave_dbid(x)` on the container `target`: the list rebuilt without `x` */
    method DelSlaveDbid(target: int, x: int)
      requires Valid() && target in nodes && nodes[target].IsContainer()
      modifies this
      ensures Valid() && ranks == old(ranks)
      ensures nodes == old(nodes)[target := WithSlaves(old(nodes)[target], WithoutSlave(SlavesOf(old(nodes)[target]), x))]
    {
      var s := nodes[target].box.slaveDbids;
      var kept := [];
      for i := 0 to |s|
        invariant kept == WithoutSlave(s[..i], x)
        invariant nodes == old(nodes) && ranks == old(ranks)
      {
        WithoutSlaveSnoc(s[..i], s[i], x);
        assert s[..i + 1] == s[..i] + [s[i]];
        if s[i] != x {
          kept := kept + [s[i]];
        }
      }
      assert s[..|s|] == s;
      Update(target, WithSlaves(nodes[target], kept));
    }

    /**
     * `set_master_dbid(dbid)` on the container `id`: whether it returned
     * normally, and the registry it leaves, also when it raises part way.
     */
    method SetMasterDbid(id: int, dbid: int) returns (ok: bool)
      requires Valid() && id in nodes && nodes[id].IsContainer()
      modifies this
      ensures Valid() && ranks == old(ranks)
      ensures SetMaster(old(nodes), id, dbid) == AliasOutcome(nodes, ok)
      ensures AliasConsistent(old(nodes)) && ok ==> AliasConsistent(nodes) && MasterOf(nodes[id]) == dbid
    {
      ghost var db := nodes;
      var was := nodes[id].box.masterDbid;
      if dbid == was {
        return true;
      }
      if was != id && was in nodes {
        if nodes[was].IsVideo() {
          return false;
        }
        DelSlaveDbid(was, id);
      }
      Update(id, WithMaster(nodes[id], dbid));
      assert nodes == Unlink(db, id, dbid);
      if dbid != id {
        if dbid !in nodes || nodes[dbid].IsVideo() {
          return false;
        }
        AddSlaveDbid(dbid, id);
        assert nodes == Link(Unlink(db, id, dbid), id, dbid);
      }
      ok := true;
      if AliasConsistent(db) {
        SetMasterKeepsConsistent(db, id, dbid);
      }
    }

    // -------------------------------------------------------------------------
    // Set accessors
    // -------------------------------------------------------------------------

    /** A `set_…_flag(v)` accessor of a node whose class defines it */
    method SetFlag(id: int, f: Flag, v: PyValue)
      requires Valid() && id in nodes && HasFlag(nodes[id], f)
      modifies this
      ensures Valid() && ranks == old(ranks)
      ensures nodes == old(nodes)[id := WithFlag(old(nodes)[id], f, v)]
    {
      WithFlagSetsOnlyThatFlag(nodes[id], f, v);
      Update(id, WithFlag(nodes[id], f, v));
    }

    /** `set_nickname` */
    method SetNickname(id: int, nickname: Option<string>)
      requires Valid() && id in nodes
      modifies this
      ensures Valid() && ranks == old(ranks)
      ensures nodes == old(nodes)[id := WithNickname(old(nodes)[id], nickname)]
    {
      Update(id, WithNickname(nodes[id], nickname));
    }

    /** `set_name`, the container version or the Video version by the node's kind */
    method SetName(id: int, name: string)
      requires Valid() && id in nodes
      modifies this
      ensures Valid() && ranks == old(ranks)
      ensures nodes == old(nodes)[id := Renamed(old(nodes)[id], name)]
    {
      Update(id, Renamed(nodes[id], name));
    }

    /** `set_error`, `set_warning` and `reset_error_warning` */
    method SetError(id: int, msg: string)
      requires Valid() && id in nodes
      modifies this
      ensures Valid() && ranks == old(ranks)
      ensures nodes == old(nodes)[id := WithError(old(nodes)[id], msg)]
    {
      Update(id, WithError(nodes[id], msg));
    }

    method SetWarning(id: int, msg: string)
      requires Valid() && id in nodes
      modifies this
      ensures Valid() && ranks == old(ranks)
      ensures nodes == old(nodes)[id := WithWarning(old(nodes)[id], msg)]
    {
      Update(id, WithWarning(nodes[id], msg));
    }

    method ResetErrorWarning(id: int)
      requires Valid() && id in nodes
      modifies this
      ensures Valid() && ranks == old(ranks)
      ensures nodes == old(nodes)[id := WithoutErrors(old(nodes)[id])]
    {
      Update(id, WithoutErrors(nodes[id]));
    }

    /** `set_parent_obj`: the parent link alone changes; no child list is touched. */
    method SetParent(id: int, p: Option<int>)
      requires Valid() && id in nodes
      requires p.Some? ==> p.value in nodes && Rank(ranks, p.value) < Rank(ranks, id)
      modifies this
      ensures Valid() && ranks == old(ranks)
      ensures nodes == old(nodes)[id := old(nodes)[id].(parent := p)]
    {
      ReparentKeepsShape(nodes, ranks, id, p);
      ChildrenAdmissible(nodes, id);
      ReplaceKeepsVideosOnly(nodes, id, nodes[id].(parent := p));
      nodes := nodes[id := nodes[id].(parent := p)];
    }

    /** `set_source`, defined for videos, channels and playlists */
    method SetSource(id: int, source: Option<string>)
      requires Valid() && id in nodes && nodes[id].kind != Folder
      modifies this
      ensures Valid() && ranks == old(ranks)
      ensures nodes == old(nodes)[id := old(nodes)[id].(source := source)]
    {
      Update(id, nodes[id].(source := source));
    }

    /** `clone_properties(other)` on a channel or playlist, from another one */
    method CloneProperties(id: int, other: int)
      requires Valid() && id in nodes && other in nodes && nodes[id].IsRemote() && nodes[other].IsRemote()
      modifies this
      ensures Valid() && ranks == old(ranks)
      ensures nodes == old(nodes)[id := Cloned(old(nodes)[id], old(nodes)[other])]
    {
      Update(id, Cloned(nodes[id], nodes[other]));
    }

    /** `Video.set_dl_flag(flag)`, at the time `now` */
    method SetDlFlag(id: int, flag: bool, now: int)
      requires Valid() && id in nodes && nodes[id].IsVideo()
      modifies this
      ensures Valid() && ranks == old(ranks)
      ensures nodes == old(nodes)[id := WithDlFlag(old(nodes)[id], flag, now)]
    {
      var m := nodes[id];
      var v := m.video.(dlFlag := flag);
      if v.receiveTime == None {
        v := v.(receiveTime := Some(now));
      }
      Update(id, m.(video := v));
    }

    /** `set_receive_time`, at the time `now` */
    method SetReceiveTime(id: int, now: int)
      requires Valid() && id in nodes && nodes[id].IsVideo()
      modifies this
      ensures Valid() && ranks == old(ranks)
      ensures nodes == old(nodes)[id := old(nodes)[id].(video := old(nodes)[id].video.(receiveTime := Some(now)))]
    {
      Update(id, nodes[id].(video := nodes[id].video.(receiveTime := Some(now))));
    }

    /** `set_duration`: a fractional duration is rounded up, None clears it */
    method SetDuration(id: int, duration: Option<real>)
      requires Valid() && id in nodes && nodes[id].IsVideo()
      modifies this
      ensures Valid() && ranks == old(ranks)
      ensures var d := if duration.Some? then Some(StoredDuration(duration.value)) else None;
        nodes == old(nodes)[id := old(nodes)[id].(video := old(nodes)[id].video.(duration := d))]
    {
      var d: Option<int> := None;
      if duration.Some? {
        var x := duration.value;
        if x != Trunc(x) as real {
          d := Some(Trunc(x) + 1);
        } else {
          d := Some(Trunc(x));
        }
      }
      Update(id, nodes[id].(video := nodes[id].video.(duration := d)));
    }

    /** `set_file(filename, extension)` */
    method SetFile(id: int, fileName: string, ext: string)
      requires Valid() && id in nodes && nodes[id].IsVideo()
      modifies this
      ensures Valid() && ranks == old(ranks)
      ensures nodes == old(nodes)[id := old(nodes)[id].(video := old(nodes)[id].video.(fileName := Some(fileName), fileExt := Some(ext)))]
    {
      Update(id, nodes[id].(video := nodes[id].video.(fileName := Some(fileName), fileExt := Some(ext))));
    }

    /** `set_mkv`: the extension becomes `.mkv` and the file name stays */
    method SetMkv(id: int)
      requires Valid() && id in nodes && nodes[id].IsVideo()
      modifies this
      ensures Valid() && ranks == old(ranks)
      ensures nodes == old(nodes)[id := old(nodes)[id].(video := old(nodes)[id].video.(fileExt := Some(".mkv")))]
    {
      Update(id, nodes[id].(video := nodes[id].video.(fileExt := Some(".mkv"))));
    }

    /** `set_file_size` */
    method SetFileSize(id: int, size: Option<int>)
      requires Valid() && id in nodes && nodes[id].IsVideo()
      modifies this
      ensures Valid() && ranks == old(ranks)
      ensures nodes == old(nodes)[id := old(nodes)[id].(video := old(nodes)[id].video.(fileSize := size))]
    {
      Update(id, nodes[id].(video := nodes[id].video.(fileSize := size)));
    }

    /** `set_index`: an index or None */
    method SetIndex(id: int, index: Option<int>)
      requires Valid() && id in nodes && nodes[id].IsVideo()
      modifies this
      ensures Valid() && ranks == old(ranks)
      ensures nodes == old(nodes)[id := old(nodes)[id].(video := old(nodes)[id].video.(index := index))]
    {
      Update(id, nodes[id].(video := nodes[id].video.(index := index)));
    }

    /**
     * `set_upload_time(unix_time)`: stores `int(unix_time)`; with None,
     * the argument's default, `int(None)` raises and nothing changes.
     */
    method SetUploadTime(id: int, unixTime: Option<int>) returns (ok: bool)
      requires Valid() && id in nodes && nodes[id].IsVideo()
      modifies this
      ensures Valid() && ranks == old(ranks)
      ensures ok <==> unixTime.Some?
      ensures nodes == if ok then old(nodes)[id := old(nodes)[id].(video := old(nodes)[id].video.(uploadTime := unixTime))]
                       else old(nodes)
    {
      if unixTime.None? {
        return false;
      }
      Update(id, nodes[id].(video := nodes[id].video.(uploadTime := unixTime)));
      return true;
    }

    /**
     * `set_video_descrip(descrip, max_length)`: a non-empty description is
     * stored as the line-wrapped text `tidied` and the first line
     * `shortened`, which the caller's text utilities produce; None or ''
     * clears both.
     */
    method SetVideoDescrip(id: int, descrip: Option<string>, tidied: string, shortened: string)
      requires Valid() && id in nodes && nodes[id].IsVideo()
      modifies this
      ensures Valid() && ranks == old(ranks)
      ensures var given := descrip.Some? && descrip.value != "";
        nodes == old(nodes)[id := old(nodes)[id].(video := old(nodes)[id].video.(
          descrip := if given then Some(tidied) else None,
          short := if given then Some(shortened) else None))]
    {
      if descrip.Some? && descrip.value != "" {
        Update(id, nodes[id].(video := nodes[id].video.(descrip := Some(tidied), short := Some(shortened))));
      } else {
        Update(id, nodes[id].(video := nodes[id].video.(descrip := None, short := None)));
      }
    }

    // -------------------------------------------------------------------------
    // Walks up the parent links
    // -------------------------------------------------------------------------

    /** `get_depth`: 1 for a root, and one more for each ancestor */
    method GetDepth(id: int) returns (level: int)
      requires Valid() && id in nodes && nodes[id].IsContainer()
      ensures level == Depth(nodes, ranks, id)
    {
      if nodes[id].parent.None? {
        return 1;
      }
      level := 1;
      var p := nodes[id].parent;
      while p.Some?
        invariant InRegistry(nodes, p)
        invariant level + |Lineage(nodes, ranks, p)| == Depth(nodes, ranks, id)
        decreases if p.Some? then Rank(ranks, p.value) + 1 else 0
      {
        var x := p.value;
        assert x in nodes;
        level := level + 1;
        p := nodes[p.value].parent;
      }
    }

    /** `is_hidden`: a hidden Folder, or one below a hidden Folder */
    method IsHidden(id: int) returns (hidden: bool)
      requires Valid() && id in nodes && nodes[id].IsContainer()
      ensures hidden == Tree.IsHidden(nodes, ranks, id)
    {
      IsHiddenOnLineage(nodes, ranks, id);
      if nodes[id].kind == Folder && nodes[id].box.hiddenFlag {
        return true;
      }
      var p := nodes[id].parent;
      while p.Some?
        invariant InRegistry(nodes, p)
        invariant Tree.IsHidden(nodes, ranks, id) == OnLineage(nodes, ranks, p, HiddenFolder)
        decreases if p.Some? then Rank(ranks, p.value) + 1 else 0
      {
        OnLineageStep(nodes, ranks, p, HiddenFolder);
        var m := nodes[p.value];
        if m.kind == Folder && m.box.hiddenFlag {
          return true;
        }
        p := m.parent;
      }
      OnLineageStep(nodes, ranks, p, HiddenFolder);
      return false;
    }

    /** `Video.ancestor_is_favourite`: some container above the video is marked favourite */
    method AncestorIsFavourite(id: int) returns (fav: bool)
      requires Valid() && id in nodes && nodes[id].IsVideo()
      ensures fav == Tree.AncestorIsFavourite(nodes, ranks, id)
    {
      AncestorIsFavouriteOnLineage(nodes, ranks, id);
      var p := nodes[id].parent;
      while p.Some?
        invariant InRegistry(nodes, p)
        invariant Tree.AncestorIsFavourite(nodes, ranks, id) == OnLineage(nodes, ranks, p, Favourite)
        decreases if p.Some? then Rank(ranks, p.value) + 1 else 0
      {
        OnLineageStep(nodes, ranks, p, Favourite);
        if nodes[p.value].favFlag {
          return true;
        }
        p := nodes[p.value].parent;
      }
      OnLineageStep(nodes, ranks, p, Favourite);
      return false;
    }

    /** `get_relative_default_dir(new_name)`: the walk up that puts each ancestor's name in front */
    method GetRelativeDefaultDir(id: int, newName: Option<string>) returns (dirs: seq<string>)
      requires Valid() && id in nodes && nodes[id].IsContainer()
      ensures dirs == RelativeDefaultDir(nodes, ranks, id, newName)
    {
      if newName.Some? {
        dirs := [newName.value];
      } else {
        dirs := [nodes[id].name];
      }
      var obj := id;
      while nodes[obj].parent.Some?
        invariant obj in nodes
        invariant RelativeDefaultDir(nodes, ranks, id, newName) == NamesFromRoot(nodes, ranks, nodes[obj].parent) + dirs
        decreases Rank(ranks, obj)
      {
        var p := nodes[obj].parent.value;
        assert p in nodes;
        obj := p;
        dirs := [nodes[obj].name] + dirs;
      }
    }

    /** `get_default_dir(new_name)`: the downloads directory `base`, then the relative directory */
    method GetDefaultDir(id: int, base: seq<string>, newName: Option<string>) returns (dirs: seq<string>)
      requires Valid() && id in nodes && nodes[id].IsContainer()
      ensures dirs == DefaultDir(nodes, ranks, id, base, newName)
      ensures |dirs| == |base| + Depth(nodes, ranks, id)
    {
      var rel := GetRelativeDefaultDir(id, newName);
      dirs := base + rel;
      DefaultDirLength(nodes, ranks, id, base, newName);
    }

    /**
     * `get_actual_dir(new_name)`: the master's default directory when the
     * container is redirected, its own otherwise; None where the lookup of
     * the master raises.
     */
    method GetActualDir(id: int, base: seq<string>, newName: Option<string>) returns (r: Option<seq<string>>)
      requires Valid() && id in nodes && nodes[id].IsContainer()
      ensures r == ActualDir(nodes, ranks, id, base, newName)
    {
      var master := nodes[id].box.masterDbid;
      if master != id {
        if master !in nodes || nodes[master].IsVideo() {
          return None;
        }
        var d := GetDefaultDir(master, base, None);
        return Some(d);
      }
      var d := GetDefaultDir(id, base, newName);
      return Some(d);
    }

    /** `get_default_path` and `get_default_path_by_ext` (with `ext`) on the video `id` */
    method GetDefaultPath(id: int, base: seq<string>, ext: Option<string>) returns (r: Option<seq<string>>)
      requires Valid() && id in nodes && nodes[id].IsVideo()
      ensures r == VideoPath(nodes, ranks, id, base, false, ext)
    {
      var m := nodes[id];
      var suffix := if ext.Some? then Some(DottedExt(ext.value)) else m.video.fileExt;
      if m.parent.None? || !nodes[m.parent.value].IsContainer() || m.video.fileName.None? || suffix.None? {
        return None;
      }
      var dir := GetDefaultDir(m.parent.value, base, None);
      return Some(dir + [m.video.fileName.value + suffix.value]);
    }

    /** `get_actual_path` and `get_actual_path_by_ext` (with `ext`) on the video `id` */
    method GetActualPath(id: int, base: seq<string>, ext: Option<string>) returns (r: Option<seq<string>>)
      requires Valid() && id in nodes && nodes[id].IsVideo()
      ensures r == VideoPath(nodes, ranks, id, base, true, ext)
    {
      var m := nodes[id];
      var suffix := if ext.Some? then Some(DottedExt(ext.value)) else m.video.fileExt;
      if m.parent.None? || !nodes[m.parent.value].IsContainer() || m.video.fileName.None? || suffix.None? {
        return None;
      }
      var dir := GetActualDir(m.parent.value, base, None);
      if dir.None? {
        return None;
      }
      return Some(dir.value + [m.video.fileName.value + suffix.value]);
    }

    // -------------------------------------------------------------------------
    // Walks down the child lists
    // -------------------------------------------------------------------------

    /** `compile_all_containers(container_list)`: this container, then each child container's own list */
    method CompileAllContainers(id: int, acc: seq<int>) returns (r: seq<int>)
      requires Valid() && id in nodes && nodes[id].IsContainer()
      ensures r == acc + ContainersOf(nodes, ranks, id)
      ensures nodes[id].IsRemote() ==> r == acc + [id]
      decreases Height(ranks, id)
    {
      if nodes[id].IsRemote() {
        RemoteIsFlat(nodes, ranks, id);
      }
      r := acc + [id];
      var cs := nodes[id].box.children;
      for i := 0 to |cs|
        invariant r == acc + [id] + ContainersIn(nodes, ranks, id, i)
      {
        ChildRanked(nodes, ranks, id, i);
        var k := cs[i];
        if !nodes[k].IsVideo() {
          r := CompileAllContainers(k, r);
        }
      }
    }

    /** `compile_all_videos(video_list)`: each child video, and each child container's own list */
    method CompileAllVideos(id: int, acc: seq<int>) returns (r: seq<int>)
      requires Valid() && id in nodes && nodes[id].IsContainer()
      ensures r == acc + VideosOf(nodes, ranks, id)
      ensures nodes[id].IsRemote() ==> r == acc + Children(nodes[id])
      decreases Height(ranks, id)
    {
      if nodes[id].IsRemote() {
        RemoteIsFlat(nodes, ranks, id);
      }
      r := acc;
      var cs := nodes[id].box.children;
      for i := 0 to |cs|
        invariant r == acc + VideosIn(nodes, ranks, id, i)
      {
        ChildRanked(nodes, ranks, id, i);
        var k := cs[i];
        if nodes[k].IsVideo() {
          r := r + [k];
        } else {
          r := CompileAllVideos(k, r);
        }
      }
    }

    /**
     * `count_descendants(count_list)`: each child is counted in the total,
     * then under its kind after its own descendants; the total stays the
     * sum of the four kinds.
     */
    method CountDescendants(id: int, c: Census) returns (r: Census)
      requires Valid() && id in nodes && nodes[id].IsContainer()
      ensures r == c.Add(DescendantCensus(nodes, ranks, id))
      ensures c.Balanced() && c.NonNegative() ==> r.Balanced() && r.NonNegative()
      decreases Height(ranks, id), 1
    {
      r := c;
      var cs := nodes[id].box.children;
      for i := 0 to |cs|
        invariant r == c.Add(CensusIn(nodes, ranks, id, i))
      {
        ChildRanked(nodes, ranks, id, i);
        CensusAddAssoc(c, CensusIn(nodes, ranks, id, i), ChildCensus(nodes, ranks, cs[i]));
        r := CountChild(cs[i], r);
      }
      CensusBalanced(nodes, ranks, id);
    }

    /** The body of `count_descendants`'s loop for the child `k` */
    method CountChild(k: int, c: Census) returns (r: Census)
      requires Valid() && k in nodes
      ensures r == c.Add(ChildCensus(nodes, ranks, k))
      decreases Height(ranks, k), 2
    {
      r := c.(total := c.total + 1);
      var m := nodes[k];
      if m.IsVideo() {
        r := r.(video := r.video + 1);
      } else {
        r := CountDescendants(k, r);
        if m.kind == Channel {
          r := r.(channel := r.channel + 1);
        } else if m.kind == Playlist {
          r := r.(playlist := r.playlist + 1);
        } else {
          r := r.(folder := r.folder + 1);
        }
      }
    }

    /**
     * `prepare_flat_export(db_dict, …)`: a wanted channel or playlist adds
     * its entry, with its wanted videos, after the entries of the containers
     * below it; a folder that is not fixed only walks its child containers.
     */
    method PrepareFlatExport(id: int, acc: map<int, Doc>, f: ExportFlags) returns (r: map<int, Doc>)
      requires Valid() && id in nodes
      ensures r == FlatExport(nodes, ranks, id, acc, f)
      ensures nodes[id].IsRemote() && !Skipped(nodes[id], f) ==>
        PrepareExport(nodes, ranks, id, f).Some? && r == acc[id := PrepareExport(nodes, ranks, id, f).value]
      decreases Height(ranks, id)
    {
      if nodes[id].IsRemote() && !Skipped(nodes[id], f) {
        RemoteFlatEntry(nodes, ranks, id, acc, f);
      }
      var m := nodes[id];
      if m.kind == Video || (m.kind == Channel && !f.channels) || (m.kind == Playlist && !f.playlists)
         || (m.kind == Folder && m.box.fixedFlag) {
        return acc;
      }
      r := acc;
      var cs := m.box.children;
      ChildrenRegistered(nodes, ranks, id);
      if m.IsRemote() {
        var childDict := map[];
        for i := 0 to |cs|
          invariant AllIn(nodes, cs[..i])
          invariant childDict == VideoEntries(nodes, cs[..i], f)
          invariant r == FlatIn(nodes, ranks, id, acc, f, i)
        {
          ChildRanked(nodes, ranks, id, i);
          var k := cs[i];
          assert cs[..i + 1][..i] == cs[..i];
          var child := nodes[k];
          if child.IsVideo() {
            if f.videos && child.source.Some? {
              childDict := childDict[child.dbid := Doc("video", child.dbid, child.name, None, child.source, map[])];
            }
          } else {
            r := PrepareFlatExport(k, r, f);
          }
        }
        assert cs[..|cs|] == cs;
        r := r[m.dbid := Doc(TypeName(m), m.dbid, m.name, Some(m.nickname), m.source, childDict)];
      } else {
        for i := 0 to |cs|
          invariant r == FlatIn(nodes, ranks, id, acc, f, i)
        {
          ChildRanked(nodes, ranks, id, i);
          var k := cs[i];
          if !nodes[k].IsVideo() {
            r := PrepareFlatExport(k, r, f);
          }
        }
      }
    }
  }
}
