/**
 * A container's child list and its counters as the registry changes them:
 * `add_child` (the Folder version and the remote version), `del_child`,
 * `sort_children` and `recalculate_counts`, each as a function from the
 * registry before the call to the registry after it. The registry class
 * (registry.dfy) runs them in place.
 */
module ChildList {
  import opened Media
  import opened Tree
  import opened Counting
  import opened Ordering

  /** A container with its child list replaced */
  function WithChildren(m: Media, cs: seq<int>): (r: Media)
    ensures r.kind == m.kind && r.dbid == m.dbid && r.parent == m.parent && r.box.counts == m.box.counts
    ensures m.IsContainer() ==> Children(r) == cs
  {
    m.(box := m.box.(children := cs))
  }

  /** A container with its counters replaced */
  function WithCounts(m: Media, c: Counts): (r: Media)
    ensures r.kind == m.kind && r.dbid == m.dbid && r.parent == m.parent && Children(r) == Children(m)
  {
    m.(box := m.box.(counts := c))
  }

  /** `child_obj` goes (once more) on the end of the child list. */
  function Appended(db: map<int, Media>, id: int, child: int): map<int, Media>
    requires id in db
  {
    db[id := WithChildren(db[id], Children(db[id]) + [child])]
  }

  /** `sort_children`: the sorted copy replaces the child list (a Folder sorts once, a channel or playlist twice) */
  function SortedChildren(db: map<int, Media>, id: int): map<int, Media>
    requires id in db
  {
    var cs := if db[id].IsRemote() then RemoteSortChildren(db, id) else FolderSortChildren(db, id);
    db[id := WithChildren(db[id], cs)]
  }

  /**
   * Whether `add_child` appends: a Folder takes a child that is not yet
   * listed; a channel or playlist takes any Video, listed or not, and any
   * listed child again.
   */
  predicate Accepts(db: map<int, Media>, id: int, child: int)
    requires id in db && child in db
  {
    if db[id].kind == Folder then child !in Children(db[id])
    else db[child].IsVideo() || child in Children(db[id])
  }

  /**
   * `add_child(child_obj, no_sort_flag)`: an accepted child is appended, the
   * list is sorted unless `no_sort_flag` is set, and a Video child raises
   * `vid_count` by one.
   */
  function AddChild(db: map<int, Media>, id: int, child: int, noSort: bool): map<int, Media>
    requires id in db && child in db && db[id].IsContainer()
  {
    if !Accepts(db, id, child) then db
    else if db[child].IsVideo() then VidCounted(Grown(db, id, child, noSort), id)
    else Grown(db, id, child, noSort)
  }

  /** The child appended, and the list sorted unless `no_sort_flag` is set */
  function Grown(db: map<int, Media>, id: int, child: int, noSort: bool): map<int, Media>
    requires id in db
  {
    if noSort then Appended(db, id, child) else SortedChildren(Appended(db, id, child), id)
  }

  /** `vid_count` raised by one */
  function VidCounted(db: map<int, Media>, id: int): map<int, Media>
    requires id in db
  {
    var c := db[id].box.counts;
    db[id := WithCounts(db[id], c.(vidCount := c.vidCount + 1))]
  }

  /** The registry after `del_child`, and its return value */
  datatype Removal = Removal(db: map<int, Media>, found: bool)

  /**
   * `del_child(child_obj)`: False and no change when the child is not
   * listed; otherwise its first occurrence goes and, for a Video, every
   * counter its flags contribute to drops by one.
   */
  function DelChild(db: map<int, Media>, id: int, child: int): (r: Removal)
    requires id in db && child in db && db[id].IsContainer()
  {
    var m := db[id];
    if child !in Children(m) then Removal(db, false)
    else
      var m1 := WithChildren(m, RemoveFirst(Children(m), child));
      Removal(db[id := WithCounts(m1, Minus(m.box.counts, Contribution(db[child])))], true)
  }

  /** `recalculate_counts`: every counter set to what the direct children contribute */
  ghost function Recalculated(db: map<int, Media>, id: int): map<int, Media>
    requires id in db && AllIn(db, Children(db[id]))
  {
    db[id := WithCounts(db[id], DirectCounts(db, Children(db[id])))]
  }

  // ---------------------------------------------------------------------------
  // Properties
  // ---------------------------------------------------------------------------

  /** Every child of `id` ranks above it, so `id` is not its own child. */
  lemma NotOwnChild(db: map<int, Media>, rk: Ranks, id: int)
    requires Ranked(db, rk) && id in db
    ensures id !in Children(db[id])
    ensures AllIn(db, Children(db[id]))
  {
    ChildrenRegistered(db, rk, id);
    forall i | 0 <= i < |Children(db[id])|
      ensures Children(db[id])[i] != id
    {
      ChildRanked(db, rk, id, i);
    }
  }

  /** Appending and sorting adds `child` to the list once more and changes no other node. */
  lemma GrownMembers(db: map<int, Media>, id: int, child: int, noSort: bool)
    requires id in db && db[id].IsContainer()
    ensures var r := Grown(db, id, child, noSort);
      && r.Keys == db.Keys
      && (forall k :: k in db && k != id ==> r[k] == db[k])
      && r[id] == WithChildren(db[id], Children(r[id]))
      && multiset(Children(r[id])) == multiset(Children(db[id])) + multiset{child}
  {
    var db1 := Appended(db, id, child);
    assert Children(db1[id]) == Children(db[id]) + [child];
    if !noSort {
      assert db1[id].IsRemote() == db[id].IsRemote();
      SortedChildrenPermutes(db1, id);
    }
  }

  /** The dbids the child list holds after `add_child`: one more `child_obj` exactly when it is accepted; nothing else changes. */
  lemma AddChildMembers(db: map<int, Media>, id: int, child: int, noSort: bool)
    requires id in db && child in db && db[id].IsContainer()
    ensures var r := AddChild(db, id, child, noSort);
      && r.Keys == db.Keys
      && (forall k :: k in db && k != id ==> r[k] == db[k])
      && r[id].kind == db[id].kind && r[id].parent == db[id].parent && r[id].dbid == db[id].dbid
      && multiset(Children(r[id])) == multiset(Children(db[id])) + (if Accepts(db, id, child) then multiset{child} else multiset{})
    ensures !Accepts(db, id, child) ==> AddChild(db, id, child, noSort) == db
  {
    if Accepts(db, id, child) {
      GrownMembers(db, id, child, noSort);
      if db[child].IsVideo() {
        VidCountedFrame(Grown(db, id, child, noSort), id);
      }
    }
  }

  /** Raising `vid_count` changes no child list and no other node. */
  lemma VidCountedFrame(db: map<int, Media>, id: int)
    requires id in db
    ensures var r := VidCounted(db, id);
      && r.Keys == db.Keys
      && (forall k :: k in db && k != id ==> r[k] == db[k])
      && r[id].kind == db[id].kind && r[id].parent == db[id].parent && r[id].dbid == db[id].dbid
      && Children(r[id]) == Children(db[id])
  {
  }

  /** `add_child` changes `vid_count` alone among the counters, by one for each Video it appends. */
  lemma AddChildCounts(db: map<int, Media>, id: int, child: int, noSort: bool)
    requires id in db && child in db && db[id].IsContainer()
    ensures var r := AddChild(db, id, child, noSort); var c := db[id].box.counts;
      r[id].box.counts == c.(vidCount := c.vidCount + (if Accepts(db, id, child) && db[child].IsVideo() then 1 else 0))
  {
  }

  /** A Folder ignores a child it already holds, so adding a child twice is adding it once. */
  lemma FolderAddChildIdempotent(db: map<int, Media>, id: int, child: int, noSort: bool)
    requires id in db && child in db && db[id].kind == Folder
    ensures var r := AddChild(db, id, child, noSort);
      id in r && child in Children(r[id]) && AddChild(r, id, child, noSort) == r
  {
    AddChildMembers(db, id, child, noSort);
    var r := AddChild(db, id, child, noSort);
    assert child in multiset(Children(r[id]));
  }

  /**
   * A channel or playlist appends a Video it already lists: adding the same
   * Video twice lists it twice more.
   */
  lemma RemoteAddChildDuplicates(db: map<int, Media>, id: int, child: int, noSort: bool)
    requires id in db && child in db && child != id && db[id].IsRemote() && db[child].IsVideo()
    ensures var r := AddChild(AddChild(db, id, child, noSort), id, child, noSort);
      multiset(Children(r[id]))[child] == multiset(Children(db[id]))[child] + 2
  {
    AddChildMembers(db, id, child, noSort);
    var r1 := AddChild(db, id, child, noSort);
    AddChildMembers(r1, id, child, noSort);
  }

  /**
   * A child list that gains one child counting towards `vid_count` alone,
   * with `vid_count` raised to match, or one counting nothing, keeps exact
   * counters exact, whatever order the list is put in.
   */
  lemma GrownKeepsCountsExact(db: map<int, Media>, r: map<int, Media>, id: int, child: int)
    requires id in db && child in db && CountsExact(db, id) && id !in Children(db[id])
    requires r.Keys == db.Keys && (forall k :: k in db && k != id ==> r[k] == db[k])
    requires child != id
    requires multiset(Children(r[id])) == multiset(Children(db[id])) + multiset{child}
    requires var c := db[id].box.counts;
      r[id].box.counts == c.(vidCount := c.vidCount + (if db[child].IsVideo() then 1 else 0))
    requires Contribution(db[child]) == NoCounts || Contribution(db[child]) == Counts(1, 0, 0, 0, 0, 0)
    ensures CountsExact(r, id)
  {
    var cs := Children(db[id]);
    var cs2 := Children(r[id]);
    var grown := cs + [child];
    GrownCounts(db, cs, child);
    assert DirectCounts(db, grown) == r[id].box.counts;
    assert multiset(grown) == multiset(cs2);
    DirectCountsPermutation(db, grown, cs2);
    assert id !in cs2 by {
      assert id !in grown;
      assert id !in multiset(grown);
    }
    ExactInPlace(db, r, id);
  }

  /** A child that counts towards `vid_count` alone adds one to it exactly when it is a Video. */
  lemma VidOnlyContribution(c: Counts, m: Media)
    requires Contribution(m) == NoCounts || Contribution(m) == Counts(1, 0, 0, 0, 0, 0)
    ensures Plus(c, Contribution(m)) == c.(vidCount := c.vidCount + (if m.IsVideo() then 1 else 0))
  {
  }

  /** Counting a list grown by a child that counts towards `vid_count` alone */
  lemma GrownCounts(db: map<int, Media>, cs: seq<int>, child: int)
    requires AllIn(db, cs) && child in db
    requires Contribution(db[child]) == NoCounts || Contribution(db[child]) == Counts(1, 0, 0, 0, 0, 0)
    ensures AllIn(db, cs + [child])
    ensures var c := DirectCounts(db, cs);
      DirectCounts(db, cs + [child]) == c.(vidCount := c.vidCount + (if db[child].IsVideo() then 1 else 0))
  {
    AllInAppend(db, cs, [child]);
    DirectCountsSnoc(db, cs, child);
    VidOnlyContribution(DirectCounts(db, cs), db[child]);
  }

  /** Counters that count the new child list over the old registry count it over the new one, when only `id` changed. */
  lemma ExactInPlace(db: map<int, Media>, r: map<int, Media>, id: int)
    requires id in db && r.Keys == db.Keys && (forall k :: k in db && k != id ==> r[k] == db[k])
    requires AllIn(db, Children(r[id])) && id !in Children(r[id])
    requires r[id].box.counts == DirectCounts(db, Children(r[id]))
    ensures CountsExact(r, id)
  {
    var cs := Children(r[id]);
    forall i | 0 <= i < |cs|
      ensures cs[i] in r && r[cs[i]] == db[cs[i]]
    {
      assert cs[i] in db;
      assert cs[i] != id;
    }
    DirectCountsFrame(db, r, cs);
  }

  /**
   * `add_child` keeps exact counters exact when the child it appends counts
   * towards `vid_count` alone, as a new video or any container does.
   */
  lemma AddChildKeepsCountsExact(db: map<int, Media>, rk: Ranks, id: int, child: int, noSort: bool)
    requires Ranked(db, rk) && id in db && child in db && db[id].IsContainer()
    requires Rank(rk, id) < Rank(rk, child)
    requires CountsExact(db, id)
    requires Contribution(db[child]) == NoCounts || Contribution(db[child]) == Counts(1, 0, 0, 0, 0, 0)
    ensures CountsExact(AddChild(db, id, child, noSort), id)
  {
    AddChildMembers(db, id, child, noSort);
    AddChildCounts(db, id, child, noSort);
    if Accepts(db, id, child) {
      NotOwnChild(db, rk, id);
      GrownKeepsCountsExact(db, AddChild(db, id, child, noSort), id, child);
    }
  }

  /** `del_child` reports whether the child was listed, and changes nothing when it was not. */
  lemma DelChildAbsent(db: map<int, Media>, id: int, child: int)
    requires id in db && child in db && db[id].IsContainer()
    ensures DelChild(db, id, child).found <==> child in Children(db[id])
    ensures !DelChild(db, id, child).found ==> DelChild(db, id, child).db == db
  {
  }

  /**
   * A `del_child` that finds the child takes one occurrence out of the list
   * and, for a Video, one off `vid_count` and off each counter whose flag it
   * has set; no other node changes.
   */
  lemma DelChildEffect(db: map<int, Media>, id: int, child: int)
    requires id in db && child in db && db[id].IsContainer() && child in Children(db[id])
    ensures var r := DelChild(db, id, child).db; var c := db[id].box.counts; var d := r[id].box.counts;
      && r.Keys == db.Keys
      && (forall k :: k in db && k != id ==> r[k] == db[k])
      && multiset(Children(r[id])) == multiset(Children(db[id])) - multiset{child}
      && d.vidCount == c.vidCount - (if db[child].IsVideo() then 1 else 0)
      && d.bookmarkCount == c.bookmarkCount - (if db[child].IsVideo() && db[child].video.bookmarkFlag then 1 else 0)
      && d.dlCount == c.dlCount - (if db[child].IsVideo() && db[child].video.dlFlag then 1 else 0)
      && d.favCount == c.favCount - (if db[child].IsVideo() && db[child].favFlag then 1 else 0)
      && d.newCount == c.newCount - (if db[child].IsVideo() && db[child].video.newFlag then 1 else 0)
      && d.waitingCount == c.waitingCount - (if db[child].IsVideo() && db[child].video.waitingFlag then 1 else 0)
  {
    var x := Contribution(db[child]);
    assert x.vidCount == (if db[child].IsVideo() then 1 else 0);
    assert x.bookmarkCount == (if db[child].IsVideo() && db[child].video.bookmarkFlag then 1 else 0);
    assert x.dlCount == (if db[child].IsVideo() && db[child].video.dlFlag then 1 else 0);
    assert x.favCount == (if db[child].IsVideo() && db[child].favFlag then 1 else 0);
    assert x.newCount == (if db[child].IsVideo() && db[child].video.newFlag then 1 else 0);
    assert x.waitingCount == (if db[child].IsVideo() && db[child].video.waitingFlag then 1 else 0);
  }

  /** `del_child` keeps exact counters exact. */
  lemma DelChildKeepsCountsExact(db: map<int, Media>, rk: Ranks, id: int, child: int)
    requires Ranked(db, rk) && id in db && child in db && db[id].IsContainer()
    requires CountsExact(db, id)
    ensures CountsExact(DelChild(db, id, child).db, id)
  {
    var cs := Children(db[id]);
    if child in cs {
      var r := DelChild(db, id, child).db;
      NotOwnChild(db, rk, id);
      Counting.DelChildKeepsCountsExact(db, cs, child);
      var cs2 := RemoveFirst(cs, child);
      assert Children(r[id]) == cs2;
      assert id !in cs2 by {
        assert id !in multiset(cs);
      }
      DirectCountsFrame(db, r, cs2);
    }
  }

  /**
   * `del_child` undoes an unsorted `add_child` of a child that was not
   * listed and that counts towards `vid_count` alone.
   */
  lemma DelChildUndoesAddChild(db: map<int, Media>, id: int, child: int)
    requires id in db && child in db && child != id && db[id].IsContainer()
    requires child !in Children(db[id]) && Accepts(db, id, child)
    requires Contribution(db[child]) == NoCounts || Contribution(db[child]) == Counts(1, 0, 0, 0, 0, 0)
    ensures DelChild(AddChild(db, id, child, true), id, child) == Removal(db, true)
  {
    var m, cs, x := db[id], Children(db[id]), Contribution(db[child]);
    var c := m.box.counts;
    var n := WithCounts(WithChildren(m, cs + [child]), Plus(c, x));
    AddUnsorted(db, id, child);
    var r := db[id := n];
    assert r[child] == db[child];
    assert RemoveFirst(cs + [child], child) == cs by {
      assert IndexOf(cs + [child], child) == |cs|;
    }
    var n2 := WithCounts(WithChildren(n, cs), Minus(Plus(c, x), x));
    assert DelChild(r, id, child) == Removal(r[id := n2], true);
    assert n2 == m;
    assert r[id := n2] == db[id := m];
  }

  /** An unsorted `add_child` of an accepted child that counts towards `vid_count` alone */
  lemma AddUnsorted(db: map<int, Media>, id: int, child: int)
    requires id in db && child in db && child != id && db[id].IsContainer() && Accepts(db, id, child)
    requires Contribution(db[child]) == NoCounts || Contribution(db[child]) == Counts(1, 0, 0, 0, 0, 0)
    ensures var m := db[id];
      AddChild(db, id, child, true) ==
        db[id := WithCounts(WithChildren(m, Children(m) + [child]), Plus(m.box.counts, Contribution(db[child])))]
  {
    var m := db[id];
    var c := m.box.counts;
    VidOnlyContribution(c, db[child]);
    var a := WithChildren(m, Children(m) + [child]);
    assert Appended(db, id, child) == db[id := a];
    if db[child].IsVideo() {
      assert VidCounted(db[id := a], id) == db[id := a][id := WithCounts(a, c.(vidCount := c.vidCount + 1))];
    }
  }

  /** `recalculate_counts` makes the counters exact. */
  lemma RecalculatedIsExact(db: map<int, Media>, rk: Ranks, id: int)
    requires Ranked(db, rk) && id in db
    ensures AllIn(db, Children(db[id]))
    ensures CountsExact(Recalculated(db, id), id)
  {
    NotOwnChild(db, rk, id);
    var r := Recalculated(db, id);
    DirectCountsFrame(db, r, Children(db[id]));
  }

  /** Exact counters are left as they are by `recalculate_counts`. */
  lemma RecalculateExactIsNoOp(db: map<int, Media>, id: int)
    requires id in db && CountsExact(db, id)
    ensures Recalculated(db, id) == db
  {
    assert Recalculated(db, id)[id] == db[id];
  }

  /** `sort_children` only reorders: the same dbids, the same number of times each; nothing else changes. */
  lemma SortedChildrenPermutes(db: map<int, Media>, id: int)
    requires id in db && db[id].IsContainer()
    ensures var r := SortedChildren(db, id);
      && r.Keys == db.Keys
      && (forall k :: k in db && k != id ==> r[k] == db[k])
      && r[id] == WithChildren(db[id], Children(r[id]))
      && multiset(Children(r[id])) == multiset(Children(db[id]))
  {
  }
}
