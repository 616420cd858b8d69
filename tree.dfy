/**
 * The registry as a graph on dbids: parent links, child lists, and the
 * queries that walk them (`get_depth`, `is_hidden`, `ancestor_is_favourite`,
 * `get_default_dir`, `get_relative_default_dir`, `get_actual_dir`).
 *
 * The Python objects point at each other directly. Here the registry is a
 * map from dbid to node value, and a ghost ranking proves that the walks end:
 * every parent sits strictly lower than its child, every child strictly
 * higher than its container.
 *
 * A directory path is a sequence of path segments; `os.path.join` appends
 * segments and `os.path.abspath` is not modelled.
 */
module Tree {
  import opened Wrappers
  import opened Media

  /** A depth for every node and a bound above all of them */
  datatype Ranks = Ranks(depth: map<int, nat>, bound: nat)

  /** Parent links lead strictly down the ranking and child links strictly up. */
  ghost predicate Ranked(db: map<int, Media>, rk: Ranks)
  {
    && db.Keys == rk.depth.Keys
    && (forall id :: id in rk.depth ==> rk.depth[id] < rk.bound)
    && (forall id :: id in db && db[id].parent.Some? ==>
          db[id].parent.value in db && rk.depth[db[id].parent.value] < rk.depth[id])
    && (forall id, i :: id in db && 0 <= i < |Children(db[id])| ==>
          Children(db[id])[i] in db && rk.depth[id] < rk.depth[Children(db[id])[i]])
  }

  /** The depth of a node, for use in termination measures */
  function Rank(rk: Ranks, id: int): nat
  {
    if id in rk.depth then rk.depth[id] else 0
  }

  /** How far a node sits below the bound: child links make it strictly smaller. */
  function Height(rk: Ranks, id: int): nat
  {
    if Rank(rk, id) < rk.bound then rk.bound - Rank(rk, id) else 0
  }

  /** The `i`-th child of a container is registered and ranks strictly higher. */
  lemma ChildRanked(db: map<int, Media>, rk: Ranks, id: int, i: nat)
    requires Ranked(db, rk) && id in db && i < |Children(db[id])|
    ensures Children(db[id])[i] in db
    ensures Rank(rk, id) < Rank(rk, Children(db[id])[i])
    ensures Height(rk, Children(db[id])[i]) < Height(rk, id)
  {
  }

  /** Every child of a registered node is registered. */
  lemma ChildrenRegistered(db: map<int, Media>, rk: Ranks, id: int)
    requires Ranked(db, rk) && id in db
    ensures AllIn(db, Children(db[id]))
  {
    forall i | 0 <= i < |Children(db[id])|
      ensures Children(db[id])[i] in db
    {
      ChildRanked(db, rk, id, i);
    }
  }

  /** An optional parent link that, if set, names a registered node */
  ghost predicate InRegistry(db: map<int, Media>, p: Option<int>)
  {
    p.Some? ==> p.value in db
  }

  // ---------------------------------------------------------------------------
  // Ancestry
  // ---------------------------------------------------------------------------

  /** The dbids met by following `parent_obj` from `p` upward, nearest first */
  ghost function Lineage(db: map<int, Media>, rk: Ranks, p: Option<int>): (r: seq<int>)
    requires Ranked(db, rk) && InRegistry(db, p)
    ensures forall i :: 0 <= i < |r| ==> r[i] in db
    ensures p.None? <==> r == []
    decreases if p.Some? then Rank(rk, p.value) + 1 else 0
  {
    if p.None? then [] else [p.value] + Lineage(db, rk, db[p.value].parent)
  }

  /** The parent, the parent's parent, and so on up to a root */
  ghost function Ancestors(db: map<int, Media>, rk: Ranks, id: int): seq<int>
    requires Ranked(db, rk) && id in db
  {
    Lineage(db, rk, db[id].parent)
  }

  /** `get_depth`: the level of a node, 1 for a root */
  ghost function Depth(db: map<int, Media>, rk: Ranks, id: int): int
    requires Ranked(db, rk) && id in db
  {
    1 + |Ancestors(db, rk, id)|
  }

  /** A root is at level 1, and a child one level below its parent. */
  lemma DepthOfChild(db: map<int, Media>, rk: Ranks, id: int)
    requires Ranked(db, rk) && id in db
    ensures db[id].parent.None? ==> Depth(db, rk, id) == 1
    ensures db[id].parent.Some? ==> Depth(db, rk, id) == Depth(db, rk, db[id].parent.value) + 1
  {
  }

  /** Every node met walking up from `p` ranks below anything `p` ranks below. */
  lemma {:induction false} LineageBelow(db: map<int, Media>, rk: Ranks, p: Option<int>, bound: nat)
    requires Ranked(db, rk) && InRegistry(db, p)
    requires p.Some? ==> Rank(rk, p.value) < bound
    ensures forall i :: 0 <= i < |Lineage(db, rk, p)| ==> Rank(rk, Lineage(db, rk, p)[i]) < bound
    decreases if p.Some? then Rank(rk, p.value) + 1 else 0
  {
    if p.Some? {
      var q := db[p.value].parent;
      LineageBelow(db, rk, q, bound);
    }
  }

  /** A node never occurs among its own ancestors, so the upward walks visit each ancestor once. */
  lemma NotOwnAncestor(db: map<int, Media>, rk: Ranks, id: int)
    requires Ranked(db, rk) && id in db
    ensures id !in Ancestors(db, rk, id)
  {
    LineageBelow(db, rk, db[id].parent, Rank(rk, id));
  }

  /** A Folder whose `hidden_flag` is set */
  predicate HiddenFolder(m: Media)
  {
    m.kind == Folder && m.box.hiddenFlag
  }

  /** `is_hidden`: the node itself or one of its ancestors is a hidden Folder */
  ghost predicate IsHidden(db: map<int, Media>, rk: Ranks, id: int)
    requires Ranked(db, rk) && id in db
  {
    var anc := Ancestors(db, rk, id);
    HiddenFolder(db[id]) || exists i :: 0 <= i < |anc| && HiddenFolder(db[anc[i]])
  }

  /** Everything below a hidden node is hidden. */
  lemma HiddenIsInherited(db: map<int, Media>, rk: Ranks, id: int)
    requires Ranked(db, rk) && id in db && db[id].parent.Some?
    requires IsHidden(db, rk, db[id].parent.value)
    ensures IsHidden(db, rk, id)
  {
    var p := db[id].parent.value;
    var anc := Ancestors(db, rk, id);
    assert anc == [p] + Ancestors(db, rk, p);
    if HiddenFolder(db[p]) {
      assert HiddenFolder(db[anc[0]]);
    } else {
      var i :| 0 <= i < |Ancestors(db, rk, p)| && HiddenFolder(db[Ancestors(db, rk, p)[i]]);
      assert anc[i + 1] == Ancestors(db, rk, p)[i];
    }
  }

  /** Some node met walking up from `p` satisfies `f`. */
  ghost predicate OnLineage(db: map<int, Media>, rk: Ranks, p: Option<int>, f: Media -> bool)
    requires Ranked(db, rk) && InRegistry(db, p)
  {
    var lin := Lineage(db, rk, p);
    exists i :: 0 <= i < |lin| && f(db[lin[i]])
  }

  /** One step of an upward search: nothing above a root; otherwise this node, or one above it. */
  lemma OnLineageStep(db: map<int, Media>, rk: Ranks, p: Option<int>, f: Media -> bool)
    requires Ranked(db, rk) && InRegistry(db, p)
    ensures p.None? ==> !OnLineage(db, rk, p, f)
    ensures p.Some? ==> InRegistry(db, db[p.value].parent)
    ensures p.Some? ==> (OnLineage(db, rk, p, f) <==> f(db[p.value]) || OnLineage(db, rk, db[p.value].parent, f))
  {
    if p.Some? {
      var x := p.value;
      assert x in db;
      var q := db[x].parent;
      assert InRegistry(db, q);
      var lin, rest := Lineage(db, rk, p), Lineage(db, rk, q);
      assert lin == [x] + rest;
      if f(db[x]) {
        assert f(db[lin[0]]);
      }
      if OnLineage(db, rk, q, f) {
        var i :| 0 <= i < |rest| && f(db[rest[i]]);
        assert lin[i + 1] == rest[i];
      }
      if OnLineage(db, rk, p, f) && !f(db[x]) {
        var i :| 0 <= i < |lin| && f(db[lin[i]]);
        assert i > 0 && rest[i - 1] == lin[i];
        assert f(db[rest[i - 1]]);
      }
    }
  }

  /** `is_hidden` is a test of the node itself and then a search up its lineage. */
  lemma IsHiddenOnLineage(db: map<int, Media>, rk: Ranks, id: int)
    requires Ranked(db, rk) && id in db
    ensures IsHidden(db, rk, id) <==> HiddenFolder(db[id]) || OnLineage(db, rk, db[id].parent, HiddenFolder)
  {
  }

  /** `ancestor_is_favourite`: some ancestor has `fav_flag` set */
  ghost predicate AncestorIsFavourite(db: map<int, Media>, rk: Ranks, id: int)
    requires Ranked(db, rk) && id in db
  {
    var anc := Ancestors(db, rk, id);
    exists i :: 0 <= i < |anc| && db[anc[i]].favFlag
  }

  /** A node with `fav_flag` set */
  predicate Favourite(m: Media)
  {
    m.favFlag
  }

  /** `ancestor_is_favourite` is a search up the lineage of the parent. */
  lemma AncestorIsFavouriteOnLineage(db: map<int, Media>, rk: Ranks, id: int)
    requires Ranked(db, rk) && id in db
    ensures AncestorIsFavourite(db, rk, id) <==> OnLineage(db, rk, db[id].parent, Favourite)
  {
  }

  // ---------------------------------------------------------------------------
  // Directories
  // ---------------------------------------------------------------------------

  /** The names of `p` and its ancestors, root first */
  ghost function NamesFromRoot(db: map<int, Media>, rk: Ranks, p: Option<int>): (r: seq<string>)
    requires Ranked(db, rk) && InRegistry(db, p)
    decreases if p.Some? then Rank(rk, p.value) + 1 else 0
  {
    if p.None? then [] else NamesFromRoot(db, rk, db[p.value].parent) + [db[p.value].name]
  }

  /** Read backwards, the path names are the names of the lineage. */
  lemma {:induction false} NamesFromRootReversesLineage(db: map<int, Media>, rk: Ranks, p: Option<int>)
    requires Ranked(db, rk) && InRegistry(db, p)
    ensures |NamesFromRoot(db, rk, p)| == |Lineage(db, rk, p)|
    ensures forall i :: 0 <= i < |Lineage(db, rk, p)| ==>
      NamesFromRoot(db, rk, p)[|Lineage(db, rk, p)| - 1 - i] == db[Lineage(db, rk, p)[i]].name
    decreases if p.Some? then Rank(rk, p.value) + 1 else 0
  {
    if p.Some? {
      var q := db[p.value].parent;
      NamesFromRootReversesLineage(db, rk, q);
      var names := NamesFromRoot(db, rk, p);
      var lin := Lineage(db, rk, p);
      assert names == NamesFromRoot(db, rk, q) + [db[p.value].name];
      assert lin == [p.value] + Lineage(db, rk, q);
      forall i | 0 <= i < |lin|
        ensures names[|lin| - 1 - i] == db[lin[i]].name
      {
        if i > 0 {
          assert lin[i] == Lineage(db, rk, q)[i - 1];
        }
      }
    }
  }

  /** The name a directory is built from: `new_name` when given, otherwise the node's own */
  function LeafName(m: Media, newName: Option<string>): string
  {
    newName.GetOr(m.name)
  }

  /** `get_relative_default_dir`: the ancestors' names from the root, then this node's name */
  ghost function RelativeDefaultDir(db: map<int, Media>, rk: Ranks, id: int, newName: Option<string>): seq<string>
    requires Ranked(db, rk) && id in db
  {
    NamesFromRoot(db, rk, db[id].parent) + [LeafName(db[id], newName)]
  }

  /** `get_default_dir`: the downloads directory followed by the relative directory */
  ghost function DefaultDir(db: map<int, Media>, rk: Ranks, id: int, base: seq<string>, newName: Option<string>): seq<string>
    requires Ranked(db, rk) && id in db
  {
    base + RelativeDefaultDir(db, rk, id, newName)
  }

  /** The default directory has one segment per level below the downloads directory. */
  lemma DefaultDirLength(db: map<int, Media>, rk: Ranks, id: int, base: seq<string>, newName: Option<string>)
    requires Ranked(db, rk) && id in db
    ensures |DefaultDir(db, rk, id, base, newName)| == |base| + Depth(db, rk, id)
    ensures DefaultDir(db, rk, id, base, newName)[..|base|] == base
  {
    NamesFromRootReversesLineage(db, rk, db[id].parent);
  }

  /** A child's directory is its parent's directory with one more segment, its own name. */
  lemma DefaultDirOfChild(db: map<int, Media>, rk: Ranks, id: int, base: seq<string>, newName: Option<string>)
    requires Ranked(db, rk) && id in db && db[id].parent.Some?
    ensures DefaultDir(db, rk, id, base, newName)
         == DefaultDir(db, rk, db[id].parent.value, base, None) + [LeafName(db[id], newName)]
  {
  }

  /** `new_name` replaces the last segment and nothing else. */
  lemma DefaultDirRenamesLeafOnly(db: map<int, Media>, rk: Ranks, id: int, base: seq<string>, newName: string)
    requires Ranked(db, rk) && id in db
    ensures var renamed := DefaultDir(db, rk, id, base, Some(newName));
            var current := DefaultDir(db, rk, id, base, None);
      && |renamed| == |current|
      && renamed[..|renamed| - 1] == current[..|current| - 1]
      && renamed[|renamed| - 1] == newName
      && current[|current| - 1] == db[id].name
  {
    var prefix := base + NamesFromRoot(db, rk, db[id].parent);
    assert DefaultDir(db, rk, id, base, Some(newName)) == prefix + [newName];
    assert DefaultDir(db, rk, id, base, None) == prefix + [db[id].name];
  }

  /**
   * `get_actual_dir` as the source writes it: a redirected container asks its
   * master for the master's default directory, passing `new_name` on. None
   * stands for the KeyError of a master that is not registered, and for the
   * AttributeError of a master that is a Video.
   */
  ghost function ActualDirAsWritten(db: map<int, Media>, rk: Ranks, id: int, base: seq<string>, newName: Option<string>): Option<seq<string>>
    requires Ranked(db, rk) && id in db
  {
    var master := db[id].box.masterDbid;
    if master != id then
      if master in db && db[master].IsContainer() then Some(DefaultDir(db, rk, master, base, newName)) else None
    else Some(DefaultDir(db, rk, id, base, newName))
  }

  /**
   * `get_actual_dir` as its documentation describes it: `new_name` renames
   * this container, so it changes nothing when the files go to the master's
   * directory.
   */
  ghost function ActualDir(db: map<int, Media>, rk: Ranks, id: int, base: seq<string>, newName: Option<string>): Option<seq<string>>
    requires Ranked(db, rk) && id in db
  {
    var master := db[id].box.masterDbid;
    if master != id then
      if master in db && db[master].IsContainer() then Some(DefaultDir(db, rk, master, base, None)) else None
    else Some(DefaultDir(db, rk, id, base, newName))
  }

  /**
   * The redirection goes one level only: the master's own master is not
   * consulted, and a renamed redirected container still downloads into the
   * master's directory.
   */
  lemma ActualDirIgnoresRenameWhenRedirected(db: map<int, Media>, rk: Ranks, id: int, base: seq<string>, newName: Option<string>)
    requires Ranked(db, rk) && id in db
    ensures db[id].box.masterDbid == id ==> ActualDir(db, rk, id, base, newName) == Some(DefaultDir(db, rk, id, base, newName))
    ensures db[id].box.masterDbid != id ==> ActualDir(db, rk, id, base, newName) == ActualDir(db, rk, id, base, None)
    ensures var master := db[id].box.masterDbid;
      master != id && master in db && db[master].IsContainer() ==>
        ActualDir(db, rk, id, base, newName) == Some(DefaultDir(db, rk, master, base, None))
  {
  }

  /**
   * As written, asking for the directory a redirected container would use
   * after a rename produces the master's parent directory joined with the
   * new name: a directory neither container uses.
   */
  lemma {:induction false} ActualDirAsWrittenRenamesMaster(db: map<int, Media>, rk: Ranks, id: int, base: seq<string>, newName: string)
    requires Ranked(db, rk) && id in db
    requires var master := db[id].box.masterDbid; master != id && master in db && db[master].IsContainer()
    requires newName != db[db[id].box.masterDbid].name
    ensures ActualDirAsWritten(db, rk, id, base, Some(newName)).Some?
    ensures ActualDirAsWritten(db, rk, id, base, Some(newName)) != ActualDir(db, rk, id, base, Some(newName))
  {
    var master := db[id].box.masterDbid;
    DefaultDirRenamesLeafOnly(db, rk, master, base, newName);
  }

  /** The two agree whenever no new name is asked for. */
  lemma ActualDirAsWrittenAgreesWithoutRename(db: map<int, Media>, rk: Ranks, id: int, base: seq<string>)
    requires Ranked(db, rk) && id in db
    ensures ActualDirAsWritten(db, rk, id, base, None) == ActualDir(db, rk, id, base, None)
  {
  }
  // ---------------------------------------------------------------------------
  // Video paths
  // ---------------------------------------------------------------------------

  /**
   * `get_default_path`, `get_actual_path` (`actual`) and their `_by_ext`
   * forms (`ext` given): the parent's default or actual directory joined
   * with the file name and the extension, the given one gaining a leading
   * dot. None stands for the errors the source raises: no parent, or one
   * without directories (a Video), a redirection that fails, or a file
   * name or extension that is still None.
   */
  ghost function VideoPath(db: map<int, Media>, rk: Ranks, id: int, base: seq<string>, actual: bool, ext: Option<string>): (r: Option<seq<string>>)
    requires Ranked(db, rk) && id in db
  {
    var m := db[id];
    var suffix := if ext.Some? then Some(DottedExt(ext.value)) else m.video.fileExt;
    if m.parent.None? || m.video.fileName.None? || suffix.None? then None
    else
      var p := m.parent.value;
      if !db[p].IsContainer() then None
      else
        var dir := if actual then ActualDir(db, rk, p, base, None) else Some(DefaultDir(db, rk, p, base, None));
        if dir.None? then None else Some(dir.value + [m.video.fileName.value + suffix.value])
  }

  /**
   * A path is the parent's directory with one more segment, so it lies one
   * level below the video's parent; the default path starts with the
   * downloads directory.
   */
  lemma VideoPathShape(db: map<int, Media>, rk: Ranks, id: int, base: seq<string>, ext: Option<string>)
    requires Ranked(db, rk) && id in db
    ensures var r := VideoPath(db, rk, id, base, false, ext);
      r.Some? ==> (db[id].parent.Some? && |r.value| == |base| + Depth(db, rk, id)
        && r.value[..|base|] == base
        && r.value[..|r.value| - 1] == DefaultDir(db, rk, db[id].parent.value, base, None))
  {
    var r := VideoPath(db, rk, id, base, false, ext);
    if r.Some? {
      var p := db[id].parent.value;
      assert p in db;
      DefaultDirLength(db, rk, p, base, None);
      DepthOfChild(db, rk, id);
      var dir := DefaultDir(db, rk, p, base, None);
      assert r.value[..|r.value| - 1] == dir;
      assert r.value[..|base|] == dir[..|base|];
    }
  }

  /** Asking by the video's own extension, already dotted, gives the same path. */
  lemma VideoPathByOwnExt(db: map<int, Media>, rk: Ranks, id: int, base: seq<string>, actual: bool)
    requires Ranked(db, rk) && id in db
    requires db[id].video.fileExt.Some?
    ensures var e := db[id].video.fileExt.value;
      |e| > 0 && e[0] == '.' ==> VideoPath(db, rk, id, base, actual, Some(e)) == VideoPath(db, rk, id, base, actual, None)
  {
  }

  /**
   * An undotted extension and its dotted form ask for the same file; as
   * `find('.') == 0` tests only the first character, "mp4" and ".mp4" agree
   * and ".tar.gz" is kept as it is.
   */
  lemma VideoPathDotsExt(db: map<int, Media>, rk: Ranks, id: int, base: seq<string>, actual: bool, ext: string)
    requires Ranked(db, rk) && id in db
    ensures VideoPath(db, rk, id, base, actual, Some(ext)) == VideoPath(db, rk, id, base, actual, Some(DottedExt(ext)))
  {
  }

  /** A video whose parent is its own destination has its actual path at its default path. */
  lemma ActualPathIsDefaultUnlessRedirected(db: map<int, Media>, rk: Ranks, id: int, base: seq<string>, ext: Option<string>)
    requires Ranked(db, rk) && id in db
    requires db[id].parent.Some? ==> db[db[id].parent.value].box.masterDbid == db[id].parent.value
    ensures VideoPath(db, rk, id, base, true, ext) == VideoPath(db, rk, id, base, false, ext)
  {
  }
}
