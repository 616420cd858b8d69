/**
 * The dictionaries `export_from_db` saves as JSON: `prepare_export` keeps
 * the folder structure, `prepare_flat_export` lists every channel and
 * playlist at the top level. Each is a function of the registry here; the
 * flat export is run in place by the registry class (registry.dfy).
 */
module Export {
  import opened Wrappers
  import opened Media
  import opened Tree

  /** One exported entry: `type`, `dbid`, `name`, `nickname`, `source` and the entries below it, by dbid */
  datatype Doc = Doc(typeName: string, dbid: int, name: string, nickname: Option<string>,
                     source: Option<string>, dbDict: map<int, Doc>)

  /** The three `include_…_flag` arguments */
  datatype ExportFlags = ExportFlags(videos: bool, channels: bool, playlists: bool)

  /** The node is left out, with everything below it: a video, an unwanted channel or playlist, or a fixed folder */
  predicate Skipped(m: Media, f: ExportFlags)
  {
    match m.kind
    case Video => true
    case Channel => !f.channels
    case Playlist => !f.playlists
    case Folder => m.box.fixedFlag
  }

  /** A child video is exported only when videos are wanted and its source URL is known. */
  predicate VideoWanted(m: Media, f: ExportFlags)
  {
    m.IsVideo() && f.videos && m.source.Some?
  }

  /** The entry of a child video: no nickname, nothing below it */
  function VideoDoc(m: Media): (d: Doc)
  {
    Doc("video", m.dbid, m.name, None, m.source, map[])
  }

  /** The entry of an exported container; a folder's source is always None */
  function ContainerDoc(m: Media, below: map<int, Doc>): Doc
  {
    Doc(TypeName(m), m.dbid, m.name, Some(m.nickname), if m.kind == Folder then None else m.source, below)
  }

  // ---------------------------------------------------------------------------
  // prepare_export
  // ---------------------------------------------------------------------------

  /** `prepare_export`: the entry of a container and its subtree, or None when it is skipped */
  ghost function PrepareExport(db: map<int, Media>, rk: Ranks, id: int, f: ExportFlags): (r: Option<Doc>)
    requires Ranked(db, rk) && id in db
    decreases Height(rk, id), 1, 0
  {
    var m := db[id];
    if Skipped(m, f) then None
    else Some(ContainerDoc(m, ExportChildren(db, rk, id, f, |Children(m)|)))
  }

  /** The `db_dict` built from the first `n` children of `id`, a later child overwriting an earlier one with the same dbid */
  ghost function ExportChildren(db: map<int, Media>, rk: Ranks, id: int, f: ExportFlags, n: nat): (r: map<int, Doc>)
    requires Ranked(db, rk) && id in db && n <= |Children(db[id])|
    decreases Height(rk, id), 0, n
  {
    if n == 0 then map[]
    else
      ChildRanked(db, rk, id, n - 1);
      var k := Children(db[id])[n - 1];
      var d := ExportChildren(db, rk, id, f, n - 1);
      if db[k].IsVideo() then
        if VideoWanted(db[k], f) then d[db[k].dbid := VideoDoc(db[k])] else d
      else
        var sub := PrepareExport(db, rk, k, f);
        if sub.Some? then d[db[k].dbid := sub.value] else d
  }

  /** The child `k` gets an entry: a wanted video, or a container that is not skipped */
  predicate Included(m: Media, f: ExportFlags)
  {
    if m.IsVideo() then VideoWanted(m, f) else !Skipped(m, f)
  }

  /** An exported tree honours the flags at every level, and each entry sits under its own dbid. */
  ghost predicate Allowed(f: ExportFlags, d: Doc)
  {
    && (d.typeName == "video" || d.typeName == "channel" || d.typeName == "playlist" || d.typeName == "folder")
    && (d.typeName == "video" ==> f.videos && d.source.Some? && d.nickname == None && d.dbDict == map[])
    && (d.typeName == "channel" ==> f.channels)
    && (d.typeName == "playlist" ==> f.playlists)
    && (d.typeName == "folder" ==> d.source == None)
    && (d.typeName != "video" ==> d.nickname.Some?)
    && (forall k :: k in d.dbDict ==> d.dbDict[k].dbid == k && Allowed(f, d.dbDict[k]))
  }

  /** Every entry of a `db_dict` sits under its own dbid and honours the flags. */
  ghost predicate EntriesAllowed(f: ExportFlags, d: map<int, Doc>)
  {
    forall key :: key in d ==> d[key].dbid == key && Allowed(f, d[key])
  }

  /** A wanted video's entry honours the flags. */
  lemma VideoDocAllowed(m: Media, f: ExportFlags)
    requires VideoWanted(m, f)
    ensures VideoDoc(m).typeName == "video" && VideoDoc(m).dbid == m.dbid && Allowed(f, VideoDoc(m))
  {
    var d := VideoDoc(m);
    assert d.dbDict == map[];
    assert forall k :: k !in d.dbDict;
  }

  /** The entry of a container that is not skipped honours the flags when the entries below it do. */
  lemma ContainerDocAllowed(m: Media, f: ExportFlags, below: map<int, Doc>)
    requires m.IsContainer() && !Skipped(m, f)
    requires EntriesAllowed(f, below)
    ensures Allowed(f, ContainerDoc(m, below))
  {
    var d := ContainerDoc(m, below);
    assert d.dbDict == below;
  }

  /** Adding an entry under its own dbid keeps every entry allowed. */
  lemma InsertAllowed(f: ExportFlags, d: map<int, Doc>, e: Doc)
    requires EntriesAllowed(f, d) && Allowed(f, e)
    ensures EntriesAllowed(f, d[e.dbid := e])
  {
    var r := d[e.dbid := e];
    forall key | key in r
      ensures r[key].dbid == key && Allowed(f, r[key])
    {
      if key != e.dbid {
        assert r[key] == d[key];
      }
    }
  }

  /** `prepare_export` returns None exactly for the nodes it skips, and otherwise the node's own entry. */
  lemma PrepareExportNone(db: map<int, Media>, rk: Ranks, id: int, f: ExportFlags)
    requires Ranked(db, rk) && id in db
    ensures PrepareExport(db, rk, id, f).None? <==> Skipped(db[id], f)
    ensures PrepareExport(db, rk, id, f).Some? ==>
      var d := PrepareExport(db, rk, id, f).value;
      d.dbid == db[id].dbid && d.name == db[id].name && d.nickname == Some(db[id].nickname) && d.typeName == TypeName(db[id])
  {
  }

  /** Every entry of an export, at every depth, honours the flags. */
  lemma {:induction false} ExportAllowed(db: map<int, Media>, rk: Ranks, id: int, f: ExportFlags)
    requires Ranked(db, rk) && id in db
    ensures PrepareExport(db, rk, id, f).Some? ==> Allowed(f, PrepareExport(db, rk, id, f).value)
    decreases Height(rk, id), 1, 0
  {
    if !Skipped(db[id], f) {
      ExportChildrenAllowed(db, rk, id, f, |Children(db[id])|);
      ContainerDocAllowed(db[id], f, ExportChildren(db, rk, id, f, |Children(db[id])|));
    }
  }

  lemma {:induction false} ExportChildrenAllowed(db: map<int, Media>, rk: Ranks, id: int, f: ExportFlags, n: nat)
    requires Ranked(db, rk) && id in db && n <= |Children(db[id])|
    ensures EntriesAllowed(f, ExportChildren(db, rk, id, f, n))
    decreases Height(rk, id), 0, n
  {
    if n > 0 {
      ChildRanked(db, rk, id, n - 1);
      var k := Children(db[id])[n - 1];
      ExportChildrenAllowed(db, rk, id, f, n - 1);
      var d := ExportChildren(db, rk, id, f, n - 1);
      if db[k].IsVideo() {
        if VideoWanted(db[k], f) {
          VideoDocAllowed(db[k], f);
          InsertAllowed(f, d, VideoDoc(db[k]));
        }
      } else {
        ExportAllowed(db, rk, k, f);
        PrepareExportNone(db, rk, k, f);
        var sub := PrepareExport(db, rk, k, f);
        if sub.Some? {
          InsertAllowed(f, d, sub.value);
        }
      }
    }
  }

  /** The `db_dict` of the first `n` children holds exactly the dbids of the included ones. */
  lemma {:induction false} ExportChildrenKeys(db: map<int, Media>, rk: Ranks, id: int, f: ExportFlags, n: nat)
    requires Ranked(db, rk) && id in db && n <= |Children(db[id])|
    ensures forall i :: 0 <= i < n ==> Children(db[id])[i] in db
    ensures forall key :: key in ExportChildren(db, rk, id, f, n) <==>
      exists i :: 0 <= i < n && db[Children(db[id])[i]].dbid == key && Included(db[Children(db[id])[i]], f)
    decreases n
  {
    forall i | 0 <= i < n
      ensures Children(db[id])[i] in db
    {
      ChildRanked(db, rk, id, i);
    }
    if n > 0 {
      ExportChildrenKeys(db, rk, id, f, n - 1);
      var k := Children(db[id])[n - 1];
      if !db[k].IsVideo() {
        PrepareExportNone(db, rk, k, f);
      }
    }
  }

  // ---------------------------------------------------------------------------
  // prepare_flat_export
  // ---------------------------------------------------------------------------

  /** The `child_dict` of a channel or playlist: its wanted videos, by dbid */
  ghost function VideoEntries(db: map<int, Media>, ks: seq<int>, f: ExportFlags): (r: map<int, Doc>)
    requires AllIn(db, ks)
  {
    if ks == [] then map[]
    else
      var k := ks[|ks| - 1];
      var d := VideoEntries(db, ks[..|ks| - 1], f);
      if VideoWanted(db[k], f) then d[db[k].dbid := VideoDoc(db[k])] else d
  }

  /**
   * `prepare_flat_export`: `acc` with an entry for every wanted channel and
   * playlist in the subtree, each holding its own wanted videos; folders are
   * walked through but get no entry, and videos directly in a folder are dropped.
   */
  ghost function FlatExport(db: map<int, Media>, rk: Ranks, id: int, acc: map<int, Doc>, f: ExportFlags): (r: map<int, Doc>)
    requires Ranked(db, rk) && id in db
    decreases Height(rk, id), 1, 0
  {
    var m := db[id];
    if Skipped(m, f) then acc
    else
      var acc2 := FlatIn(db, rk, id, acc, f, |Children(m)|);
      if m.IsRemote() then
        ChildrenRegistered(db, rk, id);
        acc2[m.dbid := ContainerDoc(m, VideoEntries(db, Children(m), f))]
      else acc2
  }

  /** `acc` after the recursive calls for the first `n` children of `id` */
  ghost function FlatIn(db: map<int, Media>, rk: Ranks, id: int, acc: map<int, Doc>, f: ExportFlags, n: nat): (r: map<int, Doc>)
    requires Ranked(db, rk) && id in db && n <= |Children(db[id])|
    decreases Height(rk, id), 0, n
  {
    if n == 0 then acc
    else
      ChildRanked(db, rk, id, n - 1);
      var k := Children(db[id])[n - 1];
      var a := FlatIn(db, rk, id, acc, f, n - 1);
      if db[k].IsVideo() then a else FlatExport(db, rk, k, a, f)
  }

  /** The shape of a flat export: every entry is a wanted channel or playlist holding only video entries. */
  ghost predicate FlatShape(f: ExportFlags, acc: map<int, Doc>)
  {
    forall key :: key in acc ==> FlatEntry(f, key, acc[key])
  }

  ghost predicate FlatEntry(f: ExportFlags, key: int, e: Doc)
  {
    && e.dbid == key
    && (e.typeName == "channel" || e.typeName == "playlist")
    && Allowed(f, e)
    && OnlyVideos(e.dbDict)
  }

  /** Every entry is a video entry. */
  ghost predicate OnlyVideos(d: map<int, Doc>)
  {
    forall v :: v in d ==> d[v].typeName == "video"
  }

  /** The wanted videos of a list are video entries honouring the flags. */
  lemma {:induction false} VideoEntriesAllowed(db: map<int, Media>, ks: seq<int>, f: ExportFlags)
    requires AllIn(db, ks)
    ensures EntriesAllowed(f, VideoEntries(db, ks, f)) && OnlyVideos(VideoEntries(db, ks, f))
    decreases |ks|
  {
    if ks != [] {
      var k := ks[|ks| - 1];
      assert AllIn(db, ks[..|ks| - 1]);
      VideoEntriesAllowed(db, ks[..|ks| - 1], f);
      var d := VideoEntries(db, ks[..|ks| - 1], f);
      if VideoWanted(db[k], f) {
        VideoDocAllowed(db[k], f);
        InsertAllowed(f, d, VideoDoc(db[k]));
        InsertVideo(d, VideoDoc(db[k]));
      }
    }
  }

  /** Adding a video entry to video entries leaves only video entries. */
  lemma InsertVideo(d: map<int, Doc>, e: Doc)
    requires OnlyVideos(d) && e.typeName == "video"
    ensures OnlyVideos(d[e.dbid := e])
  {
    var r := d[e.dbid := e];
    forall v | v in r
      ensures r[v].typeName == "video"
    {
      if v != e.dbid {
        assert r[v] == d[v];
      }
    }
  }

  /** A flat export keeps every entry it is given and adds only entries of the flat shape. */
  lemma {:induction false} FlatExportShape(db: map<int, Media>, rk: Ranks, id: int, acc: map<int, Doc>, f: ExportFlags)
    requires Ranked(db, rk) && id in db && FlatShape(f, acc)
    ensures acc.Keys <= FlatExport(db, rk, id, acc, f).Keys
    ensures FlatShape(f, FlatExport(db, rk, id, acc, f))
    decreases Height(rk, id), 1, 0
  {
    var m := db[id];
    if !Skipped(m, f) {
      FlatInShape(db, rk, id, acc, f, |Children(m)|);
      if m.IsRemote() {
        ChildrenRegistered(db, rk, id);
        var below := VideoEntries(db, Children(m), f);
        VideoEntriesAllowed(db, Children(m), f);
        ContainerDocAllowed(m, f, below);
        var acc2 := FlatIn(db, rk, id, acc, f, |Children(m)|);
        var e := ContainerDoc(m, below);
        assert e.typeName == "channel" || e.typeName == "playlist";
        var r := acc2[m.dbid := e];
        forall key | key in r
          ensures FlatEntry(f, key, r[key])
        {
          if key != m.dbid {
            assert r[key] == acc2[key];
          }
        }
      }
    }
  }

  lemma {:induction false} FlatInShape(db: map<int, Media>, rk: Ranks, id: int, acc: map<int, Doc>, f: ExportFlags, n: nat)
    requires Ranked(db, rk) && id in db && n <= |Children(db[id])| && FlatShape(f, acc)
    ensures acc.Keys <= FlatIn(db, rk, id, acc, f, n).Keys
    ensures FlatShape(f, FlatIn(db, rk, id, acc, f, n))
    decreases Height(rk, id), 0, n
  {
    if n > 0 {
      ChildRanked(db, rk, id, n - 1);
      var k := Children(db[id])[n - 1];
      FlatInShape(db, rk, id, acc, f, n - 1);
      if !db[k].IsVideo() {
        FlatExportShape(db, rk, k, FlatIn(db, rk, id, acc, f, n - 1), f);
      }
    }
  }

  /** Walking children that are all videos adds nothing to the flat export. */
  lemma {:induction false} FlatInOfVideos(db: map<int, Media>, rk: Ranks, id: int, acc: map<int, Doc>, f: ExportFlags, n: nat)
    requires Ranked(db, rk) && id in db && n <= |Children(db[id])|
    requires forall i :: 0 <= i < n ==> Children(db[id])[i] in db && db[Children(db[id])[i]].IsVideo()
    ensures FlatIn(db, rk, id, acc, f, n) == acc
    decreases n
  {
    if n > 0 {
      FlatInOfVideos(db, rk, id, acc, f, n - 1);
    }
  }

  /** Over children that are all videos, the nested `db_dict` and the flat `child_dict` agree. */
  lemma {:induction false} VideoEntriesAreExport(db: map<int, Media>, rk: Ranks, id: int, f: ExportFlags, n: nat)
    requires Ranked(db, rk) && id in db && n <= |Children(db[id])|
    requires forall i :: 0 <= i < n ==> Children(db[id])[i] in db && db[Children(db[id])[i]].IsVideo()
    ensures AllIn(db, Children(db[id])[..n])
    ensures VideoEntries(db, Children(db[id])[..n], f) == ExportChildren(db, rk, id, f, n)
    decreases n
  {
    var ks := Children(db[id])[..n];
    assert AllIn(db, ks);
    if n > 0 {
      VideoEntriesAreExport(db, rk, id, f, n - 1);
      assert ks[..n - 1] == Children(db[id])[..n - 1];
    }
  }

  /**
   * For a channel or playlist that holds only videos (in a valid registry
   * every one does: see `Registry.RemoteFlatEntry`), its flat entry is its
   * nested export.
   */
  lemma FlatEntryIsExport(db: map<int, Media>, rk: Ranks, id: int, acc: map<int, Doc>, f: ExportFlags)
    requires Ranked(db, rk) && id in db && db[id].IsRemote() && !Skipped(db[id], f)
    requires forall i :: 0 <= i < |Children(db[id])| ==> Children(db[id])[i] in db && db[Children(db[id])[i]].IsVideo()
    ensures PrepareExport(db, rk, id, f).Some?
    ensures FlatExport(db, rk, id, acc, f) == acc[db[id].dbid := PrepareExport(db, rk, id, f).value]
  {
    var n := |Children(db[id])|;
    FlatInOfVideos(db, rk, id, acc, f, n);
    VideoEntriesAreExport(db, rk, id, f, n);
    assert Children(db[id])[..n] == Children(db[id]);
  }
}
