/**
 * The four kinds of media data object of the registry, as values.
 *
 * One record type covers the four Python classes (`Video`, `Channel`,
 * `Playlist`, `Folder`): a `kind` tag, the attributes all four share, and
 * one group of attributes each for videos and for containers. A node refers to its parent, its children and its alternative
 * download destination by dbid; the registry (registry.dfy) maps each dbid to
 * the node's current value. The `options_obj` reference is not modelled.
 */
module Media {
  import opened Wrappers

  /** The six direct-child counters of a container */
  datatype Counts = Counts(
    vidCount: int,
    bookmarkCount: int,
    dlCount: int,
    favCount: int,
    newCount: int,
    waitingCount: int)

  const NoCounts := Counts(0, 0, 0, 0, 0, 0)

  datatype Kind = Video | Channel | Playlist | Folder

  /** The attributes only a Video has */
  datatype VideoAttrs = VideoAttrs(
    archiveFlag: bool, bookmarkFlag: bool, newFlag: bool, waitingFlag: bool, dlFlag: bool,
    fileName: Option<string>, fileExt: Option<string>, fileSize: Option<int>,
    uploadTime: Option<int>, receiveTime: Option<int>, duration: Option<int>,
    index: Option<int>, descrip: Option<string>, short: Option<string>)

  /** The attributes only a container has; the last five only a Folder */
  datatype ContainerAttrs = ContainerAttrs(
    children: seq<int>, counts: Counts, masterDbid: int, slaveDbids: seq<int>,
    dlDisableFlag: bool,
    fixedFlag: bool, privFlag: bool, restrictFlag: bool, tempFlag: bool, hiddenFlag: bool)

  /**
   * One media data object. `video` is meaningful only for a Video and `box`
   * only for a container; a Folder has no `source` and never records errors
   * or warnings.
   */
  datatype Media = Media(
    kind: Kind, dbid: int, name: string, nickname: string, parent: Option<int>,
    dlSimFlag: bool, favFlag: bool, errors: seq<string>, warnings: seq<string>,
    source: Option<string>, video: VideoAttrs, box: ContainerAttrs)
  {
    /** Channel and Playlist, the `GenericRemoteContainer` classes */
    predicate IsRemote() { kind == Channel || kind == Playlist }

    /** Channel, Playlist and Folder, the `GenericContainer` classes */
    predicate IsContainer() { kind != Video }

    predicate IsVideo() { kind == Video }
  }

  const NoVideoAttrs := VideoAttrs(false, false, false, false, false,
    None, None, None, None, None, None, None, None, None)

  function EmptyBox(dbid: int): ContainerAttrs
  {
    ContainerAttrs([], NoCounts, dbid, [], false, false, false, false, false, false)
  }

  /** The child list of a container; a Video has none. */
  function Children(m: Media): (r: seq<int>)
    ensures m.IsContainer() ==> r == m.box.children
    ensures m.IsVideo() ==> r == []
  {
    if m.IsVideo() then [] else m.box.children
  }

  /** Every dbid of `ks` is registered in `db`. */
  ghost predicate AllIn(db: map<int, Media>, ks: seq<int>)
  {
    forall i :: 0 <= i < |ks| ==> ks[i] in db
  }

  /** `get_type`: the type name each kind is exported and reported under */
  function TypeName(m: Media): (r: string)
    ensures r == "video" <==> m.kind == Video
    ensures r == "channel" <==> m.kind == Channel
    ensures r == "playlist" <==> m.kind == Playlist
    ensures r == "folder" <==> m.kind == Folder
  {
    match m.kind
    case Channel => "channel"
    case Playlist => "playlist"
    case Folder => "folder"
    case Video => "video"
  }

  // ---------------------------------------------------------------------------
  // The initial state set by each constructor
  // ---------------------------------------------------------------------------

  /** `Video.__init__`: a video with every flag clear and nothing known yet */
  function NewVideo(dbid: int, name: string, parent: int): (r: Media)
    ensures r.kind == Video && r.dbid == dbid && r.name == name && r.nickname == name
    ensures r.parent == Some(parent) && r.source == None
    ensures !r.dlSimFlag && !r.favFlag && r.errors == [] && r.warnings == []
    ensures var v := r.video;
      && !v.archiveFlag && !v.bookmarkFlag && !v.newFlag && !v.waitingFlag && !v.dlFlag
      && v.fileName == None && v.fileExt == None && v.fileSize == None
      && v.uploadTime == None && v.receiveTime == None && v.duration == None
      && v.index == None && v.descrip == None && v.short == None
  {
    Media(Video, dbid, name, name, Some(parent), false, false, [], [], None, NoVideoAttrs, EmptyBox(dbid))
  }

  /** `Channel.__init__` and `Playlist.__init__`: an empty remote container that is its own destination */
  function NewRemote(isPlaylist: bool, dbid: int, name: string, parent: Option<int>): (r: Media)
    ensures r.kind == (if isPlaylist then Playlist else Channel)
    ensures r.dbid == dbid && r.name == name && r.nickname == name && r.parent == parent
    ensures r.source == None && r.box.children == [] && r.box.counts == NoCounts
    ensures r.box.masterDbid == dbid && r.box.slaveDbids == []
    ensures !r.dlSimFlag && !r.box.dlDisableFlag && !r.favFlag
    ensures r.errors == [] && r.warnings == []
  {
    Media(if isPlaylist then Playlist else Channel, dbid, name, name, parent, false, false, [], [], None,
      NoVideoAttrs, EmptyBox(dbid))
  }

  /** `Folder.__init__`: an empty, visible folder that is its own destination */
  function NewFolder(dbid: int, name: string, parent: Option<int>,
                     fixed: bool, priv: bool, restrict: bool, temp: bool): (r: Media)
    ensures r.kind == Folder && r.dbid == dbid && r.name == name && r.nickname == name
    ensures r.parent == parent && r.source == None
    ensures r.box.children == [] && r.box.counts == NoCounts
    ensures r.box.masterDbid == dbid && r.box.slaveDbids == []
    ensures r.box.fixedFlag == fixed && r.box.privFlag == priv
    ensures r.box.restrictFlag == restrict && r.box.tempFlag == temp
    ensures !r.box.hiddenFlag && !r.dlSimFlag && !r.box.dlDisableFlag && !r.favFlag
  {
    var box := EmptyBox(dbid).(fixedFlag := fixed, privFlag := priv, restrictFlag := restrict, tempFlag := temp);
    Media(Folder, dbid, name, name, parent, false, false, [], [], None, NoVideoAttrs, box)
  }

  // ---------------------------------------------------------------------------
  // Field mutators that do more than store their argument
  // ---------------------------------------------------------------------------

  /** The Python values a flag setter may be handed, and their truth value */
  datatype PyValue = PyNone | PyBool(b: bool) | PyInt(i: int) | PyStr(s: string)

  /** Python's `bool(v)` */
  predicate Truthy(v: PyValue)
  {
    match v
    case PyNone => false
    case PyBool(b) => b
    case PyInt(i) => i != 0
    case PyStr(s) => s != ""
  }

  /** The boolean attributes with a `set_…_flag` accessor that stores `bool(flag)` */
  datatype Flag = DlSimFlag | FavFlag | DlDisableFlag | ArchiveFlag | BookmarkFlag | NewFlag | WaitingFlag | HiddenFlag

  /** The classes that define each setter: every node, containers, videos, or folders */
  predicate HasFlag(m: Media, f: Flag)
  {
    match f
    case DlSimFlag => true
    case FavFlag => true
    case DlDisableFlag => m.IsContainer()
    case ArchiveFlag => m.IsVideo()
    case BookmarkFlag => m.IsVideo()
    case NewFlag => m.IsVideo()
    case WaitingFlag => m.IsVideo()
    case HiddenFlag => m.kind == Folder
  }

  function FlagOf(m: Media, f: Flag): bool
  {
    match f
    case DlSimFlag => m.dlSimFlag
    case FavFlag => m.favFlag
    case DlDisableFlag => m.box.dlDisableFlag
    case ArchiveFlag => m.video.archiveFlag
    case BookmarkFlag => m.video.bookmarkFlag
    case NewFlag => m.video.newFlag
    case WaitingFlag => m.video.waitingFlag
    case HiddenFlag => m.box.hiddenFlag
  }

  /** `set_…_flag(v)`: the flag becomes `bool(v)` */
  function WithFlag(m: Media, f: Flag, v: PyValue): (r: Media)
  {
    var b := Truthy(v);
    match f
    case DlSimFlag => m.(dlSimFlag := b)
    case FavFlag => m.(favFlag := b)
    case DlDisableFlag => m.(box := m.box.(dlDisableFlag := b))
    case ArchiveFlag => m.(video := m.video.(archiveFlag := b))
    case BookmarkFlag => m.(video := m.video.(bookmarkFlag := b))
    case NewFlag => m.(video := m.video.(newFlag := b))
    case WaitingFlag => m.(video := m.video.(waitingFlag := b))
    case HiddenFlag => m.(box := m.box.(hiddenFlag := b))
  }

  /**
   * A flag setter stores a strict boolean, the truth value of its argument,
   * in its own flag and in no other; the links, the name and the kind stay.
   */
  lemma WithFlagSetsOnlyThatFlag(m: Media, f: Flag, v: PyValue)
    ensures FlagOf(WithFlag(m, f, v), f) == Truthy(v)
    ensures forall g :: g != f ==> FlagOf(WithFlag(m, f, v), g) == FlagOf(m, g)
    ensures var r := WithFlag(m, f, v);
      r.kind == m.kind && r.dbid == m.dbid && r.parent == m.parent && r.name == m.name
      && r.box.children == m.box.children && r.box.counts == m.box.counts
      && r.box.masterDbid == m.box.masterDbid && r.box.slaveDbids == m.box.slaveDbids
  {
  }

  /** Setting a flag twice keeps only the second value. */
  lemma WithFlagOverwrites(m: Media, f: Flag, v: PyValue, w: PyValue)
    ensures WithFlag(WithFlag(m, f, v), f, w) == WithFlag(m, f, w)
  {
  }

  /** `set_error`: the message is appended, except on a Folder */
  function WithError(m: Media, msg: string): (r: Media)
    ensures m.kind == Folder ==> r == m
    ensures m.kind != Folder ==> r == m.(errors := m.errors + [msg])
  {
    if m.kind == Folder then m else m.(errors := m.errors + [msg])
  }

  /** `set_warning`: the message is appended, except on a Folder */
  function WithWarning(m: Media, msg: string): (r: Media)
    ensures m.kind == Folder ==> r == m
    ensures m.kind != Folder ==> r == m.(warnings := m.warnings + [msg])
  {
    if m.kind == Folder then m else m.(warnings := m.warnings + [msg])
  }

  /** `reset_error_warning`: both lists emptied, except on a Folder */
  function WithoutErrors(m: Media): (r: Media)
    ensures m.kind == Folder ==> r == m
    ensures m.kind != Folder ==> r == m.(errors := [], warnings := [])
  {
    if m.kind == Folder then m else m.(errors := [], warnings := [])
  }

  /** After a reset, the messages recorded are exactly those set since. */
  lemma ErrorsSinceReset(m: Media, msgs: seq<string>)
    requires m.kind != Folder
    ensures ApplyErrors(WithoutErrors(m), msgs).errors == msgs
    ensures ApplyErrors(WithoutErrors(m), msgs).warnings == []
  {
    ApplyErrorsAppends(WithoutErrors(m), msgs);
  }

  /** `set_error` called once for each of `msgs` */
  function ApplyErrors(m: Media, msgs: seq<string>): (r: Media)
    ensures r.kind == m.kind && r.warnings == m.warnings
    decreases |msgs|
  {
    if msgs == [] then m else ApplyErrors(WithError(m, msgs[0]), msgs[1..])
  }

  lemma {:induction false} ApplyErrorsAppends(m: Media, msgs: seq<string>)
    requires m.kind != Folder
    ensures ApplyErrors(m, msgs).errors == m.errors + msgs
    decreases |msgs|
  {
    if msgs != [] {
      ApplyErrorsAppends(WithError(m, msgs[0]), msgs[1..]);
      assert m.errors + [msgs[0]] + msgs[1..] == m.errors + msgs;
    }
  }

  /**
   * `clone_properties`: a channel or playlist takes over the nickname,
   * source, flags, the five flag counters and the message lists of another;
   * its own `vid_count`, links and name stay.
   */
  function Cloned(m: Media, other: Media): (r: Media)
    ensures r.kind == m.kind && r.dbid == m.dbid && r.name == m.name && r.parent == m.parent
    ensures r.box.children == m.box.children && r.box.masterDbid == m.box.masterDbid
    ensures r.box.slaveDbids == m.box.slaveDbids
    ensures r.box.counts.vidCount == m.box.counts.vidCount
    ensures r.nickname == other.nickname && r.source == other.source
    ensures r.dlSimFlag == other.dlSimFlag && r.box.dlDisableFlag == other.box.dlDisableFlag && r.favFlag == other.favFlag
    ensures r.box.counts.(vidCount := 0) == other.box.counts.(vidCount := 0)
    ensures r.errors == other.errors && r.warnings == other.warnings
  {
    var c := other.box.counts.(vidCount := m.box.counts.vidCount);
    m.(nickname := other.nickname, source := other.source, dlSimFlag := other.dlSimFlag,
       favFlag := other.favFlag, errors := other.errors, warnings := other.warnings,
       box := m.box.(dlDisableFlag := other.box.dlDisableFlag, counts := c))
  }

  /** `set_nickname`: None or '' resets the nickname to the name */
  function WithNickname(m: Media, nickname: Option<string>): (r: Media)
    ensures r == m.(nickname := r.nickname)
    ensures nickname == None || nickname == Some("") ==> r.nickname == m.name
    ensures nickname.Some? && nickname != Some("") ==> r.nickname == nickname.value
  {
    if nickname == None || nickname == Some("") then m.(nickname := m.name)
    else m.(nickname := nickname.value)
  }

  /**
   * `set_name`: a container's nickname that still equals its old name follows
   * the rename; a Video's nickname is left alone.
   */
  function Renamed(m: Media, name: string): (r: Media)
    ensures r == m.(name := name, nickname := r.nickname)
    ensures m.IsContainer() && m.nickname == m.name ==> r.nickname == name
    ensures m.IsVideo() || m.nickname != m.name ==> r.nickname == m.nickname
  {
    if m.IsContainer() && m.nickname == m.name then m.(name := name, nickname := name)
    else m.(name := name)
  }

  /** A nickname that tracks the name keeps tracking it across a container rename. */
  lemma RenameKeepsNicknameInSync(m: Media, a: string, b: string)
    requires m.IsContainer() && m.nickname == m.name
    ensures Renamed(Renamed(m, a), b).nickname == b
    ensures Renamed(Renamed(m, a), b) == Renamed(m, b)
  {
  }

  /** `set_dl_flag`: stores the flag, and stamps the receive time only the first time */
  function WithDlFlag(m: Media, flag: bool, now: int): (r: Media)
    ensures r == m.(video := m.video.(dlFlag := flag, receiveTime := r.video.receiveTime))
    ensures m.video.receiveTime.Some? ==> r.video.receiveTime == m.video.receiveTime
    ensures m.video.receiveTime == None ==> r.video.receiveTime == Some(now)
  {
    var stamp := if m.video.receiveTime == None then Some(now) else m.video.receiveTime;
    m.(video := m.video.(dlFlag := flag, receiveTime := stamp))
  }

  /** Once stamped, the receive time survives every later `set_dl_flag`. */
  lemma {:induction false} ReceiveTimeStampedOnce(m: Media, flags: seq<bool>, times: seq<int>, now: int)
    requires |flags| == |times|
    ensures ApplyDlFlags(WithDlFlag(m, true, now), flags, times).video.receiveTime
         == (if m.video.receiveTime.Some? then m.video.receiveTime else Some(now))
  {
    var m1 := WithDlFlag(m, true, now);
    ApplyDlFlagsKeepsReceiveTime(m1, flags, times);
  }

  /** `set_dl_flag` called once for each of `flags`, at the matching time */
  function ApplyDlFlags(m: Media, flags: seq<bool>, times: seq<int>): (r: Media)
    requires |flags| == |times|
    ensures r.kind == m.kind
    decreases |flags|
  {
    if flags == [] then m else ApplyDlFlags(WithDlFlag(m, flags[0], times[0]), flags[1..], times[1..])
  }

  lemma {:induction false} ApplyDlFlagsKeepsReceiveTime(m: Media, flags: seq<bool>, times: seq<int>)
    requires |flags| == |times| && m.video.receiveTime.Some?
    ensures ApplyDlFlags(m, flags, times).video.receiveTime == m.video.receiveTime
    decreases |flags|
  {
    if flags != [] {
      ApplyDlFlagsKeepsReceiveTime(WithDlFlag(m, flags[0], times[0]), flags[1..], times[1..]);
    }
  }

  /** Python's `int(x)` on a number: truncation toward zero */
  function Trunc(x: real): (r: int)
    ensures x >= 0.0 ==> r as real <= x < r as real + 1.0
    ensures x < 0.0 ==> r as real - 1.0 < x <= r as real
  {
    if x >= 0.0 then x.Floor else -((-x).Floor)
  }

  /**
   * `set_duration`: a fractional duration is stored as `int(d) + 1`, a whole
   * one as it is.
   */
  function StoredDuration(d: real): (r: int)
  {
    if d != Trunc(d) as real then Trunc(d) + 1 else Trunc(d)
  }

  /** For a non-negative duration, the stored value is the duration rounded up to a whole second. */
  lemma StoredDurationRoundsUp(d: real)
    requires d >= 0.0
    ensures StoredDuration(d) as real >= d
    ensures StoredDuration(d) as real < d + 1.0
    ensures d == d.Floor as real ==> StoredDuration(d) == d.Floor
  {
  }

  /** `get_actual_path_by_ext` and `get_default_path_by_ext`: an extension gains a leading dot if it lacks one */
  function DottedExt(ext: string): (r: string)
    ensures |r| > 0 && r[0] == '.'
    ensures |ext| > 0 && ext[0] == '.' ==> r == ext
    ensures !(|ext| > 0 && ext[0] == '.') ==> r == "." + ext
  {
    if |ext| > 0 && ext[0] == '.' then ext else "." + ext
  }
}
