# Tartube's media registry, in Dafny

Tartube keeps every video, channel, playlist and folder it knows about in a
registry of media data objects (`tartube/media.py`). They form a tree:

- a **Video** is a leaf;
- a **Channel** or **Playlist** (a "remote container") holds videos;
- a **Folder** holds anything, other folders included.

Each container keeps three things:

- an ordered `child_list`;
- six counters over its direct children (`vid_count`, `bookmark_count`,
  `dl_count`, `fav_count`, `new_count`, `waiting_count`);
- an alternative download destination, `master_dbid`. The master in turn
  lists the containers redirected to it in `slave_dbid_list`.

This project models that registry and proves what its operations promise.

- `media.dfy` (module `Media`): the node record, the state each constructor
  sets up, and the field setters as value transforms.
- `counting.dfy` (`Counting`): what the six counters count once they are exact.
- `children.dfy` (`ChildList`): `add_child`, `del_child`,
  `recalculate_counts` and `sort_children` as functions of the registry, and
  how each one affects the counters.
- `sorting.dfy` (`Sorting`), `ordering.dfy` (`Ordering`), `text.dfy`
  (`Text`): a stable insertion sort parameterised by a comparator, the two
  `do_sort` comparators, and the string operations they use.
- `aliasing.dfy` (`Aliasing`): `add_slave_dbid`, `del_slave_dbid` and
  `set_master_dbid`, and the two-way consistency of master and slave links.
- `tree.dfy` (`Tree`): parent links, ancestry, directories and video paths.
- `matching.dfy` (`Matching`): `find_matching_video` and
  `check_duplicate_video`.
- `traversal.dfy` (`Traversal`), `export.dfy` (`Export`): the recursive
  walks and the two export projections.
- `registry.dfy` (`Registry`): the class `MediaRegistry`. Its field `nodes`
  maps each dbid to the node's current value (the source's
  `media_reg_dict`). The methods change nodes in place or walk the
  registry, each proved against the functions above. A ghost ranking of the
  nodes keeps each parent below its children, so every walk ends. The
  registry invariant also keeps the children of every channel and playlist
  to registered videos, which is all `add_child` lets in.

The application object, the configuration values (`match_method`,
`downloads_dir`, …) and the clock are passed in as parameters.

## Model

| member | source | states |
|---|---|---|
| `Media.TypeName` | tartube/media.py:51-60 | each of the four kinds has its own type name, and only that kind has it |
| `Media.NewVideo` | tartube/media.py:1216-1321 | a new video has its name as its nickname, its parent set, no source, every flag clear and every optional attribute None |
| `Media.NewRemote` | tartube/media.py:1845-1925 | a new channel or playlist is empty, has zero counters, is its own download destination, has no slaves and has every flag clear |
| `Media.NewFolder` | tartube/media.py:2190-2283 | a new folder keeps the four given flags, is visible and empty, and is its own destination |
| `Media.WithFlagSetsOnlyThatFlag` | tartube/media.py:66-71 | a flag setter stores the truth value of its argument in its own flag and in no other; kind, links, name, children and counters stay |
| `Media.WithFlagOverwrites` | tartube/media.py:91-96 | setting a flag twice keeps only the second value |
| `Media.WithError` | tartube/media.py:74-79 | `set_error` appends the message, except on a Folder, which is left unchanged |
| `Media.WithWarning` | tartube/media.py:117-122 | `set_warning` appends the message, except on a Folder |
| `Media.WithoutErrors` | tartube/media.py:82-88 | `reset_error_warning` empties both lists, except on a Folder |
| `Media.ApplyErrors` | tartube/media.py:74-79 | repeated `set_error` calls change neither the kind nor the warnings |
| `Media.ApplyErrorsAppends` | tartube/media.py:74-79 | on a node that is not a Folder, the errors are the old ones followed by every message, in order |
| `Media.ErrorsSinceReset` | tartube/media.py:82-88 | after a reset, the errors are exactly the messages set since then, and there are no warnings |
| `Media.WithNickname` | tartube/media.py:99-104 | None or '' resets the nickname to the name; any other value becomes the nickname; nothing else changes |
| `Media.Renamed` | tartube/media.py:864-871 | a container whose nickname equals its old name has the nickname follow the rename; a video's nickname is left alone (lines 1508-1510) |
| `Media.RenameKeepsNicknameInSync` | tartube/media.py:864-871 | a nickname that tracks the name keeps tracking it across two renames, and two renames equal the last one |
| `Media.WithDlFlag` | tartube/media.py:1451-1456 | `set_dl_flag` stores the flag, and sets the receive time to `now` only when none was recorded |
| `Media.ApplyDlFlags` | tartube/media.py:1451-1456 | repeated `set_dl_flag` calls keep the kind |
| `Media.ApplyDlFlagsKeepsReceiveTime` | tartube/media.py:1453-1456 | once a receive time is recorded, no later `set_dl_flag` changes it |
| `Media.ReceiveTimeStampedOnce` | tartube/media.py:1453-1456 | the receive time after any run of `set_dl_flag` calls is the first one recorded |
| `Media.Trunc` | tartube/media.py:1465 | `int(x)` truncates toward zero |
| `Media.StoredDurationRoundsUp` | tartube/media.py:1462-1471 | a non-negative duration is stored rounded up to a whole second, and a whole duration is stored unchanged |
| `Media.Cloned` | tartube/media.py:1152-1183 | `clone_properties` copies the nickname, source, three flags, five counters and message lists of the other object; `vid_count`, name and links stay |
| `Media.DottedExt` | tartube/media.py:1630-1632 | the extension gains a leading dot exactly when its first character is not one |
| `Media.Children` | tartube/media.py:233-277 | a container's children are its `child_list`; a video has none |
| `Counting.Contribution` | tartube/media.py:705-724 | a non-video child adds nothing to the counters; a video adds 1 to `vid_count` and 1 to each counter whose flag it has set |
| `Counting.DirectCountsSnoc` | tartube/media.py:705-724 | counting one more child adds that child's contribution |
| `Counting.DirectCountsAppend` | tartube/media.py:705-724 | counting a concatenation adds the counts of its two parts |
| `Counting.DirectCountsFrame` | tartube/media.py:705-724 | the counts depend only on the nodes the list names |
| `Counting.DirectCountsPermutation` | tartube/media.py:705-724 | the counts do not depend on the order of the child list |
| `Counting.IndexOf` | tartube/media.py:261 | the first position of a listed dbid |
| `Counting.RemoveFirst` | tartube/media.py:261 | `list.remove` removes exactly one occurrence and leaves everything else |
| `Counting.DelChildKeepsCountsExact` | tartube/media.py:257-275 | counting the list without the removed child is the old count minus that child's contribution |
| `Counting.AddChildKeepsCountsExact` | tartube/media.py:2313-2319 | counting the list with a new child adds the child's contribution; for a new video that is `vid_count` alone |
| `Counting.NewVideoContribution` | tartube/media.py:1216-1321 | a newly made video counts towards `vid_count` only |
| `Counting.Bump` | tartube/media.py:750-832 | an `inc_…_count`/`dec_…_count` accessor moves its one counter by one and leaves the other counters alone |
| `Counting.BumpInverse` | tartube/media.py:750-832 | an increment followed by the matching decrement changes nothing |
| `ChildList.WithChildren` | tartube/media.py:1143-1144 | replacing the child list keeps kind, dbid, parent and counters |
| `ChildList.WithCounts` | tartube/media.py:730-747 | replacing the counters keeps kind, dbid, parent and children |
| `ChildList.AddChildMembers` | tartube/media.py:1053-1078 | after `add_child` the child list holds the child once more exactly when it was accepted, and nothing else changes; a refused child leaves the registry unchanged (lines 2294-2319) |
| `ChildList.AddChildCounts` | tartube/media.py:1076-1078 | `add_child` changes `vid_count` alone among the counters, by one when it appends a video |
| `ChildList.FolderAddChildIdempotent` | tartube/media.py:2311-2319 | a Folder ignores a child it already holds, so adding it twice is adding it once |
| `ChildList.RemoteAddChildDuplicates` | tartube/media.py:1071-1078 | a channel or playlist appends a video with no duplicate check, so adding a video twice lists it twice and counts it twice |
| `ChildList.AddChildKeepsCountsExact` | tartube/media.py:1071-1078 | `add_child` keeps exact counters exact for any child that contributes only to `vid_count` (as every new child does); lines 2313-2319 |
| `ChildList.DelChildAbsent` | tartube/media.py:233-254 | `del_child` returns True exactly when the child is listed, and changes nothing otherwise |
| `ChildList.DelChildEffect` | tartube/media.py:256-277 | a removed video takes 1 off `vid_count` and off each counter whose flag it has set; the list loses one occurrence; no other node changes |
| `ChildList.DelChildKeepsCountsExact` | tartube/media.py:256-277 | `del_child` keeps exact counters exact |
| `ChildList.DelChildUndoesAddChild` | tartube/media.py:233-277 | deleting a child just added without sorting restores the registry and returns True |
| `ChildList.RecalculatedIsExact` | tartube/media.py:692-724 | after `recalculate_counts` every counter counts the direct video children with its flag |
| `ChildList.RecalculateExactIsNoOp` | tartube/media.py:692-724 | recalculating exact counters changes nothing |
| `ChildList.SortedChildrenPermutes` | tartube/media.py:1127-1146 | `sort_children` keeps the same dbids, each as often, and changes no other node (lines 2441-2461) |
| `ChildList.NotOwnChild` | tartube/media.py:233-277 | in a ranked registry no container is its own child, and every child is registered |
| `Sorting.Insert` | tartube/media.py:1146 | inserting keeps the old elements and adds the new one |
| `Sorting.InsertTies` | tartube/media.py:1146 | under a strict weak order, inserting into a sorted list puts the new element after every element it ties with |
| `Sorting.SortBy` | tartube/media.py:1139-1146 | sorting is a permutation |
| `Sorting.SortBySorted` | tartube/media.py:1139-1146 | for a strict order on the elements, the result is sorted |
| `Sorting.SortByIdempotent` | tartube/media.py:1139-1146 | for a strict order, sorting twice is sorting once |
| `Sorting.SortBySortedFixed` | tartube/media.py:1146 | sorting an already sorted list changes nothing |
| `Sorting.SortByStable` | tartube/media.py:1139-1146 | under a strict weak order the sort is stable: the elements that tie with any given one keep their order |
| `Sorting.SortedTiesUnique` | tartube/media.py:1139-1146 | two sorted permutations of one list that keep every tie group in the same order are equal |
| `Sorting.StableSortUnique` | tartube/media.py:1139-1146 | under a strict weak order, a sorted permutation that keeps ties in their input order (what Python's stable `list.sort` returns) is the model's result |
| `Ordering.Stratum` | tartube/media.py:2428-2438 | folders form the first group, channels and playlists the second, videos the third |
| `Ordering.FolderCompareMeaning` | tartube/media.py:2382-2438 | the folder comparator puts a lower group first; within a group videos go by `VideoPrecedes` and the rest by lowercased name |
| `Ordering.FolderCompareAntisymmetric` | tartube/media.py:2382-2438 | swapping the arguments flips the comparator's sign |
| `Ordering.FolderBeforeStrict` | tartube/media.py:2382-2438 | the folder order is strict on any collection of children |
| `Ordering.VideoPrecedesWeak` | tartube/media.py:2388-2419 | for videos a, b, c with both times known: if a precedes c, then a precedes b or b precedes c |
| `Ordering.NameBeforeWeak` | tartube/media.py:2420-2426 | the lowercased-name order is negatively transitive |
| `Ordering.FolderBeforeWeak` | tartube/media.py:2382-2438 | when every video has an upload and a receive time, the folder order is a strict weak order |
| `Ordering.FolderSortUnique` | tartube/media.py:2441-2461 | when every video has both times, the sorted copy is the only sorted permutation of the child list that keeps tied children in order, so it is Python's result |
| `Ordering.FolderSortChildren` | tartube/media.py:2454-2461 | the sorted copy is a permutation of the child list |
| `Ordering.FolderSortOrder` | tartube/media.py:2441-2461 | after sorting, folders precede channels and playlists, which precede videos; folders among themselves, and channels and playlists among themselves, are in lowercased-name order; videos are newest first, then by receive time |
| `Ordering.RemoteCompareMeaning` | tartube/media.py:1104-1124 | in a playlist two indexed videos go by ascending index; otherwise the newer upload goes first, and for equal uploads the earlier receive time |
| `Ordering.EqualIndicesTie` | tartube/media.py:1106-1109 | two playlist videos with equal indices each compare as coming after the other |
| `Ordering.RemoteCompareAsWrittenFallsOff` | tartube/media.py:1113-1122 | the comparator as written returns nothing exactly when the upload times are equal and a receive time is missing |
| `Ordering.RemoteCompareAsWrittenCounterexample` | tartube/media.py:1113-1122 | two channel videos uploaded at the same time, one never received, make the comparator return None |
| `Ordering.RemoteCompareCorrects` | tartube/media.py:1104-1124 | the corrected comparator agrees with the original wherever that one answers, and answers 0 elsewhere |
| `Ordering.RemoteCompareMixedCycle` | tartube/media.py:1104-1124 | in a playlist mixing indexed and unindexed videos the comparator can be cyclic: a before c by index, c before b and b before a by upload |
| `Ordering.RemoteBeforeStrict` | tartube/media.py:1104-1124 | the remote order is strict for a channel, and for a playlist whose videos all have an index or all lack one |
| `Ordering.RemoteBeforeWeak` | tartube/media.py:1104-1124 | when every video of a playlist has an index, or every video has both times (and in a playlist none has an index), the remote order is a strict weak order |
| `Ordering.RemoteSortUnique` | tartube/media.py:1127-1146 | with those keys known, the twice-sorted list is the only sorted permutation of the child list that keeps tied videos in order, so it is Python's result |
| `Ordering.RemoteSortChildren` | tartube/media.py:1136-1146 | the twice-sorted child list is a permutation of the old one |
| `Sorting.SortCycleTwice` | tartube/media.py:1136-1146 | under a cyclic comparator (x < z < y < x) the insertion sort takes [x, y, z] to [z, y, x] and that to [x, z, y], so sorting twice is not sorting once |
| `Ordering.RemoteSortMixedTwice` | tartube/media.py:1136-1146 | for the mixed playlist a, b, c of `RemoteCompareMixedCycle` the first sort gives [c, b, a] and the double sort gives [a, c, b]: sorting twice is not sorting once there |
| `Ordering.RemoteSortOnce` | tartube/media.py:1136-1146 | for a channel, and for a playlist whose videos all have an index or all lack one, the second, in-place sort changes nothing |
| `Ordering.RemoteSortOrder` | tartube/media.py:1127-1146 | for a channel, and for a playlist whose videos all have an index or all lack one: after sorting, indexed playlist videos are in index order, and otherwise videos are newest upload first and by receive time for equal uploads |
| `Text.LowerChar` | tartube/media.py:2422 | `lower()` maps upper-case ASCII letters to lower case and leaves every other character |
| `Text.Lower` | tartube/media.py:2422-2424 | lowercasing keeps the length and lowercases every character |
| `Text.LexLessTransitive` | tartube/media.py:2422-2424 | Python's string `<` is transitive |
| `Text.LexLessTotal` | tartube/media.py:2422-2426 | of two different strings one is less than the other |
| `Text.LexLessAsymmetric` | tartube/media.py:2422-2426 | no two strings are each less than the other |
| `Text.NormaliseNameShape` | tartube/media.py:366-390 | a normalised name has no underscore, no whitespace except single spaces between words, and no space at either end |
| `Text.NormaliseNameIdempotent` | tartube/media.py:366-390 | normalising a normalised name changes nothing |
| `Text.SliceTo` | tartube/media.py:397-400 | `s[:k]` is the first `k` characters for `k >= 0`, and all but the last `-k` otherwise, clipped to the string |
| `Matching.FindMatchingVideo` | tartube/media.py:336-405 | the result is None exactly when no child is a matching video; otherwise it is the first child that is a matching video |
| `Matching.ZeroCharsMatchFirstVideo` | tartube/media.py:397-400 | with a count of 0 under `match_first` or `ignore_last`, the first video of the list matches whatever its name |
| `Matching.NormalisedCandidate` | tartube/media.py:366-376 | normalising the candidate first changes nothing |
| `Matching.ExactMatchFindsSameName` | tartube/media.py:393-395 | under `exact_match`, a video of the same name is found, or an earlier one |
| `Matching.CheckDuplicateVideo` | tartube/media.py:2322-2352 | true exactly when some child is a video with that source URL |
| `Matching.DuplicateAfterAdd` | tartube/media.py:2322-2352 | after a child is appended, a duplicate is found exactly when the list had one or the child is one |
| `Aliasing.WithSlave` | tartube/media.py:835-847 | `add_slave_dbid` appends the dbid unless it is listed; the list then holds it, and a list without duplicates keeps none and holds it once |
| `Aliasing.WithoutSlave` | tartube/media.py:850-861 | `del_slave_dbid` removes every occurrence and keeps every other dbid as often as before |
| `Aliasing.WithoutSlaveAppend` | tartube/media.py:850-861 | the rest stay in order: removing from a concatenation is removing from each part |
| `Aliasing.WithoutSlaveNoDup` | tartube/media.py:850-861 | removing keeps a list without duplicates |
| `Aliasing.WithoutSlaveInverse` | tartube/media.py:835-861 | removing an unlisted dbid changes nothing, and adding then removing one restores the list |
| `Aliasing.SetMaster` | tartube/media.py:788-812 | `set_master_dbid` with the current value changes nothing; a call that returns normally leaves the new value in place; no node is added or removed |
| `Aliasing.SetMasterUnchanged` | tartube/media.py:790-792 | setting the current value changes nothing and returns normally |
| `Aliasing.SetMasterKeepsConsistent` | tartube/media.py:788-812 | on consistent links, a call that returns normally leaves them consistent; the old master no longer lists the container, and a new master other than itself lists it exactly once |
| `Tree.Lineage` | tartube/media.py:430-436 | the walk up the parent links meets only registered nodes and is empty exactly at a root |
| `Tree.DepthOfChild` | tartube/media.py:408-438 | `get_depth` is 1 for a root and its parent's depth plus 1 otherwise |
| `Tree.NotOwnAncestor` | tartube/media.py:430-436 | a node never occurs among its ancestors |
| `Tree.HiddenIsInherited` | tartube/media.py:441-471 | everything below a hidden node is hidden |
| `Tree.OnLineageStep` | tartube/media.py:463-469 | one step of an upward search: nothing above a root, otherwise this node or one above it |
| `Tree.NamesFromRootReversesLineage` | tartube/media.py:953-957 | the path segments, read backwards, are the names of the lineage |
| `Tree.DefaultDirLength` | tartube/media.py:920-960 | the default directory starts with the downloads directory and has one segment per level |
| `Tree.DefaultDirOfChild` | tartube/media.py:920-960 | a child's directory is its parent's directory plus its own name |
| `Tree.DefaultDirRenamesLeafOnly` | tartube/media.py:948-951 | `new_name` replaces the last segment and nothing else |
| `Tree.ActualDirIgnoresRenameWhenRedirected` | tartube/media.py:877-917 | a container that is not redirected uses its own default directory; a redirected one uses the master's default directory whatever `new_name` is, one level only |
| `Tree.ActualDirAsWrittenRenamesMaster` | tartube/media.py:911-913 | as written, a redirected container asked about a rename yields a directory other than the master's |
| `Tree.ActualDirAsWrittenAgreesWithoutRename` | tartube/media.py:911-917 | without `new_name`, the code as written and the corrected version agree |
| `Tree.VideoPathShape` | tartube/media.py:1646-1668 | a video's default path is its parent's default directory plus one segment, one level below the parent |
| `Tree.VideoPathByOwnExt` | tartube/media.py:1671-1701 | asking by the video's own dotted extension gives the plain path |
| `Tree.VideoPathDotsExt` | tartube/media.py:1630-1632 | an extension and its dotted form ask for the same file |
| `Tree.ActualPathIsDefaultUnlessRedirected` | tartube/media.py:1578-1605 | a video whose parent is not redirected has its actual path at its default path |
| `Traversal.ContainersOf` | tartube/media.py:154-158 | `compile_all_containers` lists the container itself first |
| `Traversal.ContainersAreContainers` | tartube/media.py:154-158 | every listed dbid is a registered container |
| `Traversal.VideosAreVideos` | tartube/media.py:182-187 | every listed dbid is a registered video |
| `Traversal.FlatContainer` | tartube/media.py:154-187 | a container holding only videos lists exactly its children as videos and only itself as a container |
| `Traversal.Counted` | tartube/media.py:215-228 | each child adds 1 to the total and 1 under its kind |
| `Traversal.CensusBalanced` | tartube/media.py:192-230 | the descendant total is the sum of the video, channel, playlist and folder counts, none negative |
| `Traversal.CensusMatchesLists` | tartube/media.py:192-230 | the video count equals the length of `compile_all_videos`, and the container counts equal the containers `compile_all_containers` lists below the container |
| `Export.PrepareExportNone` | tartube/media.py:504-530 | `prepare_export` returns None exactly for a skipped node: a video, an unwanted channel or playlist, or a fixed folder |
| `Export.ExportAllowed` | tartube/media.py:474-574 | every exported entry honours the flags: videos only with a source and no nickname, folders without a source |
| `Export.FlatExportShape` | tartube/media.py:577-689 | a flat export keeps every entry it receives, and adds only wanted channel and playlist entries keyed by dbid, holding only video entries |
| `Export.FlatInOfVideos` | tartube/media.py:668-678 | videos directly in a folder add nothing to the flat export |
| `Export.FlatEntryIsExport` | tartube/media.py:632-664 | for a channel or playlist of videos, the flat entry is its nested export |
| `Registry.EnrolKeepsShape` | tartube/media.py:1216-1328 | filing a new childless node whose parent is registered keeps the registry ranked and filed by dbid |
| `Registry.ReparentKeepsShape` | tartube/media.py:112-114 | a parent that ranks below the node keeps the registry ranked |
| `Registry.ReplaceKeepsVideosOnly` | tartube/media.py:1069-1078 | replacing a node by one of the same kind whose children are admissible keeps every channel and playlist holding only registered videos |
| `Registry.EnrolKeepsVideosOnly` | tartube/media.py:1216-1328 | filing a new childless node keeps every channel and playlist holding only videos |
| `Registry.AdmissibleSubset` | tartube/media.py:256-277 | a reordering of an admissible child list, or one with an entry removed, stays admissible |
| `Registry.RemoteIsFlat` | tartube/media.py:134-189 | in a valid registry a channel or playlist is the only container of its subtree and its videos are its children |
| `Registry.RemoteFlatEntry` | tartube/media.py:632-664 | in a valid registry the flat entry of a wanted channel or playlist is its nested export |
| `Registry.MediaRegistry.SortChildren` | tartube/media.py:1127-1146 | the method leaves the registry that `sort_children` specifies (lines 2441-2461) |
| `Registry.MediaRegistry.SortRemoteChildren` | tartube/media.py:1127-1146 | the child list becomes the twice-sorted copy `RemoteSortChildren` specifies |
| `Registry.MediaRegistry.SortFolderChildren` | tartube/media.py:2441-2461 | the child list becomes the sorted copy `FolderSortChildren` specifies |
| `Registry.MediaRegistry.AddChild` | tartube/media.py:1053-1078 | the method leaves the registry that `add_child` specifies (lines 2294-2319) |
| `Registry.MediaRegistry.DelChild` | tartube/media.py:233-277 | the method returns, and leaves, what `del_child` specifies |
| `Registry.MediaRegistry.Shrink` | tartube/media.py:261 | `child_list.remove` takes out the child's first entry and keeps the registry valid |
| `Registry.MediaRegistry.RecalculateCounts` | tartube/media.py:692-724 | the counters become exact, as `recalculate_counts` specifies |
| `Registry.MediaRegistry.TallyChildren` | tartube/media.py:702-724 | the loop ends with the counts of the whole child list |
| `Registry.MediaRegistry.Tally` | tartube/media.py:708-724 | one iteration adds the child's contribution |
| `Registry.MediaRegistry.ResetCounts` | tartube/media.py:730-747 | the six counters take the given values |
| `Registry.MediaRegistry.IncCount` | tartube/media.py:750-832 | one counter goes up by one |
| `Registry.MediaRegistry.DecCount` | tartube/media.py:750-832 | one counter goes down by one |
| `Registry.MediaRegistry.AddVideo` | tartube/media.py:1216-1328 | a new video is filed and added to its parent |
| `Registry.MediaRegistry.AddRemote` | tartube/media.py:1845-1931 | a new channel or playlist is filed and, given a parent, added to it (lines 2011-2097) |
| `Registry.MediaRegistry.AddFolder` | tartube/media.py:2190-2288 | a new folder is filed and, given a parent, added to it |
| `Registry.MediaRegistry.AddSlaveDbid` | tartube/media.py:835-847 | the scan and append leave the list `WithSlave` specifies |
| `Registry.MediaRegistry.DelSlaveDbid` | tartube/media.py:850-861 | the rebuilt list is the one `WithoutSlave` specifies |
| `Registry.MediaRegistry.SetMasterDbid` | tartube/media.py:788-812 | the method returns, and leaves, what `SetMaster` specifies, including the partial updates of a call that raises; on consistent links a normal return keeps them consistent |
| `Registry.MediaRegistry.SetFlag` | tartube/media.py:770-775 | the flag becomes the truth value of the argument (lines 1435-1448, 1513-1518, 1567-1572, 2473-2478) |
| `Registry.MediaRegistry.SetNickname` | tartube/media.py:99-104 | the node takes the nickname `WithNickname` specifies |
| `Registry.MediaRegistry.SetName` | tartube/media.py:864-871 | the node is renamed as `Renamed` specifies (lines 1508-1510) |
| `Registry.MediaRegistry.SetError` | tartube/media.py:74-79 | the node records the message as `WithError` specifies |
| `Registry.MediaRegistry.SetWarning` | tartube/media.py:117-122 | the node records the message as `WithWarning` specifies |
| `Registry.MediaRegistry.ResetErrorWarning` | tartube/media.py:82-88 | the lists are emptied as `WithoutErrors` specifies |
| `Registry.MediaRegistry.SetParent` | tartube/media.py:112-114 | only the parent link changes |
| `Registry.MediaRegistry.SetSource` | tartube/media.py:1186-1188 | only the source changes (lines 1529-1531) |
| `Registry.MediaRegistry.CloneProperties` | tartube/media.py:1152-1183 | the container takes the other's properties as `Cloned` specifies |
| `Registry.MediaRegistry.SetDlFlag` | tartube/media.py:1451-1456 | the video changes as `WithDlFlag` specifies |
| `Registry.MediaRegistry.SetReceiveTime` | tartube/media.py:1524-1526 | the receive time becomes `now` |
| `Registry.MediaRegistry.SetDuration` | tartube/media.py:1462-1471 | a duration is stored rounded up, and None clears it |
| `Registry.MediaRegistry.SetFile` | tartube/media.py:1474-1477 | file name and extension are stored |
| `Registry.MediaRegistry.SetMkv` | tartube/media.py:1493-1505 | the extension becomes `.mkv` |
| `Registry.MediaRegistry.SetFileSize` | tartube/media.py:1480-1482 | the size is stored |
| `Registry.MediaRegistry.SetIndex` | tartube/media.py:1485-1490 | the index is stored, None included |
| `Registry.MediaRegistry.SetUploadTime` | tartube/media.py:1534-1536 | the upload time is stored; with None, the default, the call raises and changes nothing |
| `Registry.MediaRegistry.SetVideoDescrip` | tartube/media.py:1539-1564 | a non-empty description stores the wrapped text and its first line; None or '' clears both |
| `Registry.MediaRegistry.GetDepth` | tartube/media.py:408-438 | the loop returns `Depth`: 1 plus the number of ancestors |
| `Registry.MediaRegistry.IsHidden` | tartube/media.py:441-471 | the loop returns true exactly when the node or an ancestor is a hidden Folder |
| `Registry.MediaRegistry.AncestorIsFavourite` | tartube/media.py:1334-1356 | the loop returns true exactly when some ancestor has `fav_flag` set |
| `Registry.MediaRegistry.GetRelativeDefaultDir` | tartube/media.py:1005-1042 | the loop returns the ancestors' names from the root down, then the own or new name |
| `Registry.MediaRegistry.GetDefaultDir` | tartube/media.py:920-960 | the downloads directory, then the relative directory, one segment per level |
| `Registry.MediaRegistry.GetActualDir` | tartube/media.py:877-917 | the actual directory as corrected: the master's default directory, or the container's own |
| `Registry.MediaRegistry.GetDefaultPath` | tartube/media.py:1646-1701 | the parent's default directory joined with the file name and extension (the given one, dotted) |
| `Registry.MediaRegistry.GetActualPath` | tartube/media.py:1578-1643 | the parent's actual directory joined with the file name and extension (the given one, dotted) |
| `Registry.MediaRegistry.CompileAllContainers` | tartube/media.py:134-160 | appends exactly the containers of the subtree in pre-order, the container first; a channel or playlist appends only itself |
| `Registry.MediaRegistry.CompileAllVideos` | tartube/media.py:163-189 | appends exactly the videos of the subtree, depth first in child order; a channel or playlist appends its child list |
| `Registry.MediaRegistry.CountDescendants` | tartube/media.py:192-230 | adds the subtree's census to the count list; a balanced count list stays balanced |
| `Registry.MediaRegistry.CountChild` | tartube/media.py:215-228 | one iteration counts the child and everything below it |
| `Registry.MediaRegistry.PrepareFlatExport` | tartube/media.py:577-689 | the method returns the dictionary `FlatExport` specifies; a wanted channel or playlist adds exactly its nested export |

## Findings

| source | as written | input that shows it | evidently intended | confidence | as-written member | corrected member |
|---|---|---|---|---|---|---|
| tartube/media.py:1113-1122 | the remote `do_sort` has no `return` after the receive-time test, so equal upload times with a missing receive time return None | two videos of a channel with upload time 5, one with receive time None | return 0, as `Folder.do_sort` does (line 2418) | high, not executed | `Ordering.RemoteCompareAsWrittenCounterexample` | `Ordering.RemoteCompareCorrects` |
| tartube/media.py:911-913 | `get_actual_dir` passes `new_name` on to the master's `get_default_dir`, so the master's name is replaced | a container redirected to a master, asked with a `new_name` other than the master's name | the master's directory whatever `new_name` is, since rename does not move the master | medium, not executed | `Tree.ActualDirAsWrittenRenamesMaster` | `Tree.ActualDirIgnoresRenameWhenRedirected` |

The registry's sort uses the corrected remote comparator. `GetActualDir` uses
the corrected `Tree.ActualDir`.

## Left out

- `fetch_tooltip_text` (lines 280-333 and 1359-1408): GUI text assembly. It uses markup escaping and a text utility that is not part of this model.
- `read_video_descrip` reads a file through the file manager, which is not part of this model. `set_video_descrip` takes the output of its two text utilities as parameters.
- The date, time and file-size strings (lines 1704-1818). They depend on `datetime`, the local time zone and `utils.format_bytes`.
- `get_relative_actual_dir` (lines 963-1002). It calls `get_relative_default_dir` with one argument too many, so every call raises.
- `set_options_obj` and every `options_obj` reference: download options are outside the registry.
- `os.path.abspath` and `os.path.join` are modelled only as appending path segments: no normalisation, and no absolute segment restarting the path.
- The wall clock: `set_dl_flag` and `set_receive_time` take the time as a `now` parameter.
- `sort_children`'s retry loop runs once. It only guards against the list changing during the sort, which cannot happen in a sequential model.
- Python's TimSort is modelled as a stable insertion sort (`Sorting.SortBy`). For a strict weak order, `Sorting.StableSortUnique` proves that only one permutation is sorted and keeps ties in order, so the model returns what Python's `list.sort` returns. `Ordering.FolderSortUnique` and `Ordering.RemoteSortUnique` apply this to the two comparators when every video has an upload time and a receive time (in a playlist: or every video has an index). Without those keys Python's result can differ. When a time is missing the comparators are strict but not weak. A playlist that mixes indexed and unindexed videos (a new video has no index) is worse: its comparator is not even strict but cyclic (`Ordering.RemoteCompareMixedCycle`). For example, a folder holding c (uploaded at 1), a (no upload time) and b (uploaded at 2) stays [c, a, b] under TimSort, one ascending run, while the model gives [b, c, a].
- Sorting.SortBy: the insertion sort is Python's sort only under a strict weak order, as above.
- Sorting.SortBySorted: states sortedness of this insertion sort. For an order that is strict but not weak, Python's result need not be sorted in this sense.
- Sorting.SortByIdempotent: holds of this insertion sort; it is a statement about Python's sort only under a strict weak order.
- Ordering.FolderSortChildren: is Python's sorted copy only when every video has both times (`Ordering.FolderSortUnique`).
- Ordering.FolderSortOrder: the order it states is that of the model's sort. When a video lacks a time, Python's TimSort may leave a different order.
- Ordering.RemoteSortChildren: is Python's result only when the sort keys are known (`Ordering.RemoteSortUnique`).
- Ordering.RemoteSortOnce: proved only for a channel and for a playlist whose videos all have an index or all lack one. For a playlist that mixes them the model's second sort can reorder the list: [a (index 1, upload 1), b (no index, upload 5), c (index 2, upload 9)] sorts to [c, b, a] and then to [a, c, b] (`Ordering.RemoteSortMixedTwice`), while TimSort gives [c, b, a] both times. Where it is proved, it is a statement about the model's sort; it carries over to Python's only when the sort keys are known.
- Ordering.RemoteSortOrder: proved only for a channel and for a playlist whose videos all have an index or all lack one; for a mixed playlist no order is promised. The order it states is that of the model's sort. When some sort keys are missing, Python's TimSort may leave a different order.
- Registry.MediaRegistry.SortChildren: leaves the model's sorted list, which is Python's when the sort keys are known, as above.
- Registry.MediaRegistry.SortFolderChildren: likewise, Python's result only when every video has both times.
- Registry.MediaRegistry.SortRemoteChildren: likewise, Python's result only when the sort keys are known.
- Registry.MediaRegistry.SortRemoteChildren: sorts with the corrected comparator. In the source, the comparator returns None for two videos with equal upload times, one of them without a receive time. `sort_children` raises TypeError, with the list in its old order, when the sort compares those two videos; TimSort compares only some pairs, so when it does not compare them it returns normally. The model completes the sort in every case.
- Registry.MediaRegistry.AddChild: the order of the new child list is Python's only when the sort keys are known, as above.
- Registry.MediaRegistry.AddChild: on a channel or playlist, when the sort compares two such videos and raises TypeError as described for `SortRemoteChildren`, the source has already appended the child and does not raise `vid_count`; when it does not compare them the call returns normally. The model completes the sort and counts the video.
- Registry.MediaRegistry.AddVideo: the position of the new video in its parent's list is Python's only when the sort keys are known, as above.
- Registry.MediaRegistry.AddRemote: the position of the new container in a parent folder's list is Python's only when every video there has both times.
- Registry.MediaRegistry.AddFolder: likewise, Python's position only when every video in the parent folder has both times.
- Registry.MediaRegistry.SortRemoteChildren: the comparator reads each video once, before the two sorts. The list is stored once, after both sorts, so the moment between the two sorts is not modelled.
- `lower()` is modelled on ASCII letters only, and `\w`/`\s` on ASCII, with every non-ASCII character counted as a word character.
- Dictionary order in the exports: the model uses maps, so insertion order is not modelled.
- Registry.MediaRegistry.AddChild: it requires the child to rank above the container. The ghost ranking of the model needs this; the source has no such check.
- Registry.MediaRegistry.SetParent: it requires the new parent to rank below the node, for the same reason.
- Registry.MediaRegistry.AddVideo: it requires a dbid not yet registered and a container parent. The same holds for `AddRemote` and `AddFolder`; the application allocates fresh dbids.
- Registry.MediaRegistry.SetFlag: it requires the node's class to define that setter. Calling an undefined setter raises AttributeError, which is not modelled; the other setters likewise require the kind that defines them.
- Registry.MediaRegistry.SetDlFlag: the flag is a boolean. The source stores whatever it is given.
- Registry.MediaRegistry.SetIndex: the index is an integer or None. `int(index)` on a string or float is not modelled, and nor is `int(unix_time)` in `set_upload_time`.
- Registry.MediaRegistry.SetDuration: a duration that is an integer-valued real is stored as its integer value, where Python would keep the float.
- Integers are unbounded, as Python's are.
