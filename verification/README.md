# fslite: a verified model

fslite stores whole filesystems ("workspaces") in SQLite tables: nodes with parent
pointers, files as immutable generations of fixed-size chunks, trash records,
attributes and a change feed.  This project models the storage engine as
transactions over maps, together with the path algebra, link resolution, glob
matching and streaming search it rests on, the quoting of the command line, and two
small classes of the showcase server, and proves what they promise.

`dafny verify dfyconfig.toml` checks the whole project.

## How it is organised

- `Paths`, `Wildcard`, `Glob`, `ContentSearch`, `Paging`: paths and link targets, name
  patterns, path patterns, search inside files, keyset pagination.
- `Chunks`: generations of chunks, the chunk writer and the ranged reader, against flat
  byte sequences.
- `Tree`, `Resolve`, `Links`, `Ordering`, `Store`: the parent-pointer tree, the two path
  walks, what a path over links means without the walk, row order, and the tables with the
  invariant `Store.Inv`: one root, parents that are existing directories, no circular
  chain, distinct names among active siblings, a private, complete and well-chunked
  generation within `max_file_bytes` for every file, trash marks and trash records in
  correspondence, bounded attributes, and change sequences that are exactly 1 to
  `change_seq`.
- `Operations`, `Copy`: what each transaction does to the tables, as functions.
  `Engine` is the same in the form of the code: a class whose methods update the tables
  in place, each proved to do what its function says.
- `Safety`, `Runs`: what keeps the invariant, for single requests and for whole runs.
  `Answers`: when each request succeeds and how it is refused, in terms of paths.
  `Failures`, `Capabilities`: failed requests and batches.  `Effects`, `Additions`,
  `TrashEffects`, `ContentEffects`: what a successful request does to paths and bytes.
  `Chronicle`: what it leaves in the change feed.
- `Aging`: what no request undoes.  `Plans`, `Writers`, `Gaps`, `Interleavings`,
  `Sessions`, `Leftovers`, `Races`: interleaved reads and writes, one database call at a
  time: the calls, single events, which events break the tables, whole histories, what one
  reader or writer gets, what staging leaves behind, and four short histories.
- `Lexer` with its `Grammar`, `RateLimit`, `ResetCoordinator`: the small cores.

A transaction is modelled as run, then kept or dropped.  The schema
(`crates/fslite-sqlite/migrations/0001_initial.sql`) gives the cascades; its unique index
on active siblings is not assumed but follows from the invariant.  Ids come fresh from
one counter, time is a parameter, paths of requests are their segments.

## What the code does not do

Each of these is proved as an exact condition and with an input that meets it.

- A wildcard pattern is misjudged on a name that itself holds a `*`
  (`Wildcard.ExactIffNoStarInText`, `Wildcard.Misjudged`).
- `move` tests ancestry on the strings of its paths but resolves the destination over
  links, so it can hang a directory below itself (`Runs.MoveKeepsInvIff`,
  `Counterexamples.MoveThroughLinkMakesCycle`).  With overwrite it can delete the node it
  moves and report success (`Runs.PlainMoveLosesSourceIff`,
  `Counterexamples.MoveOverAncestorLosesTheNode`).
- `copy` into its own source never returns (`Effects.CopyReturnsIff`, `Effects.PlainCopyEndsIff`,
  `Counterexamples.CopyIntoItselfNeverEnds`).
- A failing `touch` commits a generation that nothing refers to
  (`Failures.FailureChangesNothingIff`, `Counterexamples.FailedTouchLeavesOrphan`).
- `restore` to the original place can succeed and leave the node unreachable
  (`TrashEffects.RestoredIsReachableIff`, `Counterexamples.RestoreBelowTheTrashIsUnreachable`).
- A positional write whose prior generation is deleted before its bulk copy commits a file
  whose first chunks are missing although its size counts them
  (`Interleavings.TablesStayValidIff`, `Races.OvertakenAppendLeavesAGap`).
- One whose prior generation is deleted later commits content with pieces missing
  (`Interleavings.NothingIsMissedIff`, `Interleavings.InterleavedWriteCommitsStagedIff`,
  `Races.OvertakenWriteIsTorn`).  Neither can happen on the node it read while that has the
  revision it read (`Interleavings.CommitIsIntact`); the condition on the revision does not
  ensure that, for a file removed and made again begins at revision 1 too
  (`Races.ConditionMetByAnotherNode`).
- A read stream ends early, without an error, if its generation is deleted
  (`Interleavings.ReadIsWholeIff`, `Races.OvertakenReadEndsEarly`).
- After a failed reset the gate opens, against the comment in the code that work stays
  gated until a reset succeeds (`showcase/src/lib/server/reset-coordinator.ts:158-159`).  A
  handler shuts it again only after a scheduled reset, and work can enter before it runs;
  after `start` and `resetNow` it stays open (`ResetCoordinator.GateShutIff`,
  `ResetCoordinator.WorkEntersAfterAFailedReset`).
- The wait reported for a full rate-limit table can be too short
  (`RateLimit.CapacityWaitIsEnoughIff`, `RateLimit.CapacityWaitCanBeTooShort`).

## Model

| member | source | states |
|---|---|---|
| Paths.Normalize | crates/fslite-core/src/path.rs:185-209 | the loop computes the clamped stack of segments and renders it |
| Paths.NormalizeRelative | crates/fslite-core/src/path.rs:211-230 | the loop computes the relative stack, in which unmatched `..` are kept |
| Paths.RenderRoundTrip | crates/fslite-core/src/path.rs:75-79 | rendering segments and reading them back are inverse, and the result is canonical |
| Paths.Parse | crates/fslite-core/src/path.rs:16-24 | accepts exactly the strings that begin with `/` and hold no NUL; the result is canonical and means the clamped segments |
| Paths.ParseIsIdempotent | crates/fslite-core/src/path.rs:16-24 | parsing a canonical path changes nothing |
| Paths.JoinPath | crates/fslite-core/src/path.rs:64-72 | refuses exactly absolute or NUL arguments; joining means walking the raw segments from the path, never above the root |
| Paths.NameAndParent | crates/fslite-core/src/path.rs:39-61 | `name` and `parent`, computed by string search, are the last segment and the path of all the others |
| Paths.RelativeShape | crates/fslite-core/src/path.rs:211-230 | a normalised relative target is some `..` followed by proper names only |
| Paths.RelativePreservesMeaning | crates/fslite-core/src/path.rs:129-141 | joining a normalised relative target equals joining the raw one, for every base directory |
| Paths.TargetSegments | crates/fslite-sqlite/src/resolve.rs:292-300 | the segments the resolver reads from a stored target are those of the raw target, normalised |
| Paths.LexicalTest | crates/fslite-sqlite/src/mutate.rs:91-101 | the string test for same-or-descendant decides exactly the prefix order of segments |
| Wildcard.WildcardMatch | crates/fslite-sqlite/src/search.rs:198-225 | the greedy loop ends, accepts nothing that `*` and `?` do not mean, and accepts all they mean if the text holds no `*` |
| Wildcard.Misjudged | crates/fslite-sqlite/src/search.rs:198-225 | for every text with a `*` a pattern that means it and is refused: the loop compares characters before it looks for a star |
| Wildcard.ExactIffNoStarInText | crates/fslite-sqlite/src/search.rs:198-225 | the loop is right for all patterns exactly on the texts without `*` |
| Glob.GlobLast | crates/fslite-sqlite/src/search.rs:238-256 | the recurrence of the table follows from the recursive meaning of patterns with `**` |
| Glob.GlobMatch | crates/fslite-sqlite/src/search.rs:238-256 | the dynamic program decides that recursive meaning |
| Glob.VerdictIsMeaning | crates/fslite-sqlite/src/search.rs:198-256 | on paths whose names hold no `*`, what the pieces of a pattern string take by the matcher's verdict is what they take by the meaning of `*` and `?` |
| Glob.CompiledStringTakes | crates/fslite-sqlite/src/search.rs:160-195 | the compiled, anchored pattern decides what the string says piece by piece: `**` any number of names, a plain piece its own name, leading plain pieces the path they spell |
| Glob.LiteralPrefix | crates/fslite-sqlite/src/search.rs:182-195 | the loop returns the canonical path of all leading literal segments, and their number |
| Glob.AnchoredMatch | crates/fslite-sqlite/src/search.rs:182-195 | matching the rest below the literal prefix is matching the whole canonical pattern on absolute paths |
| Glob.MatchesLieBelowAnchor | crates/fslite-sqlite/src/search.rs:334-351 | nothing outside the subtree of the prefix can match |
| ContentSearch.FindsExactlyTheOccurrences | crates/fslite-sqlite/src/search.rs:580-587 | the list holds every start of the needle once, ascending |
| ContentSearch.OneMoreChunk | crates/fslite-sqlite/src/search.rs:617-668 | carrying `needle.len() - 1` bytes over a chunk boundary loses no occurrence and finds none twice |
| ContentSearch.SearchFile | crates/fslite-sqlite/src/search.rs:617-668 | over chunks of any sizes: the streaming search reports exactly the occurrences in the flat bytes of the chunks it read, at the right offsets, with bounded context |
| ContentSearch.SearchIsCompleteIff | crates/fslite-sqlite/src/search.rs:617-668 | whatever the sizes of its chunks, all of a file is searched exactly if the byte budget lasts to its final chunk |
| ContentSearch.FileIsSearchedIff | crates/fslite-sqlite/src/search.rs:617-668 | the same for a file as the writer lays it out |
| Paging.QueryDescendants | crates/fslite-sqlite/src/search.rs:43-104 | the rows of the recursive query are exactly the nodes that a path leads to within the depth cap, each with its path |
| Paging.RowsBeyond | crates/fslite-sqlite/src/search.rs:65-68 | the keyset condition selects exactly what follows the cursor in (depth, name, id) order |
| Paging.ScanPage | crates/fslite-sqlite/src/search.rs:266-332 | `glob_tx`, and `find_tx` which scans alike: a page is the matches of one stretch of the listing, and its cursor is where the stretch ended, despite early stop and work budget |
| Paging.SelectsRow | crates/fslite-sqlite/src/search.rs:393-439 | the row test of `find` and `glob`: all given conditions hold, or the pattern matches the path |
| Paging.ReadOn | crates/fslite-sqlite/src/search.rs:266-332 | one more page call keeps what following cursors has done so far; the loops of all four listings rest on it |
| Paging.PagesCoverTheListing | crates/fslite-sqlite/src/search.rs:266-332 | for any page limits, following cursors ends after at most one page more than there are rows, and the pages concatenate to exactly the matches in order |
| Paging.ScanAllPages | crates/fslite-sqlite/src/search.rs:266-332 | `glob` or `find` called again with each cursor it hands out: finitely many calls, pages within their limits, together exactly the matches in order |
| Paging.TreeAllPages | crates/fslite-sqlite/src/directory.rs:509-591 | the same for `tree`: together exactly the listing |
| Paging.ReadDirAllPages | crates/fslite-sqlite/src/directory.rs:300-373 | the same for `read_dir`: together exactly the children in name order |
| Paging.ChangesAllPages | crates/fslite-sqlite/src/change.rs:195-238 | the same for `changes`: together exactly the feed |
| Paging.GlobAll | crates/fslite-sqlite/src/search.rs:334-392 | `glob` from its pattern string: refuses exactly the strings that do not begin with `/`, and its pages together find exactly the nodes, within the depth cap, that some absolute path reaches which the pieces of the string take one by one; by the meaning of `*` and `?` if no name holds a `*` |
| Paging.FindAll | crates/fslite-sqlite/src/search.rs:449-566 | `find` followed through its cursors: refuses exactly a start that does not resolve, and finds exactly the nodes at or below it, within the depth cap, that meet every condition stated |
| Glob.CompiledLiterals | crates/fslite-sqlite/src/search.rs:160-177 | the literals of a compiled pattern string are nonempty, without `/`, and without NUL if the string has none |
| Glob.PlainStringIsCanonical | crates/fslite-sqlite/src/search.rs:160-195 | a pattern string without the pieces `.` and `..` means what its compiled segments mean |
| Paging.GlobSelectsByAbsolutePath | crates/fslite-sqlite/src/search.rs:266-332 | a node is selected exactly if some absolute path of it, within the depth cap, matches the whole canonical pattern |
| Paging.TreePage | crates/fslite-sqlite/src/directory.rs:509-591 | `tree`: the next rows of the listing up to the limit, with a cursor exactly if rows remain |
| Paging.TreeShows | crates/fslite-sqlite/src/directory.rs:509-591 | `tree` lists, with depth and name, exactly the nodes that a path of at most the depth asked for, or of one name, leads to from its directory |
| Ordering.ListedInOrder | crates/fslite-sqlite/src/search.rs:43-104 | deeper rows come later, rows of one depth by name and then by id |
| Ordering.StrLessIs | crates/fslite-sqlite/src/search.rs:43-104 | names compare by their first difference, and a beginning comes first |
| Copy.ChildrenAre | crates/fslite-sqlite/src/resolve.rs:108-154 | the children listed are exactly the active ones |
| Paging.ReadDirPage | crates/fslite-sqlite/src/directory.rs:300-373 | `read_dir`: the same on the children in name order |
| Paging.ChangesPage | crates/fslite-sqlite/src/change.rs:195-238 | `changes`: the same on the feed, by sequence number |
| Chunks.WellChunkedIffRowsOf | crates/fslite-sqlite/src/content.rs:19-30 | a gapless table of full chunks with a possibly short last one is exactly the layout of its own bytes |
| Chunks.FlattenRowsOf | crates/fslite-sqlite/src/content.rs:82-94 | reading the layout of some bytes back gives those bytes |
| Chunks.ChunkWriter.WriteBytes | crates/fslite-sqlite/src/content.rs:174-193 | takes bytes in exactly if they fit the quota; the content grows by them, whatever the buffer held |
| Chunks.ChunkWriter.FlushFullBuffer | crates/fslite-sqlite/src/content.rs:195-208 | storing a full buffer keeps the content and the layout |
| Chunks.ChunkWriter.CopyPrefixFrom | crates/fslite-sqlite/src/content.rs:234-265 | from whatever rows its two calls find: the length passes over all whole chunks, the rows are those found; if both find the old rows the writer holds the first `upto` bytes of the old content |
| Chunks.ChunkWriter.CopyWholeChunks | crates/fslite-sqlite/src/content.rs:60-80 | the bulk copy takes the rows it finds and advances the index and the length regardless |
| Chunks.FlushedLaysOut | crates/fslite-sqlite/src/content.rs:174-208 | flushing behind a layout lays out the full chunks of what follows, and the rest stays buffered |
| Chunks.ChunkWriter.CopySuffixFrom | crates/fslite-sqlite/src/content.rs:267-298 | the re-chunked bytes `[from, to)` of the old content are appended |
| Chunks.ChunkWriter.ZeroFill | crates/fslite-sqlite/src/content.rs:300-308 | appends zeros, exactly if they fit |
| Chunks.ChunkWriter.Finish | crates/fslite-sqlite/src/content.rs:210-223 | stores the last partial chunk: the rows are the layout of all bytes accepted |
| Chunks.FeedSucceedsIff | crates/fslite-sqlite/src/content.rs:316-340 | a source is accepted exactly if it is whole and fits, however it is cut into pieces |
| Chunks.StageSource | crates/fslite-sqlite/src/content.rs:316-340 | `stage_source` lays out the concatenation of the source, or reports what stops it first |
| Chunks.StagedAt | crates/fslite-sqlite/src/content.rs:617-686 | a positional write, byte by byte: new data, else the old byte, else zero |
| Chunks.TruncatedAt | crates/fslite-sqlite/src/content.rs:747-767 | a truncation, byte by byte: the old prefix, then zeros |
| Chunks.StageWriteAt | crates/fslite-sqlite/src/content.rs:617-686 | the staging of `write_at_impl` lays out prefix, gap, data and surviving suffix, or reports what stops it first |
| Chunks.StagingSucceedsIff | crates/fslite-sqlite/src/content.rs:617-686 | that staging succeeds exactly if the source is whole and ends within the quota |
| Chunks.PieceOfChunk | crates/fslite-sqlite/src/content.rs:951-970 | cutting the first and last chunk row leaves exactly the requested part of each chunk |
| Chunks.ChunkRangeStream.Next | crates/fslite-sqlite/src/content.rs:941-975 | each pull delivers the next contiguous piece of the range, and the stream ends exactly at its end |
| Chunks.ReadRange | crates/fslite-sqlite/src/content.rs:870-915 | a drained read is the requested slice clamped to the file; only a start beyond the end is refused |
| Tree.RehangBelowMakesCycle | crates/fslite-sqlite/src/mutate.rs:449-453 | updating a parent link to a node at or below makes the chains circular |
| Tree.RehangKeepsTree | crates/fslite-sqlite/src/mutate.rs:449-453 | updating it to any other directory keeps one root, existing parents and acyclic chains |
| Resolve.ResolvePlain | crates/fslite-sqlite/src/resolve.rs:156-177 | the plain walk as a loop |
| Resolve.PathUnique | crates/fslite-sqlite/src/resolve.rs:156-177 | a node is reached by at most one plain path |
| Resolve.PrefixIsAncestry | crates/fslite-sqlite/src/mutate.rs:91-101 | for plainly resolved paths being a prefix is being an ancestor in the tree |
| Resolve.FollowLink | crates/fslite-sqlite/src/resolve.rs:237-290 | one link followed by a loop over leading `..` segments |
| Resolve.FollowingMeansJoining | crates/fslite-sqlite/src/resolve.rs:237-290 | resolution goes on from the node and remaining segments of `dir.join(target)`, with no `..` left pending |
| Resolve.ResolveFollowing | crates/fslite-sqlite/src/resolve.rs:306-365 | the link-following walk ends on every table, cyclic links included, and answers as specified |
| Resolve.FollowedIsNoLink | crates/fslite-sqlite/src/resolve.rs:306-365 | with `follow_final` the answer is never a symbolic link |
| Resolve.FoundIsLive | crates/fslite-sqlite/src/resolve.rs:306-365 | whatever is found is active and reached by a plain path too |
| Resolve.WalksAgreeFrom | crates/fslite-sqlite/src/resolve.rs:306-365 | on a path on which the plain walk meets no link both walks give the same answer, found or not |
| Resolve.WalksAgreeWhenResolved | crates/fslite-sqlite/src/resolve.rs:306-365 | a plainly resolved path is found by both walks, unless its last node is a link that must be followed |
| Resolve.WalksAgreeWithoutLinks | crates/fslite-sqlite/src/resolve.rs:306-365 | both walks agree on all paths of a workspace without links |
| Links.FollowedIff | crates/fslite-sqlite/src/resolve.rs:306-365 | for every path: the walk finds a node exactly if replacing the first link met by the path it stands for, at most 40 times, leaves a path that plainly leads to it; it reports a cycle exactly if after 40 links another must be followed |
| Links.StepOverLink | crates/fslite-sqlite/src/resolve.rs:237-290 | standing at a link, the walk goes on where the path does in which the link is replaced by what it stands for |
| Store.NewWorkspaceIsValid | crates/fslite-sqlite/src/workspace.rs:46-86 | a new workspace satisfies the invariant |
| Store.PurgeIsExact | crates/fslite-sqlite/src/mutate.rs:57-89 | a purge deletes exactly the descendant closure and exactly its generations |
| Copy.CopySucceeds | crates/fslite-sqlite/src/mutate.rs:233-325 | outside the source subtree the loop ends, after as many turns as there are active nodes, in an isomorphic copy with fresh ids and private generations; everything older is unchanged |
| Copy.CopyEndsIff | crates/fslite-sqlite/src/mutate.rs:233-325 | the loop ends exactly if the destination parent is not in the active source subtree |
| Copy.LoopNeverEnds | crates/fslite-sqlite/src/mutate.rs:312-317 | inside it every number of turns leaves work on the stack |
| Safety.MkdirKeepsInv | crates/fslite-sqlite/src/directory.rs:109-180 | keeps the invariant |
| Safety.SymlinkKeepsInv | crates/fslite-sqlite/src/mutate.rs:636-700 | keeps the invariant |
| Safety.RemoveKeepsInv | crates/fslite-sqlite/src/mutate.rs:529-577 | keeps the invariant |
| Safety.TrashKeepsInv | crates/fslite-sqlite/src/trash.rs:64-120 | keeps the invariant: marks and records correspond |
| Safety.RestorePlaceIsOutside | crates/fslite-sqlite/src/trash.rs:359-380 | the directory a node is restored to never lies in the node's own subtree |
| Safety.RestoreKeepsInv | crates/fslite-sqlite/src/trash.rs:336-408 | keeps the invariant |
| Safety.PurgeRecordKeepsInv | crates/fslite-sqlite/src/trash.rs:456-481 | keeps the invariant |
| Safety.SetAttributeKeepsInv | crates/fslite-sqlite/src/mutate.rs:803-876 | keeps the invariant, at most 64 attributes of bounded size included |
| Safety.RemoveAttributeKeepsInv | crates/fslite-sqlite/src/mutate.rs:911-963 | keeps the invariant |
| Safety.FinalizeKeepsInv | crates/fslite-sqlite/src/content.rs:357-482 | a staged generation becomes the private, complete, well-chunked content of one file, and the replaced one is dropped |
| Safety.TouchKeepsInv | crates/fslite-sqlite/src/content.rs:788-843 | keeps the invariant |
| Safety.WriteKeepsInv | crates/fslite-sqlite/src/content.rs:549-581 | keeps the invariant, `max_file_bytes` included |
| Safety.WriteAtKeepsInv | crates/fslite-sqlite/src/content.rs:603-697 | keeps the invariant, `max_file_bytes` included |
| Runs.CopyKeepsInv | crates/fslite-sqlite/src/mutate.rs:168-225 | a copy that returns keeps the invariant, overwriting included |
| Runs.MoveOverKeepsInvIff | crates/fslite-sqlite/src/mutate.rs:443-470 | the updates of a move keep the invariant exactly if the destination parent is not in the moved subtree; the node survives exactly if it is not below what was overwritten |
| Runs.MoveKeepsInvIff | crates/fslite-sqlite/src/mutate.rs:403-482 | the same of the whole transaction, refusals included |
| Runs.PlainMoveIsSafe | crates/fslite-sqlite/src/mutate.rs:403-482 | for paths that cross no link the lexical test is the ancestry test, so the move keeps the invariant |
| Runs.PlainMoveLosesSourceIff | crates/fslite-sqlite/src/mutate.rs:443-455 | an overwriting move between plain paths reports success, and loses the node exactly if `to` is a prefix of `from` |
| Runs.ApplyKeepsInvIff | crates/fslite-sqlite/src/mutate.rs:1033-1122 | of all requests that return, exactly the moves of a node below itself break the invariant |
| Runs.EveryRunIsSafe | crates/fslite-sqlite/src/workspace.rs:46-86 | every state of every run without such a move is valid |
| Answers.NamedIff | crates/fslite-sqlite/src/resolve.rs:306-365 | the node a request names is the one its path leads to over at most 40 links; else it answers a link cycle, or that nothing is there |
| Answers.DestinationCodes | crates/fslite-sqlite/src/mutate.rs:34-55 | how a destination is refused, and what stands there if it is not, in terms of where its parent path leads |
| Answers.MkdirAnswers | crates/fslite-sqlite/src/directory.rs:109-180 | when `mkdir` succeeds, and with which error it is refused: for what stands on its way, then for what its path ends at |
| Answers.SymlinkAnswers | crates/fslite-sqlite/src/mutate.rs:636-700 | a link is made exactly where its path goes to a directory and is free, or holds a link that may be there |
| Answers.SymlinkRefusals | crates/fslite-sqlite/src/mutate.rs:636-700 | and with which error it is refused |
| Answers.CopyAnswers | crates/fslite-sqlite/src/mutate.rs:168-225 | a copy that returns succeeds exactly if its source has the revision asked for, is no directory or asked for recursively, and its goal is a directory's free name or may be overwritten without the source |
| Answers.CopyRefusals | crates/fslite-sqlite/src/mutate.rs:168-225 | and with which error it is refused |
| Answers.MoveAnswers | crates/fslite-sqlite/src/mutate.rs:403-482 | a move answers with the node at `from` exactly if its revision is met, `to` is no part of its path, and goes to a directory where it may stand |
| Answers.MoveRefusals | crates/fslite-sqlite/src/mutate.rs:403-482 | and with which error it is refused for its destination |
| Answers.RemoveAnswers | crates/fslite-sqlite/src/mutate.rs:529-577 | `remove` finishes exactly if its path names a node of the revision asked for that is no directory, or empty, or removed recursively; and each of its errors exactly when |
| Answers.PlainRemoveTakesOne | crates/fslite-sqlite/src/mutate.rs:554-577 | without `recursive` nothing that a path leads to is deleted but the node named |
| Answers.TrashAnswers | crates/fslite-sqlite/src/trash.rs:64-120 | `trash` succeeds exactly if its path names a node of the revision asked for; and each of its errors exactly when |
| Answers.RestoreAnswers | crates/fslite-sqlite/src/trash.rs:336-408 | `restore` answers with the node of its record exactly if the record is there, the revision met, and the directory asked for, or the original one, found with the name free |
| Answers.RestoreRefusals | crates/fslite-sqlite/src/trash.rs:352-382 | and with which error it is refused for its place |
| Answers.PurgeAnswers | crates/fslite-sqlite/src/trash.rs:456-481 | `purge` finishes exactly if the record is there, and then deletes the record and exactly the subtree of its node |
| Answers.SetAttributeAnswers | crates/fslite-sqlite/src/mutate.rs:803-876 | an attribute is set exactly if the path names a node of the revision asked for, key and value are within their bounds and there is room; and each error exactly when |
| Answers.RemoveAttributeAnswers | crates/fslite-sqlite/src/mutate.rs:911-963 | an attribute is removed exactly if the path names a node of the revision asked for |
| Answers.TouchAnswers | crates/fslite-sqlite/src/content.rs:788-843 | `touch` succeeds exactly on a file of the revision asked for, or where one may be created |
| Failures.FailedMkdir | crates/fslite-sqlite/src/directory.rs:109-180 | a failing `mkdir` has created none of the ancestors it may create |
| Failures.FailedTouch | crates/fslite-sqlite/src/content.rs:821-842 | exactly what a failing `touch` leaves behind |
| Failures.FailureChangesNothingIff | crates/fslite-sqlite/src/mutate.rs:145-160 | a failed request changes nothing, except exactly a `touch` that was to create a file |
| Failures.BatchIsTheRun | crates/fslite-sqlite/src/mutate.rs:1124-1174 | a batch whose requests all pass is the run of its requests, with one result for each |
| Failures.BatchStopsAtFirst | crates/fslite-sqlite/src/mutate.rs:1137-1156 | any other batch stops at its first request that lacks a capability or fails, with its index and its error, and changes nothing |
| Failures.CompletedBatchIsARun | crates/fslite-sqlite/src/mutate.rs:1158-1161 | a completed batch is such a run, each request permitted and successful |
| TrashEffects.TrimmingHides | crates/fslite-sqlite/src/resolve.rs:306-365 | whatever takes exactly one subtree off the active tree takes off exactly the paths that lead to it or through it, with and without links |
| TrashEffects.TrashHidesExactly | crates/fslite-sqlite/src/trash.rs:64-120 | after `trash` no path, over links or not, leads to the node or below it; every path that did not go through it resolves as before |
| TrashEffects.RestoreUndoesTrash | crates/fslite-sqlite/src/trash.rs:336-408 | restoring at once recovers the same nodes, ids and bytes; only revision, time and feed differ |
| TrashEffects.RestoredResolvesAlike | crates/fslite-sqlite/src/trash.rs:336-408 | then every path, over links or not, resolves as before, to the same bytes |
| TrashEffects.RestoredIsReachableIff | crates/fslite-sqlite/src/trash.rs:374-380 | a restored node is reachable exactly if the directory it was put in is: only that directory's own mark is looked at |
| TrashEffects.GrowthAddsExactly | crates/fslite-sqlite/src/resolve.rs:306-365 | if only one subtree is new, every path, over links or not, resolves as before unless it goes to the top of it or through it |
| Additions.RestorePutsTheTree | crates/fslite-sqlite/src/trash.rs:336-408 | a restore puts the node under the name asked for into the directory asked for: what was below it in the trash is read below that path, every other path resolves as before, no bytes change, and just its record is gone |
| Additions.RestoreToPathIff | crates/fslite-sqlite/src/trash.rs:359-368 | restoring to a plain path succeeds exactly if the record is there, its revision is met and the path is free |
| Additions.RestoreToPath | crates/fslite-sqlite/src/trash.rs:359-400 | then the path leads to the node and what was below it is read below the path |
| ContentEffects.EditSucceedsIff | crates/fslite-sqlite/src/content.rs:549-767 | `write`, `write_at`, `append` and `truncate` succeed exactly if the target allows it, the source is whole and the new bytes end within the quota |
| ContentEffects.EditHasItsMeaning | crates/fslite-sqlite/src/content.rs:549-767 | then the path names the edited bytes, and no other node or file has changed |
| ContentEffects.EditRefusals | crates/fslite-sqlite/src/content.rs:174-193 | an edit is refused as too big exactly if the zeros before it or some beginning of its stream end beyond the quota, as broken exactly if its stream breaks before that, as in conflict exactly if neither and the file has another revision |
| ContentEffects.RunOfEdits | crates/fslite-sqlite/src/content.rs:549-767 | after any run of them on a path the stored chunks hold exactly the abstract file |
| ContentEffects.TouchKeepsContent | crates/fslite-sqlite/src/content.rs:788-843 | a `touch` leaves the bytes of a file alone; where there was none it leaves an empty one |
| Effects.SymlinkMakesTheLink | crates/fslite-sqlite/src/mutate.rs:636-700 | a new link stands at its path with the stored target, and every older path still resolves |
| Effects.AttributeIsSet | crates/fslite-sqlite/src/mutate.rs:803-876 | exactly the one attribute of the one node is set, and no path changes |
| Effects.AttributeIsRemoved | crates/fslite-sqlite/src/mutate.rs:911-963 | exactly that one is taken away, if it is there |
| Effects.RemoveTakesExactlyTheSubtree | crates/fslite-sqlite/src/mutate.rs:529-577 | after `remove` no path, over links or not, leads to the node or below it; every path that did not go through it resolves as before |
| Effects.PurgeChangesNoPath | crates/fslite-sqlite/src/trash.rs:456-481 | purging a trash record changes no path, over links or not: what it deletes could not be reached |
| Effects.MkdirMakesThePath | crates/fslite-sqlite/src/directory.rs:109-180 | a successful `mkdir` makes the path name a directory and takes nothing away |
| Effects.CopyReadsTheSame | crates/fslite-sqlite/src/mutate.rs:233-325 | every path below the copy leads to the copy of what it leads to below the source: same kind, bytes, target and attributes |
| Effects.CopyReturnsIff | crates/fslite-sqlite/src/mutate.rs:168-325 | every copy request, over links and with overwriting, is answered, except that an accepted one into the active subtree of its own source never returns |
| Effects.PlainCopyEndsIff | crates/fslite-sqlite/src/mutate.rs:168-225 | in paths: a copy to a free place returns exactly if `to` does not lie below `from` |
| Effects.PlainCopyCopiesTheTree | crates/fslite-sqlite/src/mutate.rs:168-225 | such a copy reads at `to` as the source does at `from`, its answer is the node that stands at `to`, and every older path still resolves |
| Effects.PlainMoveMovesTheTree | crates/fslite-sqlite/src/mutate.rs:403-482 | between paths of which none lies below the other, the tree read at `from` is afterwards read at `to`, and nothing at `from` |
| Additions.MkdirAddsExactly | crates/fslite-sqlite/src/directory.rs:109-180 | a successful `mkdir` creates nothing but the directories missing on its path; every other path resolves as before, over links or not |
| Additions.SymlinkAddsExactly | crates/fslite-sqlite/src/mutate.rs:636-700 | a new link adds itself: every other path resolves as before |
| Additions.PlainCopyAddsExactly | crates/fslite-sqlite/src/mutate.rs:168-325 | a copy between plain paths to a free place adds exactly the copy: every other path resolves as before |
| Additions.OverwritingCopyIs | crates/fslite-sqlite/src/mutate.rs:195-215 | an overwriting copy is a purge of what stands at its goal and then a copy to a free place |
| Additions.PlainMoveKeepsOthers | crates/fslite-sqlite/src/mutate.rs:403-482 | a move between plain paths leaves every path alone that goes neither to its source nor to its goal |
| Chronicle.EveryRequestIsTold | crates/fslite-sqlite/src/change.rs:54-90 | every row a request adds to the change feed is true of the tables before and after: which node, by which path, at which revision, new, renewed, marked or gone; a row of the tree that differs has one revision more and the time of the request, or just a trash mark; and the tree does not change without a row in the feed, but for a `touch` of a file that is there |
| Capabilities.CapabilitiesAreKept | crates/fslite-sqlite/src/mutate.rs:1008-1020 | what the capability asked for a request lets it do: writing neither trashes nor restores, and deletes only what it overwrites; deleting makes and changes nothing; trashing and restoring touch no bytes and no attributes |
| Aging.EveryRequestAges | crates/fslite-sqlite/src/content.rs:424-468 | on tables of which only the ids need be in order: no request rewrites a stored generation, brings an id back, lowers a revision or changes a file's generation without raising its revision; the change feed only grows |
| Aging.TrashIsAlwaysExplained | crates/fslite-sqlite/src/trash.rs:180-199 | at every moment of every run each trash record is the answer of a `trash` request, and the latest `trashed` change of its node tells the path and the time of that request, which is the time of the record |
| Writers.EventSeparates | crates/fslite-sqlite/src/content.rs:163-482 | every single event, whatever the tables: staged generations stay private and incomplete, stored ones are not rewritten, no id comes back, what a writer or reader found stays found or is gone |
| Gaps.EventKeeps | crates/fslite-sqlite/src/content.rs:163-482 | one event leaves valid tables exactly if it is not the commit of a generation with a gap, nor a move of a node below itself |
| Gaps.BulkMatch | crates/fslite-sqlite/src/content.rs:60-80 | the bulk copy makes a gap exactly if the prior generation is gone |
| Gaps.TearBreaks | crates/fslite-sqlite/src/content.rs:357-482 | committing a generation with a gap breaks the tables: its first chunk is missing, and its length counts it |
| Interleavings.GapIff | crates/fslite-sqlite/src/content.rs:234-265 | over any history: a writer has a gap exactly if its bulk copy ran after its prior generation was deleted |
| Interleavings.TablesStayValidIff | crates/fslite-sqlite/src/content.rs:234-482 | in every interleaving the tables stay valid exactly if no writer commits after such a bulk copy, and no move hangs a node below itself |
| Interleavings.HistoryIsOk | crates/fslite-sqlite/src/content.rs:163-482 | until then: valid tables, staged rows that are the layout of the bytes taken in, priors and reads on well-chunked generations |
| Interleavings.CommittedChunksNeverChange | crates/fslite-sqlite/src/content.rs:424-468 | in every interleaving, gaps or not: a complete generation is the same at every later moment, or gone |
| Interleavings.AtMostOneCommits | crates/fslite-sqlite/src/content.rs:413-433 | in every interleaving, gaps or not: of all writers conditioned on one revision of a node at most one commits |
| Interleavings.ReadIsWholeIff | crates/fslite-sqlite/src/content.rs:927-977 | a stream has delivered a prefix of what was due, and all of it exactly if none of its pulls found its generation deleted |
| Interleavings.ReadersSeeOneRevision | crates/fslite-sqlite/src/content.rs:927-977 | on valid tables that is the requested range of the one revision it opened: a prefix always, the whole at the end exactly if no pull came too late |
| Interleavings.NothingIsMissedIff | crates/fslite-sqlite/src/content.rs:603-697 | over any history: a writer holds all it meant to take in exactly if each of its copies found its prior generation, or meant to copy nothing |
| Interleavings.CommitIsIntact | crates/fslite-sqlite/src/content.rs:603-697 | it holds all of that if the node it read is there and still has the revision it read |
| Interleavings.PinnedWriteIsIntact | crates/fslite-sqlite/src/content.rs:603-697 | so a write conditioned on the revision it read never commits torn content on the node it read; on another node at that path it can |
| Interleavings.FinalizedContent | crates/fslite-sqlite/src/content.rs:357-482 | a successful finalizing transaction, after a gap or not, gives the file exactly the bytes its writer took in |
| Plans.PlanMeansStaged | crates/fslite-sqlite/src/content.rs:617-686 | the calls of a positional write, its new bytes cut anyhow and its suffix beginning where they end, take in exactly the edited bytes if the old generation stays |
| Interleavings.TornHeadIsShorter | crates/fslite-sqlite/src/content.rs:662-671 | a positional write that missed bytes before its suffix ends with fewer bytes than the edited content, wherever the suffix then begins |
| Interleavings.InterleavedWriteCommitsStagedIff | crates/fslite-sqlite/src/content.rs:603-697 | in every interleaving a positional write, its suffix beginning at whatever length it has reached, commits the prior bytes, edited, exactly if none of its copies missed bytes |
| Interleavings.InterleavedWriteCommitsStaged | crates/fslite-sqlite/src/content.rs:603-697 | in every interleaving a positional write whose node still has the revision it read commits exactly that: the answer of the same write running alone |
| Sessions.InterleavedWriteIsTheEdit | crates/fslite-sqlite/src/content.rs:603-697 | in every interleaving a positional write that commits does so at the path it was asked for, on a file of the revision it was conditioned on, and leaves the edit asked for of the bytes its path named when it began, exactly if none of its copies missed bytes |
| Sessions.ReaderGetsWhatItAskedFor | crates/fslite-sqlite/src/content.rs:870-977 | while nothing has broken the tables a stream delivers, of the file its path named when it was opened, a beginning of the range asked for, and all of it exactly if no pull found the generation deleted |
| Leftovers.NothingIsLeftBehind | crates/fslite-sqlite/src/content.rs:163-340 | in every interleaving that begins with nothing half done, every generation that is not complete belongs to a writer at work, unless a writer has vanished |
| Races.OvertakenAppendLeavesAGap | crates/fslite-sqlite/src/content.rs:169-172 | a history: five bytes appended to a file of a chunk and ten bytes, overtaken before the bulk copy, leave a file of a chunk and five bytes without its first chunk |
| Races.OvertakenWriteIsTorn | crates/fslite-sqlite/src/content.rs:667-684 | a history: a byte written into the middle of ten, overtaken before the suffix is copied, commits neither the old bytes edited nor the new ones edited |
| Races.OvertakenReadEndsEarly | crates/fslite-sqlite/src/content.rs:927-977 | a history: a stream over a chunk and ten bytes, overtaken after the chunk, ends there without an error |
| Races.ConditionMetByAnotherNode | crates/fslite-sqlite/src/content.rs:413-433 | a history: an append conditioned on revision 1 commits on a file removed and made again meanwhile, without the bytes it meant to keep |
| Engine.QuerySubtree | crates/fslite-sqlite/src/mutate.rs:65-74 | the closure loop finds exactly the subtree |
| Engine.Workspace.PurgeSubtree | crates/fslite-sqlite/src/mutate.rs:64-89 | does to the tables what `Store.PurgeSubtree` says |
| Engine.Workspace.AppendChange | crates/fslite-sqlite/src/change.rs:54-90 | bumps the sequence and appends the row that bears it |
| Engine.Workspace.Mkdir | crates/fslite-sqlite/src/directory.rs:109-180 | the loop does what `Operations.Mkdir` says |
| Engine.Workspace.MakeSymlink | crates/fslite-sqlite/src/mutate.rs:636-700 | does what `Operations.MakeSymlink` says |
| Engine.Workspace.CopySubtree | crates/fslite-sqlite/src/mutate.rs:233-325 | the stack loop ends in the state `Copy.CopySubtree` gives, where there is one |
| Engine.Workspace.CopyTo | crates/fslite-sqlite/src/mutate.rs:168-225 | does what `Operations.CopyTo` says, the rollback included |
| Engine.Workspace.MoveTo | crates/fslite-sqlite/src/mutate.rs:403-482 | does what `Operations.MoveTo` says |
| Engine.Workspace.Remove | crates/fslite-sqlite/src/mutate.rs:529-577 | does what `Operations.Remove` says |
| Engine.Workspace.TrashPath | crates/fslite-sqlite/src/trash.rs:64-120 | does what `Operations.TrashPath` says |
| Engine.Workspace.Restore | crates/fslite-sqlite/src/trash.rs:336-408 | does what `Operations.Restore` says |
| Engine.Workspace.Purge | crates/fslite-sqlite/src/trash.rs:456-481 | does what `Operations.Purge` says |
| Engine.Workspace.SetAttribute | crates/fslite-sqlite/src/mutate.rs:803-876 | does what `Operations.SetAttribute` says |
| Engine.Workspace.RemoveAttribute | crates/fslite-sqlite/src/mutate.rs:911-963 | does what `Operations.RemoveAttribute` says |
| Engine.Workspace.Finalize | crates/fslite-sqlite/src/content.rs:357-482 | does what `Operations.Finalize` says |
| Engine.Workspace.Touch | crates/fslite-sqlite/src/content.rs:788-843 | does what `Operations.Touch` says |
| Engine.Workspace.Write | crates/fslite-sqlite/src/content.rs:549-581 | stages and commits as `Operations.Write` says |
| Engine.Workspace.WriteAt | crates/fslite-sqlite/src/content.rs:603-697 | stages and commits as `Operations.WriteAt` says |
| Engine.Workspace.Append | crates/fslite-sqlite/src/content.rs:722-745 | as `Operations.Append` says |
| Engine.Workspace.Truncate | crates/fslite-sqlite/src/content.rs:747-767 | as `Operations.Truncate` says |
| Engine.Workspace.Batch | crates/fslite-sqlite/src/mutate.rs:1124-1174 | the loop does what `Failures.Batch` says: all requests in order, or the old tables |
| Counterexamples.CopyIntoItselfNeverEnds | crates/fslite-sqlite/src/mutate.rs:312-317 | copying `/a` to `/a/b` never returns |
| Counterexamples.MoveThroughLinkMakesCycle | crates/fslite-sqlite/src/mutate.rs:429-455 | moving `/a` to `/l/b`, `/l` being a link to `/a`, hangs the directory below itself |
| Counterexamples.MoveOverAncestorLosesTheNode | crates/fslite-sqlite/src/mutate.rs:443-455 | moving `/a/b` over `/a` reports success, and the node is gone |
| Counterexamples.FailedTouchLeavesOrphan | crates/fslite-sqlite/src/content.rs:821-842 | touching `/a/b` without `/a` fails and leaves a generation no node will use |
| Counterexamples.RestoreBelowTheTrashIsUnreachable | crates/fslite-sqlite/src/trash.rs:374-380 | `/a/b/c` and then `/a` in the trash: restoring `/a/b/c` succeeds, and no path leads to it |
| Lexer.ReadSingleQuoted | crates/fslite-command/src/lexer.rs:135-146 | the loop reads to the closing quote as specified |
| Lexer.ReadDoubleQuoted | crates/fslite-command/src/lexer.rs:148-167 | the loop reads escapes and the closing quote as specified |
| Lexer.ReadWord | crates/fslite-command/src/lexer.rs:90-133 | the loop reads one word, quoted parts included |
| Lexer.Tokenize | crates/fslite-command/src/lexer.rs:39-72 | the loop yields the tokens, or the first error in the code's order of checks |
| Lexer.ClassifyKeepsSpelling | crates/fslite-command/src/lexer.rs:74-88 | a token spells the word it was classified from |
| Lexer.QuoteWord | crates/fslite-cli/src/main.rs:404-429 | the escaping loop yields the quoted word |
| Lexer.QuotingRoundTrips | crates/fslite-cli/src/main.rs:396-429 | for every list of words: tokenizing the quoted line gives exactly the classified words, or the one error that a long line, a NUL or a `$(` must give |
| Grammar.ReadIff | crates/fslite-command/src/lexer.rs:51-167 | the tokens of a line are exactly those of the words it is spelled from, by a grammar of bare characters, quoted parts and blanks; if it is spelled from none, it stops at its first fault with that fault's error |
| Grammar.TokenizeIff | crates/fslite-command/src/lexer.rs:39-72 | a line is read exactly if it has at most 65536 bytes, no NUL and no `$(`, and is spelled by the grammar |
| Grammar.ClassifyIs | crates/fslite-command/src/lexer.rs:74-88 | a token is a flag `--name` or `--name=value`, cut at the first `=`, or else its word |
| Grammar.QuotedIsSameIff | crates/fslite-cli/src/main.rs:404-429 | quoting leaves exactly the words alone that are spelled by bare characters |
| RateLimit.KeyInjective | showcase/src/lib/server/rate-limit.ts:105-107 | table keys never collide, though addresses may hold `:` |
| RateLimit.AdmissionKeepsSpacing | showcase/src/lib/server/rate-limit.ts:62-79 | one more admission keeps any `limit + 1` consecutive ones a window apart |
| RateLimit.LimitHoldsInEveryWindow | showcase/src/lib/server/rate-limit.ts:46-82 | each key has at most its limit of admissions in every window of a minute |
| RateLimit.RollingWindowRateLimiter.CheckAll | showcase/src/lib/server/rate-limit.ts:46-82 | admits exactly if the keys fit and every bucket is below its limit; records all buckets or none; never exceeds `maxKeys`; refuses in the name of the first bucket asked for if the table is full, else of the first full one, with an exact wait |
| RateLimit.RollingWindowRateLimiter.PruneAll | showcase/src/lib/server/rate-limit.ts:109-120 | the loop drops exactly what has left the window |
| RateLimit.RetryIsExact | showcase/src/lib/server/rate-limit.ts:62-72 | with no further admission a full bucket is below its limit from the reported moment on, and not before |
| RateLimit.KeyLeavesWithItsLast | showcase/src/lib/server/rate-limit.ts:109-120 | a key leaves the table with its last timestamp |
| RateLimit.RollingWindowRateLimiter.CapacityRetryAfterMs | showcase/src/lib/server/rate-limit.ts:122-130 | the loop finds the oldest first timestamp of the table; the wait is until it leaves the window |
| RateLimit.MirroredIsInOrder | showcase/src/lib/server/rate-limit.ts:109-120 | the limiter's table is sorted, without empty entries and inside the window at the time of the latest call |
| RateLimit.CapacityWaitIsEnoughIff | showcase/src/lib/server/rate-limit.ts:58-64 | for every table and every set of keys asked for: the wait reported for a full table is never too long, and is enough exactly if as many other keys as are too many hold nothing but the oldest timestamp |
| RateLimit.SlotIsFreeIff | showcase/src/lib/server/rate-limit.ts:122-130 | a slot is free after that wait exactly if some key whose first timestamp is the oldest has its last outside the window by then |
| RateLimit.CapacityWaitCanBeTooShort | showcase/src/lib/server/rate-limit.ts:122-130 | a table of one key on which the reported wait ends with the table still full |
| ResetCoordinator.StepKeepsInv | showcase/src/lib/server/reset-coordinator.ts:86-190 | every event, in any order in which they can happen, keeps the invariant |
| ResetCoordinator.EveryRunIsSafe | showcase/src/lib/server/reset-coordinator.ts:86-190 | resetting and seeding only with no operation active, none admitted while a reset is in flight, at most one reset and one timer, no timer after `dispose` |
| ResetCoordinator.ResetsGoOn | showcase/src/lib/server/reset-coordinator.ts:118-168 | in every run, from a completed start until `dispose`, exactly one timer is armed, or one callback is waiting for its reset or for its turn to arm the next; and some reset has completed |
| ResetCoordinator.CallbackHearsTheOutcome | showcase/src/lib/server/reset-coordinator.ts:149-168 | when a reset ends, the callback waiting for it goes on in exactly the branch of its outcome |
| ResetCoordinator.DelayIs | showcase/src/lib/server/reset-coordinator.ts:118-168 | an armed timer waits for the retry delay if the latest scheduled reset to be handled had failed, and else for the interval |
| ResetCoordinator.AnnouncedIsKept | showcase/src/lib/server/reset-coordinator.ts:131-176 | `nextResetAt` is an interval after the latest completed seeding, until a timer fires or `dispose` |
| ResetCoordinator.AResetInFlightEnds | showcase/src/lib/server/reset-coordinator.ts:170-190 | a reset never gets stuck: some event can bring it nearer to its end, every such event does, and none takes it back |
| ResetCoordinator.ActiveAreUnder | showcase/src/lib/server/reset-coordinator.ts:86-100 | the active operations are those that arrived with the gate open, less those that ended |
| ResetCoordinator.GenerationCountsResets | showcase/src/lib/server/reset-coordinator.ts:170-176 | `generation` counts the resets whose seeding completed |
| ResetCoordinator.GateShutIff | showcase/src/lib/server/reset-coordinator.ts:103-168 | the gate is shut exactly while a reset is in flight, or since the handler of a failed scheduled reset shut it |
| ResetCoordinator.WorkEntersAfterAFailedReset | showcase/src/lib/server/reset-coordinator.ts:149-168 | a run in which an operation is admitted to a half-reset workspace, between the end of a failed reset and that handler |
| ResetCoordinator.Coordinator.OperationBegins | showcase/src/lib/server/reset-coordinator.ts:86-91 | admits exactly with the gate open, never while a reset is in flight |
| ResetCoordinator.Coordinator.OperationEnds | showcase/src/lib/server/reset-coordinator.ts:92-100 | counts down and releases the waiters at zero |
| ResetCoordinator.Coordinator.ResetNow | showcase/src/lib/server/reset-coordinator.ts:103-116 | returns the pending promise or begins one reset |
| ResetCoordinator.Coordinator.TimerCallback | showcase/src/lib/server/reset-coordinator.ts:141-152 | one timer leads to one scheduled reset |
| ResetCoordinator.Coordinator.ScheduledContinues | showcase/src/lib/server/reset-coordinator.ts:153-168 | re-arms exactly one timer unless disposed |
| ResetCoordinator.Coordinator.PerformCallsReset | showcase/src/lib/server/reset-coordinator.ts:170-173 | `resetWorkspace` is called with no operation active |
| ResetCoordinator.Coordinator.PerformCallsSeed | showcase/src/lib/server/reset-coordinator.ts:173-174 | seeding is called with no operation active |
| ResetCoordinator.Coordinator.ResetSettles | showcase/src/lib/server/reset-coordinator.ts:109-114 | opens the gate and passes the outcome on |
| ResetCoordinator.Coordinator.DisposeNow | showcase/src/lib/server/reset-coordinator.ts:131-139 | leaves no timer armed |

## Left out

- SQLite itself, the async runtime, migrations and the mapping of storage errors: a
  transaction is a step on values, and a failing statement drops it.
- HTTP routes, authentication, the remote and local clients, the command verbs, rendering,
  configuration and the user interface.
- Several workspaces side by side: one workspace is modelled, and every query of the code
  is restricted to one.
- Total byte and node quotas: the modelled files enforce `max_file_bytes` only.
- Paging of content search: after a full page or a spent budget it skips the rest of a
  file, so pages do not cover all matches.
- `reset_workspace` and `delete_workspace` (`crates/fslite-sqlite/src/workspace.rs:87-150`):
  what is kept over runs and histories is kept between two of them.
- `list_trash`, `stat`, `exists` and `read_link`: short readings of what is modelled.
- Cursors as encoded strings, and cursors of another workspace, path or tree: a cursor is a
  row key, and completeness is stated for cursors that were handed out for the same tree.
- Integer widths: sizes, revisions and sequences are unbounded; the code stores them in 64
  bits.
- Resolve.Followed: tells a broken link from a missing node as the code does, but no
  property of that distinction is claimed, because nested links overwrite the count it
  rests on.
- Operations.CopyTo: overwriting with the source inside the overwritten node is modelled as
  a dropped transaction, because the code's lookup of the purged source fails.
- Paging.ScanPage: starts below a node that was resolved; the answers for a missing start
  are left to the caller.
- Paging.TreePage: the same, and the refusals for files and foreign cursors.
- Paging.ReadDirPage: the same as for `tree`.
- Glob.LiteralPrefix: requires names without NUL, because the code panics on a literal
  segment that holds one.
- Paging.QueryDescendants: relative paths are sequences of names and not joined strings,
  because names come from path segments and never hold a `/`.
- Paging.SelectsRow: attribute values are compared as bytes and not in their base64 form.
- Engine.Workspace.CopyTo: requires that the copy returns at all; when it does is
  `Effects.CopyReturnsIff`.
- Engine.Workspace.Batch: requires that every request returns and that no move of the batch
  hangs a node below itself, because the queries are specified on valid tables only.
- ResetCoordinator.EveryRunIsSafe: `snapshot` and the error texts are not modelled, and a
  reset that never settles just stays in flight.
