# Proofs about libgit2's algorithms and the level 1 miner

This project models the parts of the repository that do the hardest work and
proves what they are for:

- **Binary deltas** (`delta.c`, `delta-apply.c`): the rolling fingerprint with
  the real tables, the block index with its culling, the encoder with its
  growing buffer, and the decoder. Whatever the encoder returns, the decoder
  turns back into the target, and where the target repeats a block that the
  index has kept, it is copied.
- **Blame** (`blame_git.c`, `blame.c`): the scoreboard of line groups is split,
  handed from commit to parent and settled. Groups stay a partition, every
  line keeps its text, the search ends, and each line ends up where following
  it by itself would have led: to the first parent with the same content, or
  else to the first one that has the line.
- **Rename matching** (`diff_tform.c`): the restarting greedy matching ends,
  and its result is a stable matching of all files that may be compared.
- **Miner and pusher** (`level1.c`): two threads, two mutexes, a flag and a
  pointer, as a step system with an invariant of all runs; from every state of
  every run the remote can still be brought to take another commit.
- **Ahead and behind** (`graph.c`, `pqueue.c`): marks spread over the history
  with early stopping, and still count the right commits.
- **Glob matching** (`fnmatch.c`): the matcher with its shortcuts against the
  meaning of patterns, and exactly when the two agree; patterns are read as
  what a printer writes them for.
- **Configuration files** (`config_file.c`): what is written is read back, and
  exactly when it is read back unchanged, with comments and without.
- **Tree differences** (`diff.c`): the walk of two trees turns the one into the
  other, with exactly the records due; reversing it is swapping the trees.
- **Line endings and filters** (`buf_text.c`, `crlf.c`, `filter.c`): what each
  setting makes of a text, and when cleaning undoes smudging, for one filter
  and for lists of filters.
- **Object caches** (`cache.c`): references and memory add up over any calls on
  any number of caches.
- **Attributes** (`attr.c`, `attr_file.c`): assignments stay sorted, and the
  three ways of asking for them agree.
- **Buffered files** (`filebuf.c`): what arrives is what was appended, in order.

`dafny verify dfyconfig.toml` checks everything.

Conventions. Loops over buffers are loops here, and objects that the source
changes in place are classes; C pointers into a text are the text that is left
to read. Bytes are integers below 256, and bit vectors only where the source
shifts and masks. Counters are unbounded unless a row says otherwise. Oracles
stand for code that is not part of the model and are quantified over: edit
scripts (any correct one), the search for a file in a parent commit, similarity
scores, where a hash table puts an entry, which disk writes fail.

Where the code falls short of what its comments or callers expect, the model
keeps the code as it is and states exactly when:

- The comment at `delta.c:199-210` says that culling limits a bucket to
  `HASH_LIMIT` entries. `Buckets.CulledLength` states when it does.
- `fnmatch.c:83` turns the treatment of leading periods off behind a star. With
  both `FNM_PERIOD` and `FNM_PATHNAME` a pattern can then match a period after a
  slash; `Fnmatch.AcceptsMeaning` and `Fnmatch.Unreliable` state for which texts,
  with and without `FNM_NOESCAPE`.
- `blame_git.c:495` replaces a given oldest commit by the first commit without
  parents that the search comes to, and later lines then pass the oldest commit.
  `Blame.BlameFile` and `BlameTrack.SomeRange` state for which lines;
  `BlameExample.Misblamed` is a history where a line passes the oldest commit.
- The early stop in `graph.c` relies on times that fall from child to parent.
  For other times it depends on the shape of the history whether the counts are
  right. `GraphShape.ExposedAt` is the exact condition, on parents alone: a
  common commit that the walk from one side comes to is exposed if the other
  side's mark can only reach it through common commits, and everything that
  waits or ends while those commits hold the mark back is a parent of a commit
  that has both. `GraphCount.GraphAheadBehind` is right for all times where no
  commit is exposed, and `GraphTimes.ExposedTraps` gives times that make it
  wrong wherever one is. `GraphSkew.SkewMisleads` is a history where it happens.
- `filebuf.c:216-220` gives an unbuffered file no buffer, but reserving and
  formatting assume one. `Filebuf.WriteAll` states which calls are affected.
- `config_file.c:1536` decides whether a value goes on on the next line after its
  escapes have been taken out. `ConfigContinued.BrokenValue` states which values
  can be broken where; `ConfigContinued.BreakAborts` is one where an assertion fails.
- `config_file.c:978-1000` takes one space away before a comment and does not
  count a quote after a backslash. `ConfigComments.NotedVariable` states which
  values can have a comment after them; `ConfigComments.CommentRead` and
  `ConfigComments.SpaceRead` are some that cannot.
- Values, names and content that do not come back unchanged:
  `ConfigRoundTrip.ValueSurvives`, `ConfigRoundTrip.HeaderSurvives` and
  `Filters.SurvivesExactly` state which do, and `ConfigRoundTrip.ValueLost`,
  `ConfigRoundTrip.HeadersLost` and `Filters.PairLost` are some that do not.

## Model

| member | source | states |
|---|---|---|
| `Rolling.SlideIsFold` | libgit2-development/src/delta.c:307-308 | sliding a window by removing the oldest byte and entering the next gives the fingerprint of the new window from scratch, for every lawful machine |
| `Rolling.AgesEverywhere` | libgit2-development/src/delta.c:62-106 | a removal table that is linear and right for the eight single bits is right for every byte |
| `Rolling.ReducingIsLawful` | libgit2-development/src/delta.c:296-299 | a shift register reduced through a linear table obeys the laws that make it roll |
| `Rabin.TReduces` | libgit2-development/src/delta.c:16-60 | the real table T is linear, and the top bit of each entry is the low bit of its index, so values stay below 2^31 |
| `Rabin.ByteIsBits` | libgit2-development/src/delta.c:16-60 | letting a byte in through the real table T is letting its eight bits in one by one, each reduced by one polynomial |
| `Rabin.FingerprintIsRemainder` | libgit2-development/src/delta.c:292-299 | the fingerprint of any text is the remainder of its bits, read as a polynomial, by that polynomial |
| `Rabin.UIsAged` | libgit2-development/src/delta.c:62-106 | every entry of the real table U is its byte pushed through fifteen zero bytes |
| `Rabin.StandardIsSound` | libgit2-development/src/delta.c:13-106 | with the real tables T and U the fingerprint rolls, for all windows and bytes |
| `Rabin.FingerprintFits` | libgit2-development/src/delta.c:183-184 | every fingerprint is below 2^31, so that shifting it by 23 gives an index within the table |
| `DeltaFormat.HeaderRoundTrip` | libgit2-development/src/delta.c:273-287 | a size written seven bits at a time is read back with its length, whatever follows |
| `DeltaFormat.OpRoundTrip` | libgit2-development/src/delta.c:367-384 | every copy and insert instruction the encoder can emit is read back, with zero operand bytes left out and a length of 64 KB coded as zero |
| `DeltaFormat.CommandRead` | libgit2-development/src/delta-apply.c:84-105 | every copy command, with whichever of its seven operand bytes, is read as the offset and length that these make up by weight, the third length byte included; length zero stands for 64 KB |
| `DeltaFormat.ReadFails` | libgit2-development/src/delta-apply.c:84-123 | an instruction is refused exactly if it is the reserved zero or its literals or announced operands are not all there |
| `DeltaFormat.StreamRoundTrip` | libgit2-development/src/delta-apply.c:84-123 | every list of such instructions is read back from its bytes |
| `DeltaFormat.WrittenMeaning` | libgit2-development/src/delta-apply.c:52-134 | headers and instructions mean what the instructions produce from the base, if they stay inside it |
| `DeltaApply.ReadSize` | libgit2-development/src/delta-apply.c:18-37 | reads the size the header bytes stand for, or reports a header that never ends |
| `DeltaApply.CopyInto` | libgit2-development/src/delta-apply.c:101-105 | the result buffer changes in exactly the copied range |
| `DeltaApply.Interpret` | libgit2-development/src/delta-apply.c:77-134 | the command loop succeeds exactly when every instruction is whole, stays inside base and result, and the result is filled |
| `DeltaApply.Apply` | libgit2-development/src/delta-apply.c:52-134 | the decoder computes the meaning of a delta, and fails exactly when it has none |
| `Buckets.CullBucket` | libgit2-development/src/delta.c:215-223 | relinking in place keeps the head and then one entry out of every `count / HASH_LIMIT / 2` of one bucket, and touches no other |
| `Buckets.CullAll` | libgit2-development/src/delta.c:211-224 | every bucket becomes its thinned chain |
| `Buckets.CulledLength` | libgit2-development/src/delta.c:199-224 | a bucket ends with at most `HASH_LIMIT` entries exactly if it had fewer than 128, and with at most 255 in any case |
| `DeltaIndex.PrintWindow` | libgit2-development/src/delta.c:392-395 | the loop over sixteen bytes computes their fingerprint |
| `Filing.FileBlocks` | libgit2-development/src/delta.c:185-196 | every fingerprint is found in its bucket, buckets are counted, an entry for a run of equal fingerprints stands for the lowest block, every block that begins a run is filed, and the first block heads its bucket |
| `DeltaIndex.Populate` | libgit2-development/src/delta.c:177-197 | with the fingerprints computed block by block, every block is filed, and each entry is the lowest of its run |
| `DeltaIndex.CreateIndex` | libgit2-development/src/delta.c:122-228 | every block is filed, every entry points at a block with its fingerprint, each bucket is the culled one, the first block heads its bucket, and a block that begins a run of equal fingerprints is kept if it is the first, if its bucket was below `HASH_LIMIT`, or if the base has at most 1024 bytes |
| `DeltaIndex.KeptBlock` | libgit2-development/src/delta.c:177-224 | a block that begins a run is kept if it is the first one, if its bucket had fewer than `HASH_LIMIT` entries, or if there are fewer blocks than that |
| `DeltaCreate.Writer.Resize` | libgit2-development/src/delta.c:401-406 | the text written so far survives the move to another buffer |
| `DeltaCreate.PutHeader` | libgit2-development/src/delta.c:273-287 | writes the header bytes of a size |
| `DeltaCreate.PutCopy` | libgit2-development/src/delta.c:367-384 | writes the bytes of a copy instruction, with the command byte filled in last |
| `DeltaCreate.Extend` | libgit2-development/src/delta.c:320-321 | measures how far two texts agree |
| `DeltaCreate.FindMatch` | libgit2-development/src/delta.c:310-329 | the result is a match; unless it is long enough to stop at, no candidate of the bucket is longer, though the search gives up early; it is the match in hand or the first of the longest candidates |
| `DeltaEncoder.PutLiteral` | libgit2-development/src/delta.c:333-341 | one more pending literal, closed when there are 127 |
| `DeltaEncoder.Retreat` | libgit2-development/src/delta.c:347-358 | pending literals that the base holds before the match become part of it, as many as can, and the count slot goes with the last |
| `DeltaEncoder.StepBack` | libgit2-development/src/delta.c:346-361 | afterwards no literal is pending and the text still encodes the target so far |
| `DeltaEncoder.EmitCopy` | libgit2-development/src/delta.c:346-388 | one copy of at most 64 KB, of as many pending literals as the base agrees with and then of the match; what is left of the match is still one |
| `DeltaEncoder.Grow` | libgit2-development/src/delta.c:399-411 | the buffer has room for the next round and never grows past its limit; a size that does not fit 32 bits is reported |
| `DeltaEncoder.RolledSlide` | libgit2-development/src/delta.c:307-308 | the rolling value stays the fingerprint of the last sixteen bytes, and the index into T is within the table |
| `DeltaEncoder.PutFirst` | libgit2-development/src/delta.c:294-300 | the first sixteen bytes become literals and prime the rolling value |
| `DeltaEncoder.Search` | libgit2-development/src/delta.c:305-330 | keeps the match a match and the rolling value a fingerprint; a match that is not long enough is exchanged for the first of the longest candidates in the bucket of the sixteen bytes, if that is longer |
| `DeltaEncoder.Round` | libgit2-development/src/delta.c:304-397 | every round keeps what holds at the loop head and strictly advances, net of stepping back; it writes a literal exactly if less than four bytes match |
| `DeltaEncoder.Finish` | libgit2-development/src/delta.c:414-423 | closing the last literals leaves a delta that means the target |
| `DeltaEncoder.Create` | libgit2-development/src/delta.c:249-424 | a returned delta means the target and keeps to the size limit; a target byte that ends sixteen bytes of a kept block, with three more that agree behind it, is copied and not a literal; none is returned only for an empty target or under a limit below twice the target's size plus 11; for a target that the base begins with a delta of headers and seven bytes for each 64 KB is returned under any limit that leaves room for it; 32 bits overflow only for huge targets and limits |
| `DeltaTurns.ThriftyMissesNone` | libgit2-development/src/delta.c:304-345 | if every literal was written for want of a match, then wherever the target repeats the base at a position the index leads to, the byte is copied |
| `DeltaTurns.FindsStart` | libgit2-development/src/delta.c:305-330 | after the first sixteen bytes of a target that the base begins with, the first block of the base is found and matches to the end |
| `DeltaTurns.SailsBound` | libgit2-development/src/delta.c:304-397 | from there on each round copies 64 KB, so that the text has at most seven bytes for each of them behind its headers |
| `DeltaRoundTrip.RoundTrip` | libgit2-development/src/delta.c:249-424 | for every base and target below 2^31 bytes, indexing, encoding and applying gives the target back; if neither is empty there is always a delta for targets up to 715 million bytes, without a limit or with one of twice the target's size plus 11; where the target repeats the first block of the base, or in a base of at most 1024 bytes any block that begins a run, with three bytes more, it is copied; and a target that the base begins with becomes its copies |
| `LineDiff.TrimCommonTail` | libgit2-development/src/blame_git.c:321-343 | cuts off the equal blocks at the end but for their first line |
| `LineDiff.CutIsCommon` | libgit2-development/src/blame_git.c:331-342 | what is cut off is equal in both files and begins a line in both |
| `LineDiff.OriginText` | libgit2-development/src/blame_git.c:302-356 | a line and the parent's line that the script and the common tail trace it to have the same text |
| `LineDiff.CountLines` | libgit2-development/src/blame.c:239-265 | counting newlines, and one for an unfinished last line, counts the lines |
| `LineDiff.LinesWhole` | libgit2-development/src/blame.c:239-265 | the lines of a text put together are the text, and each but the last ends in its only newline |
| `LineDiff.CutWhole` | libgit2-development/src/blame_git.c:321-343 | what is cut off is the longest equal tail of whole 1024-byte blocks, less its first line |
| `LineDiff.TracedMeans` | libgit2-development/src/blame_git.c:302-356 | which line of the parent a line is traced to: none if a change of the script brings it in, otherwise the one as far behind the change before it, and in the common tail the one at the same place there |
| `Scoreboard.SplitMoves` | libgit2-development/src/blame_git.c:119-156 | the up to three parts of a split say of each line what the chunk makes of it |
| `Scoreboard.SplitCovers` | libgit2-development/src/blame_git.c:119-156 | the parts are not empty and cover the group in order |
| `Scoreboard.SplitCost` | libgit2-development/src/blame_git.c:119-156 | a split lowers the sum over open lines of one plus the suspect's rank |
| `ScoreboardList.Board.AddEntry` | libgit2-development/src/blame_git.c:162-182 | a group is linked in before the first that does not start below it |
| `ScoreboardList.Board.SplitBlame` | libgit2-development/src/blame_git.c:189-243 | the parts take the place of the group in the list |
| `ScoreboardList.Board.BlameChunk` | libgit2-development/src/blame_git.c:281-300 | exactly the open lines of the target in the chunk go to the parent, the groups remain a partition, and less is open if anything changed |
| `ScoreboardList.Board.FindLastInTarget` | libgit2-development/src/blame_git.c:91-103 | one past the last open line of the target |
| `ScoreboardList.Board.PassWholeBlame` | libgit2-development/src/blame_git.c:464-479 | all lines of one suspect go to the other, settled ones too |
| `ScoreboardList.Board.TakeBlame` | libgit2-development/src/blame_git.c:602-610 | the suspect is guilty of what is left to it |
| `BlameRules.HandReads` | libgit2-development/src/blame_git.c:503-544 | handing a line on keeps its text |
| `BlameRules.ChooseStateless` | libgit2-development/src/blame_git.c:503-531 | the parents chosen do not depend on known paths if finding files does not |
| `BlameRules.RoundHeads` | libgit2-development/src/blame_git.c:481-610 | a round keeps every line on its way to its verdict, guilty lines included |
| `BlameRules.Unstopped` | libgit2-development/src/blame_git.c:491-497 | a line that should have stopped at the oldest commit comes to another verdict if the stop is gone |
| `BlameChoice.ChoiceRight` | libgit2-development/src/blame_git.c:503-531 | the first parent in which the file, as found there, has the same content is chosen for everything; if there is none, the files chosen give for each line what the first parent in order that has it gives |
| `BlameChoice.EarlierMeans` | libgit2-development/src/blame_git.c:503-544 | a line goes to the first parent with the same content with its number unchanged; if there is none, to the first parent in order that has the line, and stays if none has it |
| `BlameChoice.HandMeans` | libgit2-development/src/blame_git.c:503-557 | passing blame does that to every open line of the suspect, takes settled ones along where the content is the same, and leaves others alone |
| `BlameChoice.VerdictMeans` | libgit2-development/src/blame_git.c:481-612 | the verdict on a line is found by going on like that until the oldest commit, a commit without parents, or one none of whose parents has the line |
| `BlameTrack.RoundOnTrack` | libgit2-development/src/blame_git.c:585-612 | a round of the first open line keeps a search on track though the oldest commit may be replaced, as long as no line that goes back to a root comes before one that goes back to the oldest |
| `BlameTrack.RoundMisled` | libgit2-development/src/blame_git.c:494-497 | if the first line that goes back to a root comes before the first that goes back to the oldest commit, no round can put that right: each line behind it that should stop at the oldest heads past it |
| `BlameTrack.SomeRange` | libgit2-development/src/blame_git.c:494-497 | the condition is exact: where it fails, some range of the file's lines is blamed wrongly |
| `BlameTrack.ShelteredLines` | libgit2-development/src/blame_git.c:491-497 | it is met if no oldest commit is given, or if every way back comes to it before it ends |
| `BlameTrack.OneEnd` | libgit2-development/src/blame_git.c:585-615 | the line-by-line search has only one possible result |
| `Blame.Blamer.Emit` | libgit2-development/src/blame_git.c:302-319 | going through the script chunk by chunk does to each line what the script as a whole says |
| `Blame.Blamer.PassBlameToParent` | libgit2-development/src/blame_git.c:367-388 | exactly the open lines that the parent has go to it, to the line they are there |
| `Blame.Blamer.FindOrigins` | libgit2-development/src/blame_git.c:503-531 | the first parent whose file, as found, has the same content, whatever came before it; or the parents with other contents in order |
| `Blame.Blamer.PassBlame` | libgit2-development/src/blame_git.c:481-557 | each open line goes where the parents say: all of them to the first parent with the same content, or each to the first parent that has it; at the oldest commit nothing moves |
| `Blame.Blamer.Round` | libgit2-development/src/blame_git.c:585-612 | partition and texts are kept, less is open after the round, and each line is what the round makes of it |
| `Blame.Blamer.LikeGit` | libgit2-development/src/blame_git.c:585-615 | the search ends with every group guilty, the partition whole and every text kept; its lines are those of a search that treats each line by itself, for every history, renames included; without renames a search that is on track ends with the verdicts, and each misled line ends where it would if no oldest commit had been given |
| `Blame.BlameFile` | libgit2-development/src/blame.c:293-328 | the hunks partition the lines asked for, which are those from the first number to the last, or to the end of the file if the last is zero, each line reads in its commit as in the file, and the lines are those of a search that treats each line by itself; if files are found without regard to known paths, each line's commit is the one reached by following it from parent to parent up to the oldest commit, provided no line that goes back to a root comes before one that goes back to the oldest; behind a first such line, each line that should stop at the oldest ends where it would without one |
| `BlameExample.Misblamed` | libgit2-development/src/blame_git.c:494-497 | a history of four commits in which a line that should stop at commit 2, the oldest asked for, is blamed on commit 2's parent |
| `RenameMatch.ProposeInverse` | libgit2-development/src/diff_tform.c:902-921 | a write with its two evictions keeps both tables inverse to each other |
| `RenameMatch.ProposeGrows` | libgit2-development/src/diff_tform.c:902-921 | a write raises the worth of the matching, since it evicts only weaker pairs |
| `RenameMatch.StableUnique` | libgit2-development/src/diff_tform.c:902-944 | if no two pairs that share a source or a target have the same positive similarity there is only one stable matching |
| `RenameMatch.ScanTarget` | libgit2-development/src/diff_tform.c:883-937 | one target is measured against the sources up to the limits |
| `RenameMatch.FindBestMatches` | libgit2-development/src/diff_tform.c:862-944 | the restarts end for every similarity table; then the tables are inverse, every match is one of a source with another file as target at their similarity, and of any source and target that can be compared one has a match at least as similar as the other: for all of them if there are at most one more sources than the limit, otherwise for the first that many sources of each target; with copies each target has the most similar of these sources |
| `RenameMatch.MeasuredMeans` | libgit2-development/src/diff_tform.c:883-899 | the pairs measured are exactly the sources and targets at different positions that can be compared, up to one more than the limit for each target |
| `MinerProtocol.RunInv` | level1/src/level1.c:220-404 | the invariant of both threads, the mutexes and the remote holds in every state of every run, one shared access at a time, with pushes that are refused or reported as failed though accepted and fetches that do nothing |
| `MinerProtocol.HandedOverOnAccepted` | level1/src/level1.c:389-396 | a commit handed to the pusher always has a parent that the remote accepted |
| `MinerProtocol.PushedOidStable` | level1/src/level1.c:227-245 | the pusher always has a commit to push, and it is not overwritten during the push |
| `MinerProtocol.AcceptedPushExtends` | level1/src/level1.c:229-245 | an accepted push adds one commit on the remote's tip |
| `MinerProtocol.NoIdleFetch` | level1/src/level1.c:246-252 | the branch that would fetch between the two tests of the pointer is never taken |
| `MinerProtocol.NoDeadlock` | level1/src/level1.c:229-395 | never are both threads blocked, and a thread that is not blocked can step |
| `MinerProtocol.SpinEnds` | level1/src/level1.c:383-385 | while the miner waits for the pointer to clear, the pusher is never blocked, and once it has taken thirteen steps the pointer is clear, whatever else happens in between |
| `MinerProgress.CanLand` | level1/src/level1.c:220-404 | every run, whatever has happened in it, can be continued so that the remote takes another commit of this miner on its tip: by a push that fails, a fetch, a fresh start and a push that succeeds |
| `PQueue.RootIsMax` | libgit2-development/src/pqueue.c:86-98 | the root of a heap is its maximum |
| `PQueue.Insert` | libgit2-development/src/pqueue.c:71-140 | inserting keeps the heap and adds the element |
| `PQueue.Pop` | libgit2-development/src/pqueue.c:101-155 | popping takes out the maximum and keeps the heap |
| `Graph.OtherMarkArrives` | libgit2-development/src/graph.c:55-103 | when only stale commits wait, a commit of both sides that has one mark has the other |
| `Graph.MarkingEnds` | libgit2-development/src/graph.c:13-103 | after the early stop the commits of one side alone carry its mark only, and in ordered histories no commit of both sides carries one mark only |
| `Graph.MarkParents` | libgit2-development/src/graph.c:32-105 | the marking ends for any times and has that result |
| `Graph.CountsRight` | libgit2-development/src/graph.c:108-147 | the walk counts every commit of one side alone; the counts are right exactly if it comes to no marked commit of both sides |
| `Graph.AheadBehind` | libgit2-development/src/graph.c:108-147 | the counting ends for any marks, is never too small, and is right exactly under that condition |
| `GraphRuns.RanInv` | libgit2-development/src/graph.c:61-95 | in every round, for any times: what is marked waits or has been passed on, every mark came along commits that passed it on, and what is stale has a child that passed on both marks |
| `GraphShape.MissedExposed` | libgit2-development/src/graph.c:13-103 | whenever the marking is over and one side's mark has not come to a common commit at the edge of the other side, that commit is exposed |
| `GraphTimes.NeverComes` | libgit2-development/src/graph.c:61-95 | with the adverse times of an exposed commit, the mark never comes to it, however equal times are ordered |
| `GraphTimes.ExposedTraps` | libgit2-development/src/graph.c:61-95 | any history with an exposed commit can be given those times |
| `GraphCount.ShapeAgrees` | libgit2-development/src/graph.c:108-147 | a simpler condition that suffices for any times: each common commit at the edge of one side is the other commit or a parent of a commit of the other side alone |
| `GraphCount.NotExposedAgrees` | libgit2-development/src/graph.c:13-147 | the exact one suffices: where no commit is exposed the walk counts no commit of both sides |
| `GraphCount.TrapCounts` | libgit2-development/src/graph.c:13-147 | and it is needed: with adverse times the count is too large |
| `GraphCount.GraphAheadBehind` | libgit2-development/src/graph.c:149-178 | in every history the counts are at least the numbers of commits reachable from one side only; they are exactly that if times fall from child to parent, and for all times if the history meets the simpler condition, or has no cycle and no exposed commit; with adverse times of an exposed commit one of them is too large |
| `GraphSkew.Forced` | libgit2-development/src/graph.c:61-95 | in a history where one commit is newer than its child, the marking can go in one way only |
| `GraphSkew.SkewMisleads` | libgit2-development/src/graph.c:149-178 | and the code counts a common commit for one side |
| `GraphShortcut.ShapeNotNeeded` | libgit2-development/src/graph.c:13-147 | a history that fails the simpler condition and yet has no exposed commit |
| `Fnmatch.MatchRange` | libgit2-development/src/fnmatch.c:133-185 | a bracket expression is tested by its elements, with negation, ranges, escapes and case folding; what these are is stated by FnmatchWritten.ParseShown |
| `Fnmatch.MatchOne` | libgit2-development/src/fnmatch.c:43-128 | one token other than a star against one character |
| `Fnmatch.StarAtEnd` | libgit2-development/src/fnmatch.c:65-72 | the shortcut for a star that ends the pattern |
| `Fnmatch.StarBeforeSlash` | libgit2-development/src/fnmatch.c:73-77 | the shortcut for a star before a slash |
| `Fnmatch.MatchFrom` | libgit2-development/src/fnmatch.c:27-131 | accepts exactly what it should, and gives up only on patterns with at least as many runs of stars as its depth |
| `Fnmatch.AcceptsMeaning` | libgit2-development/src/fnmatch.c:54-90 | what is accepted is what the pattern means, for every pattern, if the text is reliable under the flags |
| `Fnmatch.Unreliable` | libgit2-development/src/fnmatch.c:83 | for every other text and flags some pattern is accepted that does not match |
| `Fnmatch.Match` | libgit2-development/src/fnmatch.c:187-191 | with fewer than 64 runs of stars there is always an answer, and it is the meaning of the pattern where that is reliable |
| `FnmatchWritten.ParseShown` | libgit2-development/src/fnmatch.c:27-185 | a printer of stars, question marks, plain and quoted characters and brackets, with either sign of negation, single characters, ranges, quoted ends and a closing bracket in first place: every pattern it can write is read as what it stands for |
| `FnmatchWritten.OpenBracket` | libgit2-development/src/fnmatch.c:101-104 | a bracket that is never closed stands for itself, if no slash stops the reading in path names |
| `FnmatchWritten.SlashInSet` | libgit2-development/src/fnmatch.c:159-165 | in path names a slash among the elements of a bracket makes it match nothing, whatever comes before the slash |
| `FnmatchWritten.MatchShown` | libgit2-development/src/fnmatch.c:187-191 | what the matcher answers for a written pattern is what its pieces mean, on reliable texts |
| `FnmatchWritten.MatchQuestion` | libgit2-development/src/fnmatch.c:43-53 | a question mark takes one character, but no slash in path names and no leading period |
| `FnmatchWritten.MatchAllBut` | libgit2-development/src/fnmatch.c:133-185 | `[!c]` and `[^c]` take exactly the one-character texts other than `c`, slashes and leading periods apart, and with case folding those of neither case |
| `FnmatchWritten.MatchBetween` | libgit2-development/src/fnmatch.c:133-185 | `[c-d]` takes exactly those from `c` to `d`, and with case folding those whose lower case lies between the lower cases of the ends |
| `FnmatchWritten.MatchPlain` | libgit2-development/src/fnmatch.c:111-128 | a pattern of plain characters takes exactly the text that is spelled like it, up to case if it is folded |
| `FnmatchWritten.MatchStar` | libgit2-development/src/fnmatch.c:54-72 | a star takes every text without a leading period, and in path names only those without a slash |
| `FnmatchWritten.LeadingDirMeans` | libgit2-development/src/fnmatch.c:39-41 | with `FNM_LEADING_DIR` a pattern is accepted exactly if without it the whole text or a part of it before a slash is |
| `ConfigText.EscapeValue` | libgit2-development/src/config_file.c:1402-1436 | the escaped value |
| `ConfigText.FixupLine` | libgit2-development/src/config_file.c:1438-1475 | quotes and escapes are taken out, an unknown escape is an error |
| `ConfigText.FixupEscape` | libgit2-development/src/config_file.c:1402-1475 | unescaping undoes escaping, whatever follows |
| `ConfigText.EscapesRead` | libgit2-development/src/config_file.c:1402-1475 | a backslash stands for newline before n, for tab before t, for backspace before b and for what follows it if that is a quote or a backslash; before anything else it is an error |
| `ConfigText.QuotesForValue` | libgit2-development/src/config_file.c:1172-1188 | quotes for texts that are empty, start or end with a space, or hold a comment character |
| `ConfigReader.StripComments` | libgit2-development/src/config_file.c:978-1000 | the line up to a comment outside quotes, and the quotes counted |
| `ConfigReader.IsMultiline` | libgit2-development/src/config_file.c:1477-1488 | an odd number of backslashes at the end, and something before them |
| `ConfigReader.Reader.ReadLine` | libgit2-development/src/config_file.c:716-757 | the next line without spaces at its ends, and what is left to read |
| `ConfigReader.Reader.ParseMultilineVariable` | libgit2-development/src/config_file.c:1490-1540 | reading on, past comments, as long as the value goes on; errors and a failed assertion told apart |
| `ConfigReader.Reader.ParseVariable` | libgit2-development/src/config_file.c:1542-1605 | the name and value that the next line means, together with the lines on which the value goes on |
| `ConfigReader.Reader.ParseSectionHeaderExt` | libgit2-development/src/config_file.c:788-856 | the subsection in the quotes, with each backslash standing for what follows it |
| `ConfigReader.Reader.ParseSectionHeader` | libgit2-development/src/config_file.c:858-923 | the section that the next line opens |
| `ConfigReader.Reader.ParseConfig` | libgit2-development/src/config_file.c:1011-1140 | the settings of a whole file, in order |
| `ConfigContinued.BrokenValue` | libgit2-development/src/config_file.c:1490-1605 | a value written over several lines is read as its pieces put together if and only if neither the value nor any part of it up to a break ends in an odd number of backslashes, the first piece is not only backslashes, and the last line is not empty |
| `ConfigContinued.BreakAborts` | libgit2-development/src/config_file.c:1516-1519 | a value broken after a backslash makes the assertion fail |
| `ConfigRoundTrip.EscapeEven` | libgit2-development/src/config_file.c:1477-1488 | an escaped value is never taken for one that continues on the next line |
| `ConfigRoundTrip.ScanQuoted` | libgit2-development/src/config_file.c:978-1000 | nothing inside a quoted value is taken for a comment |
| `ConfigRoundTrip.VariableRoundTrip` | libgit2-development/src/config_file.c:1313-1316 | a written variable is read back with its name, and with its value but for unquoted space characters at the ends |
| `ConfigRoundTrip.QuotedValues` | libgit2-development/src/config_file.c:1172-1188 | a value is put in quotes exactly if it is empty, has a space at an end or a comment character in it |
| `ConfigRoundTrip.ValueSurvives` | libgit2-development/src/config_file.c:1172-1188 | a value survives if and only if it is empty, has a space at an end or a comment character in it, or has no carriage return, vertical tab or form feed at an end |
| `ConfigRoundTrip.ValueLost` | libgit2-development/src/config_file.c:1172-1188 | a value with a carriage return in front comes back without it |
| `ConfigRoundTrip.HeaderRoundTrip` | libgit2-development/src/config_file.c:1142-1170 | a written header is read back as its section, with flattened escapes |
| `ConfigRoundTrip.HeaderSurvives` | libgit2-development/src/config_file.c:788-923 | a section name survives if and only if the section is in lower case and the subsection has no newline, tab or backspace |
| `ConfigRoundTrip.HeadersLost` | libgit2-development/src/config_file.c:788-923 | a capital letter in a section and a tab in a subsection do not come back |
| `ConfigRoundTrip.FileRoundTrip` | libgit2-development/src/config_file.c:1011-1140 | every file written from sections and variables is read back as their settings |
| `ConfigRoundTrip.WriteAndRead` | libgit2-development/src/config_file.c:1142-1316 | writing headers and variables and parsing the result gives the settings written, in order |
| `ConfigComments.NotedVariable` | libgit2-development/src/config_file.c:978-1000 | a written variable with a comment after its value is read as without it if and only if not more than one space comes before the comment, spaces at the end of an unquoted value included, and the value is not one in quotes that ends in a backslash |
| `ConfigComments.CommentRead` | libgit2-development/src/config_file.c:985-987 | a quoted value that ends in a backslash is read together with its comment |
| `ConfigComments.SpaceRead` | libgit2-development/src/config_file.c:995-998 | of two spaces before a comment one becomes part of the value |
| `ConfigComments.NotedPlain` | libgit2-development/src/config_file.c:1313-1316 | without a comment the line is the one that is written |
| `ConfigComments.CommentsMeanNothing` | libgit2-development/src/config_file.c:1011-1140 | a file to which comments have been added, on lines of their own anywhere and such ones after values, has the settings it had |
| `TreeDiff.FromIterators` | libgit2-development/src/diff.c:1041-1116 | for each path the list has exactly the records due to what the trees have there, and it is in path order; the statuses follow from the trees: added where only the new one has the path, deleted where only the old one has it, otherwise modified, unmodified or changed in type, with the trees changing places in a reversed difference |
| `TreeDiff.TellsAll` | libgit2-development/src/diff.c:40-179 | the list has exactly the records that tell of the two trees, and each of them once |
| `TreeDiff.Patch` | libgit2-development/src/diff.c:77-179 | the old sides are exactly the files only the old tree has and the new sides those only the new one has, so the records turn the one into the other |
| `TreeDiff.Reversed` | libgit2-development/src/diff.c:40-179 | a reversed difference has the same records as that of the swapped trees |
| `BufText.CrlfToLf` | libgit2-development/src/buf_text.c:63-105 | carriage returns before newlines are dropped, all others kept |
| `BufText.LfToCrlf` | libgit2-development/src/buf_text.c:107-143 | newlines get a carriage return unless they have one |
| `BufText.ExpandContract` | libgit2-development/src/buf_text.c:63-143 | contracting an expanded text is contracting the text |
| `BufText.ThereAndBack` | libgit2-development/src/buf_text.c:63-143 | contracting undoes expanding for text without carriage returns |
| `BufText.LinesConverted` | libgit2-development/src/buf_text.c:63-143 | lines that end in newlines become the same lines with a carriage return before each newline, and back |
| `BufText.OrdinaryText` | libgit2-development/src/buf_text.c:175-302 | printable ASCII and blanks are text for both guesses |
| `BufText.NulBinary` | libgit2-development/src/buf_text.c:175-302 | a zero byte makes any content binary for both |
| `BufText.OneIn128` | libgit2-development/src/buf_text.c:175-302 | of control characters one for each 128 letters is still text for both, and one more is not |
| `BufText.IsBinary` | libgit2-development/src/buf_text.c:175-198 | the quick guess, with the byte order mark skipped |
| `BufText.GatherStats` | libgit2-development/src/buf_text.c:255-302 | the counts and the closer guess, without an end-of-file character |
| `BufText.MixedExpanded` | libgit2-development/src/buf_text.c:255-302 | expanding newlines changes neither the closer guess nor the number of carriage returns that stand alone |
| `BufText.TextStaysText` | libgit2-development/src/buf_text.c:175-302 | what the quick guess takes for text the closer look takes for text after expansion, with all carriage returns paired |
| `Filters.CleanSmudge` | libgit2-development/src/crlf.c:120-239 | content without carriage returns comes back from the working directory unchanged, for all settings |
| `Filters.SurvivesExactly` | libgit2-development/src/crlf.c:120-239 | any content comes back unchanged if and only if it survives, a condition on the content and the settings alone: it has no carriage return; or it has no pair of carriage return and newline, or only such pairs, or is taken for binary, depending on the settings |
| `Filters.PairLost` | libgit2-development/src/crlf.c:120-239 | a line that ends in both comes back without its carriage return from a file that is said to be text |
| `Filters.CheckOutAndIn` | libgit2-development/src/crlf.c:28-307 | for each value of `text`, `crlf`, `eol` and `core.autocrlf` and for both native line endings, which of the content, its expansion and its contraction the file becomes, and exactly when the content comes back from it |
| `Filters.ApplyToData` | libgit2-development/src/filter.c:573-631 | two alternating buffers compute the composition of the filters that do not pass, forwards or backwards |
| `Filters.ListRoundTrip` | libgit2-development/src/filter.c:573-631 | a list of filters that undo each other, run forwards and then backwards, gives the content back |
| `Cache.NextTaken` | libgit2-development/src/cache.c:126-137 | going round the buckets from any seed, with 32-bit wrap-around, ends at the first one that is taken |
| `Cache.Caches.Clear` | libgit2-development/src/cache.c:79-93 | a cache is emptied and its references and memory are given up |
| `Cache.Caches.EvictEntries` | libgit2-development/src/cache.c:114-142 | eight objects are dropped, or all if there are fewer, and the accounts still balance |
| `Cache.Caches.Get` | libgit2-development/src/cache.c:150-172 | an object of the id and kind asked for, or none if there is none, and the caller's reference is counted |
| `Cache.Caches.Store` | libgit2-development/src/cache.c:174-232 | the caller gets an object of the same id and kind, the accounts balance, and unless it is too large or caching is off the cache has the id if the table can be had: an object of the same kind that it had already is the one handed out, a raw one gives way to a parsed one, and a parsed one stays |
| `Cache.Caches.Release` | libgit2-development/src/cache.c:261-280 | one reference less |
| `Cache.HeldIsAlive` | libgit2-development/src/cache.c:261-280 | an object in a cache or in someone's hands has a reference, so it has not been freed |
| `Cache.Perform` | libgit2-development/src/cache.c:78-280 | any sequence of calls on any caches keeps memory, storage counter and references balanced, whatever the hash tables do call by call, and what callers hold is what they got less what they gave back |
| `Cache.NothingLeft` | libgit2-development/src/cache.c:78-93 | when all is given back and all caches are empty, no reference and no memory is left |
| `Cache.PutFirstPlaces` | libgit2-development/src/cache.c:198-209 | a simple table that doubles when it is full is one the model admits |
| `Cache.StoreOne` | libgit2-development/src/cache.c:174-232 | with it, an object that may be stored is stored |
| `Attr.NameHash` | libgit2-development/src/attr_file.c:176-184 | the 32-bit hash of a name |
| `Attr.ReadName` | libgit2-development/src/attr_file.c:533-539 | the hash computed while a name is read is the hash of the name |
| `Attr.InsertSorted` | libgit2-development/src/attr_file.c:460-491 | inserting keeps the assignments sorted and free of duplicates |
| `Attr.InsertLookup` | libgit2-development/src/attr_file.c:483-491 | an insertion changes the value of its own name only |
| `Attr.Parse` | libgit2-development/src/attr_file.c:493-590 | a line becomes a sorted vector in which each name has its last value on the line, macros included |
| `Attr.ParseShown` | libgit2-development/src/attr_file.c:493-590 | a line that is written out, with or without a comment after it, is read back: a name alone is true, after a minus false, after an exclamation mark unset, and before an equals sign the text behind it; what the line says last of a name is its value |
| `Attr.BinarySearch` | libgit2-development/src/attr.c:67-71 | a search by hash and name finds an assignment exactly if there is one |
| `Attr.NextRule` | libgit2-development/src/attr.c:63-65 | the two nested loops go through the matching rules of each file from the bottom up |
| `Attr.Get` | libgit2-development/src/attr.c:37-81 | the value in the rule that decides: it matches and has the name, no rule below it in its file does, nor any rule in a file before it; none if no rule does |
| `Attr.GetMany` | libgit2-development/src/attr.c:89-153 | for each name the value that asking for it alone gives, despite the early end |
| `Attr.Foreach` | libgit2-development/src/attr.c:156-209 | each name once, with the value that asking for it gives |
| `Filebuf.Filebuf.FlushBuffer` | libgit2-development/src/filebuf.c:132-137 | the buffer goes to the file and is empty afterwards in any case |
| `Filebuf.Filebuf.Write` | libgit2-development/src/filebuf.c:360-385 | data of any length is appended, buffered or not; after a failure nothing is |
| `Filebuf.Filebuf.Reserve` | libgit2-development/src/filebuf.c:387-409 | room in the buffer, failure for more than it can ever hold, and trouble exactly if there is no buffer |
| `Filebuf.Filebuf.Printf` | libgit2-development/src/filebuf.c:411-464 | formatted text is appended whether it fits the buffer or not, with trouble exactly if there is no buffer |
| `Filebuf.Filebuf.Commit` | libgit2-development/src/filebuf.c:319-352 | succeeds only if nothing ever failed, and then the file holds all that was appended |
| `Filebuf.WriteAll` | libgit2-development/src/filebuf.c:319-464 | over any calls on any file, a successful commit means that every call succeeded and the file is their data in order; after one failed call all later ones fail; a call finds no buffer exactly if the file is unbuffered, all went well before and the call needs one; on a disk without faults a commit succeeds exactly if all calls are proper |

## Left out

- Delta streams whose operands run past the end are failures here; the source reads on and rejects them at the end of the stream.
- Copy offsets with the top bit set, and size headers longer than five bytes, are refused here; the source shifts them into the sign of an `int` or out of it.
- DeltaEncoder.Create: a buffer size that overflows 32 bits is only reported, because the source then runs on with a wrapped size. Under a limit it gives up when what is written so far is longer, pending literals included; it is not stated that no delta within the limit exists.
- Allocation failures, error messages and string pools everywhere.
- Blame.Blamer.LikeGit: where known paths matter for finding files, the result is stated as that of the line-by-line search only, because found renames widen the paths searched for from then on.
- Blame.BlameFile: the same; and so is the result for lines behind a root line if others before it already go back to the oldest commit.
- `coalesce` in `blame_git.c`, which is never reached, the reference counts of origins, and blaming a buffer.
- The scoring of similarity and the rewriting of records after rename matching.
- Interrupts, failing thread creation and weak memory in the miner; the hashing itself.
- Errors while commits are parsed for ahead and behind.
- ConfigReader.Reader.ParseConfig: includes are not followed, and a variable before any header is an error here, where the source prints a null section name.
- Bytes outside ASCII in configuration files, where the signedness of `char` decides what a space is; byte order marks and rewriting an existing file.
- Working-directory and index differences, path specifications, callbacks and the records for files that become trees.
- Failing mutexes in the cache, and the inside of its hash table, of which only what putting an object in does to its contents is assumed.
- Parsing of attribute patterns and the matching of rules.
- Compressed and hashed files, locks and renames of `filebuf.c`.
- Everything that talks to disks, networks, clocks or the command line, and the levels other than level 1.
