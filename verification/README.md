# Verified models of the Seventh Edition port

A Dafny model of the code in this repository that carries the hardest
properties, and proofs of them. Each model takes the form of its source: code
that changes arrays, lists and fields in place is modelled by methods and
classes, proved against functions and predicates on values; kernel protocols
are systems of atomic steps, one for each stretch between sleeps, and the code
of each stretch is proved to be its step.

| part | files |
|---|---|
| diff | `DiffSpec`, `DiffStone`, `DiffClasses`, `DiffMatch`, `DiffOutput`, `DiffEd`, `Diff` |
| file system: free list, block trees, read and write | `FsTree`, `FsGraft`, `FsStore`, `FsAttach`, `Fs`, `FsBlocks`, `FsPaths`, `FsFile`, `FsIo` |
| buffer cache | `Bio`, `BioPool` |
| page tables | `PageTables`, `PageBuild` |
| resource maps | `ResourceMap` |
| page maps and images | `Images`, `ImageIo`, `ImageSwap`, `ImageSpace` |
| pipes | `Pipe`, `PipeIo` |
| callouts | `Callout` |
| character lists | `Clist`, `ClistIo` |
| fgrep | `FgrepSpec`, `FgrepTable`, `FgrepBuild`, `FgrepFail`, `Fgrep`, `FgrepLines` |
| grep | `GrepMatch`, `GrepCompile`, `GrepNotation` |
| sort | `Qsort` |
| crypt | `Crypt` |
| ed | `EdStore` |

`Sets` has two facts about finite sets. `dafny verify dfyconfig.toml` checks
the whole project. Integers are unbounded except where the width of the
source's integers matters (`Crypt`, `Diff.ReadHash`, `FsIo`).

## Where the code does less than it might

The code is modelled as it is. Where it does not do what its comments or its
manual suggest for every input, there is a proof of exactly when it does.

- `writei` tests only for a negative block number from `bmap`, which returns 0
  with EFBIG past the last possible block: the bytes go to the buffer of block
  0 and i_size grows over them. After any sequence of writes a file reads back
  up to i_size if and only if no write was to go past that block that had enough
  free blocks before it; how many it needs and how many are free follow from the
  writes before it and the blocks that no other file has (`FsIo.ReadsBackIff`,
  over the runs of `FsIo.Replay`; `FsIo.OnePast` is one such write).
- `timeout` with NCALL-1 callouts pending panics only if the new one comes
  last; otherwise it moves the end of the list past the array
  (`Callout.Callouts.Timeout` has the exact conditions, and `Callout.Run` says
  for which runs it does not come to that).
- `brelse` releases what it is given. `writei` releases the buffer that it has
  filled, without a write, when u_error is set by then (rdwri.c:121-122), as it
  is past the last possible block. The cache agrees with the plain disk in
  every run, but for a block of which a changed buffer was released and which
  has not been written since (`Bio.RunInv`, `Bio.CacheIsDisk`); `Bio.BadRelease`
  is a run with one such release. `FsIo` takes the bytes that go to block 0 in
  this way as written, as they are for who gets the buffer next.
- `upage` takes a map number of 0 for a range that names its own pages, so a
  range of text, data or stack of more than one page without a map would be
  mapped to low page numbers (`PageBuild.MeantIff`).
- `cgotofn` does not mark a last keyword without a newline that is the start of
  an earlier one (`FgrepBuild.AllMarked`), and an empty keyword is only noticed
  when the root of the table has one node, that is, when the other keywords
  begin with the same character (`Fgrep.SoloIff`). `Fgrep.RightIff` has the
  keyword lists for which `fgrep` selects what it is asked for, and
  `Fgrep.Missed` and `Fgrep.LostKeyword` texts on which it does not.
- A `grep` class takes its members modulo 128, so one with the character 0200,
  not complemented, matches the NUL at the end of a line, and the matcher leaves
  the line: never without such a class (`GrepCompile.WfIff`), and on a line in
  which the pattern is not found exactly when a beginning of it matches up to the
  end of the line and such a class is next (`GrepMatch.Search`);
  `GrepCompile.NulMatched` is one.
- The text of a command of `diff -e` ends at a line that is a dot alone, also
  when that line is one of the new file (`DiffEd.HeardIff`, `DiffEd.LostDot`).
- In a `grep` class an inverted range is its first character
  (`GrepCompile.FillRange`).
- `putw` gives up when no block is free, even where the last block of the queue
  has room (`ClistIo.Clists.Putw`).

## Model

| member | source | states |
|---|---|---|
| DiffStone.Candidates.Stone | usr/src/cmd/diff.c:365-402 | for all class lists the candidates end optimal: klist[r] ends a common subsequence of r lines, found along its pred links, at the least line of file 1 possible, for r up to the greatest length |
| DiffStone.Candidates.Round | usr/src/cmd/diff.c:374-400 | the body of the loop for one line of file 0 takes candidates that are optimal for the lines before it to candidates that are optimal with it |
| DiffStone.Candidates.Try | usr/src/cmd/diff.c:381-399 | one mate of a line: whether it is skipped, replaces an end or makes the list longer, the ends stay the least reachable with the mates tried so far |
| DiffStone.Candidates.Search | usr/src/cmd/diff.c:416-435 | the binary search returns the first end at or above y, or one past the last |
| DiffStone.Candidates.NewCand | usr/src/cmd/diff.c:404-414 | the new candidate is added with its predecessor and all earlier candidates stay |
| DiffStone.BestIsLeast | usr/src/cmd/diff.c:365-402 | the recursive account of least ends is the least end over all common subsequences |
| DiffStone.AfterStep | usr/src/cmd/diff.c:384-398 | a mate between two ends moves exactly the upper one |
| DiffStone.MidwayReplace | usr/src/cmd/diff.c:387-393 | replacing an end with the candidate saved for the shorter length keeps every chain increasing in both files |
| DiffStone.MidwayKeep | usr/src/cmd/diff.c:382-389 | a mate not below the end it falls on changes nothing |
| DiffStone.MidwayLonger | usr/src/cmd/diff.c:394-398 | a mate above all ends makes a subsequence one longer, and later mates of the line cannot |
| DiffStone.MidwayDone | usr/src/cmd/diff.c:374-400 | when all mates were tried the candidates are optimal for one line more |
| DiffStone.OptimalIsLongest | usr/src/cmd/diff.c:365-402 | optimal candidates are common subsequences, none of a length ends earlier, and none is longer than the last |
| DiffSpec.PaddedIsLongest | usr/src/cmd/diff.c:251-267 | putting a pruned common prefix and suffix back round a longest match of the middles gives a longest match |
| DiffSpec.DropPrefix | usr/src/cmd/diff.c:251-267 | taking first lines off both files loses at most as many pairs |
| DiffSpec.DropSuffix | usr/src/cmd/diff.c:251-267 | taking last lines off both files loses at most as many pairs |
| DiffClasses.Sort | usr/src/cmd/diff.c:152-183 | Shell's method leaves the lines in order of value and number, a rearrangement of what they were |
| DiffClasses.Sink | usr/src/cmd/diff.c:165-180 | the innermost loop rearranges, and with gap 1 inserts into a sorted prefix |
| DiffClasses.Classify | usr/src/cmd/diff.c:273-283 | each line of file 0 gets the index of the first line of its class in file 1, or 0 if it has none |
| DiffClasses.Squeeze | usr/src/cmd/diff.c:284-293 | member lists each class of file 1 with its first entry negated |
| DiffClasses.Unsort | usr/src/cmd/diff.c:185-196 | the classes go back to the order of the lines of file 0 |
| DiffClasses.RearrangedTags | usr/src/cmd/diff.c:152-196 | any rearrangement of numbered lines holds every line once |
| DiffClasses.ClassIsMates | usr/src/cmd/diff.c:269-294 | a class holds exactly the lines of file 1 with its value |
| DiffClasses.ClassIsListed | usr/src/cmd/diff.c:284-293 | what member lists from a class index on is the class |
| DiffClasses.SubIsCommon | usr/src/cmd/diff.c:365-402 | the subsequences that stone looks for are the common subsequences |
| DiffMatch.Prune | usr/src/cmd/diff.c:251-267 | the prefix and the suffix are common, do not overlap, and neither can be longer |
| DiffMatch.Classes | usr/src/cmd/diff.c:269-294 | equiv and unsort give every line its mates, in increasing order |
| DiffMatch.Unravel | usr/src/cmd/diff.c:437-448 | the pairs along the pred links are put into J, between the pruned prefix and suffix, and nothing else |
| DiffMatch.Middle | usr/src/cmd/diff.c:335-348 | sort, equiv, unsort and stone give a longest match of the pruned files |
| DiffMatch.Match | usr/src/cmd/diff.c:334-353 | from prune to unravel, J records a longest common subsequence of the line values |
| DiffMatch.StoneIsLongest | usr/src/cmd/diff.c:365-402 | a longest subsequence over class lists is a longest common subsequence of the values |
| DiffOutput.OutputForward | usr/src/cmd/diff.c:527-557 | for every J that increases and pairs equal lines, the changes in order turn the old lines into the new, and touch exactly the old lines that J does not pair; none when the files agree |
| DiffOutput.OutputEd | usr/src/cmd/diff.c:546-556 | the -e commands, each applied to the buffer at the time, leave exactly the new lines, and touch exactly the old lines that J does not pair; none when the files agree |
| DiffOutput.ReadyChange | usr/src/cmd/diff.c:538-545 | unmatched lines up to the next match make one change, and the script so far accounts for both files up to there |
| DiffOutput.EdReadyChange | usr/src/cmd/diff.c:546-554 | the same from the end backwards, with line numbers of the buffer |
| DiffEd.HeardIff | usr/src/cmd/diff.c:559-579 | an editor that reads the text of a command up to the first line that is a dot takes every command of the printed script with its whole text, exactly when no new line of the changes is a dot alone |
| DiffEd.LostDot | usr/src/cmd/diff.c:576-578 | for a file of one line, a dot, against an empty one, the line is not taken |
| DiffEd.OrderDoes | usr/src/cmd/diff.c:559-579 | the command printed for a change does what the change says |
| DiffOutput.EditEmpty | usr/src/cmd/diff.c:562-562 | a change that change() does not print would change nothing |
| Diff.ReadHash | usr/src/cmd/diff.c:609-646 | the value of a complete line, and 0 when no newline follows |
| Diff.FoldNonZero | usr/src/cmd/diff.c:644-645 | no complete line has the value 0, on which the ends of files and classes rely |
| Diff.HashIs | usr/src/cmd/diff.c:609-646 | the value of a line is the sum, from 1 on and in 32 bits, of its bytes shifted by 0, 7, 14, 5 and so on, taken modulo 65535, with a sign |
| Diff.Prepare | usr/src/cmd/diff.c:232-249 | one value for each line of a file and none for what follows its last newline |
| Diff.Check | usr/src/cmd/diff.c:455-517 | check parts the mates whose lines differ and keeps all others, whatever values collided; the entries of J increase and pair equal lines; files that agree keep all their mates |
| Diff.SameIsDiagonal | usr/src/cmd/diff.c:365-402 | a longest match of a file with itself mates every line with itself |
| Diff.FewestTouched | usr/src/cmd/diff.c:455-557 | if no two different lines have the same value, the lines kept after a longest match of the values are at least as many as any increasing pairing of equal lines has |
| Diff.TouchedMates | usr/src/cmd/diff.c:455-557 | the old lines left untouched are those of the pairs of the match whose lines agree |
| Diff.Compare | usr/src/cmd/diff.c:296-363 | for all pairs of files the changes or editor commands turn the old lines into the new, and there are none exactly when the lines agree; the old lines that no change touches are exactly those of the pairs of a longest match whose lines agree; if no two different lines have the same value, no increasing pairing of equal lines is larger than the number of old lines left untouched; the -e script is read as it is meant exactly when no new line in it is a dot alone |
| Fs.FileSystem.Alloc | usr/sys/sys/alloc.c:26-71 | a cleared block that was on the free list once and is in no tree, or 0 with ENOSPC exactly when none is left; no other block changes hands |
| Fs.FileSystem.Free | usr/sys/sys/alloc.c:78-108 | a held block goes to the chained list, in memory or by writing a full group to the block; a number outside the data area is ignored |
| FsStore.TakeLast | usr/sys/sys/alloc.c:43-46 | taking an entry of the first group keeps every block in exactly one place |
| FsStore.TakeHead | usr/sys/sys/alloc.c:47-60 | reading the next group from the last block of a group and taking that block keeps every block in exactly one place |
| FsStore.GiveLast | usr/sys/sys/alloc.c:106-106 | adding an entry to the first group keeps every block in exactly one place |
| FsStore.GiveHead | usr/sys/sys/alloc.c:94-106 | writing the full group to the block given back keeps every block in exactly one place |
| FsStore.GiveEnd | usr/sys/sys/alloc.c:90-93 | an empty list first gets its end mark |
| FsStore.ListEnds | usr/sys/sys/alloc.c:37-45 | a list with only its end mark has no block |
| Fs.FileSystem.Itrunc | usr/sys/sys/iget.c:203-239 | every block of the file is on the free list again, the file is empty, and no other file changes; the free blocks are those that no other file had |
| Fs.FileSystem.DropAddress | usr/sys/sys/iget.c:215-235 | the tree of one address is taken out of the file and freed whole |
| Fs.FileSystem.Tloop | usr/sys/sys/iget.c:241-272 | all blocks under an indirect block and the block itself are freed, once each |
| Fs.FileSystem.Release | usr/sys/sys/iget.c:219-235 | a data block or a tree of any depth is freed whole |
| FsFile.Bmap | usr/sys/sys/subr.c:17-118 | for a read, the block that the addresses and entries have at the place of bn, or -1; for a write, a block there, the one that there is or one made with its indirect blocks; block bn is at address bn below 10, and otherwise 10 + p, 138 + 128 p + q or 16522 + 16384 p + 128 q + r under addresses 10, 11 and 12; no logical block of any file changes its bytes, and none but bn its place; a write ends in ENOSPC exactly when fewer blocks are free than are missing on the path, and otherwise takes exactly the missing ones; EFBIG holds exactly past the last block |
| FsBlocks.PhysicalIs | usr/sys/sys/subr.c:33-117 | the block found is the one at the place of bn, by address and entries |
| FsBlocks.PlaceExists | usr/sys/sys/subr.c:58-91 | every block below 10+128+128^2+128^3 has one of these places |
| FsFile.MapBlock | usr/sys/sys/subr.c:73-118 | the same from the address in the inode on |
| FsFile.StepDown | usr/sys/sys/subr.c:93-117 | one level of indirection: the next block, made for a write if there is none |
| FsBlocks.LackSize | usr/sys/sys/subr.c:73-118 | the blocks missing on a path are those from where it comes to an end |
| FsFile.Levels | usr/sys/sys/subr.c:58-71 | the number of levels of indirection of a block, or none past 10+128+128^2+128^3 |
| FsFile.Descend | usr/sys/sys/subr.c:89-117 | the walk through the indirect blocks reaches the block, filling empty entries only for a write |
| FsFile.GrowRoot | usr/sys/sys/subr.c:76-84 | a new block in an empty address of the inode |
| FsFile.GrowNode | usr/sys/sys/subr.c:99-107 | a new block in an empty entry of an indirect block |
| FsPaths.PathsNode | usr/sys/sys/subr.c:99-107 | a new block in an entry changes where one path leads, among all paths of all files |
| FsPaths.PathsRoot | usr/sys/sys/subr.c:76-84 | so does one in an address |
| FsPaths.PathsData | usr/sys/sys/subr.c:89-117 | a write to a data block changes where no path leads |
| FsBlocks.LocateInjective | usr/sys/sys/subr.c:33-117 | different logical numbers below 10+128+128^2+128^3 have different paths |
| FsGraft.GraftTree | usr/sys/sys/subr.c:99-107 | filling an empty entry adds exactly the new block to the tree |
| FsGraft.GraftWalk | usr/sys/sys/subr.c:99-107 | and changes where that one path leads and no other |
| FsGraft.GraftTyped | usr/sys/sys/subr.c:99-107 | and every block still holds what the tree expects of it |
| FsGraft.LeafUnique | usr/sys/sys/subr.c:33-117 | different paths lead to different data blocks |
| FsTree.Frame | usr/sys/sys/subr.c:33-117 | a tree depends on its own blocks only |
| FsAttach.AttachRoot | usr/sys/sys/subr.c:39-46 | a block held after alloc goes into an address of an inode, and every block is in one place still |
| FsAttach.AttachNode | usr/sys/sys/subr.c:99-107 | the same for an entry of an indirect block |
| FsIo.Writei | usr/sys/sys/rdwri.c:84-131 | the bytes are written and i_size grows to their end; the call ends in ENOSPC exactly when fewer blocks are free than are missing on the ways to all its blocks, and then has written what goes before the first that there is none for; past the largest file the count goes on with EFBIG for one chunk and nothing is stored; no logical block outside the range written moves |
| FsBlocks.StopIff | usr/sys/sys/rdwri.c:107-130 | writing block after block runs out of space exactly when fewer blocks are free than are missing in all |
| FsIo.WriteChunk | usr/sys/sys/rdwri.c:107-130 | one block of a write changes its bytes of that block and nothing else in any file, and no other block moves; past the largest file the bytes go over block 0 and nothing else changes |
| FsIo.Readi | usr/sys/sys/rdwri.c:19-72 | the bytes of the file from the offset on, zeros for holes, up to i_size or the largest file |
| FsIo.ReadBlock | usr/sys/sys/rdwri.c:59-65 | a hole reads as zeros |
| FsIo.ReadsBackIff | usr/sys/sys/rdwri.c:19-131 | after any sequence of writes, failed ones included, the file reads back up to i_size exactly when no write was to go past the largest file that found enough free blocks, where the blocks that it needs and that are free before it follow from the writes before it and the blocks no other file has |
| FsIo.OnePast | usr/sys/sys/rdwri.c:107-130 | one byte written there to an empty file gives EFBIG, is counted in i_size, and cannot be read |
| FsIo.Replay | usr/sys/sys/rdwri.c:19-131 | after any sequence of writes to a truncated file, whether they succeed or not, a read returns the last byte written at each place, or zero, up to i_size or the largest file; how each call ends and what it has written follow from the writes and the number of blocks that no other file has |
| FsIo.ByteIs | usr/sys/sys/rdwri.c:57-65 | the byte of a file at an offset is byte off mod 512 of the block at the place of off / 512, or 0 in a hole |
| FsIo.SizeIsFurthest | usr/sys/sys/rdwri.c:126-127 | the size after a sequence of writes is the furthest end of one |
| FsIo.WrittenMore | usr/sys/sys/rdwri.c:107-130 | a chunk after a part of a write is a longer part of it |
| FsAttach.WriteSeen | usr/sys/sys/rdwri.c:117-125 | a write to a data block is seen at one place of one file |
| Bio.StepInv | usr/sys/dev/bio.c:60-383 | every step of getblk, bread, bwrite, bdwrite, bawrite, brelse, bflush and iodone keeps: one buffer for a block, the available list and the busy flags in agreement, and data in agreement with the plain disk, which only writes change, for every block but those of which a changed buffer was released and which were not written since |
| Bio.RunInv | usr/sys/dev/bio.c:60-383 | the same over every run |
| Bio.CacheIsDisk | usr/sys/dev/bio.c:60-80 | in every run a done buffer that its holder has not changed holds what was last written to its block, unless a buffer of the block has been released changed since |
| Bio.SyncedDisk | usr/sys/dev/bio.c:467-483 | when nothing is delayed or under way the disk itself has what was last written to each such block |
| Bio.ReleaseIff | usr/sys/dev/bio.c:183-213 | a holder changes a done buffer and releases it: the next holder finds what was last written exactly when the change was none |
| Bio.BadRelease | usr/sys/dev/bio.c:183-213 | a run with such a release, after which a block reads as what nobody has written |
| Bio.ReassignInv | usr/sys/dev/bio.c:290-299 | a clean buffer may be given to another block |
| BioPool.Unlink | usr/sys/dev/bio.c:362-363 | the two assignments of notavail take a buffer out of the doubly linked list and leave the order of the others |
| BioPool.LinkHead | usr/sys/dev/bio.c:199-203 | the four assignments of brelse put an aged buffer at the head |
| BioPool.LinkTail | usr/sys/dev/bio.c:205-209 | or any other buffer at the tail |
| BioPool.Pool.NotAvail | usr/sys/dev/bio.c:356-366 | the buffer is busy and off the list, in the step system and in the links |
| BioPool.Pool.Brelse | usr/sys/dev/bio.c:183-213 | the release step, in the links too |
| BioPool.Pool.StartBwrite | usr/sys/dev/bio.c:126-145 | the write step up to the driver |
| BioPool.Pool.Bdwrite | usr/sys/dev/bio.c:155-167 | the delayed-write step |
| BioPool.Pool.FlushOne | usr/sys/dev/bio.c:285-288 | a delayed buffer found on the list is sent to the driver |
| BioPool.Pool.Incore | usr/sys/dev/bio.c:254-256 | the buffer that holds a block, or none |
| BioPool.Pool.Getblk | usr/sys/dev/bio.c:237-300 | by steps of the system, a busy buffer for the block; none only if the one for the block or all of them are busy |
| BioPool.Pool.Bflush | usr/sys/dev/bio.c:467-483 | by writes of delayed buffers of the device only, no delayed buffer of it is left on the list |
| BioPool.Pool.NextDelayed | usr/sys/dev/bio.c:474-475 | the scan finds a delayed buffer of the device, if there is one |
| BioPool.Pool.IoDone | usr/sys/dev/bio.c:372-383 | the completion step, with release for asynchronous requests |
| PageBuild.Process.Ptbuild | usr/sys/sys/ureg.c:44-142 | for ranges that do not overlap, either there is no room for the tables in the map of page tables, or they are taken from it, and the translation of every user page by the descriptor format is what the ranges name and nothing else; the second pass takes no more tables than the first counted, and as many when the maps hold every page; the kernel entry stays |
| PageBuild.Process.Estabur | usr/sys/sys/ureg.c:191-221 | sizes are refused exactly by its tests, changing nothing; otherwise the translation of each page of text, data, stack and trampoline by the descriptor format is the physical page that its map lists, read-only or read-write as its segment is, exactly when the ranges of more than one page have a map |
| PageBuild.PlacedIff | usr/sys/sys/ureg.c:28-141 | what the ranges name is read back as the page and access of each segment, exactly when there are maps |
| PageBuild.AcceptedIff | usr/sys/sys/ureg.c:191-207 | sizes are accepted exactly when text, data and stack end in user space, no page is in two of them or the trampoline's, and core has the pages of the image and the text with those of their maps |
| PageTables.LeafDecoded | usr/sys/sys/ureg.c:140-140 | the page and the access can be read from an entry |
| PageBuild.Process.Ptfree | usr/sys/sys/ureg.c:147-158 | the tables are back in the map of page tables, the three user entries are cleared and the kernel entry stays |
| PageBuild.Process.TakeTables | usr/sys/sys/ureg.c:112-118 | the tables are taken from the map, exactly when they fit |
| PageBuild.SortRanges | usr/sys/sys/ureg.c:89-97 | the ranges in order of address, the same ranges |
| PageBuild.CountTables | usr/sys/sys/ureg.c:99-111 | exactly as many tables as there are gigabytes and blocks with a page in them |
| PageBuild.CountRange | usr/sys/sys/ureg.c:102-111 | one range counted, each gigabyte and block once |
| PageBuild.FillTables | usr/sys/sys/ureg.c:123-141 | after the second pass every page below the top has its entry, within the tables counted |
| PageBuild.FillRange | usr/sys/sys/ureg.c:127-141 | one range filled |
| PageBuild.PutPage | usr/sys/sys/ureg.c:130-140 | one page: a new table only for a gigabyte or block that has none |
| PageBuild.MeantIff | usr/sys/sys/ureg.c:28-36 | for sizes that estabur accepts, the ranges name what is meant exactly when those of more than one page have a map |
| PageBuild.WantMeant | usr/sys/sys/ureg.c:54-88 | what the ranges name, page by page, in terms of text, data, stack and trampoline |
| PageBuild.AllUsed | usr/sys/sys/ureg.c:99-141 | with all pages present both passes take the same tables |
| PageBuild.AcceptedRanges | usr/sys/sys/ureg.c:179-207 | what estabur accepts does not overlap and is within the user space |
| PageTables.WalkFilled | usr/sys/sys/ureg.c:123-141 | the three-level walk finds exactly what was filled in, and so does the translation that reads types, access and page numbers out of the descriptors |
| PageTables.TakeL2 | usr/sys/sys/ureg.c:130-134 | a new second-level table keeps what all others say |
| PageTables.TakeL3 | usr/sys/sys/ureg.c:135-139 | a new third-level table keeps what all others say |
| PageTables.SetPage | usr/sys/sys/ureg.c:140-140 | one entry written is one page more, and no other |
| PageTables.WantSame | usr/sys/sys/ureg.c:89-97 | the order of the ranges does not matter |
| FgrepSpec.NextStep | usr/src/cmd/fgrep.c:148-171 | following the longest border that can be continued keeps the state the longest suffix of the text that starts a keyword |
| FgrepSpec.BorderStep | usr/src/cmd/fgrep.c:333-345 | the border of a longer state is found along the borders of the shorter |
| FgrepSpec.HitState | usr/src/cmd/fgrep.c:172-172 | a keyword is a suffix of the text exactly when one is a suffix of the state |
| FgrepSpec.HitBorder | usr/src/cmd/fgrep.c:339-339 | a state stands for a keyword itself or through its border |
| FgrepSpec.LongestIsLongest | usr/src/cmd/fgrep.c:148-171 | the state is the longest suffix |
| FgrepTable.Lookup | usr/src/cmd/fgrep.c:267-279 | searching the list of a state for a character finds its node exactly when there is a state for the longer text |
| FgrepTable.SameState | usr/src/cmd/fgrep.c:237-299 | no two states have the same text |
| FgrepTable.PathsClosed | usr/src/cmd/fgrep.c:237-299 | with a text all its prefixes have states |
| FgrepBuild.Cgotofn | usr/src/cmd/fgrep.c:237-299 | the table has the states of all prefixes of the keywords and marks for the keywords; it overflows exactly when the edges of the tree of all prefixes and its leaves are more than MAXSIZ |
| FgrepSpec.NeededMore | usr/src/cmd/fgrep.c:272-288 | one more state takes one node after a leaf and two elsewhere |
| FgrepSpec.NeededMono | usr/src/cmd/fgrep.c:272-288 | more states never take fewer nodes |
| FgrepBuild.Line | usr/src/cmd/fgrep.c:243-298 | one keyword: its states are there, and it is marked unless it has no newline and is the start of an earlier one |
| FgrepBuild.Enter | usr/src/cmd/fgrep.c:283-296 | new states for the rest of a keyword, each once |
| FgrepBuild.Walk | usr/src/cmd/fgrep.c:243-281 | the part of a keyword that has states |
| FgrepBuild.Locate | usr/src/cmd/fgrep.c:267-279 | the node of a character in a list, or the end of the list |
| FgrepBuild.EdgeShape | usr/src/cmd/fgrep.c:285-288 | a new state keeps the table a tree with unique edges |
| FgrepBuild.LinkShape | usr/src/cmd/fgrep.c:272-276 | a new node at the end of a list keeps it |
| FgrepBuild.AllMarked | usr/src/cmd/fgrep.c:243-298 | every keyword is marked, exactly unless the last has no newline, is the start of an earlier one and is not one itself |
| FgrepFail.Cfail | usr/src/cmd/fgrep.c:306-350 | every fail link leads to the longest proper suffix that has a state, and a state is marked exactly when a keyword is a suffix of its text |
| FgrepFail.Start | usr/src/cmd/fgrep.c:313-321 | the states of one character are on the queue, which they do not fill |
| FgrepFail.Expand | usr/src/cmd/fgrep.c:328-348 | the children of a state are on the queue with their fail links and marks |
| FgrepFail.FindFail | usr/src/cmd/fgrep.c:333-345 | the loop along the fail links ends at the border of the child |
| FgrepFail.SetFail | usr/src/cmd/fgrep.c:337-341 | all nodes of a list get the link and the mark |
| FgrepFail.Shallow | usr/src/cmd/fgrep.c:323-327 | breadth first: all states no longer than the one at work have been on the queue |
| FgrepFail.AllQueued | usr/src/cmd/fgrep.c:323-349 | when the queue is empty every state has been on it |
| FgrepFail.QueuedBound | usr/src/cmd/fgrep.c:325-332 | the queue never holds more than there are nodes, so it does not wrap |
| FgrepFail.NoneBetween | usr/src/cmd/fgrep.c:272-278 | the nodes of a list lie in the order of their indices |
| Fgrep.Nstate | usr/src/cmd/fgrep.c:148-171 | the scanner goes to the longest suffix of what it has read that has a state |
| Fgrep.OutFires | usr/src/cmd/fgrep.c:172-172 | it is in a marked state exactly when a keyword that is not empty is a suffix of the line so far, or the empty keyword is marked, the state is the root, and the root has one node |
| Fgrep.ScanLine | usr/src/cmd/fgrep.c:139-226 | a line is selected exactly when that happens somewhere in it |
| Fgrep.Execute | usr/src/cmd/fgrep.c:114-226 | the numbers of the lines selected |
| Fgrep.LineChosen | usr/src/cmd/fgrep.c:139-226 | a line is selected exactly when it holds a marked keyword that is not empty, or the empty one is marked, the others begin alike, and the scan is somewhere in the line not in the middle of a keyword |
| Fgrep.SoloIff | usr/src/cmd/fgrep.c:272-276 | the root has one node exactly when all keywords that are not empty begin with the same character |
| Fgrep.Run | usr/src/cmd/fgrep.c:34-112 | from keyword list and text to selected lines, for every list that fits and every text |
| FgrepLines.LinesSelected | usr/src/cmd/fgrep.c:34-226 | for keywords that are not empty, the last of which has a newline or is not the start of another, and lines: the numbers of exactly the lines that hold one of them, in order |
| FgrepLines.KeywordsAre | usr/src/cmd/fgrep.c:243-298 | the keywords are the lines of the list, and a last one without a newline |
| FgrepLines.WantedAre | usr/src/cmd/fgrep.c:139-226 | the numbers of the lines that hold one of the keywords |
| Fgrep.RightIff | usr/src/cmd/fgrep.c:148-172 | for every keyword list: the lines that hold a keyword are selected, in all texts of whole lines, exactly when the last keyword has a newline, is not the start of an earlier one or holds an earlier one, and no keyword is empty or the others begin alike |
| Fgrep.Missed | usr/src/cmd/fgrep.c:159-172 | for any other list, a text of one line that is asked for and not selected |
| Fgrep.LostKeyword | usr/src/cmd/fgrep.c:243-298 | so the line a for the keywords ab and a without a last newline |
| GrepMatch.Advance | usr/src/cmd/grep.c:329-442 | as long as it does not step over the end of the line, an expression is matched from a place exactly when it accepts some string there, and matching ends; it steps over it only if it does not stay in the line from there, and always then when it does not match |
| GrepMatch.StayStar | usr/src/cmd/grep.c:398-437 | a starred element stays in the line exactly if what follows does after each part of its longest run |
| GrepMatch.WfStays | usr/src/cmd/grep.c:329-442 | an expression of which no element matches NUL stays in every line |
| GrepMatch.Backtrack | usr/src/cmd/grep.c:417-437 | the loop after a starred element succeeds exactly when some length of its run lets the rest match; the shortcut for a character changes nothing |
| GrepMatch.LongestRun | usr/src/cmd/grep.c:398-415 | the run of characters that a starred element matches, as long as possible |
| GrepMatch.Search | usr/src/cmd/grep.c:296-318 | a line is found exactly when the expression accepts a part of it, from its start if anchored, if the matcher stays in the line; on a line without such a part it leaves exactly if it can; the shortcut for the first character changes nothing |
| GrepMatch.MatchStar | usr/src/cmd/grep.c:398-437 | a starred element matches exactly the parts of its longest run |
| GrepMatch.MatchSingle | usr/src/cmd/grep.c:339-363 | an element of one character |
| GrepMatch.MatchDol | usr/src/cmd/grep.c:349-352 | the end of the line |
| GrepMatch.MatchMark | usr/src/cmd/grep.c:364-370 | brackets match nothing of their own |
| GrepCompile.Compile | usr/src/cmd/grep.c:148-265 | for every pattern, the elements written are those that the notation denotes, stars applied afterwards included; a pattern is refused exactly when its notation is wrong or what comes before its end takes 256 bytes |
| GrepCompile.WfIff | usr/src/cmd/grep.c:197-226 | no element of a compiled expression matches NUL exactly when no plain class has the character 0200 as a member or as the start of a range |
| GrepCompile.NulMatched | usr/src/cmd/grep.c:216-225 | the class of 0200 alone is in no line of ASCII characters but matches the NUL after each |
| GrepCompile.CompileClass | usr/src/cmd/grep.c:197-226 | the members of a class, ranges and complement, modulo 128, as the notation has them |
| GrepCompile.CompileMembers | usr/src/cmd/grep.c:204-219 | the loop over the members, which are put into the bit map one by one |
| GrepCompile.FillRange | usr/src/cmd/grep.c:210-216 | a range of characters, its ends included; an inverted one is its first character |
| GrepCompile.CompileAtom | usr/src/cmd/grep.c:175-261 | the switch writes the element that the notation has there, in its size, or ends as the notation does, or refuses a class that would not fit |
| GrepCompile.QuitAnswer | usr/src/cmd/grep.c:175-264 | when the switch ends the compiler the answer is that for the whole pattern |
| GrepCompile.ContAtom | usr/src/cmd/grep.c:173-189 | reading an element and then its stars is reading a starred element |
| GrepNotation.FoundIff | usr/src/cmd/grep.c:148-442 | for every expression of characters, classes, dots, stars, brackets and anchors, written down, what is read back and found is what the expression means |
| GrepNotation.TakenIff | usr/src/cmd/grep.c:148-265 | it is taken exactly when its elements fit into 256 bytes, and the matcher then stays in every line |
| GrepNotation.ReadShown | usr/src/cmd/grep.c:148-265 | it is read as its parts |
| GrepNotation.ClassPicks | usr/src/cmd/grep.c:197-226 | the bits of a class are its members and what is in its ranges, both ends included |
| GrepNotation.RangeLine | usr/src/cmd/grep.c:148-442 | [lo-hi] selects exactly the ASCII lines with a character from lo to hi, and [^lo-hi] exactly those with another |
| GrepNotation.WordLine | usr/src/cmd/grep.c:148-442 | ordinary characters select exactly the lines in which they occur in a row |
| GrepNotation.DotLine | usr/src/cmd/grep.c:148-442 | a dot stands for any one character |
| GrepNotation.Refused | usr/src/cmd/grep.c:197-264 | a class that is not closed, a bracket closed that is not open, and a reference to none are refused |
| GrepCompile.Grep | usr/src/cmd/grep.c:62-327 | a pattern that is accepted selects exactly the lines in which what it denotes is found, as long as the matcher stays in the line; on a line in which it is not found the matcher leaves exactly when a beginning of the expression matches up to the end of the line and a class with the character 0200 is next, and never if no plain class has it |
| Pipe.StepInv | usr/sys/sys/pipe.c:62-217 | every step of readers, writers and closers keeps the invariant |
| Pipe.RunInv | usr/sys/sys/pipe.c:62-217 | so does every run |
| Pipe.RunFifo | usr/sys/sys/pipe.c:62-183 | in every run the bytes read are a prefix of the bytes written, what waits is the rest, the file is shorter than twice PIPSIZ, writes of at most PIPSIZ are contiguous, and finished writes are whole unless the disk was full |
| Pipe.FailInv | usr/sys/sys/pipe.c:173-177 | a write that runs out of space loses the rest of its chunk and keeps the invariant |
| Pipe.RunSleepers | usr/sys/sys/pipe.c:62-217 | no wakeup is lost: a sleeping reader has left its mark and the pipe is empty or locked, a sleeping writer has and the pipe is full, a process waiting for the lock has and it is held |
| Pipe.EndOfFile | usr/sys/sys/pipe.c:77-91 | a read returns nothing exactly when the writing end is closed and everything written has been read |
| Pipe.Progress | usr/sys/sys/pipe.c:62-217 | no deadlock: when no process runs, none is in a call, or all wait to read an empty pipe, or all to write a full one |
| Pipe.StepRank | usr/sys/sys/pipe.c:62-217 | every step but a new call brings a measure down |
| Pipe.RunRank | usr/sys/sys/pipe.c:62-217 | so every run without new calls is bounded |
| Pipe.Settles | usr/sys/sys/pipe.c:62-217 | from every reachable state the calls under way come to their end, or to wait for the other side |
| Pipe.ContiguousPut | usr/sys/sys/pipe.c:173-177 | a writer that holds the lock does not break up another's short write |
| PipeIo.Kernel.StartRead | usr/sys/sys/pipe.c:69-96 | the stretch of readp from its label is the step of the system |
| PipeIo.Kernel.EndOfRead | usr/sys/sys/pipe.c:97-112 | the stretch after readi is the step of the system; the bytes read are the next ones, as many as were asked for or as wait, whichever is less |
| PipeIo.Kernel.StartWrite | usr/sys/sys/pipe.c:126-175 | the stretch of writep from its label |
| PipeIo.Kernel.EndOfWrite | usr/sys/sys/pipe.c:176-182 | the stretch after writei |
| PipeIo.Kernel.Plock | usr/sys/sys/pipe.c:190-199 | the lock or sleep |
| PipeIo.Kernel.Prele | usr/sys/sys/pipe.c:208-217 | the lock is free and its waiters run |
| PipeIo.Kernel.constructor | usr/sys/sys/pipe.c:25-57 | a new pipe satisfies the start of the system |
| FsAttach.DetachRoot | usr/sys/sys/iget.c:215-218 | the tree of an address taken out of an inode becomes held, and every block is in one place still |
| PipeIo.Kernel.StartClose | usr/sys/sys/fio.c:44-72 | the last close of an end wakes everybody and is the step of the system |
| PipeIo.Kernel.WakeAll | usr/sys/sys/slp.c:82-110 | all sleepers on a channel run and no other process changes |
| ResourceMap.Malloc | usr/sys/sys/malloc.c:16-36 | the lowest units that fit, taken from the map and nothing else; 0 exactly when none fit; the map stays sorted, apart and fully coalesced |
| ResourceMap.Mfree | usr/sys/sys/malloc.c:44-76 | exactly the units given back are free in addition, and the map stays sorted, apart and fully coalesced, when what results is shorter than the array |
| ResourceMap.Serve | usr/sys/sys/malloc.c:16-76 | in every run of malloc and mfree with at most two pieces in use fewer than the array has entries neither leaves the array; each answer of malloc is the lowest place beside the pieces in use, or 0 exactly when there is none; and the map is that of the units not in use, of at most one entry more than there are pieces |
| ResourceMap.OneAnswer | usr/sys/sys/malloc.c:16-36 | there is one such answer |
| ResourceMap.PieceTaken | usr/sys/sys/malloc.c:16-36 | malloc adds its piece to those in use |
| ResourceMap.PieceGiven | usr/sys/sys/malloc.c:44-76 | mfree takes a piece out of those in use |
| ResourceMap.Reserve | usr/sys/sys/malloc.c:16-76 | units taken and given back leave the map as it was, entry for entry |
| ResourceMap.Unique | usr/sys/sys/malloc.c:16-76 | the map is the only one of its set of free units |
| ResourceMap.FirstFit | usr/sys/sys/malloc.c:22-34 | the first entry large enough holds the lowest fit |
| ResourceMap.NoFit | usr/sys/sys/malloc.c:22-35 | when no entry is large enough nothing fits |
| ResourceMap.FitsInRun | usr/sys/sys/malloc.c:22-34 | free units in a row are in one entry |
| ResourceMap.GivenUnits | usr/sys/sys/malloc.c:50-75 | in each of the four cases the map gains exactly the units given back |
| ResourceMap.GivenCanonical | usr/sys/sys/malloc.c:50-75 | and stays coalesced |
| ResourceMap.Close | usr/sys/sys/malloc.c:26-31 | the entries after one that is used up move down |
| ResourceMap.Open | usr/sys/sys/malloc.c:65-74 | the entries move up for a new one |
| ImageIo.Core.Mapalloc | usr/sys/sys/malloc.c:133-152 | the map grows by pages that were free, exactly mapneed of them, or not at all; nothing outside the map's own pages changes; every page is in one place |
| ImageIo.Core.Mapfree | usr/sys/sys/malloc.c:157-171 | the map shrinks and exactly the pages it does not need any more are free |
| ImageIo.Core.Maprev | usr/sys/sys/malloc.c:177-189 | a part of the entries is turned around |
| ImageIo.Core.Maprot | usr/sys/sys/malloc.c:191-197 | the entries are rotated, and nothing outside the list pages changes |
| ImageIo.Core.Mapent | usr/sys/sys/malloc.c:111-115 | entry i of the map |
| ImageIo.TurnedThrice | usr/sys/sys/malloc.c:191-197 | three reversals make a rotation |
| ImageIo.Core.Pgalloc | usr/sys/sys/malloc.c:85-91 | the top page of the stack, or 0 when it is empty |
| Images.TakeRoot | usr/sys/sys/malloc.c:140-143 | a root page, and every page still in one place |
| Images.TakeList | usr/sys/sys/malloc.c:145-148 | a list page |
| Images.TakeEnt | usr/sys/sys/malloc.c:149-149 | an entry |
| Images.GiveEnt | usr/sys/sys/malloc.c:163-163 | an entry freed |
| Images.GiveList | usr/sys/sys/malloc.c:164-165 | a list page freed |
| Images.GiveRoot | usr/sys/sys/malloc.c:167-170 | the root freed |
| Images.OwnDiffer | usr/sys/sys/malloc.c:79-101 | no page is twice in a map or both in it and free |
| ResourceMap.SwapFits | usr/sys/sys/slp.c:295-304 | yes exactly when malloc would succeed |
| ResourceMap.EntriesBound | usr/sys/h/param.h:14-15 | k pieces in use leave at most k + 1 entries, which the sizes of the maps count on |
| ImageSpace.Expand | usr/sys/sys/slp.c:597-627 | the pages of the image that stay keep their contents and order, whether pages are freed, added in core, or the image goes by way of the swap area; exactly mapneed pages are taken, of those free before or of those free when the image comes back |
| ImageSpace.Roomfor | usr/sys/sys/slp.c:307-324 | yes exactly when core has the pages or the swap map has room for the image |
| ImageSwap.Xswap | usr/sys/sys/text.c:21-46 | the image goes to the lowest place of the swap map that has room for its new size, page i of it behind the eight blocks of the user block and those of i pages, all its pages are free, and no other block of the swap area changes |
| ImageSwap.Swapin | usr/sys/sys/slp.c:341-375 | the image is read back into exactly mapneed pages, and its place is given back to the swap map |
| ImageSwap.Swap | usr/sys/sys/text.c:21-46 | swapped out and in again with more pages, whatever others did to core and the swap map meanwhile, the image is the same at its front |
| ImageSwap.SwapOut | usr/sys/dev/bio.c:448-459 | the pages written are the image in order, whatever runs of neighbours they went in, and no other block changes |
| ImageSwap.SwapIn | usr/sys/sys/slp.c:341-375 | the image read in is what was on the swap area |
| ImageSpace.Sbreak | usr/sys/sys/sys1.c:494-538 | the data end on the page of the last byte asked for and no later, with none when that is before them; every user page that stays keeps its contents, data and stack, and new ones are zeros; granted exactly when there is room in core or on the swap area and estabur accepts the sizes, and otherwise nothing changes; pages taken or freed are exactly mapneed |
| ImageSpace.Grow | usr/sys/sys/sig.c:241-269 | pages of zeros come between data and stack, down to the page of the fault or, for one at the start of a page, the page before, and every user page that was there keeps its contents; granted exactly when the fault is below the stack, there is room and estabur accepts the sizes, and otherwise nothing changes; pages taken are exactly mapneed; after a swap the pages are those that were free when the image came back |
| ImageSpace.InsertPages | usr/sys/sys/sys1.c:529-533 | pages added at the end and rotated to the middle of the image |
| ImageSpace.RemovePages | usr/sys/sys/sys1.c:524-526 | pages rotated to the end of the image and freed |
| ImageSpace.ClearPages | usr/sys/sys/sig.c:262-265 | exactly the new pages are cleared |
| ImageSwap.KeptImage | usr/sys/sys/malloc.c:133-197 | work on a map does not touch the pages it lists |
| ImageSpace.BrokenKeeps | usr/sys/sys/sys1.c:524-533 | when data are added or taken at their end, or the stack grows, every user page that was there and still is has its page of the image, and the others are zeros |
| ImageSwap.SwapPlaces | usr/sys/h/param.h:102-102 | the pages of an image are apart on the swap area, behind the page of the user block, and fill what was taken for it |
| Callout.CalledOnce | usr/sys/sys/clock.c:53-78 | every request whose deadline has passed was called exactly once at its deadline, with the function and argument asked for, no other was, and calls were made by deadline and by order of registration |
| Callout.Run | usr/sys/sys/clock.c:53-175 | in every run of timeout and clock the calls are those that are to happen, with function and argument: at each tick all requests due at it, in the order in which they were made, those of callout functions included; unless the array is too short for what is pending, and then there is a panic or an overrun |
| Callout.RunMeant | usr/sys/sys/clock.c:53-175 | what is to happen is what the requests say: all whose tick has come, by tick and then by order of request, and no others |
| Callout.DueIsBatch | usr/sys/sys/clock.c:65-70 | the requests due at a tick, in their order, are the front of the list |
| Callout.LedgerInsert | usr/sys/sys/clock.c:145-175 | a new request takes its place by deadline, after those with the same |
| Callout.LedgerFire | usr/sys/sys/clock.c:67-70 | the first that is due is called |
| Callout.LedgerTick | usr/sys/sys/clock.c:55-58 | a tick with nothing due |
| Callout.Callouts.Timeout | usr/sys/sys/clock.c:145-175 | the request is registered for its tick while fewer than NCALL-1 are pending; with NCALL-1 it panics if its place is last and otherwise would write past the array |
| Callout.Callouts.Place | usr/sys/sys/clock.c:152-160 | the place after all with the same or an earlier deadline |
| Callout.Callouts.Shift | usr/sys/sys/clock.c:161-170 | the entries after the place move up, and the next counts from the new one |
| Callout.Callouts.Tick | usr/sys/sys/clock.c:53-78 | one tick calls exactly what is due at it, in order, with function and argument, and registers exactly what the functions called ask for; it does so exactly if the array has room for that beside all that was pending |
| Callout.Callouts.CallDue | usr/sys/sys/clock.c:65-70 | all that is due is called in order, and what the functions ask for is registered in that order |
| Callout.Callouts.Squeeze | usr/sys/sys/clock.c:71-77 | what was called leaves the array and the rest stays |
| Callout.Callouts.React | usr/sys/sys/clock.c:145-175 | requests made from within a callout function are registered with their deadline, function and argument, exactly if there is room for all |
| Clist.GetStep | usr/sys/sys/prim.c:14-44 | taking a character leaves the rest of its queue, all other queues, and every block in exactly one list |
| Clist.PutStep | usr/sys/sys/prim.c:185-217 | putting a character appends it and leaves all other queues, and every block in exactly one list |
| Clist.TakenShared | usr/sys/sys/prim.c:193-211 | a block moves from the free list to a queue and stays in one list |
| Clist.GivenShared | usr/sys/sys/prim.c:27-40 | and back |
| Clist.TakenLinked | usr/sys/sys/prim.c:193-211 | the links follow |
| Clist.GivenLinked | usr/sys/sys/prim.c:27-40 | the links follow |
| ClistIo.Clists.Getc | usr/sys/sys/prim.c:14-44 | the first byte of the queue, or -1 if it is empty |
| ClistIo.Clists.Putc | usr/sys/sys/prim.c:185-217 | the byte is appended; or there is no block for it, and then nothing changes |
| ClistIo.Clists.QToB | usr/sys/sys/prim.c:50-89 | as many bytes as there are, the same as repeated getc |
| ClistIo.Clists.BToQ | usr/sys/sys/prim.c:225-264 | the bytes are appended as repeated putc would; what is left found no block |
| ClistIo.Clists.Putw | usr/sys/sys/prim.c:305-319 | both bytes or neither; neither exactly when there is no free block |
| ClistIo.Clists.Getw | usr/sys/sys/prim.c:294-303 | the two bytes, or -1 with nothing taken if there are not two |
| ClistIo.Clists.TakeOne | usr/sys/sys/prim.c:26-40 | the common part of getc and q_to_b |
| ClistIo.Clists.PutNextOne | usr/sys/sys/prim.c:201-214 | the common part of putc and b_to_q |
| ClistIo.Clists.constructor | usr/sys/sys/prim.c:270-282 | all blocks are free and all queues empty |
| ClistIo.Room | usr/sys/sys/prim.c:305-319 | with a free block there is room for two bytes |
| Qsort.Sort | usr/src/cmd/sort.c:842-920 | for every comparison that is a total preorder, a sorted permutation, by recursion no deeper than the binary logarithm of the length |
| Qsort.Split | usr/src/cmd/sort.c:859-919 | the three-region loop ends with smaller, equal and greater elements in three parts, a rearrangement of what was there |
| Qsort.TurnLeft | usr/src/cmd/sort.c:866-876 | the left side of the loop keeps the three regions |
| Qsort.TurnRight | usr/src/cmd/sort.c:878-899 | the right side keeps them |
| Qsort.Judge | usr/src/cmd/sort.c:842-920 | comparing with an equal of the pivot is comparing with the pivot |
| Qsort.Deeper | usr/src/cmd/sort.c:905-912 | the side that is recursed into is less than half |
| Qsort.PartedOrder | usr/src/cmd/sort.c:842-920 | elements on either side of the pivot are in order |
| Crypt.Setup | usr/src/cmd/crypt.c:44-66 | for every key t1 is a permutation with inverse t2, and t3 an involution without fixed point |
| Crypt.Another | usr/src/cmd/crypt.c:58-62 | the unpaired entries are even in number, so one that is unpaired is not alone |
| Crypt.Probe | usr/src/cmd/crypt.c:59-60 | the probe for an unpaired entry ends and never divides by zero |
| Crypt.PairEntry | usr/src/cmd/crypt.c:58-62 | after pairing off entry k all entries from k up are paired |
| Crypt.PairOff | usr/src/cmd/crypt.c:61-62 | a pair more keeps the pairing |
| Crypt.Exchange | usr/src/cmd/crypt.c:53-57 | an exchange keeps t1 a permutation |
| Crypt.CipherTwice | usr/src/cmd/crypt.c:82-82 | the machine undoes itself at the same setting |
| Crypt.RotorEquation | usr/src/cmd/crypt.c:82-82 | no byte is enciphered to itself, and the way in through the wheel and the reflector meets the way out at every setting |
| Crypt.Stream | usr/src/cmd/crypt.c:78-90 | the loop of main enciphers byte k at the setting of k steps |
| Crypt.StreamTwice | usr/src/cmd/crypt.c:78-90 | twice from the start is the identity |
| Crypt.Twice | usr/src/cmd/crypt.c:44-90 | for every key and every text, crypt of crypt is the text, and no byte of the text stays as it is |
| EdStore.Store.Putline | usr/src/cmd/ed.c:904-931 | the line is stored under a new token, and all lines stored before are as they were |
| EdStore.Store.Getline | usr/src/cmd/ed.c:886-902 | the line of a token, marked or not, wherever its blocks are; no line changes |
| EdStore.Store.Getblock | usr/src/cmd/ed.c:933-976 | a buffer holds the block, and the other blocks, in the buffers or in the file, are as they were |
| EdStore.Store.Init | usr/src/cmd/ed.c:987-1008 | no lines |
| EdStore.FetchKeeps | usr/src/cmd/ed.c:933-976 | no block changes by being fetched, but a new one that is to be written |
| EdStore.NewBlock | usr/src/cmd/ed.c:923-926 | beginning a block keeps everything written before |
| EdStore.LineWritten | usr/src/cmd/ed.c:904-931 | a line written is a line of the store with all others |
| EdStore.ReadKeeps | usr/src/cmd/ed.c:886-902 | reading changes no byte |

## Left out

- Device drivers, interrupts, sleep queues, signals, context switches and system call plumbing: hardware, assembly, or tables and dispatch without an invariant of their own. A disk is a queue of requests that complete in order at any time.
- I/O errors, user faults and locks other than those of pipes: every read and write of a block succeeds.
- diff: option -b, directories, the seeks that fetch the lines of a change, the printing of the script without -e, and temporary files. The pruned files are copies, not parts of the same arrays.
- File system: special files, directories, inodes on the disk, and read-ahead. The code of `bmap`, `readi` and `writei` is modelled on a plain disk, which the cache is proved to be.
- Buffer cache: the links of the device chains (membership is by search of the buffers), `physio` and swap headers. `geteblk` is the reassignment step with no device. The data of a block are one value.
- FsIo.Replay: takes offsets below 2^31, since off_t has 32 bits.
- ImageSwap.Swap: leaves out the page of the user block and the shared text, which go the same way beside the image.
- ImageSpace.Sbreak: takes, where the image is really swapped, a state of core and swap area to which the other processes have come when it is read back, in which core has the pages.
- PageBuild.Process.Ptbuild: takes page numbers and entries as unbounded integers.
- Pipe.RunFifo: counts as written what a call still writes after it has run out of space, though writei releases those buffers unwritten; takes the inode as held by its two ends only; `sync`, which locks every inode for a moment, is not a process of the system.
- Callout.Callouts.Timeout: takes requests of at least one tick, as the kernel makes them.
- fgrep: options -x and -v, the ring of input buffers and printing.
- grep: back-references, options, reading of lines. A pattern that ends in a backslash or in the middle of a range, on which the compiler reads past its end, is only recognised.
- GrepCompile.Grep: says nothing of what the matcher answers once it has left the line, which depends on what is in memory there.
- GrepNotation.FoundIff: takes members of classes that are ASCII characters, and no range that begins where another ends; `GrepCompile.Compile` takes every class.
- Fgrep.RightIff: speaks of texts of whole lines; `Fgrep.LineChosen` has what becomes of a last line without a newline.
- sort: all but the in-place sort.
- Qsort.Sort: leaves out the marking of equal lines for -u; lines are numbers, and the comparison is a function of two of them.
- crypt: reading the key and the crypt function; the 13 characters it returns are a parameter.
- ed: the encryption of the temporary file, and everything but the line store. An interrupt in the middle of `putline` is not modelled.
- EdStore.Store.Putline: takes tokens as unbounded integers.
- prim.c: `ndqb` and `ndflush`, and queues with a negative count.
