# UnionFS 1.3 and the SquashFS 3.0 tools: a verified model

Two file systems, modelled and proved in Dafny 4.11.

**UnionFS** lays several branches over each other. The first part (`Branch*.dfy`) is the bookkeeping
that lets branches come and go while files are open: every open file remembers a generation and branch
indices, and *putmaps* translate indices of past generations to present ones. `BranchState` holds the
state and its invariant, `BranchSteps` the changes to the branch list, `BranchRuns` the steps that files
take and the theorems about whole runs, `BranchManager` the same as a class whose methods update the
tables in place. The identity of a branch is its root; each lower file carries it, and nothing in the
steps looks at it.

The second part (`Union*.dfy`) is what the union shows. `UnionView` defines it: whiteouts, opaque
directories and the order of the branches decide what a name stands for. `UnionLookup` (lookups, full and
partial), `UnionReaddir` (the merged listing and its resumption), `UnionChanges` (whiteouts and unlink),
`UnionRmdir` (check_empty and rmdir), `UnionCreate` (create and mkdir) and `UnionCopyup` (copy-up at any
depth, with the parents made on the way) are proved against it. `PersistentInodes` is the pair of maps that
keeps inode numbers.

**SquashFS** packs a tree into compressed blocks. `Compression` and `MetadataStream` are the metadata
blocks and the references into them, `DirectoryFormat`, `DirectoryWriter` and `DirectoryTable` the
directories, `FileBlocks`, `Checksums`, `FileWriter` and `FileReader` the contents of files with fragments
and duplicates, `FragmentTable` the table of fragments, `InodeScan` the walk over an existing inode table
and `BitFields` the packing of bit fields, with `SwappedRecords` for each record and what is stored in it. Writer and reader are modelled separately and meet in the
theorems; `FileImage` and `DirectoryImage` run both over any files and any directories and say what comes
back. zlib is a pair of functions of which it is only known that uncompressing undoes compressing and
that nothing compresses to nothing.

Where the code does not meet its purpose, the model keeps the code, a theorem says exactly when it does,
and a member shows an input with which it does not:

- A mode change of a branch keeps the bookkeeping exactly when its arguments pass the tests that are
  made too late (`BranchSteps.RdwrBranchKeepsIff`); one index past the end passes them (`WildWrite`; inputs
  for both are in `BranchRuns.LateTestReached`).
- Revalidation keeps the bookkeeping exactly when no lower open fails (`BranchRuns.RevalidateKeepsIff`;
  a run to a failure is `FailedReopenReached`), a delayed copy-up exactly when the generation of the file
  still finds both branches in place (`BranchRuns.DelayedCopyupKeepsIff`). A branch added in front of an
  unlinked open file breaks that for every copy (`StaleCopyupBreaks`, with a run in `StaleCopyupReached`).
- Unlinking with whiteouts leaves the name visible exactly when a further copy lies between the one
  removed and the whiteout that was there before (`UnionChanges.Union.UnlinkWhiteout`; an input is
  `UnlinkLeavesCopy`).
- check_empty looks at what the view consists of, unless a partial lookup went past an opaque directory,
  met another end of the search and found directories between (`UnionRmdir.ConsideredExactly`). A removed
  directory showed no name, and an empty one is refused exactly when a directory between lists a name that
  none of those seen has an entry for (`UnionRmdir.Rmdir`; an input is `RefusedThoughEmpty`). Where a name
  stands beside its own whiteout the lower directory stays, but its whiteouts and its opaque mark are gone, and
  it shows that name and whatever lies behind (`UnionRmdir.UncoveredShows`; an input is `RmdirUncovers`).
- A copy-up ends without an error, and without the end of the file, exactly when the branch is full at the end
  of a page and its write returns 0 instead of an error (`UnionCopyup.CopyData`; an input is `LoseEnd`).
- The listing and the lookup disagree about a name exactly when it is listed before its own whiteout in
  one branch (`UnionReaddir.ReaddirAgreesExactly`; an input is `ListedButNotFound`).
- A lower directory whose readdir returns in pieces is given up after a piece in which nothing was new
  (`UnionReaddir.CutExactly`). A name is then misheard exactly when all entries about it in the first directory
  that has any lie behind that place, and what is read further right says the opposite of the first of them
  (`HeardAgreesExactly`): a name can be lost (`GivenUpTooEarly`), and a name whose whiteout is lost can be
  revealed (`RevealedByPiece`). The calls hand out the names of the merged listing exactly when none is misheard
  (`HeardSameExactly`, `ReadFromStart`), and disagree with the lookup about a name exactly when one of the two
  happens to it, being misheard or standing beside its own whiteout, and not both (`HeardAgainstLookup`).
- A file cannot be created where a directory stands beside its own whiteout, and creating one truncates a
  whiteout that is not empty even in a read-only branch (`UnionCreate.Create`; inputs are `InTheWay` and
  `TruncatesReadOnly`). A mkdir that fails because the name stands beside its own whiteout has removed the
  whiteout: the name is seen afterwards (`UnionCreate.Mkdir`; an input is `MkdirReveals`).
- A file that shares the stored bytes of another is read back exactly when the block lists agree
  (`FileBlocks.SharedBlocksExactly`): the bytes are compared, the block lists are not. Over a whole image, a
  file comes back exactly when the first of those taken for the same is the same (`FileImage.PackAndUnpack`);
  a file and its own compressed form are such a pair (`CompressedTwin`, `LoseFile`).
- The fragment table survives exactly when the number of fragments is 0 or no multiple of 512
  (`FragmentTable.ReadFragmentTable`; an input is `LostAt512`).
- An empty directory is found again unless it begins where the directory table ends on a block boundary
  (`MetadataStream.ResolvesExactly`, `DirectoryImage.WriteAndList`); an empty root is an input (`EmptyRoot`).
- write_uin keeps the inode maps inverse exactly when it writes nothing, or writes both entries and takes no
  other number's place, or fails half way where the reverse entry was right already
  (`PersistentInodes.InodeMap.WriteUin`; two inputs are in `WriteUinBreaks`).

## Model

| member | source | states |
|---|---|---|
| BranchState.CountsSumToRefs | unionfs-1.3/branchman.c:120-125 | the counters of all branches add up to the references of all open files |
| BranchState.CurrentRefsBySubtraction | unionfs-1.3/branchman.c:119-132 | what newputmap computes, all counters less the counts of the live putmaps, is the number of references of the current generation |
| BranchState.GoneMeansUnused | unionfs-1.3/commonfops.c:26-51 | a putmap that is gone has no reference left, so branchput_gen never misses one |
| BranchSteps.LiveRefPassesChecks | unionfs-1.3/commonfops.c:26-51 | every reference an open file holds passes the BUG_ON checks of branchput_gen |
| BranchSteps.GetRefKeeps | unionfs-1.3/unionfs_macros.h:141-144 | opening a lower file in a current branch and counting it keeps the invariant |
| BranchSteps.DropRefKeeps | unionfs-1.3/commonfops.c:26-51 | putting a reference of any generation decrements the counter of the branch it was taken on and the count of its putmap, and keeps the invariant |
| BranchSteps.AdvanceKeeps | unionfs-1.3/branchman.c:63-137 | retiring a generation moves its references to a new putmap without losing any |
| BranchSteps.AdvancePrompt | unionfs-1.3/branchman.c:117-133 | afterwards putmaps and generations with references still match exactly when the retired generation had a reference |
| BranchSteps.RetargetKeeps | unionfs-1.3/branchman.c:40-61 | composing the newest map onto every older one keeps each live reference on its own branch, whatever lies in the unused slots |
| BranchSteps.AddBranchKeeps | unionfs-1.3/branchman.c:194-365 | inserting a branch keeps the invariant, and every refusal changes nothing it should not |
| BranchSteps.DelBranchKeeps | unionfs-1.3/branchman.c:371-453 | removing an unused branch keeps the invariant, and the new putmap is freed exactly when it counts nothing |
| BranchSteps.RdwrBranchKeepsIff | unionfs-1.3/branchman.c:455-490 | a mode change keeps the invariant if and only if its arguments pass both tests |
| BranchSteps.AddBranchAdds | unionfs-1.3/branchman.c:194-365 | a branch is added exactly with modes 4, 6, 20 or 22, at most 1025 branches before, no overlap and an existing place; it then stands there with its root, these modes and no users, and every other branch is as it was, those right of it one place on; each refusal by its error, and nothing changes |
| BranchSteps.DelBranchRemoves | unionfs-1.3/branchman.c:371-453 | EBUSY exactly for the only branch and for one in use, EINVAL for a place that does not exist; otherwise that branch is gone and every other is as it was |
| BranchSteps.RdwrBranchSetsModes | unionfs-1.3/branchman.c:455-490 | on success the modes of that one branch are the new ones and nothing else of the table has changed; exactly when it is refused, and when the index is one past the end |
| BranchRuns.DropAllKeeps | unionfs-1.3/commonfops.c:199-204 | putting all lower files of a file, one by one, keeps the invariant at every step |
| BranchRuns.ReleaseKeeps | unionfs-1.3/commonfops.c:494-542 | releasing a file gives back every reference it holds |
| BranchRuns.OpenFileKeeps | unionfs-1.3/commonfops.c:348-492 | opening, with any lower opens failing or copied up first, keeps the invariant and leaves no reference behind on failure |
| BranchRuns.RevalidateKeepsIff | unionfs-1.3/commonfops.c:194-295 | revalidation keeps the invariant if and only if nothing is reopened, the file is copied up, or no lower open fails |
| BranchRuns.DelayedCopyupKeepsIff | unionfs-1.3/commonfops.c:297-341 | a delayed copy-up keeps the invariant if and only if none happens or the file's generation finds both branches at their indices |
| BranchRuns.OpenFileOpens | unionfs-1.3/commonfops.c:348-492 | an open succeeds exactly when no lower open that is needed fails, or a copy succeeds; of a directory every lower directory is then open, of another file the leftmost object, after a copy-up the copy alone, each on the branch of its slot; after a failure the slot is free; no other file is touched |
| BranchRuns.RevalidateReopens | unionfs-1.3/commonfops.c:194-295 | a file is reopened exactly when its generation is over or its leftmost branch is another, and then has the lower files of a fresh open in the present generation; after a failure it keeps its old one; otherwise nothing changes |
| BranchRuns.DelayedCopyupMoves | unionfs-1.3/commonfops.c:297-341 | the one lower file moves to the nearest branch on the left that takes the copy, with one count more there and one less where it was; without such a branch nothing changes |
| BranchRuns.StaleCopyupBreaks | unionfs-1.3/commonfops.c:297-341 | whatever branch is added at or left of an open file, a copy-up of that file on its old indices breaks the invariant |
| BranchRuns.StaleCopyupReached | unionfs-1.3/commonfops.c:297-341 | such a state is reached from a mount by an open and an added branch |
| BranchRuns.FailedReopenReached | unionfs-1.3/commonfops.c:229-276 | a state is reached from a mount by an open and a new generation in which a failing reopen breaks the invariant |
| BranchRuns.LateTestReached | unionfs-1.3/branchman.c:455-490 | in a fresh mount, a refused mode change that breaks the invariant, and one of a branch past the end that is not refused |
| BranchRuns.StepKeepsIff | unionfs-1.3/branchman.c:169-490 | every step keeps the invariant if and only if it meets the conditions above |
| BranchRuns.ReachableCounts | unionfs-1.3/commonfops.c:26-51 | in every reachable state each counter is the number of open lower files that the putmaps place at that branch; each putmap counts the references of its generation and exists exactly while there are any; the last one belongs to the generation before the current |
| BranchRuns.ReferenceFollowsBranch | unionfs-1.3/branchman.c:40-61 | through any run of insertions and removals a live reference is in range and leads to the branch it was taken on |
| BranchRuns.UnmountFindsNoLeak | unionfs-1.3/super.c:148-150 | once every file is closed all counters are zero and no putmap is left |
| BranchManager.SuperBlock.NewPutmap | unionfs-1.3/branchman.c:63-137 | the loops over counters and putmaps compute the state function NewPutmap |
| BranchManager.SuperBlock.FixPutmaps | unionfs-1.3/branchman.c:40-61 | the nested loops compose the newest map onto every older one |
| BranchManager.SuperBlock.IncGen | unionfs-1.3/branchman.c:169-191 | a new generation, one more than the last, is the state function Advance |
| BranchManager.SuperBlock.AddBranch | unionfs-1.3/branchman.c:194-365 | the shifting of the tables in place is the insertion of the new branch, with its modes, and its map |
| BranchManager.SuperBlock.DelBranch | unionfs-1.3/branchman.c:371-453 | the shifting of the tables in place is the removal of the branch and its map; no other branch changes |
| BranchManager.SuperBlock.RdwrBranch | unionfs-1.3/branchman.c:455-490 | the order of putmap, tests and write is that of the code; the modes of one branch change |
| BranchManager.SuperBlock.BranchputGen | unionfs-1.3/commonfops.c:26-51 | the counter and the putmap change as DropRef says, the putmap freed when its count is zero |
| BranchManager.SuperBlock.OpenFile | unionfs-1.3/commonfops.c:348-492 | the loops of opening and of giving back on failure are the state function OpenFile, and open the lower files that OpenFileOpens says |
| BranchManager.SuperBlock.Revalidate | unionfs-1.3/commonfops.c:160-295 | closing and reopening is the state function Revalidate, with the lower files that RevalidateReopens says; in the leftmost branch a copy-up before a write succeeds with no lower file open |
| BranchManager.SuperBlock.DelayedCopyup | unionfs-1.3/commonfops.c:297-341 | the copy-up to the left and the closing of the old lower files is the state function DelayedCopyup |
| BranchManager.SuperBlock.Release | unionfs-1.3/commonfops.c:494-542 | the loop of release puts exactly the references held |
| UnionView.TopElse | unionfs-1.3/lookup.c:103-214 | where a name is found depends on nothing but its entries and its whiteouts |
| UnionView.OthersUnchanged | unionfs-1.3/lookup.c:103-214 | a change of one name and its whiteout leaves what every other name stands for |
| UnionView.OtherPathsUnchanged | unionfs-1.3/lookup.c:103-214 | and so for every path that begins with another name |
| UnionLookup.Dentry.Lookup | unionfs-1.3/lookup.c:79-245 | a full lookup is refused exactly for names that begin with ".wh." or "__dir_opaque", and otherwise fills the dentry, branch by branch, with what the view says, or makes it negative at the leftmost directory, with whatever object stands there beside a whiteout |
| UnionLookup.Dentry.LookIn | unionfs-1.3/lookup.c:103-214 | one branch: a whiteout or an opaque directory ends the search, a first file ends it successfully |
| UnionLookup.Dentry.PartialLookup | unionfs-1.3/lookup.c:94-214 | a partial lookup fills in what lies right of the known dentries up to the next branch that ends a search, and records that branch |
| UnionChanges.Union.CreateWhiteout | unionfs-1.3/subr.c:29-112 | the whiteout is made in the rightmost branch at or left of the start that can be written, or is found there, and nothing else changes; the exact errors |
| UnionChanges.CoveredBeyond | unionfs-1.3/unlink.c:130-138 | with the leftmost copy removed and an end of search known beyond, the whiteout lies in the last writable branch up to that end, no other copy and no other whiteout has changed, and the name is gone if and only if no copy is left uncovered |
| UnionChanges.Union.UnlinkWhiteout | unionfs-1.3/unlink.c:97-151 | its exact result, and a failure changes nothing; after success the leftmost copy is off the disk if its branch can be written, and every other copy is there; in which branch the whiteout lies, and that no other came or went; the name is gone if and only if no further copy lies short of the whiteout; other names and read-only branches are untouched |
| UnionChanges.UnlinkLeavesCopy | unionfs-1.3/unlink.c:130-138 | a successful unlink after which the name is still seen |
| UnionChanges.Union.UnlinkCopies | unionfs-1.3/unlink.c:41-64 | exactly the copies in writable branches are removed, up to a directory in a writable branch, at which it fails |
| UnionChanges.Union.UnlinkAll | unionfs-1.3/unlink.c:25-95 | its exact result: EISDIR for a directory in a writable branch that a partial lookup meets, an error where no branch can take the whiteout; exactly which copies are off the disk afterwards and in which branch a whiteout lies, if one is needed; after success the name is gone, after failure seen as before; other names and read-only branches are untouched |
| UnionCreate.NewDirEmpty | unionfs-1.3/subr.c:209-237 | a new opaque directory shows nothing whatever lies to its right |
| UnionCreate.Place | unionfs-1.3/inode.c:151-198 | the new object goes to the rightmost writable branch at or left of the start |
| UnionCreate.Create | unionfs-1.3/inode.c:32-208 | after success the name is the new empty file, in the rightmost writable branch, after failure it is still not seen; exactly what lies under the name and its whiteout in every branch; the exact conditions for EROFS and for EISDIR; read-only branches are kept exactly when the whiteout is empty or can be written |
| UnionCreate.RenameWhiteout | unionfs-1.3/inode.c:102-137 | the whiteout is gone and the new file there in its branch, unless a directory stands beside it, and then nothing changes |
| UnionCreate.InTheWay | unionfs-1.3/inode.c:109-115 | a name that is not seen and cannot be created |
| UnionCreate.TruncatesReadOnly | unionfs-1.3/inode.c:80-100 | a creation that changes a read-only branch |
| UnionCreate.Mkdir | unionfs-1.3/inode.c:469-595 | after success the name is a directory that shows nothing, in the rightmost writable branch and with the mark of an opaque one; exactly what lies under the name and its whiteout in every branch; the exact conditions for EROFS and EEXIST; after EROFS the name is still not seen, after EEXIST what stood beside its whiteout is |
| UnionCreate.MkdirReveals | unionfs-1.3/inode.c:513-533 | a mkdir that fails and makes a file visible |
| UnionReaddir.DirState.FindFilldirNode | unionfs-1.3/rdstate.c:203-246 | the hash search finds a name exactly when it has been met |
| UnionReaddir.DirState.AddFilldirNode | unionfs-1.3/rdstate.c:263-312 | a name is added to the table, and so is its whiteout |
| UnionReaddir.Filldir | unionfs-1.3/dirfops.c:42-94 | an entry is shown once, kept out by an earlier entry or whiteout, or refused when the buffer is full, and then not forgotten; it counts as written exactly when it is new |
| UnionReaddir.Readdir | unionfs-1.3/dirfops.c:134-207 | what a call hands out followed by what is then pending is what was pending before, with lower directories that return early wherever they like; it ends early only with a full buffer |
| UnionReaddir.CallsAddUp | unionfs-1.3/dirfops.c:118-207 | one call after the other, with buffers of any sizes, hand out in total what was pending; every buffer is full until the end |
| UnionReaddir.ReadFromStart | unionfs-1.3/dirfops.c:118-207 | whatever the buffers, a directory read from its start hands out a prefix of the same names, read to its end all of them; they are those of the merged listing if and only if none is misheard, and in its order when no directory is given up too early |
| UnionReaddir.HeardMembers | unionfs-1.3/dirfops.c:42-192 | a name is handed out at most once, and exactly when the first entry about it that is read is no whiteout |
| UnionReaddir.HeardAgreesExactly | unionfs-1.3/dirfops.c:134-192 | a name is handed out if and only if the merged listing has it, but for misheard names, for which it is the other way round |
| UnionReaddir.HeardSameExactly | unionfs-1.3/dirfops.c:134-192 | the calls hand out the names of the merged listing, each once, if and only if none is misheard |
| UnionReaddir.HeardAgainstLookup | unionfs-1.3/dirfops.c:42-192 | a name is handed out if and only if a lookup finds it, unless it is misheard or beside its own whiteout, and not both |
| UnionReaddir.CutExactly | unionfs-1.3/dirfops.c:188-191 | given up at some entry, a directory has added all its names to the table if and only if nothing new comes behind |
| UnionReaddir.CompleteHearsAll | unionfs-1.3/dirfops.c:134-192 | when no directory is given up too early what is handed out is the merged listing |
| UnionReaddir.OnePiece | unionfs-1.3/dirfops.c:161-192 | a lower file system that returns nowhere before the end loses nothing |
| UnionReaddir.GivenUpTooEarly | unionfs-1.3/dirfops.c:188-191 | a name that the merged listing has and the calls never hand out |
| UnionReaddir.RevealedByPiece | unionfs-1.3/dirfops.c:188-191 | a name that the calls hand out and the merged listing does not have |
| UnionReaddir.RevealedNotFound | unionfs-1.3/lookup.c:103-214 | that name is not found by a lookup in directories with these entries |
| UnionReaddir.RestMembers | unionfs-1.3/dirfops.c:42-94 | a name is listed at most once, and exactly when the first entry about it is no whiteout |
| UnionReaddir.ReaddirAgreesExactly | unionfs-1.3/dirfops.c:42-94 | the listing has a valid name if and only if the lookup finds it, unless the name stands before its own whiteout in one branch |
| UnionReaddir.ListedButNotFound | unionfs-1.3/dirfops.c:42-94 | a name that is listed and not found |
| UnionRmdir.CheckBranch | unionfs-1.3/dirhelper.c:122-162 | the callback fails exactly when the branch would show a name, and else records its whiteouts |
| UnionRmdir.CheckEmpty | unionfs-1.3/dirhelper.c:206-252 | the check succeeds if and only if the merged listing is empty |
| UnionRmdir.ConsideredExactly | unionfs-1.3/dirhelper.c:182-189 | the directories checked are those of the view if and only if none lies between an opaque directory and a later end of search |
| UnionRmdir.CheckedExactly | unionfs-1.3/dirhelper.c:182-252 | what is looked into lists nothing if and only if what is seen lists nothing and the directories behind add no name |
| UnionRmdir.EmptyShowsNothing | unionfs-1.3/dirhelper.c:206-252 | a union directory with an empty listing shows no name |
| UnionRmdir.DeleteWhiteouts | unionfs-1.3/dirhelper.c:25-110 | exactly the whiteouts recorded for the branch are removed |
| UnionRmdir.WhiteoutsAreAll | unionfs-1.3/unlink.c:187-200 | after that an empty directory has lost every whiteout and nothing else, and has nothing left unless a name stands beside its own whiteout |
| UnionRmdir.Rmdir | unionfs-1.3/unlink.c:296-361 | a removed directory showed no name; exactly when it is refused as not empty; the exact error of the removal of an empty one; after success its leftmost lower directory is off the disk if that branch can be written, in which branch the whiteout lies, and nothing else has changed; where the directory stays, what is left in it; other names and read-only branches are untouched |
| UnionRmdir.UncoveredShows | unionfs-1.3/unlink.c:187-200 | the directory that stays shows exactly the names that stood beside their whiteouts and those seen in what lies behind |
| UnionRmdir.RmdirUncovers | unionfs-1.3/unlink.c:187-200 | a directory that shows nothing, is refused, and then shows two names |
| UnionRmdir.RefusedThoughEmpty | unionfs-1.3/dirhelper.c:182-189 | a directory that shows no name and is refused |
| UnionCopyup.CopyData | unionfs-1.3/copyup.c:326-352 | the page-sized loop ends without an error if and only if the bytes asked for fit, or the branch is full at the end of a page and its write returns 0; the bytes copied |
| UnionCopyup.LoseEnd | unionfs-1.3/copyup.c:343-351 | a copy without an error that lacks the end of the file |
| UnionCopyup.CopyUpFile | unionfs-1.3/copyup.c:154-430 | a file copied to a branch left of all its copies is there with the bytes copied, is seen with them, and every other name is as before; no other branch changes |
| UnionCopyup.DirInFront | unionfs-1.3/copyup.c:235-237 | a directory made left of where the name is found joins the union directory |
| UnionCopyup.DirJoins | unionfs-1.3/copyup.c:556-721 | a directory made in any branch left of one that takes part joins the union directory, whether or not a branch further left has it too |
| UnionCopyup.LeftCanGraft | unionfs-1.3/copyup.c:556-721 | the parents can be made in any branch left of the file exactly when no file is in the way |
| UnionCopyup.GraftKeepsView | unionfs-1.3/copyup.c:556-721 | making the chain of parents in a branch leaves what every path leads to |
| UnionCopyup.WriteKeepsView | unionfs-1.3/copyup.c:154-430 | the file written below them is what its path leads to, and every other path leads where it did |
| UnionCopyup.GraftMakes | unionfs-1.3/copyup.c:556-721 | in the branch itself every directory of the path is there afterwards, and every other path leads where it did |
| UnionCopyup.WriteMakes | unionfs-1.3/copyup.c:154-430 | and the file with its bytes, nothing below it |
| UnionCopyup.CopyUp | unionfs-1.3/copyup.c:154-430 | copy-up of a file at any depth to any branch left of it: the file and its parents are in that branch afterwards and nothing else in it or in another branch has changed; no path leads anywhere else, the file has the bytes copied, and after a failure all of them, with only the parents made; the exact conditions for EROFS and ENOSPC |
| UnionCopyup.CopyUpLeft | unionfs-1.3/commonfops.c:248-267 | branch after branch is tried from the file leftwards: the copy is in the rightmost one that can be written and has room; those tried before that can be written have got the parents and nothing else, and nothing that failed attempts leave behind can be seen |
| PersistentInodes.InodeMap.ReadUin | unionfs-1.3/persistent_inode.c:532-565 | the number on record, or the next that no entry has had, at least 3; the forward map in every outcome; no other entry changes and a failed write changes no reverse entry; the maps stay inverse |
| PersistentInodes.InodeMap.WriteUin | unionfs-1.3/persistent_inode.c:496-575 | whichever of the two writes fail, the new maps, and exactly when they are still inverse |
| PersistentInodes.WriteUinBreaks | unionfs-1.3/persistent_inode.c:496-517 | two calls that break the maps: a place taken, and a write that fails half way |
| PersistentInodes.InodeMap.GetLin | unionfs-1.3/persistent_inode.c:584-611 | a number inside the map gives its entry, any other EINVAL; one that has been given out leads to a lower inode that has it on record |
| Compression.MangleRoundTrip | squashfs-tools/mksquashfs.c:306-327 | the size word gives back the stored length and the stored bytes the block, compressed or not |
| Compression.MangleStores | squashfs-tools/mksquashfs.c:306-327 | the size word says uncompressed if and only if that is asked for or compressing would not make the block shorter; then the bytes are the block and the word is its length with the bit, otherwise they are what it is compressed to, shorter, and the word is their length |
| Compression.EmptyBlockMisread | squashfs-tools/squashfs_fs.h:109-122 | the size word of an empty block reads back as the value of the bit itself |
| MetadataStream.BlockRoundTrip | squashfs-tools/unsquashfs.c:140-190 | a metadata block is read back from where it was written |
| MetadataStream.EmitStores | squashfs-tools/mksquashfs.c:330-375 | the bytes of a metadata block: the size word low byte first, with bit 0x8000 exactly for data stored as they are, the marker 0xff if there are markers, then the data or what they are compressed to |
| MetadataStream.RawTable | squashfs-tools/mksquashfs.c:410-479 | with inodes uncompressed, block k of the table begins at 8194 k, or 8195 k with markers, and is a header with its length and the bytes of the stream as they are |
| MetadataStream.Writer.GetInode | squashfs-tools/mksquashfs.c:330-375 | the reference handed out is that of the position where the bytes go, with an offset below 8192, even across blocks |
| MetadataStream.RefStable | squashfs-tools/mksquashfs.c:258 | a reference stays right while more is written |
| MetadataStream.Writer.Finish | squashfs-tools/mksquashfs.c:410-479 | the rest of the cache goes out, and the table is the blocks of the whole stream |
| MetadataStream.HashTable.LookupEntry | squashfs-tools/unsquashfs.c:107-117 | the chained search gives the position entered for a block, or -1 |
| MetadataStream.LoadTable | squashfs-tools/unsquashfs.c:225-241 | the uncompressed table is the stream that was written, and every block start is entered with its position |
| MetadataStream.ResolvesExactly | squashfs-tools/unsquashfs.c:679-687 | a reference is resolved to its position, unless that is the end of a stream that ends on a block boundary |
| MetadataStream.UncompressTable | squashfs-tools/unsquashfs.c:593-606 | every reference to a byte of the stream is resolved to that byte |
| DirectoryFormat.EntryReadsBack | squashfs-tools/unsquashfs.c:714-739 | offset, type, length, name and inode number of an entry are read back from its bytes |
| DirectoryFormat.HeaderReadsBack | squashfs-tools/unsquashfs.c:702-712 | so are count, block and base number of a header |
| DirectoryFormat.ShortDirectoryFits | squashfs-tools/mksquashfs.c:1380-1386 | a directory that is not long has a size + 3 below 2^19, its headers included |
| DirectoryWriter.BodyJoin | squashfs-tools/mksquashfs.c:768-779 | an entry appended to the open run keeps the buffer the bytes of the runs |
| DirectoryWriter.BodyStart | squashfs-tools/mksquashfs.c:759-779 | so does an entry that begins a run |
| DirectoryWriter.Directory.AddDir | squashfs-tools/mksquashfs.c:709-779 | the entry, its name cut to 256, is added to the listing, in the open run or in a new one with its block and number as base; a run is begun exactly when the open one cannot take it or the segment would pass 8192, and then an index point is set exactly in the second case and not before the first run; runs hold 1 to 256 entries with deltas of 16 bits; the buffer never overflows |
| DirectoryWriter.IndexPointDecodes | squashfs-tools/mksquashfs.c:738-746 | an index point lies on a header, and from there the directory decodes as the entries from the indexed name on |
| DirectoryWriter.PointsFar | squashfs-tools/mksquashfs.c:738-746 | points stay 7932 to 8201 bytes apart |
| DirectoryWriter.IndexCountFits | squashfs-tools/mksquashfs.c:588-604 | the number of index points fits 16 bits in every directory of fewer than 2^27 bytes |
| DirectoryTable.WriteDir | squashfs-tools/mksquashfs.c:782-845 | the reference returned locates the directory, the offset below 8192, and every index point gets the block that holds its byte |
| DirectoryTable.AssignBlocks | squashfs-tools/mksquashfs.c:817-819 | the points inside the block being filled, and no others, get its position |
| DirectoryTable.LocatedStable | squashfs-tools/mksquashfs.c:810-845 | the blocks of index points stay right while more directories follow |
| DirectoryTable.EntryInRun | squashfs-tools/unsquashfs.c:714-739 | an entry lies behind the entries before it |
| DirectoryTable.ReadRuns | squashfs-tools/unsquashfs.c:702-741 | decoding the bytes of a directory gives its names, blocks, offsets and types in order |
| DirectoryTable.OpenDirectory | squashfs-tools/unsquashfs.c:679-745 | so does opening it by its reference, except for an empty directory where the table ends on a block boundary |
| DirectoryImage.WriteAndList | squashfs-tools/mksquashfs.c:699-845 | any directories, built entry by entry, written, loaded and opened by the references handed out, list their entries in order; exactly which empty ones are not found |
| DirectoryImage.EmptyRoot | squashfs-tools/unsquashfs.c:679-687 | the root of an image with nothing in it cannot be opened |
| FileBlocks.PiecesUnique | squashfs-tools/mksquashfs.c:1206-1214 | there is one way to cut a file into blocks |
| FileBlocks.CountPieces | squashfs-tools/unsquashfs.c:457-462 | without a fragment the reader derives the writer's number of blocks |
| FileBlocks.CountFull | squashfs-tools/mksquashfs.c:1182-1186 | with a fragment the blocks are all full, as many as the reader derives |
| FileBlocks.BlocksRoundTrip | squashfs-tools/unsquashfs.c:374-388 | stored blocks decode to the text that was cut, and none comes back empty |
| FileBlocks.DataStores | squashfs-tools/mksquashfs.c:1206-1219 | each block is stored as it is exactly when that is asked for or it would not get shorter, and its size word says so; without compression the stored bytes are the text |
| FileBlocks.ReadBlocksStable | squashfs-tools/unsquashfs.c:193-222 | stored blocks are read alike whatever is written behind them |
| FileBlocks.SharedBlocksExactly | squashfs-tools/mksquashfs.c:1101-1138 | stored bytes shared with an earlier file are read back as the second file if and only if the block lists agree |
| Checksums.RollConcat | squashfs-tools/mksquashfs.c:1037-1055 | the checksum of two pieces is the checksum of the first rolled on over the second |
| Checksums.StepBack | squashfs-tools/mksquashfs.c:1037-1055 | a step of the checksum rotates 16 bits to the right and adds the byte: taking the byte off and rotating back gives the old value |
| Checksums.GetChecksum | squashfs-tools/mksquashfs.c:1037-1055 | the checksum does not depend on how the data is cut |
| FileWriter.ChainSearch | squashfs-tools/mksquashfs.c:1092-1138 | searching the one chain finds what a search of all files would |
| FileWriter.RecsStay | squashfs-tools/mksquashfs.c:919-964 | files on record stay where they are while the disk and the fragments grow |
| FileWriter.CountsAgree | squashfs-tools/unsquashfs.c:457-462 | the reader derives the number of blocks and of tail bytes with which the writer worked |
| FileWriter.RawStored | squashfs-tools/mksquashfs.c:1206-1219 | with data uncompressed the stored bytes of a file are its blocks as they are, and each size word is the length of a block with the bit |
| FileWriter.WrittenBack | squashfs-tools/mksquashfs.c:1244-1257 | a file stored for itself is extracted again |
| FileWriter.SharedBack | squashfs-tools/mksquashfs.c:1129-1136 | a duplicate is extracted again if and only if its block list agrees with that of the file it shares with |
| FileWriter.ExtractStable | squashfs-tools/mksquashfs.c:919-964 | what has been stored is extracted alike after everything that follows |
| FileWriter.ImageWriter.WriteFragment | squashfs-tools/mksquashfs.c:919-940 | the fragment block goes to the disk under the next index, as it is exactly when that is asked for or it would not get shorter, with a size word that says so; nothing is written for an empty one; all fragments keep their bytes |
| FileWriter.ImageWriter.GetAndFillFragment | squashfs-tools/mksquashfs.c:943-964 | the fragment stands for the bytes given, at the end of the block in memory, which goes to the disk first exactly when they would make it longer than a block; it lies behind every slice handed out before |
| FileWriter.ImageWriter.SameData | squashfs-tools/mksquashfs.c:1102-1116 | the comparison piece by piece compares the stored bytes |
| FileWriter.ImageWriter.SameTail | squashfs-tools/mksquashfs.c:1117-1136 | in memory, cached or on the disk, the tail compared is the one on record |
| FileWriter.ImageWriter.Duplicate | squashfs-tools/mksquashfs.c:1092-1138 | a match is reported if and only if a file on record has the same stored bytes and the same tail, and it is the newest |
| FileWriter.ImageWriter.Record | squashfs-tools/mksquashfs.c:1141-1160 | the chains stay the files on record with their checksums |
| FileWriter.ImageWriter.CompressBlocks | squashfs-tools/mksquashfs.c:1206-1219 | the loop stores the blocks of the file one behind the other |
| FileWriter.ImageWriter.WriteFile | squashfs-tools/mksquashfs.c:1165-1257 | a file is stored at the end of the disk unless it is a duplicate, for which nothing is written; exactly the bytes that are; a file stored is extracted again; a duplicate is extracted again if and only if the block lists agree; earlier files are kept |
| FileReader.Extractor.ReadFragment | squashfs-tools/unsquashfs.c:329-344 | the cached or newly read block is what the writer filled |
| FileReader.Extractor.WriteFile | squashfs-tools/unsquashfs.c:347-407 | extraction is the specified one, and fails exactly when a block comes back empty |
| FileImage.ListsTellApart | squashfs-tools/mksquashfs.c:1092-1138 | of two files that duplicate checking takes for the same, the block lists agree if and only if the files do |
| FileImage.RawTellsApart | squashfs-tools/mksquashfs.c:1092-1138 | with data uncompressed no two files are taken for the same, so that each comes back |
| FileImage.PackAndUnpack | squashfs-tools/mksquashfs.c:1165-1257 | of any files written one after the other, each is extracted as it was if and only if the first of those taken for the same is the same |
| FileImage.CompressedTwin | squashfs-tools/mksquashfs.c:1101-1138 | a file and what it is compressed to are taken for the same |
| FileImage.LoseFile | squashfs-tools/mksquashfs.c:1101-1138 | an image of two files of which the second does not come back |
| FragmentTable.WriteFragmentTable | squashfs-tools/mksquashfs.c:967-1003 | every block but an empty last one is a metadata block of its part of the table |
| FragmentTable.ReadFragmentTable | squashfs-tools/unsquashfs.c:294-326 | the table comes back if and only if there are no fragments or their number is no multiple of 512 |
| FragmentTable.WriteAndRead | squashfs-tools/mksquashfs.c:967-1003 | so when the writer's blocks are read |
| FragmentTable.LostAt512 | squashfs-tools/mksquashfs.c:985-998 | a table of 512 fragments is lost |
| FragmentTable.SixteenBytesEach | squashfs-tools/squashfs_fs.h:144-156 | the length of the table is a multiple of 8192 bytes if and only if the number of fragments is one of 512 |
| InodeScan.RegFields | squashfs-tools/read_fs.c:172-190 | fragment and size of a regular file are read where they were laid down |
| InodeScan.SkipIndex | squashfs-tools/read_fs.c:305-314 | the loop over a directory index ends where the index does |
| InodeScan.Step | squashfs-tools/read_fs.c:172-335 | by type, the cursor moves by the length of the record and the right count goes up |
| InodeScan.ScanInodeTable | squashfs-tools/read_fs.c:138-335 | the walk stops at every record laid down and nowhere else, ends at the root inode, never reads past the table and counts every kind rightly |
| BitFields.NumOfBits | squashfs-tools/mksquashfs.h:36-47 | a value that fits its field is the number its bits stand for |
| BitFields.CutMod | squashfs-tools/mksquashfs.h:36-47 | cutting a value to a field of n bits is taking it modulo 2^n |
| BitFields.SwapOut | squashfs-tools/mksquashfs.h:36-47 | exactly the bits of the field are OR-ed in; a value too wide does no harm at the start of a byte |
| BitFields.SwapIn | squashfs-tools/read_fs.h:36-48 | cut to its width, the word read is the number in the bits of the field |
| BitFields.HoldingStep | squashfs-tools/squashfs_fs.h:363-485 | a further field leaves every field before it |
| BitFields.PackRecord | squashfs-tools/squashfs_fs.h:363-485 | after packing, every field holds its value |
| BitFields.UnpackRecord | squashfs-tools/squashfs_fs.h:363-485 | reading a packed record gives every value, cut to the width of its field |
| BitFields.TightRecord | squashfs-tools/squashfs_fs.h:363-485 | fields without gaps do not overlap and fit, which is what packing asks for |
| BitFields.RecordsTight | squashfs-tools/squashfs_fs.h:446-485 | the directory and fragment records leave no gap and every field can be moved as one word |
| BitFields.SuperBlockTight | squashfs-tools/squashfs_fs.h:332-361 | so does the superblock, of 119 bytes |
| BitFields.InodeRecordsTight | squashfs-tools/squashfs_fs.h:363-444 | so do the inode records, with the sizes of their structures |
| BitFields.ThereAndBack | squashfs-tools/squashfs_fs.h:332-485 | a record of any of the formats, packed and read again, gives every value modulo the limit of its field, as LimitsFit lists them |
| BitFields.LimitsFit | squashfs-tools/squashfs_fs.h:332-485 | for each field of each structure the first number that it cannot hold, the power of two of its width |
| BitFields.WholeBytes | squashfs-tools/mksquashfs.h:36-47 | a field of whole bytes is their number, high byte first |
| SwappedRecords.DirEntryBack | squashfs-tools/squashfs_fs.h:460-467 | every entry with an offset below 8192, a type below 8, a name of 1 to 256 bytes and a delta of 16 bits comes back; its five bytes are 8 times the offset plus the type, the length less one and the delta |
| SwappedRecords.DirHeaderBack | squashfs-tools/squashfs_fs.h:452-458 | a count of 1 to 256, a block and a base of 32 bits come back, and the bytes at which each lies |
| SwappedRecords.DirIndexBack | squashfs-tools/squashfs_fs.h:444-450 | so do index, block and the length of a name of 1 to 256 bytes |
| SwappedRecords.BaseInodeBack | squashfs-tools/squashfs_fs.h:363-375 | type below 16, mode below 4096, uid and guid below 256, time and number of 32 bits come back |
| SwappedRecords.IpcInodeBack | squashfs-tools/squashfs_fs.h:377-382 | so do those of a pipe or socket, with a link count of 32 bits |
| SwappedRecords.DevInodeBack | squashfs-tools/squashfs_fs.h:384-390 | and those of a device, with a number of 16 bits |
| SwappedRecords.SymlinkInodeBack | squashfs-tools/squashfs_fs.h:392-398 | and those of a symbolic link, with a length below 65536 |
| SwappedRecords.RegInodeBack | squashfs-tools/squashfs_fs.h:400-408 | and those of a regular file, with a start of 64 bits, fragment, offset and size of 32, at the bytes at which the scan of inodes looks for them |
| SwappedRecords.LregInodeBack | squashfs-tools/squashfs_fs.h:410-419 | and those of a long one, with start and size of 64 bits |
| SwappedRecords.DirInodeBack | squashfs-tools/squashfs_fs.h:421-430 | and those of a directory of fewer than 2^19 bytes at an offset below 8192 |
| SwappedRecords.LdirInodeBack | squashfs-tools/squashfs_fs.h:432-442 | and those of a long one, of fewer than 2^27 bytes and with fewer than 65536 index points |
| SwappedRecords.FragmentEntryBack | squashfs-tools/squashfs_fs.h:469-474 | start of 64 bits and size of 32, and the bytes at which they lie |

## Left out

- BranchSteps.RdwrBranchKeepsIff: the write behind the end of the branch table itself is not modelled, only that the outcome is possible.
- UnionReaddir.Readdir: where a lower file system returns early is a matter of the position in the directory alone, and errors of the lower readdir are left out.
- UnionReaddir.Readdir: the cookie in the file position and the search for a saved state by it; the state stays with the open file.
- DirectoryWriter.Directory.AddDir: names are not empty and contain no zero byte, and the sizes fit the fields of the format.
- InodeScan.ScanInodeTable: the total of directory bytes and the recording of the files found, and the failure on an unknown type, which no record laid down has.
- FileWriter.ImageWriter.WriteFile: the path taken when there is no memory for a whole file, and short reads of a file that shrinks.
- MetadataStream.Writer.GetInode: the growing of the buffers; one writer class stands for the inode and the directory table.
- UnionCopyup.CopyUp: a file that is in the way of a parent in the target branch, where create_parents_named goes on with no lower directory; and files other than regular ones.
- FragmentTable.WriteFragmentTable: cbuffer is one byte shorter than what is written from it for an empty last block of an image with markers; the byte behind it is part of `scratch`.
- UnionCopyup.GraftKeepsView: the chain of parents is a function on the entries of a branch, not the loop over a stack of dentries; no single directory is changed in place.
- UnionRmdir.Rmdir: rmdir in delete=all mode.
- Failures of memory allocation, locks, reference counts of the kernel, permissions other than those of branches, attributes and link counts.
- newputmap allocates its list from the old last generation and stores one entry more; the model's list is long enough. Its loop also looks at one entry before it tests the bound.
- fixputmaps can read behind the end of a map for slots that no file uses; what it finds there is arbitrary in the model.
- The generation of the inode at open and after reopening is taken to be the current one.
- Directories that mix a directory and a file of one name across branches, except as the lookup sees them; whiteouts that are not regular files; the entries "." and "..".
- Rename, links and symbolic links, mknod, xattrs, mmap and the ioctls that only report.
- Union dentries after an operation: they are dropped, and the next lookup starts afresh.
- The headers of the persistent inode maps and their verification at mount.
- Appending to an image, sorting, uid and gid tables, option parsing, the superblock except for the packing of its fields, devices, and images beyond 2^31 bytes.
- SquashFS on hosts of the other byte order, except for the swapping macros, and the 1.0 and 2.0 formats.
- zlib and the disk: writes to the image succeed.
