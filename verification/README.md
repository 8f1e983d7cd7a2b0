# fstree, modelled and verified in Dafny

fstree keeps directory trees in a content-addressed store: every file and every directory listing
is an object named by its hash, so a tree is named by the hash of its top listing. This project
models the parts of the program that are hardest to get right and proves what they are for.

| file | models |
|---|---|
| `Paths.dfy`, `Entries.dfy`, `Sums.dfy` | relative paths and their byte order (`a` < `a.b` < `a/x`), index lines, sums |
| `Checkout.dfy` | `index::checkout`: a merge of two sorted lists that edits a workspace in place |
| `Inodes.dfy`, `Scan.dfy`, `Refresh.dfy` | linked inodes with `set_dirty` and `unignore`, a scan from the disk to the sorted list, and `index::refresh`, which reuses old hashes |
| `CacheAdd.dfy`, `Incremental.dfy`, `Reuse.dfy` | `cache::add`: tree objects bottom-up; refresh followed by add; what a second refresh reuses |
| `Codec.dfy`, `Layout.dfy`, `Merkle.dfy` | the two binary formats, their bytes position by position, and what equal digests mean |
| `Trees.dfy`, `Reading.dfy`, `ReadOutcome.dfy`, `RoundTrip.dfy` | what a tree digest stands for, the parallel `index_from_tree` and how it ends, disk to cache and back |
| `Push.dfy`, `PushOutcome.dfy`, `Pull.dfy`, `PullExact.dfy`, `PullOutcome.dfy` | the push and pull protocols as step relations, and how they end |
| `Pool.dfy` | the thread pool under the nested directory scan |
| `Wildcard.dfy`, `Glob.dfy`, `GlobOnce.dfy`, `MultiGlob.dfy` | the segment matcher, the recursive descent, how often it finds a node, several patterns at once |
| `Regexes.dfy`, `GlobList.dfy`, `GlobLanguage.dfy` | patterns compiled to a regular expression, and what that matches |
| `GlobAgreement.dfy`, `GlobExact.dfy`, `GlobStars.dfy`, `GlobLeading.dfy`, `GlobMiddle.dfy` | for which patterns the compiled form and the descent agree, without `**` and with it at the end, at the beginning and in the middle |
| `Merge.dfy`, `Metadata.dfy`, `Evict.dfy` | `index::merge`, `copy_metadata`, cache eviction |
| `PullCheckout.dfy`, `Reproduce.dfy` | the end of the pull-checkout command: pulled index, copied times, checkout; the saved index and hashing the result again |

How the program's notions appear:

- A path is a string in which a `char` stands for one byte. `Below(t, p)` says that t lies in the
  directory p at any depth.
- The hash is an arbitrary function `H`. No theorem assumes that it is injective: where two objects
  could have the same digest the conclusion is "or here are two byte strings that collide".
- The local cache and a remote are maps from digests to objects. An exception is a result `ok ==
  false`, a `None`, or a state `Threw`.
- Objects that the program updates in place (`index`, `inode`, the cache, a cache subdirectory,
  `glob_list`, the file system) are classes; loops are loops.
- Threads are step relations: each section under a mutex, each lookup, each copy, each remote call
  and each wait is one step, and the theorems hold for every sequence of steps. The counts of
  `semaphore` and `wait_group` are fields of these relations' states.

Some results are about when the program does not do what one would like, and then say exactly when:

- `checkout` keeps a file whose modification time is the one in the index. The workspace is the index
  afterwards exactly when those files had the right content and nothing was removed through a link
  (`Checkout.Index.Checkout`). For a pulled tree, whose entries have time zero unless a time was copied,
  this leaves the files with time zero on disk (`PullCheckout.CheckoutPulled`,
  `PullCheckout.StaleExample`).
- Once the index has ended, `checkout` removes what is left of the listing without the test for a link
  above it. Where a directory became a link this can remove an entry of the index
  (`Checkout.LostExample`).
- With nothing to remove through a link, `checkout` fails exactly when the cache lacks a file that is not
  kept, or when the file system's `remove_all` reports ENOTDIR for a path below a file, a directory became
  a file and something sorts between it and one of its children (`Checkout.Index.Checkout`,
  `Checkout.StrandedExample`). Whatever happens, what is on disk afterwards is as it was
  or as the index wants it.
- After `write-tree`, the next refresh of an unchanged workspace reuses the digest of every file, and that of
  every directory except those with a link below them: a link has no digest, which is taken for a stale one
  (`Reuse.RefreshAgain`).
- `glob_match_segment` compares a star in a name as a literal first: it matches exactly if a star of the
  pattern that meets a star is taken to be that star (`Wildcard.MatchSegment`). It is right about a name for
  all patterns exactly when the name has no star (`Wildcard.ExactNames`).
- A single pattern can find a node more than once: exactly when the segments to descend with, counting
  the implicit leading `**`, hold `**` twice and no empty segment (`GlobOnce.OnceExactly`,
  `GlobOnce.TwiceExample`).
- For patterns without characters that are special in regular expressions and with single stars only, the
  two glob implementations agree on all paths exactly when every `?` inside a segment is harmless: its
  segment is `*?*`, and all segments after it match every name, or all before it do and the pattern is not
  anchored (`GlobExact.AgreeExactlyWhen`).
- `**` at the end is as good as a star (`GlobStars.TrailAgreesExactlyWhen`). At the beginning the compiled
  form may let it end inside a name, so there the next segment has to begin with a star or be `?*`
  (`GlobLeading.LeadAgreesExactlyWhen`, `GlobLeading.AroundAgreesExactlyWhen`). In the middle it is compiled
  to one component of any length followed by components of one character each, so `a/**/b` misses
  `a/xx/yy/b` (`GlobMiddle.MissedExample`); with a plain character on each side of it the two never
  agree on all paths (`GlobMiddle.MiddleDiffers`).
- Status bits keep exactly the permissions within 0777, and digest text exactly the digests of the
  right length (`Codec.StatusRoundTrip`, `Codec.DigestRoundTrip`).

## Model

| member | source | states |
|---|---|---|
| Paths.LessExactly | src/index.cpp:238-241 | the order of all sorted lists: by the first byte in which two paths differ, and a path before whatever begins with it |
| Checkout.Index.Checkout | src/index.cpp:243-381 | when it succeeds the disk has exactly the index's paths, each with its type, permissions and target, files with the stored content or, if they had the index's time, untouched but for permissions, unless an entry was removed through a link and is missing; so it is the index exactly when those times told the content and nothing was lost; only times in the index change; with nothing to remove through a link it succeeds exactly when the cache holds every file that is not kept and, on a strict file system, nothing is stranded, and if the file system is not strict the cache alone decides in any case; whether it succeeds or not, each path on disk is as it was or as the index wants it |
| Checkout.Index.CheckoutNode | src/index.cpp:383-433 | the entry is on disk as the index says, the index has the time it got there, a new directory included, and nothing else on disk or in the index has changed; it fails exactly when the file is not in the cache |
| Checkout.Index.ReplaceDirectory | src/index.cpp:316-333 | a directory that became a file or link is gone with all below it, the run of listing entries below it is skipped, no later entry is lost, and the invariant of the merge holds again |
| Checkout.Index.Replace | src/index.cpp:335-348 | an entry of another type is replaced and no other path is touched |
| Checkout.Index.Update | src/index.cpp:351-374 | after comparing time, permissions and target the entry is as the index says, except that a file with the index's time keeps its content and a link with it is not touched; a directory keeps its time in the index; it succeeds exactly when the file is kept or in the cache |
| Checkout.Index.RemoveOld | src/index.cpp:284-302 | what is below a link is passed over, anything else removed; either way every finished entry and every entry still to come is kept, and it fails only when an entry is stranded below a file |
| Checkout.Index.RemoveRest | src/index.cpp:271-282 | what is left of the listing goes, with a link above it from where the path leads, and it fails exactly on a strict file system where that is below a file; all entries stay settled until one is removed through a link, and then something stays missing; without links it fails only when an entry is stranded below a file |
| Checkout.Index.CheckoutNew | src/index.cpp:304-309 | an entry that the listing passes over is not on disk, so creating it keeps the invariant |
| Checkout.SkipBelow | src/index.cpp:322-329 | the skip ends at the first listing entry that is not below the directory |
| Checkout.StepRemoveAll | src/index.cpp:295-300 | removing a path that is not an index directory takes away nothing that the index needs or that is still to be compared |
| Checkout.AbsentOnDisk | src/index.cpp:304-309 | an index entry that the listing has passed over is not on disk at that moment |
| Checkout.PresentOnDisk | src/index.cpp:311-312 | where both lists hold a path, the disk still has what the listing says |
| Checkout.LinkIsStranded | src/index.cpp:284-293 | a link above a listing entry is one that a directory became, and the entry sorts after something outside that directory |
| Checkout.StepPass | src/index.cpp:284-293 | passing over an entry below a link is right: it is not on disk |
| Checkout.DetachedIsStranded | src/index.cpp:295-299 | removing below a file happens only for an entry stranded below a directory that became one |
| Checkout.StrandedIsBelow | src/index.cpp:316-329 | every stranded entry is met below the file or link its directory became |
| Checkout.StepThrough | src/index.cpp:271-282 | removing through a link takes an index entry away exactly where the link leads to one |
| Checkout.ConvergedIff | src/index.cpp:351-374 | a disk that checkout has settled is the index exactly when equal times meant equal content |
| Checkout.StrandedExample | src/index.cpp:322-329 | a workspace `a/`, `a.b`, `a/x` and an index `a`, `a.b` meet all premises and strand `a/x` |
| Checkout.LostExample | src/index.cpp:271-282 | a workspace `0/x`, `d/`, `d.b`, `d/x` and an index where `d` is a link to `0` meet all premises and lose `0/x` |
| Inodes.Inode.SetDirty | src/inode.cpp:84-89 | clears the hash here and of exactly the clean run of inodes directly above; nothing beyond the first dirty one changes |
| Inodes.Inode.Unignore | src/inode.cpp:115-120 | marks this inode and exactly the unmarked run directly above it |
| Inodes.AboveInTree | src/directory_iterator_posix.cpp:100-105 | whatever is linked above a scanned inode is the root or comes earlier in the sorted list and lies above it by path |
| Scan.ReadDirectories | src/directory_iterator_posix.cpp:29-130 | in whatever order the entries of opened directories are met, an entry of the disk gets an inode, exactly one, that says what is on disk and is linked to its directory, exactly when nothing at or above it is called `.fstree` or is a directory that matches the ignore list |
| Scan.Collect | src/directory_iterator.cpp:20-45 | entries read in any order are sorted, exactly the files and links that match the ignore list are marked and taken out, and the rest is the list that refresh and add start from |
| Scan.Mark | src/directory_iterator.cpp:28-40 | marking in reverse order while unignoring upwards leaves exactly the files and links that match marked: only directories are above anything |
| Scan.SeenIsReached | src/directory_iterator_posix.cpp:48-57 | passing over an entry in its directory leaves out all below it and nothing else: what the descent sees are the entries with nothing passed over at or above them |
| Scan.Scan | src/directory_iterator.cpp:20-45 | from the disk to the list that refresh and add start from: it holds exactly the entries with nothing at or above them called `.fstree` and no matching directory at or above them, except files and links that match |
| Scan.WholeListing | src/directory_iterator.cpp:20-45 | with nothing to ignore the list is the listing of the disk that a checkout starts from |
| Refresh.Refresh | src/index.cpp:633-701 | the new index is the scanned list in order; an inode ends with the digest of its line in the index if that line agrees in path, type, permissions, time and target, has 40 digits of sha1 or 64 of blake3 as the program is built, and the same holds of whatever the index has below it; otherwise with none |
| Refresh.DirtyGoesUp | src/inode.cpp:84-89 | among inodes the index holds, everything above a dirty one is dirty, so stopping at the first dirty inode loses nothing |
| Refresh.DirtyUpward | src/index.cpp:633-701 | if a directory that gains an entry does not look as the index remembers it, every dirty inode has a dirty parent |
| Refresh.Match | src/index.cpp:678-694 | one match of the two lists keeps the rule for all inodes seen so far |
| Refresh.KeptIsReused | src/index.cpp:683-694 | the rule that the merge keeps, by matches and rejections so far, is that condition on the two lists |
| CacheAdd.Add | src/cache.cpp:62-130 | every directory and the root carry the digest of their tree object made of their children's final digests, every file that of its content, all are in the cache, no cached object is lost or replaced and none is added but these, other inodes keep their hash |
| CacheAdd.AddFiles | src/cache.cpp:73-98 | however the file tasks interleave, with hashing, looking the object up and storing it as separate steps, so that several may store the same object, all files are hashed and stored, no object that was cached is lost or replaced, and no directory's hash changes |
| CacheAdd.AddTrees | src/cache.cpp:116-129 | writing in reverse list order leaves every directory's digest current |
| CacheAdd.CreateDirtree | src/cache.cpp:224-276 | the inode gets the digest of the listing of its visible children in path order, and the object is stored unless it is there |
| CacheAdd.BuildStep | src/cache.cpp:116-127 | rewriting one directory keeps all finished ones right, provided it was finished itself if a finished one contains it |
| CacheAdd.CleanStays | src/cache.cpp:101-108 | hashing the dirty files cannot make the digest of a clean directory wrong |
| CacheAdd.ChildrenSorted | src/inode.cpp:91-93 | the sorted visible children of a directory are the entries of the sorted list whose parent path it is, in the same order |
| Incremental.RefreshCurrent | src/index.cpp:633-701 | every hash that refresh keeps is the one of the present files and directories |
| Incremental.CleanDirCurrent | src/index.cpp:680-694 | a directory that keeps its hash has the very children, digests included, that the index had for it |
| Incremental.WriteTreeCommand | src/main.cpp:312-314 | refresh and add from any right index give the digests of the present state for all inodes, as a build from nothing would, and store everything |
| Reuse.RefreshAgain | src/main.cpp:301-314 | write-tree followed by a refresh of an unchanged workspace: every file keeps its digest, and a directory is dirty exactly when a link lies below it |
| Reuse.UnchangedKeeps | src/index.cpp:678-694 | an unchanged scan against full digests: every inode keeps its digest unless a link lies below it |
| Codec.StatusRoundTrip | src/status.cpp:10-56 | unpacking gives the type back always, and the permissions exactly when they are within 0777 |
| Codec.DigestRoundTrip | src/digest.cpp:13-56 | parsing the text gives the digest back exactly when its length fits its algorithm |
| Codec.TreeRoundTrip | src/inode.cpp:136-253 | decoding an encoded list of children gives every name, digest, status and target back |
| Codec.EncodeTreeInjective | src/inode.cpp:136-182 | different lists of children have different tree objects |
| Codec.ChildrenRoundTrip | src/inode.cpp:136-253 | reading a directory's tree object gives its visible children with full paths and without times |
| Codec.JoinParentName | src/inode.cpp:245-246 | the path rebuilt from parent and name is the path itself |
| Codec.WriteTree | src/inode.cpp:136-182 | the loop writes the header and the children that are not ignored, in order |
| Codec.ReadTree | src/inode.cpp:184-253 | the loop accepts exactly the streams that decode, and gives the decoded children |
| Codec.IndexRoundTrip | src/index.cpp:82-202 | loading a saved index gives every path, digest, status, time and target back |
| Codec.Save | src/index.cpp:82-131 | the loop writes the encoding of all lines |
| Codec.Load | src/index.cpp:138-202 | the loop accepts exactly the streams that decode, and gives the decoded lines |
| Codec.TimeRoundTrip | src/index.cpp:117-119 | a signed 64-bit time survives its two's complement bytes |
| Layout.ParseExactly | src/digest.cpp:25-56 | a text is read as a digest exactly if it is its text, or its digits alone without a colon |
| Layout.TreeWritten | src/inode.cpp:136-182 | a tree object, byte by byte: magic and version, then for each child the lengths, name, digest text, status bits, and for a link its target; numbers least significant byte first |
| Layout.TreeExactly | src/inode.cpp:184-253 | exactly the streams laid out so are accepted, and what they say is returned |
| Layout.IndexWritten | src/index.cpp:82-131 | an index file, byte by byte, with the time after the status bits |
| Layout.IndexExactly | src/index.cpp:138-202 | exactly the streams laid out so are accepted, and what they say is returned |
| Merkle.DigestDeterminesTree | src/cache.cpp:224-254 | equal root digests mean equal names, types, permissions, targets and contents at every depth, or a collision |
| Merkle.Collision | src/inode.cpp:136-182 | from two different trees with the same digest two different byte strings with the same hash are computed |
| Trees.Unfold | src/cache.cpp:132-152 | below a directory are its children and what is below them, however deep one looks |
| Reading.ReadTheorem | src/cache.cpp:154-198 | in every interleaving a read of a complete tree does not throw, is never stuck, ends within a bound, and delivers everything below the root exactly as often as it occurs |
| ReadOutcome.Outcome | src/cache.cpp:154-198 | for any cache and in every interleaving, a read that cannot go on has returned if every tree object is there, with everything below the root as often as it occurs, and has thrown if one is not |
| Reading.StepKeeps | src/cache.cpp:166-197 | every step keeps: appended plus still to come is everything below the root, and the wait group counts the unfinished tasks |
| Reading.StepShrinks | src/cache.cpp:166-197 | every step uses up some of the work left |
| Reading.Progress | src/cache.cpp:166-197 | until it has returned some step is possible |
| RoundTrip.WriteReadRoundTrip | src/main.cpp:164-165 | reading back what add stored and sorting gives exactly the entries with path, status, target and digest, in every interleaving, or the hash collides |
| RoundTrip.PullRoundTrip | src/main.cpp:261-262 | the same for a pull from a cache and a remote that hold the objects between them |
| RoundTrip.TreeIsList | src/cache.cpp:224-276 | the stored tree objects describe exactly the listed entries, each once |
| RoundTrip.StoredOrCollision | src/cache.cpp:255-262 | an object under the digest of a tree object is that tree object, or the two collide |
| RoundTrip.SortUnique | src/index.cpp:238-241 | sorting entries with distinct paths has one possible outcome |
| RoundTrip.AddIsWritable | src/cache.cpp:62-130 | what add leaves in the inodes fits a tree object, so that the round trips apply to it |
| RoundTrip.CheckoutReady | src/main.cpp:164-168 | what a read or a pull delivers, sorted, with any times filled in, meets what checkout asks of an index |
| Push.PushSafety | src/cache.cpp:350-450 | in every interleaving, with either kind of remote, whatever is absent below the root is in flight, waiting to be checked, or below such a tree; when push returns the remote holds everything below the root |
| PushOutcome.Outcome | src/cache.cpp:350-450 | a push that cannot go on has thrown exactly when the remote reported an error to some task; otherwise it has returned and the remote holds what it held, everything below the root and nothing else |
| PushOutcome.NoneThrown | src/cache.cpp:448-449 | as long as no task has failed, push does not throw |
| Push.StepKeeps | src/cache.cpp:365-449 | every step of the main thread and of a worker keeps that invariant |
| Push.PushTerminates | src/cache.cpp:365-449 | there is no infinite run |
| Push.StepShrinks | src/cache.cpp:365-449 | every step makes smaller: missing trees, then checks to come, then turns, although a tree may be pushed more than once |
| Push.PushProgress | src/cache.cpp:365-449 | until push returns or throws some step is possible |
| Push.MissingCovers | src/remote.hpp:23-26 | whatever is absent below a tree is below one of the objects that has_tree reports |
| Push.AnswerCovers | src/cache.cpp:377-402 | both ways of asking the remote report something that covers everything absent below the tree |
| Pull.PullComplete | src/cache.cpp:452-528 | for any cache and remote, once pull returns no task is left, every tree object and file is in the cache and everything they describe is in the index |
| PullOutcome.Outcome | src/cache.cpp:452-528 | for any cache and remote and in every interleaving, a pull that cannot go on has returned if they hold all tree objects and files between them, with everything below the root in the index as often as it occurs, and has thrown if they do not; the cache keeps what it had and gains only objects of the remote that the index lists |
| PullOutcome.StepLean | src/cache.cpp:292-312 | every step keeps that: what the cache gains is the remote's and listed in the index |
| Pull.StepOrderly | src/wait_group.hpp:21-51 | the wait group counts unfinished outer and nested tasks, and each wait has only its own tasks to wait for |
| Pull.StepCovered | src/cache.cpp:466-527 | every directory and file in the index is present or some task is going to see to it |
| PullExact.PullExactly | src/cache.cpp:452-528 | when cache and remote hold the whole tree, pull does not throw, is never stuck, ends within a bound, and the index has everything below the root exactly as often as it occurs |
| PullExact.StepExact | src/cache.cpp:466-527 | every step keeps: in the index plus still to come is everything below the root |
| PullExact.StepShrinks | src/cache.cpp:466-527 | every step uses up some of the work left |
| PullExact.SourcesSame | src/cache.cpp:292-312 | the cache and the remote together hold throughout what they held, each object with its content: a task only copies the remote's objects, even where two tasks copy the same one |
| Pool.ScanTheorem | src/directory_iterator_posix.cpp:107-127 | for every tree, number of workers and interleaving: tokens in the semaphore, held, queued and on workers add up to the number of workers, a queued job has a worker, nothing is stuck before the end, every run is finite, and each directory is read exactly once |
| Pool.QueuedHasWorker | src/thread_pool.cpp:49-59 | a queued job never lacks a worker that is not blocked |
| Pool.Progress | src/thread_pool.cpp:10-59 | no deadlock, although pool jobs wait for pool jobs |
| Pool.StepKeeps | src/semaphore.hpp:17-42 | every step keeps the counts of the semaphore and of all wait groups |
| Pool.AllRead | src/directory_iterator_posix.cpp:123-127 | when the scan of the root returns every directory has been read once |
| Pool.StepShrinks | src/thread_pool.cpp:10-59 | every step uses up some of the work left |
| Pool.WaitMeansFinished | src/wait_group.hpp:45-51 | when the wait of a directory returns all its subdirectories are finished |
| Pool.InlineOnlyWhenFull | src/thread_pool.cpp:49-59 | a directory is read on the thread that met it only when every worker is taken by a job that runs, is queued or is about to be |
| Pool.FirstComeFirstServed | src/thread_pool.cpp:10-47 | in every interleaving a job of the queue is started only after all that were queued before it |
| Wildcard.MatchSegment | src/index.cpp:489-513 | for every pattern and name the loop answers what is defined by recursion, where a star of the pattern that meets a star stands for that star and any other one for any string; it is never true without a match in the usual sense, and exact for names without stars |
| Wildcard.ExactNames | src/index.cpp:489-513 | the matcher is right about a name for all patterns exactly when the name has no star |
| Wildcard.Misses | src/index.cpp:497-498 | for every name with a star, a pattern that ought to match it and does not |
| Wildcard.LaterStarSuffices | src/index.cpp:499-506 | going back to the last star only loses no match, whatever stars the name has: what an earlier star could reach by taking more, the last one can |
| Glob.MatchNode | src/index.cpp:536-585 | appends exactly the nodes at and below this one whose names match the remaining segments, each as often as there are ways to match; leaving out subtrees loses nothing |
| Glob.GlobRecursive | src/index.cpp:587-614 | appends exactly the nodes below the root whose path the pattern matches, each as often as there are ways to match it |
| Glob.LeadingStars | src/index.cpp:594-607 | the implicit leading `**` means that some end of the path matches |
| Glob.SplitPattern | src/index.cpp:516-529 | cuts at every slash, without the leading one and without an empty last segment |
| Glob.SplitJoin | src/index.cpp:516-529 | splitting joined non-empty segments gives them back |
| Glob.SplitExactly | src/index.cpp:516-529 | the segments of a text hold no slash, and joined by slashes they are that text, but for a slash at its end |
| GlobOnce.OnceExactly | src/index.cpp:536-585 | no names match in two ways exactly when there is at most one `**` or an empty segment |
| GlobOnce.FoundOnce | src/index.cpp:587-614 | a node that is in one place is appended as often as its names match, so at most once when there is at most one `**` |
| GlobOnce.TwiceExample | src/index.cpp:587-614 | the pattern `**/a` finds `b/a` twice |
| GlobOnce.WaysMatch | src/index.cpp:536-585 | there is a way to match exactly when the names match |
| MultiGlob.GlobAll | src/index.cpp:455-472 | what some pattern finds and nothing else, with the descent or on an index without children by the compiled patterns, strictly increasing by path, each node once |
| MultiGlob.Unique | src/index.cpp:464-470 | keeps one node for every path of a sorted list |
| GlobList.GlobList.Add | src/glob_list.cpp:17-36 | trailing slashes go, an empty pattern is dropped, a negated one refused, any other added |
| GlobList.TrimmedIs | src/glob_list.cpp:20-23 | of a pattern all the slashes at its end are taken off, and only those |
| GlobList.GlobList.Finalize | src/glob_list.cpp:132-155 | one alternative for each pattern without characters special in regular expressions, the compiled one; if all are such, exactly the paths in the language of some pattern match afterwards |
| GlobList.CompileOne | src/glob_list.cpp:38-111 | for such patterns, `**` included, holding a star back and skipping a slash does not change the order: each character or `**` becomes its own expression, between the prefix for any parent and the suffix for anything below |
| GlobLanguage.CompiledMeans | src/glob_list.cpp:38-111 | the language of a compiled pattern without characters special in regular expressions, `**` included: from the start of some component, the first one if it is anchored, to the end of one the text matches, where a star stops at slashes and a question mark does not |
| GlobLanguage.StarsMean | src/glob_list.cpp:70-78 | what `**` is compiled to matches text without slashes, then components of one character each, then perhaps a slash |
| GlobAgreement.LinearIsRecursive | src/index.cpp:474-485 | for every pattern on which they agree, glob_linear finds a node exactly when glob_recursive finds it or a node above it |
| GlobAgreement.Agreement | src/glob_list.cpp:38-111 | unless a question mark inside a segment does harm, a path is in the language of the compiled pattern exactly when it or a path above it matches segment by segment |
| GlobExact.AgreeExactlyWhen | src/glob_list.cpp:38-111 | for patterns without characters special in regular expressions and with single stars only: they agree on every path exactly when no question mark inside a segment does harm |
| GlobExact.CrossInside | src/glob_list.cpp:87-89 | a question mark inside any segment but `*?*`: a path on which they differ is built |
| GlobExact.CrossBetween | src/glob_list.cpp:87-89 | `*?*` with segments on both sides that do not match every name, or anchored and with such a segment after it: a path on which they differ is built |
| GlobExact.QuestionMarkDiffers | src/glob_list.cpp:87-89 | `a?b` compiled matches `a/b`, which the descent never does |
| GlobStars.TrailAgreesExactlyWhen | src/glob_list.cpp:70-78 | with `**` as the last segment they agree on every path exactly when they do with a star there |
| GlobLeading.LeadAgreesExactlyWhen | src/glob_list.cpp:70-78 | with `**` as the first segment of a pattern they agree on every path exactly when the next segment begins with a star or is `?*` and no question mark does harm |
| GlobLeading.AroundAgreesExactlyWhen | src/glob_list.cpp:70-78 | the same with `**` as the first and the last segment |
| GlobMiddle.MiddleDiffers | src/glob_list.cpp:70-78 | with a plain character behind an inner `**`, and one before it unless the pattern is anchored, there is a path that the descent finds and the compiled form misses |
| GlobMiddle.MissedExample | src/glob_list.cpp:70-78 | `a/**/b` finds `a/xx/yy/b` by descent, and its compiled form does not match it |
| GlobAgreement.GlobLinear | src/index.cpp:474-485 | appends exactly the entries whose path is in the language, in their order; a negated pattern is refused |
| Merge.Merge | src/index.cpp:703-715 | the result has every entry of the other index and every current entry whose path is new and not below a non-directory of the other, each path once, directories first; it lists the new tree |
| Merge.MergeRecursive | src/index.cpp:717-829 | recursion ends, and list and children both describe the tree of merged children |
| Merge.MergeTheorem | src/index.cpp:703-829 | that tree is the right-biased union, with children in order under their directory |
| Merge.MergeHas | src/index.cpp:750-825 | merging the children of one directory keeps all of the other's and the current ones with new paths |
| Merge.BuildIsUnion | src/index.cpp:717-829 | below every directory of the result there is exactly the union below it |
| Metadata.CopyMetadata | src/index.cpp:204-236 | a time changes exactly when the other index has the same path and digest, to that one's; nothing else changes |
| PullCheckout.CheckoutPulled | src/main.cpp:261-265 | after a pull, sort, copy_metadata and checkout the workspace is the pulled tree: its paths and no others, with type, permissions, target, and content of the recorded digest, exactly when every file with time zero that the local index does not vouch for had that content and nothing was lost through a link; the index mirrors the workspace, times included, exactly when nothing was lost; it fails only on a strict file system, with nothing to remove through a link exactly when an entry is stranded |
| PullCheckout.TimesCanBeTrusted | src/index.cpp:204-236 | copying times only along with equal digests: checkout keeps a file only if it has the entry's content, or if nothing was copied and its time is zero |
| PullCheckout.StaleExample | src/index.cpp:351-374 | a file with time zero and other content meets all premises and is taken to be up to date |
| Reproduce.SameDigestAgain | src/main.cpp:261-265 | scanning and hashing a workspace that is the pulled tree gives every entry its digest again and the root the digest that was pulled |
| Reproduce.PullCheckoutCommand | src/main.cpp:261-266 | it fails only on a strict file system, with nothing to remove through a link exactly when an entry is stranded; the index that is saved describes the workspace with right digests, as a later refresh needs it, exactly when no file with time zero was mistaken for an up-to-date one and nothing was lost through a link |
| Reproduce.SavedIs | src/main.cpp:265-266 | an index that mirrors the disk and differs from the pulled tree in times only has right digests exactly when the workspace is the tree |
| Evict.Subdir.Evict | src/cache.cpp:551-600 | nothing used within the retention period goes and nothing else changes; it ends below the limit or with recent files only; no remaining old file was used before a removed one; if anything went, the size was at the limit before the last removal, so a listing below the limit loses nothing; the size does not underflow |
| Evict.SmallStays | src/cache.cpp:560-567 | a listing below the limit loses nothing |
| Evict.Evict | src/cache.cpp:530-549 | each of the at most 256 subdirectories is evicted down to the 256th part of the limit: the same holds of each of them with that limit, one whose listing is below it loses nothing, and in all what is left is within the limit plus the size of recent files |

## Left out

- HTTP and gRPC remotes, protobuf, url parsing, Python bindings, argument parsing, events, Windows variants: plumbing. A remote is a set or map of objects with `has_tree`, `has_object`, read and write.
- Hash functions: an arbitrary function. `Merkle` asks that its digests are well formed.
- File locks, and eviction at the same time as another operation: a lock on the lock file's one descriptor does not keep threads of the same process apart, so within an operation none is modelled. `Evict.Subdir.Evict` allows files to vanish or be used after the scan.
- Checkout.Index.Checkout: assumes an empty ignore list, a canonical workspace, file operations that succeed (other than `remove_all` below a file) and uniform link permissions; the time on disk of a directory it did not create is not stated, nor exactly when it fails on a strict file system while something has to be removed through a link.
- PullCheckout.CheckoutPulled: takes as a premise that the local index records the digest of every file whose time it has.
- Path resolution by the file system: `Detached`, `LinkAbove` and an arbitrary function `follow` from paths to paths stand for what the operating system finds above a path; where a path leads through a link does not change during a checkout.
- Scan.ReadDirectories: meeting an entry, linking its inode and opening its directory are one step, in any order among entries; an entry that cannot be read, a failing `lstat` and other types of files are not modelled.
- Pool.ScanTheorem: a directory that cannot be opened or that throws, and stopping the pool, are not modelled; reading the entries of one directory other than its subdirectories is part of a step; its tree of directories is given, not derived from a disk as in `Scan.ReadDirectories`.
- Push.PushSafety: nothing is promised once a task has thrown; adding to the wait group and handing a task to the pool are one step, as they are in `Reading.ReadTheorem` and `Pull.PullComplete`.
- PullExact.PullExactly: assumes that no object is evicted meanwhile, and that the tree is finite, which `Complete` says by a depth.
- PullOutcome.Outcome: that a run ends is proved for complete trees only, in `PullExact.PullExactly`; trees that contain themselves, which would take a collision, could be pulled for ever.
- ReadOutcome.Outcome: the same, with `Reading.ReadTheorem`.
- Evict.Subdir.Evict: the clock is read once, not before each removal.
- `std::regex`: `Regexes` gives the usual meaning to the constructs that patterns are compiled to.
- GlobList.CompileOne: patterns with one of ``^ $ \ + ( ) [ ] { } |``, a zero byte or a line end are not covered, as these are special in regular expressions.
- GlobList.GlobList.Finalize: says nothing about such patterns, for the same reason.
- MultiGlob.GlobAll: on an index without children says which nodes are found only for patterns without such characters.
- GlobAgreement.GlobLinear: says nothing about which entries such a pattern finds.
- GlobLanguage.CompiledMeans: leaves out names with a star, with which the descent's matcher is at odds, and names with a line end, which `.` does not match.
- GlobExact.AgreeExactlyWhen: leaves out empty segments and `**` inside a segment; `**` as a segment is in `GlobStars`, `GlobLeading` and `GlobMiddle`.
- GlobMiddle.MiddleDiffers: an inner `**` with only stars and question marks on one side, where the two agree for some patterns, as for `a/**/*`, and several inner `**` are not characterised.
- Glob.MatchNode: nodes are values with a path, a type and children, so a node is not told apart from an equal one elsewhere; the order of the nodes found is not stated.
- Merge.MergeRecursive: the new nodes are values, not linked inodes; the digests of directories are those of the entries taken over and may be stale, and the list is in directory-first order, not sorted.
- Codec.WriteTree: assumes a little-endian host, as the numbers are written in host order; write errors are not modelled.
- RoundTrip.WriteReadRoundTrip: times are not part of tree objects and come back as zero.
- Metadata.CopyMetadata: each list holds an inode once, so entries in an array stand for shared inodes.
- `lookup`, `find_node_by_path`, `dump`, `load_ignore_from_index`, `glob_list::load`: easy members.
