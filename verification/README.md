# File engine: a verified model

This project models the Go file engine: how it turns caller paths into places, decides who may touch
them, changes local and object storage step by step, queues tasks and streams downloads. Everything
is stated for all inputs, all interleavings and all ways a step can fail.

| file | component |
|---|---|
| `Paths.dfy` | the lexical path algebra (`filepath.Clean`, `Dir`, `Join`, `Rel`) that everything else uses |
| `LocalPaths.dfy` | `LocalStorage.full` and the base-root jail of the `LocalFs` types |
| `Symlinks.dfy` | symbolic links to directories: where a path leads and which entry it names |
| `PathExtract.dfy` | `authz.normalize` and `authz.ExtractPath` |
| `Resolver.dfy` | the ancestor walk, `CanAccess`, the in-memory ACL store, the interceptor's check |
| `Tasks.dfy` | task payloads, the path a folder task creates, the Redis queue and its workers |
| `Blobs.dfy` | bytes, stores and call outcomes shared by the storage modules |
| `AtomicWrites.dfy` | `AtomicWrite` of all backends as interleaved steps of many writers |
| `WritesAndMoves.dfy` | writes and object-store moves as interleaved steps |
| `Moves.dfy` | moves and staged writes as methods over a recorded file tree, with every fault |
| `ObjectStore.dfy` | object keys, the S3 copy source, fault-free runs as a plain map |
| `Listing.dfy` | the GCS and S3 listings |
| `LocalOps.dfy` | the task processor on local storage, end to end |
| `LocalWrites.dfy` | `AtomicWriteFile` from path parts to directory entries, and local writes among other writers |
| `LocalMoves.dfy` | `MoveUploadedFile` from path parts to directory entries |
| `LocalExamples.dfy` | concrete inputs of the local adapters |
| `Download.dfy` | the chunk loop of `DownloadObject` |

How to read it:

- A path is resolved on a stack of components. `Clean` is not taken on trust: `CleanLocates` and
  `CleanComplete` say that two paths clean to the same string exactly when they name the same thing
  from every working directory.
- Loops of the source are methods with loops. Where a source function changes files in steps, the
  method records every state it passes through, and a function gives that list of states for each
  plan of outcomes, so that lemmas can speak about every stopping point.
- Interleavings (`AtomicWrites`, `WritesAndMoves`, `TaskQueue`) are lists of actions applied one by one. An action that
  is not possible leaves the state alone, a process that is never scheduled again has stopped, and a
  failing call may or may not have taken effect.
- On the local disk files are kept by directory entry. A disk says which entries are links to other
  directories; a path's directory is followed through all of them.
- The clock, random draws, the ACL store's answers, the paging of listings, read
  sizes and every failure are parameters.

Where the code does not keep what one would expect, the exact condition is proved:

- the walk from `/a/..` visits `/a`, which is not above the path's place (`WalkStaysAbove`,
  `WalkLeavesAncestors`);
- an ACL entry stored under the cleaned path is not consulted when the path was written unclean and
  ends in a plain component, as in `/a/./b` (`OwnEntryVisited`, `OwnEntryMissed`,
  `UncleanRequestDenied`);
- a folder name with trailing whitespace is created beside the folder that was checked
  (`FolderCheckedIsCreated`, `TrailingSpaceEscapesCheck`); on object stores an upload to a path with
  a double slash is stored beside the object that was checked (`ObjectCheckedIsUsed`,
  `DoubleSlashEscapesCheck`);
- the jail looks at symbolic links only of targets that are there already, so a new file below a
  directory link is created where the link leads; the simpler adapters never look
  (`WriteStaysInBaseIff`, `MoveStaysInBaseIff`, `TaskStaysIff`, `LinkWriteLeavesBase`,
  `LinkMoveLeavesStorage`);
- writing to the base root itself, or moving onto it, stages outside the base
  (`WriteStaysInBaseIff`, `DotWriteLeavesBase`, `MoveStaysInBaseIff`);
- a staged write to a target called like a temp can draw that very name; it then returns success and
  removes the file (`OwnNameDrawIff`, `WriteLandsIff`, `JailedMoveKeepsIff`, `TempNameIsRemoved`);
- moving an object onto itself deletes it, where the store accepts the copy (`S3MoveKeepsIff`, and
  `GcsMoveKeepsIff` with `GcsMoveDeletes`, where `a` and `/a` are one object);
- an S3 name holding `%` and two hexadecimal digits makes the copy read another object, so that a
  move loses the source and a write publishes nothing or that object's bytes (`S3MoveKeepsIff`,
  `S3MoveWrongBytes`, `S3OldOrCompleteIff`, `S3TripletNeverPublishes`, `S3TripletPublishesOther`,
  `S3WrongBytes`);
- a write to the source that is published while a move is between its copy and its delete is lost
  (`LostUpdate`, `MoveAmongWritersIff`);
- in an empty namespace S3 lists the objects `a` and `/a` under one path (`S3ListedOnceIff`,
  `S3ListsTwice`);
- the streaming fallback of the local move shows a partial destination (`LocalMoveShowsPartIff`);
- two tasks with one id can overwrite each other's status (`StatusFinalIff`).

`docs/auth.md` describes a "closest entry first" order; the code is a disjunction in which the order
cannot be seen, and the model follows the code.

## Model

| member | source | states |
|---|---|---|
| Paths.CleanLocates | file-engine/internal/adapters/storage/local/local_storage.go:22 | cleaning a path changes nothing about what it names, from any working directory |
| Paths.CleanComplete | file-engine/internal/adapters/storage/local/local_storage.go:22 | two paths clean to the same string if and only if they name the same thing from every working directory |
| Paths.CleanIdempotent | file-engine/internal/filesystem/fs.go:38 | cleaning keeps root and components and is idempotent (parse and print are inverse on normal forms) |
| Paths.DirShortens | file-engine/internal/auth/resolver.go:17 | `Dir` strictly shortens every rooted path but `/` |
| Paths.DirComps | file-engine/internal/auth/resolver.go:17 | `Dir` resolves all components but the last as written, and the last one then decides the path itself |
| Paths.JoinRel | file-engine/internal/filesystem/fs.go:53-56 | from a rooted base `Rel` answers exactly for rooted targets, and joining the answer to the base gives the cleaned target back |
| Paths.RelStartsWithDots | file-engine/internal/filesystem/fs.go:57 | the answer starts with `..` if and only if the target is outside the base or its first component there starts with `..` |
| LocalPaths.FullComps | file-engine/internal/adapters/storage/local/local_storage.go:20-24 | for every input and base the result is, lexically, the base's components followed by those of the cleaned, rooted input, so nothing the caller writes pops a component of the base |
| LocalPaths.FullSameLocation | file-engine/internal/adapters/storage/local/local_storage.go:20-24 | two inputs share a location if and only if their cleaned, rooted forms are equal |
| LocalPaths.BaseRootIsCanonical | file-engine/internal/filesystem/fs.go:23-32 | a non-empty base becomes the rooted, clean path of what it names from the working directory; an empty one is refused |
| LocalPaths.SanitizeExact | file-engine/internal/filesystem/fs.go:36-61 | whatever the parts and the symlinks, a path comes back exactly when it lies in the base and its first component there does not start with `..`, and it is that path |
| LocalPaths.LexicalTargetComps | file-engine/internal/adapters/fs/local/local.go:28-35 | the joined target is the base followed by the cleaned parts, whose leftover `..` are the only way up |
| LocalPaths.SanitizePlainParts | file-engine/internal/adapters/fs/local/local.go:28-43 | without symlinks, parts that clean to plain components are accepted below the base unless the first starts with `..` |
| LocalPaths.StagingDirInside | file-engine/internal/filesystem/fs.go:101-108 | lexically, the directory the temp file is made in lies in the base if and only if the target is not the base root itself, or is spelled with an empty, `.` or `..` component last (for clean targets: or the base is `/`) |
| LocalPaths.OwnNameDrawIff | file-engine/internal/filesystem/fs.go:107-113 | some draw names the target itself if and only if the target's last component starts like a temp's name |
| Symlinks.AcceptedForm | file-engine/internal/filesystem/fs.go:46-61 | an accepted target is clean and lexically in the base, and free of links if it was found |
| Symlinks.ResolvedDirInside | file-engine/internal/filesystem/fs.go:46-61 | for a target that is a place, or without links, its directory leads into the base if and only if it is not the base root, or the base is `/` |
| PathExtract.Normalize | file-engine/internal/authz/path_extract.go:10-22 | the replacing loop ends and computes the one-pass collapse of slash runs of the trimmed, rooted path |
| PathExtract.NormalizedForm | file-engine/internal/authz/path_extract.go:10-22 | the result is rooted, has no `//` and no outer whitespace |
| PathExtract.WhitespaceCodes | file-engine/internal/authz/path_extract.go:11 | what counts as whitespace, by code point |
| PathExtract.NormalizedFixed | file-engine/internal/authz/path_extract.go:10-22 | normalizing twice is normalizing once |
| PathExtract.NormalizedClean | file-engine/internal/authz/path_extract.go:10-22 | the result has the same cleaned form as `/` plus the trimmed input |
| PathExtract.TrimKeepsPath | file-engine/internal/authz/path_extract.go:11 | trimming whitespace keeps where a path leads if and only if it ends in none and any leading whitespace is in a component that is climbed out of |
| PathExtract.ExtractedRooted | file-engine/internal/authz/path_extract.go:25-47 | a path is extracted for every known request and it is rooted and free of `//` |
| AncestorWalk.ParentPaths | file-engine/internal/auth/resolver.go:10-20 | from a rooted path the loop ends and returns the walk |
| AncestorWalk.WalkEndsIffRooted | file-engine/internal/auth/resolver.go:12-18 | repeated `Dir` ever reaches `/` if and only if the path is rooted |
| AncestorWalk.CleanVisits | file-engine/internal/auth/resolver.go:10-20 | a clean path with n components visits exactly its n+1 prefixes, longest first |
| AncestorWalk.VisitsShorten | file-engine/internal/auth/resolver.go:10-20 | later stops are strictly shorter, so none repeats |
| AncestorWalk.VisitedIff | file-engine/internal/auth/resolver.go:10-20 | exactly which ACL paths are consulted for any rooted path |
| AncestorWalk.WalkStaysAbove | file-engine/internal/auth/resolver.go:10-20 | every later stop is the cleaned path or an ancestor if and only if the path does not end in a `..` with something to climb out of |
| AncestorWalk.WalkLeavesAncestors | file-engine/internal/auth/resolver.go:10-20 | the concrete path on which that fails |
| AncestorWalk.OwnEntryVisited | file-engine/internal/auth/resolver.go:10-20 | the cleaned path's own entry is consulted if and only if the path is clean or ends in an empty, `.` or `..` component |
| AncestorWalk.OwnEntryMissed | file-engine/internal/auth/resolver.go:10-20 | the concrete path, `/a/./b`, on which that fails |
| Resolver.GroupByPath | file-engine/internal/auth/resolver.go:33-36 | after grouping, each path holds exactly the batch entries for it |
| Resolver.CanAccess | file-engine/internal/auth/resolver.go:27-77 | on every store whose batch query returns the same entries in any order, fails or does not exist, and in both branches, the answer is yes if and only if some entry on a visited path maps the permission to true for the user or one of the roles, or a role has it by default |
| Resolver.RoleDefaultsByName | file-engine/internal/auth/roles.go:3-7 | by default read and list are for exactly admin, editor and viewer, write for admin and editor, delete for admin, anything else for none |
| Resolver.FalseEntriesGrantNothing | file-engine/internal/auth/resolver.go:58-76 | entries that do not map the permission to true leave the decision to the role defaults |
| Resolver.OneEntryDecides | file-engine/internal/auth/resolver.go:58-69 | one entry on a visited path that maps the permission to true allows the user or role it is for, and one for any other principal changes nothing |
| Resolver.BatchedIsPerPath | file-engine/internal/auth/resolver.go:30-69 | the batched form equals the per-path form on every faithful store |
| Resolver.Authorize | file-engine/internal/authz/grpc_authz_interceptor.go:29-36 | every request gets a decision, without any precondition, and it is the declared one; for upload completion and both task queries it rests on the entries stored under exactly `/` and the role defaults alone |
| Resolver.InMemoryACLStore.SetACL | file-engine/internal/auth/inmemory_store.go:5 | the entry is added under its path and nothing else changes |
| Resolver.SetACLsDecision | file-engine/internal/auth/inmemory_store.go:4-5 | after any sequence of SetACL calls a decision is the old one, or a new granting entry on a visited path: none is lost, and entries that grant nothing change nothing |
| Resolver.FalseACLsChangeNothing | file-engine/internal/auth/inmemory_store.go:4-5 | SetACL calls whose entries map the permission to false, or not at all, change no decision about it |
| Resolver.UncleanRequestDenied | file-engine/internal/authz/path_extract.go:10-22 | a request for `/a/./b` keeps that spelling, and the entry that allows `/a/b` does not allow it |
| Resolver.RolesMonotone | file-engine/internal/auth/resolver.go:63-74 | more roles never lose access |
| Resolver.AccessInherited | file-engine/internal/auth/resolver.go:10-77 | access to a clean path carries over to every path that resolves, without its last component, to it or below it |
| Resolver.AccessInheritedClean | docs/auth.md:36-37 | access to a clean path carries over to every clean path below it |
| Tasks.CallIffWellFormed | file-engine/internal/app/tasks/processor.go:27-47 | a storage call is made if and only if the kind is `create_folder` with non-empty parent and name or `move_file` with non-empty src and dst, and it is the one those name |
| Tasks.SpelledIs | file-engine/internal/app/tasks/processor.go:35-36 | the folder path is parent and name joined by one slash, whether or not the parent brings its own |
| Tasks.FolderCheckedIsCreated | file-engine/internal/app/tasks/processor.go:29-36 | the folder the request is checked for is the folder the worker creates, on every base, under an exact condition on outer whitespace; missing parameters create nothing |
| Tasks.RequestCheckedIsUsed | file-engine/internal/authz/path_extract.go:27-34 | on local storage, list, upload, download and initiate requests are checked for the place their own path names, under the same exact condition |
| Tasks.ObjectCheckedIsUsed | file-engine/internal/adapters/storage/gcs/gcs_storage.go:39-45 | on S3 and GCS uploads and downloads are checked for the object their own path names if and only if it has no outer whitespace and no double slash |
| Tasks.DoubleSlashEscapesCheck | file-engine/internal/handlers/grpc_handler.go:54-59 | the concrete upload, to `/a//b`, that is checked for `/a/b` and stored under another key |
| Tasks.ListCheckedIsUsed | file-engine/internal/adapters/storage/s3/s3_storage.go:170-174 | a listing is checked for the key prefix it reads if and only if its prefix has no outer whitespace, and no double slash but a leading one |
| Tasks.TrailingSpaceEscapesCheck | file-engine/internal/authz/path_extract.go:41-43 | the concrete folder name for which that fails |
| TaskQueue.RedisQueue.EnqueueCreateFolder | file-engine/internal/adapters/queue/redisq/redisq.go:48-63 | success means the payload, with all its fields, is last in the list under the returned id; an error leaves the list alone or, when only the reply was lost, has queued the task all the same |
| TaskQueue.RedisQueue.Pop | file-engine/internal/adapters/queue/redisq/redisq.go:25-33 | the caller gets the first task and it leaves the list, or gets an error, after which it may have left all the same |
| TaskQueue.Start | file-engine/internal/app/tasks/worker.go:22-43 | any number of turns of the worker loop, with failed pops and lost replies, does to the queue and the statuses what the transition system does |
| TaskQueue.QueueSafety | file-engine/internal/app/tasks/worker.go:22-43 | in every interleaving: enqueued = queued + in hand + finished + lost, pops follow enqueue order, no task is processed more often than popped, each stop or dropped reply loses at most one task, and a new status is "success" if Process returned no error for a finished task and "failed" if it did |
| TaskQueue.QueueAccounts | file-engine/internal/app/tasks/worker.go:22-43 | over the actions themselves: what was enqueued is what was there and what enqueuers stored, losses are at most the stops and lost replies, and whatever is recorded as processed was processed at some step, without error if and only if it was well-formed and its storage call succeeded |
| TaskQueue.StatusFinal | file-engine/internal/adapters/queue/redisq/redisq.go:35-37 | over any run, in any continuation, a stored status never changes if the enqueued tasks agree on their statuses, in particular with distinct, new ids; with distinct ids each task is processed at most once |
| TaskQueue.StatusFinalIff | file-engine/internal/adapters/queue/redisq/redisq.go:35-49 | for any queue and any stored statuses: no run without further enqueues ever changes a status if and only if every task whose id has a status already or is shared can only fail, and that is the status |
| AtomicWrites.WritesAreAtomic | file-engine/internal/storage/storage.go:13 | any interleaving of writers on any backend, failing and stopping anywhere, is outside the temp names a sequence of whole puts; success means published, and published at most once |
| AtomicWrites.WritesKeepOrder | file-engine/internal/storage/storage.go:13 | the order of those puts respects time: a call that returned success before another began is published first, in every continuation |
| AtomicWrites.OldOrComplete | file-engine/internal/adapters/storage/gcs/gcs_storage.go:63-87 | at every moment each non-temp key holds its initial content or the complete content of one writer to it, and keys nobody writes to never change |
| AtomicWrites.WriteSucceedsIff | file-engine/internal/adapters/storage/s3/s3_storage.go:90-122 | in every interleaving a write returns success if and only if every step it needs came back done, whatever the answer to the final deletion of its temp |
| AtomicWrites.PlainWrite | file-engine/internal/adapters/storage/local/local_storage.go:30-46 | a fault-free call is one put and leaves no temp behind |
| WritesAndMoves.StepsAreSequential | file-engine/internal/adapters/storage/gcs/gcs_storage.go:63-100 | any interleaving of writers and object-store moves, failing and stopping anywhere, is outside the temp names a sequence of whole puts, copies and deletes; success of a write means put, and at most once |
| WritesAndMoves.MoveSuccessMeans | file-engine/internal/adapters/storage/gcs/gcs_storage.go:89-100 | in every interleaving a move that returned success has copied exactly once and then deleted exactly once, and none deletes without having copied |
| WritesAndMoves.MoveSucceedsIff | file-engine/internal/adapters/storage/gcs/gcs_storage.go:89-100 | a move returns success if and only if its copy, of an object that was there, and after it its delete came back done |
| WritesAndMoves.AlwaysWhole | file-engine/internal/adapters/storage/gcs/gcs_storage.go:63-100 | in any such interleaving every object that is no temp holds what some object held at the start or all that some writer writes |
| WritesAndMoves.MoveAmongWritersIff | file-engine/internal/adapters/storage/gcs/gcs_storage.go:63-100 | a move keeps the source's bytes at source or destination in every interleaving with the writers, over all contents, if and only if none of them writes to either |
| WritesAndMoves.LostUpdate | file-engine/internal/adapters/storage/gcs/gcs_storage.go:89-100 | a write to the source published between copy and delete is lost although both calls return success |
| ObjectKeys.GcsWritersFresh | file-engine/internal/adapters/storage/gcs/gcs_storage.go:64-65 | distinct random draws give temp keys no other writer stages in or writes to |
| ObjectKeys.S3WritersFresh | file-engine/internal/adapters/storage/s3/s3_storage.go:92-111 | on S3 the same writers read back their own temps if and only if no temp name has an escape triplet |
| ObjectKeys.S3OldOrCompleteIff | file-engine/internal/adapters/storage/s3/s3_storage.go:90-122 | interleaved S3 writes leave every object that is no temp old or complete, over all stores and runs, if and only if no temp name has an escape triplet |
| ObjectKeys.S3TripletNeverPublishes | file-engine/internal/adapters/storage/s3/s3_storage.go:105-114 | with an escape triplet in the name and the object the copy asks for absent, no run publishes or returns success |
| ObjectKeys.S3TripletPublishesOther | file-engine/internal/adapters/storage/s3/s3_storage.go:105-121 | with that object present, the run in which nothing fails returns success and leaves its bytes at the target |
| ObjectKeys.S3WrongBytes | file-engine/internal/adapters/storage/s3/s3_storage.go:105-121 | the concrete write, to `/a%20b`, that does so for every draw |
| ObjectKeys.EscapeRoundTrip | file-engine/internal/adapters/storage/s3/s3_storage.go:213-216 | percent-decoding the copy source gives the name back if and only if it has no `%` followed by two hexadecimal digits |
| ObjectKeys.EscapedHasNoSpace | file-engine/internal/adapters/storage/s3/s3_storage.go:213-216 | the copy source holds no space, and is the name itself if that held none |
| ObjectKeys.DecodesEitherCase | file-engine/internal/adapters/storage/s3/s3_storage.go:213-216 | the decoding that the copy source undergoes takes hexadecimal digits of either case |
| ObjectKeys.KeyRoundTrip | file-engine/internal/adapters/storage/gcs/gcs_storage.go:39-45 | rooted paths and the keys of a namespace correspond one to one |
| ObjectKeys.S3MoveKeepsIff | file-engine/internal/adapters/storage/s3/s3_storage.go:124-146 | S3 Move keeps the source's bytes at every state, over all contents and outcomes, if and only if the source's name has no escape triplet and the destination is another object |
| ObjectKeys.S3MoveWrongBytes | file-engine/internal/adapters/storage/s3/s3_storage.go:124-146 | the concrete move, from `/a%20b` with `/a b` present, that succeeds, leaves the bytes of the latter at the destination and deletes the source |
| ObjectKeys.GcsMoveKeepsIff | file-engine/internal/adapters/storage/gcs/gcs_storage.go:89-100 | GCS Move keeps the source's bytes if and only if the paths differ in more than a leading slash |
| ObjectKeys.GcsMoveDeletes | file-engine/internal/adapters/storage/gcs/gcs_storage.go:89-100 | the concrete move, `a` to `/a`, that succeeds and deletes the object |
| ObjectKeys.RunRefines | file-engine/internal/adapters/storage/gcs/gcs_storage.go:63-100 | any fault-free sequence of AtomicWrite and Move, rooted paths or not, is the same sequence on a plain map from path to bytes, and Open reads that map |
| Moves.LocalMove | file-engine/internal/adapters/storage/local/local_storage.go:48-73 | for every source and destination each state keeps the bytes whole at one of the two and changes nothing else; it succeeds if and only if nothing fails, and then has moved; a failed copy leaves the source alone; what ends the copy is the reader's end of file |
| Moves.LocalMoveKeeps | file-engine/internal/adapters/storage/local/local_storage.go:48-73 | for every source and destination and every plan of outcomes the bytes are whole at one of the two in every state, nothing else changes, and it succeeds, moved, if and only if nothing fails |
| Moves.LocalMoveShowsPartIff | file-engine/internal/adapters/storage/local/local_storage.go:63-71 | the streaming fallback passes through a destination that is neither old nor complete, unless the source is empty or a single byte replacing an empty file |
| Moves.Stage | file-engine/internal/filesystem/fs.go:107-142 | in every state the destination is old or whole and only it and the temp change; success means written, error means unchanged once the temp is removed |
| Moves.StageSafe | file-engine/internal/filesystem/fs.go:202-243 | whichever step fails: destination old or whole in every state, unchanged on error, whole on success, no temp left unless its removal failed |
| Moves.MoveUploadedFile | file-engine/internal/filesystem/fs.go:147-183 | unless the temp is drawn under the name of another destination, every state keeps the bytes, shows the destination old or whole and touches nothing but the temp besides; it succeeds if and only if nothing fails, and then has moved; a failed staging leaves the source alone |
| Moves.UploadMoveSafe | file-engine/internal/filesystem/fs.go:147-183 | for every plan of outcomes, in every state the bytes are kept, the destination is old or whole and nothing but the temp changes besides; it succeeds, moved, if and only if nothing fails |
| Moves.ObjectMove | file-engine/internal/adapters/storage/gcs/gcs_storage.go:89-100 | when the copy names the source and the destination is another object, every state keeps the bytes and touches nothing else, it succeeds, moved, if and only if nothing fails, and an error from the copy leaves the source alone |
| Listing.GcsList | file-engine/internal/adapters/storage/gcs/gcs_storage.go:116-145 | the result has exactly one entry for each object but empty ones with a key ending in `/`, in the order of the answers, or is an error if any fetch fails |
| Listing.S3List | file-engine/internal/adapters/storage/s3/s3_storage.go:170-209 | the result has, page by page and in order, exactly one entry for each prefix and one for each object but empty ones with a key ending in `/`, or is an error if any page fails |
| Listing.GcsListedOnce | file-engine/internal/adapters/storage/gcs/gcs_storage.go:116-145 | distinct keys of the namespace are listed under distinct paths |
| Listing.S3ListedOnceIff | file-engine/internal/adapters/storage/s3/s3_storage.go:186-206 | distinct prefixes and keys are listed under distinct paths of their kind if and only if, in an empty namespace, no two of them differ in just a leading slash |
| Listing.S3ListsTwice | file-engine/internal/adapters/storage/s3/s3_storage.go:204-205 | the concrete objects, `a` and `/a`, that are listed under one path |
| Listing.ListingsAgree | file-engine/internal/adapters/storage/s3/s3_storage.go:170-209 | for one bucket and any directory, each object GCS lists is an S3-listed file under no S3-listed directory, or lies under exactly one; and each S3-listed file is listed by GCS |
| Listing.GcsListExact | file-engine/internal/adapters/storage/gcs/gcs_storage.go:116-145 | over the plain map, GCS lists exactly the original paths below a normalized directory with their sizes, minus empty placeholders |
| LocalOps.ProcessTask | file-engine/internal/app/tasks/processor.go:27-47 | for any payload: one that is not well-formed fails and changes nothing; a move keeps the bytes in every state and success means moved; a folder changes no file; and no file outside the storage is touched if what the task names lies in it with all links followed |
| LocalOps.MoveTaskEffect | file-engine/internal/app/tasks/processor.go:37-43 | a move task keeps the bytes in every state, touches no third file, and moves them when nothing fails |
| LocalOps.TaskStaysIff | file-engine/internal/adapters/storage/local/local_storage.go:20-24 | a task leaves every file outside the storage alone, over all files and outcomes, if and only if what it names lies in the storage with all links followed; without links that is always so |
| LocalWrites.AtomicWriteFile | file-engine/internal/filesystem/fs.go:85-143 | a cancelled call, one without parts and one with a refused path fail and change nothing; otherwise, unless the target is called like a temp, it is old or whole in every state, written on success and unchanged on error once the temp is removed; and all of it stays in the base if that is where the target's directory leads |
| LocalWrites.WriteStaysInBaseIff | file-engine/internal/filesystem/fs.go:36-143 | all writes to an accepted target leave every file outside the base alone in every state, temp included, if and only if the target's directory, with all links followed, leads into the base; for targets that are there, or without links, if and only if it is not the base root or the base is `/` |
| LocalWrites.WriteLandsIff | file-engine/internal/filesystem/fs.go:107-142 | over all draws, every successful write leaves its content at the target if and only if the target's last component does not start with `.tmp-` |
| LocalWrites.LocalWritersFreshIff | file-engine/internal/adapters/storage/local/local_storage.go:30-46 | temps of local storage writes are apart from each other and from all targets, for all distinct draws, if and only if no path written to is called like a temp |
| LocalWrites.LocalOldOrComplete | file-engine/internal/adapters/storage/local/local_storage.go:30-46 | then interleaved local writes leave every entry that is no temp old or complete |
| LocalExamples.LinkWriteLeavesBase | file-engine/internal/filesystem/fs.go:46-61 | the concrete new file, `link/new` under `/srv` where `link` leads to `/etc`, that is accepted and created at `/etc/new` |
| LocalExamples.LinkMoveLeavesStorage | file-engine/internal/adapters/storage/local/local_storage.go:48-56 | the concrete move task that does the same on local storage |
| LocalExamples.DotWriteLeavesBase | file-engine/internal/filesystem/fs.go:85-143 | the concrete write, to `.` under `/srv`, that is accepted and shows a file outside |
| LocalExamples.TempNameIsRemoved | file-engine/internal/filesystem/fs.go:107-142 | the concrete write, to `.tmp-1` when `1` is drawn, that returns success and leaves no file |
| LocalMoves.JailedMove | file-engine/internal/filesystem/fs.go:147-183 | a move from the caller's path parts: unless the destination is called like a temp, the bytes are kept and the destination is old or whole in every state and success means moved; and all of it stays in the base if the source's entry and the destination's directory are there |
| LocalMoves.MoveStaysInBaseIff | file-engine/internal/filesystem/fs.go:36-183 | all moves between accepted paths leave every file outside the base alone in every state if and only if both name one entry, or the source's entry and the destination's directory, with all links followed, are in the base; with the base-root condition where both are there or there are no links |
| LocalMoves.JailedMoveKeepsIff | file-engine/internal/filesystem/fs.go:147-243 | over all draws, no move ever loses the source's bytes if and only if both paths name one entry or the destination's last component does not start with `.tmpcopy-` |
| Download.DownloadObject | file-engine/internal/handlers/grpc_handler.go:80-94 | for every reader and stream behaviour the chunks are non-empty, fit the buffer, stop where the stream fails and concatenate to exactly the bytes read before the first error, the whole object when no error is returned |

## Left out

- Paths.Rel: modelled for rooted bases, the only ones the file engine passes.
- ObjectKeys.EscapeRoundTrip: strings are characters, so percent-decoding does not combine UTF-8 bytes.
- ObjectKeys.S3MoveKeepsIff: says nothing about a server that refuses to copy an object onto itself.
- WritesAndMoves.StepsAreSequential: Delete calls and the local move's streaming fallback are not among the steps.
- Symlinks.Place: links lead to directories; links to files, hard links, and links made during a call are not modelled.
- LocalWrites.LocalWritersFreshIff: for an absolute or empty storage base.
- Download.DownloadObject: the authorization and the opening of the object before the loop are not repeated there.
- JWT handling, HTTP and gRPC middleware, the method-to-permission table: library behaviour or single lookups.
- `PostgresACLStore`: any store whose batch query answers faithfully stands for it.
- `sftp_client.go`, `internal/fs` and `internal/worker`: a client that never connects and simpler copies of what is modelled.
- Folders as things of their own, recursive delete and existence checks: the backends differ on purpose.
- Absent key, prefix or size fields in S3 responses, and JSON encoding of payloads.
- File modes, durability, timing, and the quarantine pipeline, which has no code.
