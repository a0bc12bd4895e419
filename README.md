# KDE Linux build tools: a Dafny model

This project models four small programs from the KDE Linux image build and
proves properties of them:

- **mtimer** keeps file times reproducible across image builds. It walks a
  freshly built tree and compares it with the manifest (`SHA256Sums`) of
  the previous build. For each entry it does one of four things:
  - a new entry is recorded;
  - an entry whose recorded second still matches carries its old record over;
  - an entry whose second changed is re-hashed. If the hash matches, its time
    is put back to the recorded second. If not, it gets a new record.
  - every directory is set, deepest first, to the newest time of its
    non-symlink children.
- **upload-vacuum** groups the artifacts on the download server by release
  number. It drops the tombstoned and gold releases and keeps the four newest
  of the rest. It deletes the other releases' artifacts, but only when real
  deletion is switched on. Then it collects the checksums of what it keeps,
  one line each, for `SHA256SUMS`.
- **btrfs-migrator** decides whether to migrate a legacy (v1) btrfs root to
  `@system`. It skips the migration when `@system` already exists. It asks
  the user before going on when the fstab has entries other than swap. It
  picks the legacy root with the highest version, taking the first of equal
  versions.
- **the command-not-found handler** looks a missing command up in three
  fixed tables. It prints one explanation and exits with status 127.

Modules:

| module | file | what it holds |
|---|---|---|
| `Common` | `common.dfy` | `Option`, `Result` |
| `Text` | `text.dfy` | the Go string functions the programs use |
| `Sorting` | `sorting.dfy` | sorting by a total preorder, standing for the library sorts |
| `MtimerFs` | `mtimer_fs.dfy` | the tree; the `FileSystem` class with `Chtimes` and `updateDir` |
| `MtimerManifest` | `mtimer_manifest.dfy` | manifest records, `analyzeFile`/`analyzeLink`, the per-entry reference functions |
| `MtimerClassify` | `mtimer_classify.dfy` | the walk callback |
| `MtimerMain` | `mtimer_main.dfy` | the analysis fan-out, the fold, the directory pass, `Reconcile` |
| `UploadVacuum` | `vacuum.dfy` | upload-vacuum |
| `BtrfsMigrator` | `migrator.dfy` | the rootfs v1 search and `run`'s checks |
| `CommandNotFound` | `command_not_found.dfy` | the handler |

How the effects are modelled:

- **mtimer:**
  - Times are nanoseconds. The manifest holds whole seconds.
  - The tree is a map from path to node in a `FileSystem` object. `Chtimes`
    is the method that changes it.
  - The walk is the sequence of visited paths.
  - SHA-256 is a function parameter.
- **upload-vacuum:**
  - The SFTP walk is the sequence of steps it yields.
  - The server's files are a set in a `Server` object.
  - The HTTPS checksum fetch is a function from URL to body, with `""` for a
    failure.

A file whose content changed is recorded with its new hash under the prior
record's second, not the second just observed (`mtimer/main.go:105-115`);
a link whose target changed is recorded the same way (`mtimer/main.go:129-139`).
The model does the same. `MtimerManifest.ChangedFileTimePulledBack` shows the
consequence: on the next run over the same bytes the seconds differ again and
the hash now matches, so the file's time is set back to the second recorded
before the change.

## Model

| member | source | states |
|---|---|---|
| MtimerFs.UnixSecondsFromUnix | mtimer/main.go:119 | `time.Unix(s, 0)` read back in seconds is `s`, so a restored time lies in its recorded second |
| MtimerFs.UnixSecondsRoundsDown | mtimer/main.go:222 | `ModTime().Unix()` rounds down: a time lies at or after the start of its second and before the next one |
| MtimerFs.SetMtime | mtimer/main.go:119 | setting a time keeps the tree's shape, gives the path the new time and changes no other path |
| MtimerFs.ChildIsOneDeeper | mtimer/main.go:289 | a listed child has exactly one more `/` than its directory, so depth order puts children first |
| MtimerFs.TrailingSlashTiesDepth | mtimer/main.go:289 | under a root ending in `/`, such as `/` itself, an entry directly below the root has the root's depth: the comparator does not order them |
| MtimerFs.Latest | mtimer/main.go:153-165 | the directory time is at least the epoch and at least every non-symlink child's time; it is one of those times or the epoch |
| MtimerFs.LatestOfSymlinksOnly | mtimer/main.go:153-157 | an empty directory, or one holding only symlinks, gets the epoch |
| MtimerFs.LatestFrame | mtimer/main.go:154-165 | a directory's time depends on its immediate children and nothing else |
| MtimerFs.FileSystem.Chtimes | mtimer/main.go:119 | succeeds exactly when the path exists; afterwards only that path's time differs |
| MtimerFs.FileSystem.LatestChildTime | mtimer/main.go:148-165 | fails exactly for a path that is not a directory; otherwise returns `Latest` of its listing |
| MtimerFs.FileSystem.UpdateDir | mtimer/main.go:147-170 | sets the directory to its latest child time; fails, changing nothing, on a non-directory |
| MtimerManifest.Sha256Sum | mtimer/main.go:70-82 | a hash is available exactly for a regular file, and it is the hash of its bytes |
| MtimerManifest.Readlink | mtimer/main.go:92-95 | a target is available exactly for a symlink, and it is that link's target |
| MtimerManifest.AnalyzedFile | mtimer/main.go:103-121 | the result keeps both paths, holds the new hash and the prior second, and is the input itself when the hash is unchanged |
| MtimerManifest.AnalyzedLink | mtimer/main.go:123-145 | the same for a link target |
| MtimerManifest.AnalyzeFile | mtimer/main.go:103-121 | an unreadable path aborts and changes nothing; an unchanged hash restores the recorded second on disk; a changed hash leaves the tree alone |
| MtimerManifest.AnalyzeLink | mtimer/main.go:123-145 | the same for symlinks, comparing targets |
| MtimerManifest.FileRecordKeepsPriorSecond | mtimer/main.go:84-89 | the recorded second of a known path never changes; a new path records the second it was seen with |
| MtimerManifest.FileRecordHash | mtimer/main.go:237-256 | an equal second carries the old record over even if the bytes changed; otherwise the record holds the current hash |
| MtimerManifest.FileRestoration | mtimer/main.go:117-120 | bytes that hash to the recorded value keep the old record and end within the recorded second |
| MtimerManifest.FileRecordIdempotent | mtimer/main.go:237-256 | a second run over the tree the first left, with the first run's record, stores the same record |
| MtimerManifest.ChangedFileTimePulledBack | mtimer/main.go:105-115 | a changed file keeps its time this run, and the next run over the same bytes sets it back to the old second |
| MtimerManifest.LinkRestoration | mtimer/main.go:141-144 | an unchanged target keeps its record and ends within the recorded second |
| MtimerManifest.LinkTargetChange | mtimer/main.go:129-139 | a changed target is recorded under the prior second (or carried over at an equal second), and the link's time is left alone |
| MtimerManifest.LinkRecordIdempotent | mtimer/main.go:214-235 | a second run stores the same link record |
| MtimerClassify.Classify | mtimer/main.go:199-257 | fails exactly when a visited path cannot be lstat'ed; otherwise it is the callback applied to every visit in order |
| MtimerClassify.WalkedFromVisits | mtimer/main.go:199-257 | every manifest key, queued entry and kept directory comes from a visit of the matching kind |
| MtimerClassify.StepKeepsPlaced | mtimer/main.go:199-257 | visiting another path does not disturb what an earlier visit placed |
| MtimerClassify.VisitPlaced | mtimer/main.go:203-256 | each visit is placed: a directory is kept, a new or equal-second entry holds its final record, a changed-second entry is queued with its prior record and not yet recorded |
| MtimerClassify.StepEffect | mtimer/main.go:203-256 | one callback keeps a directory and nothing else for the directory pass, grows the queues by at most one entry at their ends, changes no other path's record, and places a path seen for the first time |
| MtimerClassify.QueuedDisjoint | mtimer/main.go:224-250 | no two queued tasks share an absolute or relative path |
| MtimerMain.AnalyzeFiles | mtimer/main.go:266-274 | slot `i` holds the analysis of queued file `i`; the tree afterwards is each queued file as analysis leaves it and everything else unchanged; fails exactly when a queued path is not a regular file |
| MtimerMain.AnalyzeLinks | mtimer/main.go:276-284 | the same for the link queue |
| MtimerMain.AnalyzeNextFile | mtimer/main.go:268-273 | task `i`: its result is the analysis of queued file `i` in the walked tree, it fails exactly when that path is not a regular file, and it extends the "first `i` tasks done" state to `i + 1` |
| MtimerMain.AnalyzeNextLink | mtimer/main.go:278-283 | the same for link task `i` |
| MtimerMain.RecordFiles | mtimer/main.go:266-274 | the file queue analyzed and folded: the tree is as the file pass leaves it and the file map holds exactly the walked regular files with their expected records |
| MtimerMain.RecordLinks | mtimer/main.go:276-284 | the same for links, run on the tree the file pass left |
| MtimerMain.AnalyzeQueued | mtimer/main.go:262-303 | both passes and both folds: the manifest matches the walked tree, and the tree is the file pass followed by the link pass |
| MtimerMain.FoldFiles | mtimer/main.go:297-299 | the keys are the old keys plus every result's path; the last result for a path wins; other keys keep their values |
| MtimerMain.FoldLinks | mtimer/main.go:301-303 | the same for links |
| MtimerMain.DeeperOrEqualIsTotalPreorder | mtimer/main.go:289 | the depth comparator is a total preorder, so the sort is well defined |
| MtimerMain.ChildSortsBeforeParent | mtimer/main.go:289 | a directory listed under another is strictly deeper, so the comparator puts it first |
| MtimerMain.SortDirs | mtimer/main.go:286-291 | a permutation of the directories, deepest first |
| MtimerMain.StampKeepsDeeperLatest | mtimer/main.go:147-170 | stamping a directory changes no latest-child time of a directory at the same depth or deeper |
| MtimerMain.DirPassStep | mtimer/main.go:309-311 | in deepest-first order, one more update keeps every directory done so far equal to its latest child |
| MtimerMain.UpdateNext | mtimer/main.go:309-311 | one round of the directory loop: fails exactly when the entry is not a directory, and otherwise extends "listed, untouched elsewhere, stamped" by one directory |
| MtimerMain.UpdateDirs | mtimer/main.go:309-311 | fails exactly when some entry is not a directory; only directories change; given deepest-first order, every directory ends equal to its latest child in the final tree |
| MtimerMain.FilesRecorded | mtimer/main.go:297-299 | after the fold, the file map holds exactly the walked regular files, each with its expected record |
| MtimerMain.LinksRecorded | mtimer/main.go:301-303 | the same for symlinks |
| MtimerMain.DirsFromVisits | mtimer/main.go:203-207 | every directory in the pass is a walked directory |
| MtimerMain.TreeAssembled | mtimer/main.go:262-311 | the file pass, the link pass and the directory pass together leave the tree reconciled |
| MtimerMain.Reconcile | mtimer/main.go:184-311 | fails, changing nothing, exactly when a walked path is missing; otherwise the manifest matches the tree entry by entry and the tree is reconciled |
| MtimerMain.ManifestPartition | mtimer/main.go:189-257 | a walked path is in at most one of the two maps, and a directory is in neither |
| Sorting.Sort | upload-vacuum/main.go:97 | the library sorts' promise: a sorted permutation |
| Text.BeforeFirst | upload-vacuum/main.go:166-167 | the first piece of `strings.SplitN(s, c, 2)`: a prefix without `c`, followed by `c` or the end |
| Text.TrimPrefix | upload-vacuum/main.go:164-165 | `strings.TrimPrefix`: with the prefix, the prefix followed by the result is the input; without it, the input is returned |
| Text.AfterFirst | btrfs-migrator/src/main.rs:40-42 | the second piece of `splitn(2, '_')`: absent exactly when there is no `_`; otherwise the first piece, the `_` and the result make up the input |
| Text.Count | mtimer/main.go:289 | `strings.Count` of one character: at most the length, and zero exactly when the character does not occur |
| Text.ReplaceFirstAbsent | upload-vacuum/main.go:61 | `strings.Replace(s, old, new, 1)` leaves `s` alone when `old` does not occur |
| Text.ReplaceFirstPrefix | upload-vacuum/main.go:61 | when `s` starts with `old`, that prefix is replaced |
| Text.LexLeTotal | upload-vacuum/main.go:253 | any two strings are ordered one way or the other |
| Text.LexLeTransitive | upload-vacuum/main.go:253 | string order is transitive |
| Text.LexLeAntisymmetric | upload-vacuum/main.go:253 | string order is antisymmetric; with totality and transitivity it is a linear order |
| UploadVacuum.ReleaseKey | upload-vacuum/main.go:161-167 | none exactly for names with neither prefix; otherwise the stripped name up to its first `.` or `_` |
| UploadVacuum.ProblemMessage | upload-vacuum/main.go:155-175 | the two errors are told apart by their opening, and each names what failed: the walk's error text or the rejected key |
| UploadVacuum.Atoi | upload-vacuum/main.go:172 | accepted exactly when an optional `+` or `-` is followed by one or more digits whose signed value fits in int64, and the value is that signed value; the empty string is rejected |
| UploadVacuum.AtoiSignsAndZeros | upload-vacuum/main.go:172 | `+7`, `-3` and `007` are accepted as 7, -3 and 7 |
| UploadVacuum.AtoiDecimal | upload-vacuum/main.go:172-175 | every non-negative int64 in decimal is accepted with its value |
| UploadVacuum.AtoiSyntax | upload-vacuum/main.go:172-175 | anything accepted is an optional sign followed by at least one digit |
| UploadVacuum.ArtifactsOfEntry | upload-vacuum/main.go:176-178 | each entry's path is among the artifacts of its release |
| UploadVacuum.ArtifactsOfFromEntry | upload-vacuum/main.go:176-178 | each artifact of a release is the path of an entry of that release |
| UploadVacuum.LoadReleases | upload-vacuum/main.go:150-182 | fails exactly when some step is a walk error or an unparsable key, with the first such step's message; otherwise maps exactly the keys with artifacts to their paths in walk order |
| UploadVacuum.AddStep | upload-vacuum/main.go:155-178 | one step fails exactly when it is a problem, with its message; otherwise the grouping covers one more step |
| UploadVacuum.GroupStep | upload-vacuum/main.go:169-178 | appending an entry's path to its own release keeps the map grouped |
| UploadVacuum.RemoveProtected | upload-vacuum/main.go:238-246 | the keys left are exactly those neither tombstoned nor gold, with the same artifacts |
| UploadVacuum.KeysOf | upload-vacuum/main.go:249-252 | the key list holds each key of the map exactly once |
| UploadVacuum.GoGeIsTotalPreorder | upload-vacuum/main.go:253 | reversed string order is a total preorder |
| UploadVacuum.NewestFirst | upload-vacuum/main.go:253 | a permutation in descending string order |
| UploadVacuum.SelectForDeletion | upload-vacuum/main.go:255-260 | the pop loop keeps the first `min(4, n)` keys and puts the rest in `toDelete` from the back |
| UploadVacuum.RetentionRule | upload-vacuum/main.go:248-260 | `min(4, n)` are kept; kept and deleted are disjoint and cover every candidate; every kept key is at least every deleted one; `toKeep` is descending and `toDelete` ascending |
| UploadVacuum.Server.Remove | upload-vacuum/main.go:267-270 | the file is gone afterwards; the call fails when it was not there |
| UploadVacuum.DeleteReleases | upload-vacuum/main.go:262-275 | goes through the doomed artifacts release by release; removes them only when deletion is enabled, and otherwise changes nothing |
| UploadVacuum.ChecksumUrlUnderRoot | upload-vacuum/main.go:60-61 | an artifact under the upload root has its checksum fetched from the public base at the same relative path |
| UploadVacuum.ChecksumUrl | upload-vacuum/main.go:60-61 | a checksum path that does not contain the upload root is fetched as it is |
| UploadVacuum.SortedArtifacts | upload-vacuum/main.go:96-97 | a release's artifacts, sorted ascending |
| UploadVacuum.KeyUrls | upload-vacuum/main.go:96-99 | one checksum URL per artifact, the `k`-th for the `k`-th artifact in ascending order |
| UploadVacuum.ChecksumUrlsPrefix | upload-vacuum/main.go:93-107 | the URLs of the first kept releases come first, in order |
| UploadVacuum.ReadKeySha256s | upload-vacuum/main.go:98-105 | fails when an empty checksum is fetched for one of the release's artifacts; otherwise returns each fetched checksum in order |
| UploadVacuum.ReadSha256s | upload-vacuum/main.go:93-108 | fails exactly when some checksum comes back empty; otherwise returns one checksum per artifact, releases in order, artifacts sorted |
| UploadVacuum.LinesAppend | upload-vacuum/main.go:116-121 | each checksum adds itself and a newline to the end of the file |
| UploadVacuum.Lines | upload-vacuum/main.go:116-121 | the file is empty exactly when there are no checksums, and otherwise ends in a newline |
| UploadVacuum.WriteSha256s | upload-vacuum/main.go:110-122 | the file is every checksum followed by a newline |
| UploadVacuum.LinesRoundTrip | upload-vacuum/main.go:116-121 | splitting the file at newlines gives the checksums back |
| UploadVacuum.PlanRetention | upload-vacuum/main.go:238-260 | all unprotected releases, split without overlap; at most four kept; nothing deleted while fewer than four are kept; no deleted key after a kept one; kept keys newest first and deleted keys oldest first; no repeats |
| UploadVacuum.Vacuum | upload-vacuum/main.go:228-282 | a load failure with the first problem's message; no releases exactly when nothing matched; otherwise the retention plan, deletion gated on `"1"`, and the checksum file or a failure exactly when a checksum is empty |
| BtrfsMigrator.ParseU64 | btrfs-migrator/src/main.rs:43 | accepted exactly: an optional `+`, one or more digits, a value below 2^64 |
| BtrfsMigrator.ParseU64Decimal | btrfs-migrator/src/main.rs:43-48 | every u64 in decimal, with or without `+`, parses to itself |
| BtrfsMigrator.ParseU64Rejects | btrfs-migrator/src/main.rs:43-52 | the empty string, a lone `+` and anything starting with `-` are rejected |
| BtrfsMigrator.Version | btrfs-migrator/src/main.rs:33-44 | an entry named `@kde-linux_…` that has `etc` offers the u64 parse of the text after the prefix, if it parses; every other entry offers none |
| BtrfsMigrator.VersionAfterPrefix | btrfs-migrator/src/main.rs:40-42 | for such names the text after the first `_` is the text after the prefix |
| BtrfsMigrator.ChosenUnique | btrfs-migrator/src/main.rs:45-47 | at most one entry is the highest version with only strictly lower ones before it |
| BtrfsMigrator.Offer | btrfs-migrator/src/main.rs:44-48 | one entry's turn: a version above the best so far, or the first version, becomes the best; otherwise the best so far stays |
| BtrfsMigrator.FindRootfsV1 | btrfs-migrator/src/main.rs:18-68 | returns a path exactly when the listing is readable, every entry is readable, and some entry offers a version; that path is the highest version's, the first of equal ones |
| BtrfsMigrator.ConcerningCountZero | btrfs-migrator/src/main.rs:112-118 | an entry is concerning exactly when its type is not `swap`; the count is at most the number of entries, and zero exactly when every entry is swap |
| BtrfsMigrator.CountConcerning | btrfs-migrator/src/main.rs:111-117 | counts the entries that are not swap; a missing fstab counts zero |
| BtrfsMigrator.Decide | btrfs-migrator/src/main.rs:73-146 | an existing `@system` skips the migration; concerning entries and a "no" refuse; otherwise it fails exactly when no legacy root is found and proceeds with the chosen one |
| CommandNotFound.Classify | mkosi.extra/usr/bin/_kde-linux-command-not-found-handler.py:50-63 | the branch taken: alternatives first, then unsupported managers, then available ones, then unknown, each with its table entry |
| CommandNotFound.Lead | mkosi.extra/usr/bin/_kde-linux-command-not-found-handler.py:50-62 | every message opens with a blank line and `KDE Linux does not` |
| CommandNotFound.Tail | mkosi.extra/usr/bin/_kde-linux-command-not-found-handler.py:50-62 | the text after the command ends in a newline and holds the alternative tool, the instructions URL or the Discover page, as the case offers |
| CommandNotFound.Message | mkosi.extra/usr/bin/_kde-linux-command-not-found-handler.py:50-62 | each message has the common opening, the command in quotes, and a final newline |
| CommandNotFound.Handle | mkosi.extra/usr/bin/_kde-linux-command-not-found-handler.py:48-63 | exit status 127 with exactly one message for any command; status 1 and no output without one |
| CommandNotFound.NixIsUnsupported | mkosi.extra/usr/bin/_kde-linux-command-not-found-handler.py:29-56 | `nix` is in both package-manager tables, and the unsupported branch is taken |
| CommandNotFound.AvailableOnlyForBrew | mkosi.extra/usr/bin/_kde-linux-command-not-found-handler.py:43-60 | the available branch is taken for `brew` and for nothing else |
| CommandNotFound.TablesOverlapOnlyAtNix | mkosi.extra/usr/bin/_kde-linux-command-not-found-handler.py:7-46 | the alternatives share no name with either package-manager table, and the two package-manager tables share only `nix` |
| CommandNotFound.MessageQuotesCommand | mkosi.extra/usr/bin/_kde-linux-command-not-found-handler.py:50-63 | every message names the command in quotes |
| CommandNotFound.AlternativeNamesTool | mkosi.extra/usr/bin/_kde-linux-command-not-found-handler.py:50-52 | an alternative's message names the tool to use instead |
| CommandNotFound.AvailableGivesUrl | mkosi.extra/usr/bin/_kde-linux-command-not-found-handler.py:58-60 | an available manager's message contains its instructions URL |

## Left out

- SHA-256, hex encoding and JSON reading/writing of the manifest (`loadBlob`, `json.Marshal`, `os.WriteFile`): hashing is an uninterpreted function, and the manifest is a value passed in and returned.
- `filepath.Walk` mechanics: the walk is a given sequence of distinct visits. Its lexical order and root handling are not derived.
- The errgroup worker pool (`mtimer/main.go:262-284`): the analysis tasks run one after the other. Their paths are disjoint, which the model proves, so in the model their order does not change the result. The program differs: restoring a link's time (`mtimer/main.go:143`) follows the link to its target. A queued file `d/a` whose hash is unchanged and a queued link `d/l -> a` whose target is unchanged then both set the time of `d/a` from concurrent tasks, and the one that runs last wins. The directory sort is done before the directory pass, not beside the analyses.
- `os.Chtimes` follows a symlink to its target. The model sets the time of the link path itself, since the target may lie outside the tree.
- Errors from `Chtimes` during analysis are ignored, as in the source. For `updateDir` they abort.
- The library sorts (`sort.Slice`, `sort.Strings`, `sort.Sort`) are modelled by value with a sorted-permutation contract, not as in-place sorts of a slice. The order within equal keys is not modelled, since Go does not promise it.
- Time is an unbounded integer of nanoseconds. Overflow of Go's `time.Time` and `int64` seconds is not modelled.
- A walked path given with a trailing `/`, or a root ending in `/`: listings are assumed to be `parent + "/" + name`. This hides a defect of the program. With the root `/`, or any root ending in `/`, `strings.Count` gives the root the same depth as the entries directly below it (`mtimer/main.go:289`). `MtimerFs.TrailingSlashTiesDepth` shows the tie, since the walk names those entries `root + name`. `sort.Slice` is not stable, so the root may be stamped before its subdirectories and then keep a time older than theirs.
- Entries that are neither directories nor symlinks (FIFOs, sockets, devices): `Node` has no kind for them. The program sends them down the regular-file branch (`mtimer/main.go:213`, `237-256`), where hashing them (`mtimer/main.go:70-82`) aborts with `log.Fatal` on a read error or blocks on a FIFO.
- upload-vacuum's SSH, SFTP and HTTP code (`connectToHost`, `readConfig`, the YAML parsing, the retry-and-sleep loop of `readSHA256`): the walk, the configuration and the fetch are inputs. The fetch's empty body stands for every failure.
- The environment checks at the start of upload-vacuum's `main` (`SSH_IDENTITY`, `SSH_HOST`, `SSH_USER`, `SSH_PATH`): the root and the deletion setting are parameters.
- Log output is not modelled in any program.
- UploadVacuum.WriteSha256s: cannot fail. The program aborts with `log.Fatal` when `os.Create` or a write fails (`upload-vacuum/main.go:110-122`).
- UploadVacuum.LinesRoundTrip: requires that no checksum body holds a newline. A body fetched from the server could, and the written file would then not split back into the same list.
- UploadVacuum.Vacuum: the `int` returned by `strconv.Atoi` is taken to be 64 bits wide.
- btrfs-migrator's mounting, copying, snapshotting, renaming, `udevadm`/`plymouth` calls, the QR code and the reboot: all are calls into external tools. Of `run`, only the decisions before them are modelled. Failures of `set_current_dir` and of creating `@system.import` are left out too.
- BtrfsMigrator.Decide: the user's answer to the prompt is a parameter. The fstab file's parsing is not modelled: its entries, or their absence, are an input.
- BtrfsMigrator.FindRootfsV1: `to_string_lossy` is not modelled. Names are taken to be valid text.
- The command-not-found handler's output on standard error: the traceback for a missing argument is not modelled.
