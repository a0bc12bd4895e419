/**
 * mtimer's main after the walk: the analysis fan-out (each task writes its
 * own result slot), the fold of the results into the new manifest, the
 * deepest-first directory pass, and Reconcile, which runs them in order.
 */
module MtimerMain {
  import opened Common
  import opened Sorting
  import opened MtimerFs
  import opened MtimerManifest
  import opened MtimerClassify

  // ---------------------------------------------------------------------------
  // The analysis fan-out

  /** The entry after analysis: its time goes back to the recorded second exactly when the hash is unchanged. */
  function AfterFile(nodes: map<Path, Node>, a: FileAnalysis, hash: Hasher): Node
    requires a.absPath in nodes && nodes[a.absPath].File?
  {
    var n := nodes[a.absPath];
    if a.info.sha256 == hash(n.content) then File(n.content, FromUnix(a.info.mtime)) else n
  }

  function AfterLink(nodes: map<Path, Node>, a: LinkAnalysis): Node
    requires a.absPath in nodes && nodes[a.absPath].Symlink?
  {
    var n := nodes[a.absPath];
    if a.info.target == n.target then Symlink(n.target, FromUnix(a.info.mtime)) else n
  }

  ghost predicate FilesUpTo(nodes: map<Path, Node>, queue: seq<FileAnalysis>, i: int) {
    forall q :: 0 <= q < i && q < |queue| ==> queue[q].absPath in nodes && nodes[queue[q].absPath].File?
  }

  ghost predicate LinksUpTo(nodes: map<Path, Node>, queue: seq<LinkAnalysis>, i: int) {
    forall q :: 0 <= q < i && q < |queue| ==> queue[q].absPath in nodes && nodes[queue[q].absPath].Symlink?
  }

  /** No task among the first `i` touches `p`. */
  ghost predicate FileUntouched(queue: seq<FileAnalysis>, p: Path, i: int) {
    forall q :: 0 <= q < i && q < |queue| ==> queue[q].absPath != p
  }

  ghost predicate LinkUntouched(queue: seq<LinkAnalysis>, p: Path, i: int) {
    forall q :: 0 <= q < i && q < |queue| ==> queue[q].absPath != p
  }

  ghost predicate FileTasksDisjoint(queue: seq<FileAnalysis>) {
    forall a, b :: 0 <= a < |queue| && 0 <= b < |queue| && a != b ==> queue[a].absPath != queue[b].absPath
  }

  ghost predicate LinkTasksDisjoint(queue: seq<LinkAnalysis>) {
    forall a, b :: 0 <= a < |queue| && 0 <= b < |queue| && a != b ==> queue[a].absPath != queue[b].absPath
  }

  /** `results` holds, slot by slot, what AnalyzedFile makes of each queued file in `nodes`. */
  ghost predicate FileResults(nodes: map<Path, Node>, queue: seq<FileAnalysis>, results: seq<FileAnalysis>, hash: Hasher)
    requires FilesUpTo(nodes, queue, |queue|)
  {
    && |results| == |queue|
    && forall q :: 0 <= q < |queue| ==> results[q] == AnalyzedFile(queue[q], hash(nodes[queue[q].absPath].content))
  }

  ghost predicate LinkResults(nodes: map<Path, Node>, queue: seq<LinkAnalysis>, results: seq<LinkAnalysis>)
    requires LinksUpTo(nodes, queue, |queue|)
  {
    && |results| == |queue|
    && forall q :: 0 <= q < |queue| ==> results[q] == AnalyzedLink(queue[q], nodes[queue[q].absPath].target)
  }

  /** The first `i` queued files are as AfterFile says, and every path none of them names is as it was. */
  ghost predicate FilesDoneUpTo(before: map<Path, Node>, after: map<Path, Node>, queue: seq<FileAnalysis>, i: int, hash: Hasher)
    requires FilesUpTo(before, queue, i)
  {
    && SameShape(before, after)
    && (forall q :: 0 <= q < i && q < |queue| ==> after[queue[q].absPath] == AfterFile(before, queue[q], hash))
    && (forall p :: p in before && FileUntouched(queue, p, i) ==> after[p] == before[p])
  }

  ghost predicate LinksDoneUpTo(before: map<Path, Node>, after: map<Path, Node>, queue: seq<LinkAnalysis>, i: int)
    requires LinksUpTo(before, queue, i)
  {
    && SameShape(before, after)
    && (forall q :: 0 <= q < i && q < |queue| ==> after[queue[q].absPath] == AfterLink(before, queue[q]))
    && (forall p :: p in before && LinkUntouched(queue, p, i) ==> after[p] == before[p])
  }

  /** The file pass took `before` to `after`: each queued file as AfterFile says, every other entry as it was. */
  ghost predicate FilePass(before: map<Path, Node>, after: map<Path, Node>, queue: seq<FileAnalysis>, hash: Hasher) {
    FilesUpTo(before, queue, |queue|) && FilesDoneUpTo(before, after, queue, |queue|, hash)
  }

  /** The link pass took `before` to `after`: each queued link as AfterLink says, every other entry as it was. */
  ghost predicate LinkPass(before: map<Path, Node>, after: map<Path, Node>, queue: seq<LinkAnalysis>) {
    LinksUpTo(before, queue, |queue|) && LinksDoneUpTo(before, after, queue, |queue|)
  }

  /**
   * The file half of the errgroup fan-out, run one task after the other:
   * task `i` analyzes queue[i] and writes slot `i`. Tasks touch disjoint
   * paths, so the order does not matter. `ok` is false where a task aborts
   * the program (a queued path that is no longer a regular file).
   */
  method AnalyzeFiles(fs: FileSystem, queue: seq<FileAnalysis>, hash: Hasher) returns (results: array<FileAnalysis>, ok: bool)
    requires fs.Valid()
    requires FileTasksDisjoint(queue)
    modifies fs
    ensures fresh(results) && results.Length == |queue|
    ensures fs.Valid() && SameShape(old(fs.nodes), fs.nodes)
    ensures ok <==> FilesUpTo(old(fs.nodes), queue, |queue|)
    ensures ok ==> FileResults(old(fs.nodes), queue, results[..], hash)
    ensures ok ==> FilePass(old(fs.nodes), fs.nodes, queue, hash)
  {
    results := new FileAnalysis[|queue|];
    var i := 0;
    while i < |queue|
      invariant 0 <= i <= |queue|
      invariant fs.Valid()
      invariant FilesUpTo(old(fs.nodes), queue, i) && FilesDoneUpTo(old(fs.nodes), fs.nodes, queue, i, hash)
      invariant forall q :: 0 <= q < i ==>
        results[q] == AnalyzedFile(queue[q], hash(old(fs.nodes)[queue[q].absPath].content))
    {
      var a := AnalyzeNextFile(fs, queue, i, hash, old(fs.nodes));
      if a.None? {
        return results, false;
      }
      results[i] := a.value;
      i := i + 1;
    }
    return results, true;
  }

  /** Task `i` of the file fan-out, on a tree the first `i` tasks have been through. */
  method AnalyzeNextFile(fs: FileSystem, queue: seq<FileAnalysis>, i: int, hash: Hasher, ghost old0: map<Path, Node>)
    returns (a: Option<FileAnalysis>)
    requires fs.Valid() && 0 <= i < |queue| && FileTasksDisjoint(queue)
    requires FilesUpTo(old0, queue, i) && FilesDoneUpTo(old0, fs.nodes, queue, i, hash)
    modifies fs
    ensures fs.Valid()
    ensures a.None? <==> !(queue[i].absPath in old0 && old0[queue[i].absPath].File?)
    ensures a.None? ==> fs.nodes == old(fs.nodes)
    ensures a.Some? ==> a.value == AnalyzedFile(queue[i], hash(old0[queue[i].absPath].content))
    ensures a.Some? ==> FilesUpTo(old0, queue, i + 1) && FilesDoneUpTo(old0, fs.nodes, queue, i + 1, hash)
  {
    ghost var before := fs.nodes;
    var p := queue[i].absPath;
    if p in old0 {
      assert Shape(old0[p]) == Shape(before[p]);
      assert FileUntouched(queue, p, i);
    }
    a := AnalyzeFile(fs, queue[i], hash);
    if a.Some? {
      SameShapeTransitive(old0, before, fs.nodes);
    }
  }

  /** The link half of the fan-out. */
  method AnalyzeLinks(fs: FileSystem, queue: seq<LinkAnalysis>) returns (results: array<LinkAnalysis>, ok: bool)
    requires fs.Valid()
    requires LinkTasksDisjoint(queue)
    modifies fs
    ensures fresh(results) && results.Length == |queue|
    ensures fs.Valid() && SameShape(old(fs.nodes), fs.nodes)
    ensures ok <==> LinksUpTo(old(fs.nodes), queue, |queue|)
    ensures ok ==> LinkResults(old(fs.nodes), queue, results[..])
    ensures ok ==> LinkPass(old(fs.nodes), fs.nodes, queue)
  {
    results := new LinkAnalysis[|queue|];
    var i := 0;
    while i < |queue|
      invariant 0 <= i <= |queue|
      invariant fs.Valid()
      invariant LinksUpTo(old(fs.nodes), queue, i) && LinksDoneUpTo(old(fs.nodes), fs.nodes, queue, i)
      invariant forall q :: 0 <= q < i ==>
        results[q] == AnalyzedLink(queue[q], old(fs.nodes)[queue[q].absPath].target)
    {
      var a := AnalyzeNextLink(fs, queue, i, old(fs.nodes));
      if a.None? {
        return results, false;
      }
      results[i] := a.value;
      i := i + 1;
    }
    return results, true;
  }

  /** Task `i` of the link fan-out. */
  method AnalyzeNextLink(fs: FileSystem, queue: seq<LinkAnalysis>, i: int, ghost old0: map<Path, Node>)
    returns (a: Option<LinkAnalysis>)
    requires fs.Valid() && 0 <= i < |queue| && LinkTasksDisjoint(queue)
    requires LinksUpTo(old0, queue, i) && LinksDoneUpTo(old0, fs.nodes, queue, i)
    modifies fs
    ensures fs.Valid()
    ensures a.None? <==> !(queue[i].absPath in old0 && old0[queue[i].absPath].Symlink?)
    ensures a.None? ==> fs.nodes == old(fs.nodes)
    ensures a.Some? ==> a.value == AnalyzedLink(queue[i], old0[queue[i].absPath].target)
    ensures a.Some? ==> LinksUpTo(old0, queue, i + 1) && LinksDoneUpTo(old0, fs.nodes, queue, i + 1)
  {
    ghost var before := fs.nodes;
    var p := queue[i].absPath;
    if p in old0 {
      assert Shape(old0[p]) == Shape(before[p]);
      assert LinkUntouched(queue, p, i);
    }
    a := AnalyzeLink(fs, queue[i]);
    if a.Some? {
      SameShapeTransitive(old0, before, fs.nodes);
    }
  }

  // ---------------------------------------------------------------------------
  // Folding the results into the new manifest

  /** No result after position `q` has the same relative path as results[q]. */
  ghost predicate LastFileWrite(results: seq<FileAnalysis>, q: int)
    requires 0 <= q < |results|
  {
    LastFileWriteBefore(results, q, |results|)
  }

  /** No result after slot `q` and before slot `i` names the same path. */
  ghost predicate LastFileWriteBefore(results: seq<FileAnalysis>, q: int, i: int)
    requires 0 <= q < |results| && i <= |results|
  {
    forall q2 :: q < q2 < i ==> results[q2].relPath != results[q].relPath
  }

  ghost predicate LastLinkWrite(results: seq<LinkAnalysis>, q: int)
    requires 0 <= q < |results|
  {
    LastLinkWriteBefore(results, q, |results|)
  }

  ghost predicate LastLinkWriteBefore(results: seq<LinkAnalysis>, q: int, i: int)
    requires 0 <= q < |results| && i <= |results|
  {
    forall q2 :: q < q2 < i ==> results[q2].relPath != results[q].relPath
  }

  /** The fold after the pool joins: each file result goes under its relative path, the last write winning. */
  /**
   * `r` is `files` with every result written in order: its keys are the old
   * ones and the results' paths, the last write to a path wins, and a path
   * no result names keeps its old record.
   */
  ghost predicate FilesFolded(files: map<Path, FileInfo>, results: seq<FileAnalysis>, r: map<Path, FileInfo>) {
    && (forall k :: k in r <==> k in files || exists q :: 0 <= q < |results| && results[q].relPath == k)
    && (forall q :: 0 <= q < |results| && LastFileWrite(results, q) ==> r[results[q].relPath] == results[q].info)
    && (forall k :: k in files && (forall q :: 0 <= q < |results| ==> results[q].relPath != k) ==> r[k] == files[k])
  }

  method FoldFiles(files: map<Path, FileInfo>, results: seq<FileAnalysis>) returns (r: map<Path, FileInfo>)
    ensures FilesFolded(files, results, r)
  {
    r := files;
    var i := 0;
    while i < |results|
      invariant 0 <= i <= |results|
      invariant forall k :: k in r <==> k in files || exists q :: 0 <= q < i && results[q].relPath == k
      invariant forall q :: 0 <= q < i && LastFileWriteBefore(results, q, i) ==> r[results[q].relPath] == results[q].info
      invariant forall k :: k in files && (forall q :: 0 <= q < i ==> results[q].relPath != k) ==> r[k] == files[k]
    {
      r := r[results[i].relPath := results[i].info];
      i := i + 1;
    }
  }

  /** The same fold for symbolic links. */
  ghost predicate LinksFolded(links: map<Path, LinkInfo>, results: seq<LinkAnalysis>, r: map<Path, LinkInfo>) {
    && (forall k :: k in r <==> k in links || exists q :: 0 <= q < |results| && results[q].relPath == k)
    && (forall q :: 0 <= q < |results| && LastLinkWrite(results, q) ==> r[results[q].relPath] == results[q].info)
    && (forall k :: k in links && (forall q :: 0 <= q < |results| ==> results[q].relPath != k) ==> r[k] == links[k])
  }

  method FoldLinks(links: map<Path, LinkInfo>, results: seq<LinkAnalysis>) returns (r: map<Path, LinkInfo>)
    ensures LinksFolded(links, results, r)
  {
    r := links;
    var i := 0;
    while i < |results|
      invariant 0 <= i <= |results|
      invariant forall k :: k in r <==> k in links || exists q :: 0 <= q < i && results[q].relPath == k
      invariant forall q :: 0 <= q < i && LastLinkWriteBefore(results, q, i) ==> r[results[q].relPath] == results[q].info
      invariant forall k :: k in links && (forall q :: 0 <= q < i ==> results[q].relPath != k) ==> r[k] == links[k]
    {
      r := r[results[i].relPath := results[i].info];
      i := i + 1;
    }
  }

  // ---------------------------------------------------------------------------
  // The directory pass

  /** The comparator handed to the sort: more separators first. */
  predicate DeeperOrEqual(a: DirInfo, b: DirInfo) {
    Depth(a.absPath) >= Depth(b.absPath)
  }

  lemma DeeperOrEqualIsTotalPreorder()
    ensures TotalPreorder(DeeperOrEqual)
  {}

  /** A directory listed under another sorts strictly before it. */
  lemma ChildSortsBeforeParent(c: DirInfo, d: DirInfo)
    requires ChildOf(c.absPath, d.absPath)
    ensures DeeperOrEqual(c, d) && !DeeperOrEqual(d, c)
  {
    ChildIsOneDeeper(c.absPath, d.absPath);
  }

  ghost predicate DeepestFirst(dirs: seq<DirInfo>) {
    forall i, j :: 0 <= i < j < |dirs| ==> Depth(dirs[i].absPath) >= Depth(dirs[j].absPath)
  }

  /** The directories ordered deepest first; equally deep ones in any order. */
  function SortDirs(dirs: seq<DirInfo>): (r: seq<DirInfo>)
    ensures multiset(r) == multiset(dirs)
    ensures DeepestFirst(r)
  {
    DeeperOrEqualIsTotalPreorder();
    var r := Sort(DeeperOrEqual, dirs);
    assert forall i, j :: 0 <= i < j < |r| ==> DeeperOrEqual(r[i], r[j]);
    r
  }

  ghost predicate DirUntouched(dirs: seq<DirInfo>, p: Path, i: int) {
    forall j :: 0 <= j < i && j < |dirs| ==> dirs[j].absPath != p
  }

  /** The directory pass took `before` to `after`: each directory carries its latest child time, every other entry is as it was. */
  ghost predicate DirPass(before: map<Path, Node>, after: map<Path, Node>, listing: map<Path, seq<Path>>, dirs: seq<DirInfo>) {
    && SameShape(before, after)
    && WellFormed(after, listing)
    && (forall j :: 0 <= j < |dirs| ==> dirs[j].absPath in listing)
    && (forall j :: 0 <= j < |dirs| ==> after[dirs[j].absPath].mtime == Latest(after, listing[dirs[j].absPath]))
    && (forall p :: p in before && DirUntouched(dirs, p, |dirs|) ==> after[p] == before[p])
  }

  /** A directory at least as deep as `e` does not list `e`, so stamping `e` leaves its latest child time alone. */
  lemma StampKeepsDeeperLatest(nodes: map<Path, Node>, listing: map<Path, seq<Path>>, e: Path, t: int, d: Path)
    requires WellFormed(nodes, listing)
    requires d in listing
    requires Depth(d) >= Depth(e)
    ensures WellFormed(SetMtime(nodes, e, t), listing)
    ensures Latest(SetMtime(nodes, e, t), listing[d]) == Latest(nodes, listing[d])
  {
    var after := SetMtime(nodes, e, t);
    SameShapeWellFormed(nodes, after, listing);
    forall k | 0 <= k < |listing[d]|
      ensures listing[d][k] != e
    {
      if listing[d][k] == e {
        ChildIsOneDeeper(e, d);
      }
    }
    LatestFrame(nodes, after, listing[d]);
  }

  /** The first `i` directories are listed. */
  ghost predicate ListedUpTo(listing: map<Path, seq<Path>>, dirs: seq<DirInfo>, i: int) {
    forall j :: 0 <= j < i && j < |dirs| ==> dirs[j].absPath in listing
  }

  /** The first `i` directories carry their latest child time. */
  ghost predicate StampedUpTo(nodes: map<Path, Node>, listing: map<Path, seq<Path>>, dirs: seq<DirInfo>, i: int)
    requires WellFormed(nodes, listing) && ListedUpTo(listing, dirs, i)
  {
    forall j :: 0 <= j < i && j < |dirs| ==> nodes[dirs[j].absPath].mtime == Latest(nodes, listing[dirs[j].absPath])
  }

  /** One step of the pass keeps every directory stamped so far equal to its latest child. */
  lemma DirPassStep(before: map<Path, Node>, after: map<Path, Node>, listing: map<Path, seq<Path>>, dirs: seq<DirInfo>, i: int)
    requires WellFormed(before, listing)
    requires 0 <= i < |dirs| && DeepestFirst(dirs)
    requires ListedUpTo(listing, dirs, i + 1)
    requires after == SetMtime(before, dirs[i].absPath, Latest(before, listing[dirs[i].absPath]))
    requires StampedUpTo(before, listing, dirs, i)
    ensures WellFormed(after, listing)
    ensures StampedUpTo(after, listing, dirs, i + 1)
  {
    var e := dirs[i].absPath;
    var t := Latest(before, listing[e]);
    StampKeepsDeeperLatest(before, listing, e, t, e);
    forall j | 0 <= j <= i
      ensures after[dirs[j].absPath].mtime == Latest(after, listing[dirs[j].absPath])
    {
      StampKeepsDeeperLatest(before, listing, e, t, dirs[j].absPath);
    }
  }

  /** Every path the first `i` directories do not name is as it was in `old0`. */
  ghost predicate KeptUpTo(old0: map<Path, Node>, nodes: map<Path, Node>, dirs: seq<DirInfo>, i: int) {
    forall p :: p in old0 && DirUntouched(dirs, p, i) ==> p in nodes && nodes[p] == old0[p]
  }

  /** Stamping one directory leaves every path the pass has not reached yet as it was. */
  lemma UntouchedStep(old0: map<Path, Node>, before: map<Path, Node>, dirs: seq<DirInfo>, i: int, t: int)
    requires 0 <= i < |dirs|
    requires KeptUpTo(old0, before, dirs, i)
    ensures KeptUpTo(old0, SetMtime(before, dirs[i].absPath, t), dirs, i + 1)
  {
  }

  /** One round of the directory loop: updateDir on dirs[i]. */
  method UpdateNext(fs: FileSystem, dirs: seq<DirInfo>, i: int, ghost old0: map<Path, Node>) returns (ok: bool)
    requires fs.Valid() && 0 <= i < |dirs|
    requires SameShape(old0, fs.nodes) && ListedUpTo(fs.listing, dirs, i) && KeptUpTo(old0, fs.nodes, dirs, i)
    requires DeepestFirst(dirs) ==> StampedUpTo(fs.nodes, fs.listing, dirs, i)
    modifies fs
    ensures fs.Valid()
    ensures ok == (dirs[i].absPath in fs.listing)
    ensures !ok ==> fs.nodes == old(fs.nodes)
    ensures ok ==> SameShape(old0, fs.nodes) && ListedUpTo(fs.listing, dirs, i + 1) && KeptUpTo(old0, fs.nodes, dirs, i + 1)
    ensures ok && DeepestFirst(dirs) ==> StampedUpTo(fs.nodes, fs.listing, dirs, i + 1)
  {
    ghost var before := fs.nodes;
    ok := fs.UpdateDir(dirs[i].absPath);
    if ok {
      SameShapeTransitive(old0, before, fs.nodes);
      UntouchedStep(old0, before, dirs, i, Latest(before, fs.listing[dirs[i].absPath]));
      if DeepestFirst(dirs) {
        DirPassStep(before, fs.nodes, fs.listing, dirs, i);
      }
    }
  }

  /**
   * The sequential directory loop: updateDir on each directory in the order
   * given. `ok` is false where an update aborts the program. Given deepest
   * first, every directory ends up stamped with its latest child.
   */
  method UpdateDirs(fs: FileSystem, dirs: seq<DirInfo>) returns (ok: bool)
    requires fs.Valid()
    modifies fs
    ensures fs.Valid() && SameShape(old(fs.nodes), fs.nodes)
    ensures ok <==> forall j :: 0 <= j < |dirs| ==> dirs[j].absPath in fs.listing
    ensures forall p :: p in old(fs.nodes) && DirUntouched(dirs, p, |dirs|) ==> fs.nodes[p] == old(fs.nodes)[p]
    ensures ok && DeepestFirst(dirs) ==> forall j :: 0 <= j < |dirs| ==>
      fs.nodes[dirs[j].absPath].mtime == Latest(fs.nodes, fs.listing[dirs[j].absPath])
  {
    var i := 0;
    while i < |dirs|
      invariant 0 <= i <= |dirs|
      invariant fs.Valid() && SameShape(old(fs.nodes), fs.nodes)
      invariant ListedUpTo(fs.listing, dirs, i)
      invariant KeptUpTo(old(fs.nodes), fs.nodes, dirs, i)
      invariant DeepestFirst(dirs) ==> StampedUpTo(fs.nodes, fs.listing, dirs, i)
    {
      var updated := UpdateNext(fs, dirs, i, old(fs.nodes));
      if !updated {
        KeptMonotone(old(fs.nodes), fs.nodes, dirs, i, |dirs|);
        return false;
      }
      i := i + 1;
    }
    return true;
  }

  /** A path no directory names at all is in particular not named by the first `i`. */
  lemma KeptMonotone(old0: map<Path, Node>, nodes: map<Path, Node>, dirs: seq<DirInfo>, i: int, n: int)
    requires i <= n
    requires KeptUpTo(old0, nodes, dirs, i)
    ensures KeptUpTo(old0, nodes, dirs, n)
  {
  }

  // ---------------------------------------------------------------------------
  // What a whole run promises

  /** Every walked regular file is recorded as ExpectedFile says, and every file record comes from a walked regular file. */
  ghost predicate ManifestFiles(m: map<Path, FileInfo>, prior: Sums, nodes: map<Path, Node>, walk: seq<Visit>, hash: Hasher)
    requires Found(nodes, walk)
  {
    && (forall i :: 0 <= i < |walk| && nodes[walk[i].absPath].File? ==>
          walk[i].relPath in m &&
          m[walk[i].relPath] == ExpectedFile(prior.files, walk[i].relPath, nodes[walk[i].absPath].content, nodes[walk[i].absPath].mtime, hash))
    && (forall k :: k in m ==> exists i :: 0 <= i < |walk| && walk[i].relPath == k && nodes[walk[i].absPath].File?)
  }

  ghost predicate ManifestLinks(m: map<Path, LinkInfo>, prior: Sums, nodes: map<Path, Node>, walk: seq<Visit>)
    requires Found(nodes, walk)
  {
    && (forall i :: 0 <= i < |walk| && nodes[walk[i].absPath].Symlink? ==>
          walk[i].relPath in m &&
          m[walk[i].relPath] == ExpectedLink(prior.symlinks, walk[i].relPath, nodes[walk[i].absPath].target, nodes[walk[i].absPath].mtime))
    && (forall k :: k in m ==> exists i :: 0 <= i < |walk| && walk[i].relPath == k && nodes[walk[i].absPath].Symlink?)
  }

  /** The manifest a run writes, entry by entry; prior entries that were not walked are dropped. */
  ghost predicate ManifestMatches(m: Sums, prior: Sums, nodes: map<Path, Node>, walk: seq<Visit>, hash: Hasher)
    requires Found(nodes, walk)
  {
    ManifestFiles(m.files, prior, nodes, walk, hash) && ManifestLinks(m.symlinks, prior, nodes, walk)
  }

  ghost predicate FileTimes(after: map<Path, Node>, before: map<Path, Node>, prior: Sums, walk: seq<Visit>, hash: Hasher)
    requires Found(before, walk) && SameShape(before, after)
  {
    forall i :: 0 <= i < |walk| && before[walk[i].absPath].File? ==>
      after[walk[i].absPath].mtime ==
        FileTimeAfter(prior.files, walk[i].relPath, before[walk[i].absPath].content, before[walk[i].absPath].mtime, hash)
  }

  ghost predicate LinkTimes(after: map<Path, Node>, before: map<Path, Node>, prior: Sums, walk: seq<Visit>)
    requires Found(before, walk) && SameShape(before, after)
  {
    forall i :: 0 <= i < |walk| && before[walk[i].absPath].Symlink? ==>
      after[walk[i].absPath].mtime ==
        LinkTimeAfter(prior.symlinks, walk[i].relPath, before[walk[i].absPath].target, before[walk[i].absPath].mtime)
  }

  ghost predicate DirTimes(after: map<Path, Node>, before: map<Path, Node>, listing: map<Path, seq<Path>>, walk: seq<Visit>)
    requires Found(before, walk) && SameShape(before, after) && WellFormed(after, listing)
  {
    forall i :: 0 <= i < |walk| && before[walk[i].absPath].Directory? ==>
      walk[i].absPath in listing && after[walk[i].absPath].mtime == Latest(after, listing[walk[i].absPath])
  }

  ghost predicate Unwalked(after: map<Path, Node>, before: map<Path, Node>, walk: seq<Visit>)
    requires SameShape(before, after)
  {
    forall p :: p in before && (forall i :: 0 <= i < |walk| ==> walk[i].absPath != p) ==> after[p] == before[p]
  }

  /**
   * The tree after a run: nothing is created, removed or rewritten; files and
   * links carry the times FileTimeAfter and LinkTimeAfter give; every walked
   * directory carries the newest time among its non-link children in the
   * final tree; nothing outside the walk changes.
   */
  ghost predicate TreeReconciled(after: map<Path, Node>, before: map<Path, Node>, listing: map<Path, seq<Path>>,
                                 prior: Sums, walk: seq<Visit>, hash: Hasher)
    requires Found(before, walk)
  {
    && SameShape(before, after)
    && WellFormed(after, listing)
    && FileTimes(after, before, prior, walk, hash)
    && LinkTimes(after, before, prior, walk)
    && DirTimes(after, before, listing, walk)
    && Unwalked(after, before, walk)
  }

  /** The fold of the file results yields the file half of the manifest. */
  lemma FilesRecorded(prior: Sums, nodes: map<Path, Node>, walk: seq<Visit>, hash: Hasher, w: Walked,
                      results: seq<FileAnalysis>, files: map<Path, FileInfo>)
    requires Found(nodes, walk) && Distinct(walk)
    requires w == Classification(prior, nodes, walk, hash)
    requires FilesUpTo(nodes, w.toAnalyze, |w.toAnalyze|)
    requires FileResults(nodes, w.toAnalyze, results, hash)
    requires FilesFolded(w.blob.files, results, files)
    ensures ManifestFiles(files, prior, nodes, walk, hash)
  {
    forall i | 0 <= i < |walk| && nodes[walk[i].absPath].File?
      ensures walk[i].relPath in files
      ensures files[walk[i].relPath] == ExpectedFile(prior.files, walk[i].relPath, nodes[walk[i].absPath].content, nodes[walk[i].absPath].mtime, hash)
    {
      FileVisitRecorded(prior, nodes, walk, hash, w, results, files, i);
    }
    forall k | k in files
      ensures exists i :: 0 <= i < |walk| && walk[i].relPath == k && nodes[walk[i].absPath].File?
    {
      WalkedFromVisits(prior, nodes, walk, hash);
      FilesKeyWalked(prior, nodes, walk, w, results, files, k);
    }
  }

  /** A walked file gets the record ExpectedFile gives it. */
  lemma FileVisitRecorded(prior: Sums, nodes: map<Path, Node>, walk: seq<Visit>, hash: Hasher, w: Walked,
                           results: seq<FileAnalysis>, files: map<Path, FileInfo>, i: int)
    requires Found(nodes, walk) && Distinct(walk)
    requires w == Classification(prior, nodes, walk, hash)
    requires FilesUpTo(nodes, w.toAnalyze, |w.toAnalyze|)
    requires FileResults(nodes, w.toAnalyze, results, hash)
    requires FilesFolded(w.blob.files, results, files)
    requires 0 <= i < |walk| && nodes[walk[i].absPath].File?
    ensures walk[i].relPath in files
    ensures files[walk[i].relPath] == ExpectedFile(prior.files, walk[i].relPath, nodes[walk[i].absPath].content, nodes[walk[i].absPath].mtime, hash)
  {
    WalkedFromVisits(prior, nodes, walk, hash);
    QueuedDisjoint(prior, nodes, walk, hash);
    VisitPlaced(prior, nodes, walk, hash, i);
    var v := walk[i];
    var n := nodes[v.absPath];
    if v.relPath in prior.files && prior.files[v.relPath].mtime != UnixSeconds(n.mtime) {
      var q :| 0 <= q < |w.toAnalyze| && w.toAnalyze[q] == FileAnalysis(prior.files[v.relPath], v.absPath, v.relPath);
      assert LastFileWrite(results, q);
    } else {
      forall q | 0 <= q < |results|
        ensures results[q].relPath != v.relPath
      {
        var j :| 0 <= j < |walk| && QueuedFile(prior, nodes, walk[j], w.toAnalyze[q]);
      }
    }
  }

  /** Every key of the folded map belongs to a walked file. */
  lemma FilesKeyWalked(prior: Sums, nodes: map<Path, Node>, walk: seq<Visit>, w: Walked,
                       results: seq<FileAnalysis>, files: map<Path, FileInfo>, k: Path)
    requires Found(nodes, walk)
    requires FromVisits(prior, nodes, walk, w)
    requires |results| == |w.toAnalyze| && forall q :: 0 <= q < |results| ==> results[q].relPath == w.toAnalyze[q].relPath
    requires FilesFolded(w.blob.files, results, files)
    requires k in files
    ensures exists i :: 0 <= i < |walk| && walk[i].relPath == k && nodes[walk[i].absPath].File?
  {
    if k !in w.blob.files {
      var q :| 0 <= q < |results| && results[q].relPath == k;
      var j :| 0 <= j < |walk| && QueuedFile(prior, nodes, walk[j], w.toAnalyze[q]);
      assert walk[j].relPath == k && nodes[walk[j].absPath].File?;
    }
  }

  /** The fold of the link results yields the link half of the manifest. */
  lemma LinksRecorded(prior: Sums, nodes: map<Path, Node>, walk: seq<Visit>, hash: Hasher, w: Walked,
                      results: seq<LinkAnalysis>, links: map<Path, LinkInfo>)
    requires Found(nodes, walk) && Distinct(walk)
    requires w == Classification(prior, nodes, walk, hash)
    requires LinksUpTo(nodes, w.linksToAnalyze, |w.linksToAnalyze|)
    requires LinkResults(nodes, w.linksToAnalyze, results)
    requires LinksFolded(w.blob.symlinks, results, links)
    ensures ManifestLinks(links, prior, nodes, walk)
  {
    forall i | 0 <= i < |walk| && nodes[walk[i].absPath].Symlink?
      ensures walk[i].relPath in links
      ensures links[walk[i].relPath] == ExpectedLink(prior.symlinks, walk[i].relPath, nodes[walk[i].absPath].target, nodes[walk[i].absPath].mtime)
    {
      LinkVisitRecorded(prior, nodes, walk, hash, w, results, links, i);
    }
    forall k | k in links
      ensures exists i :: 0 <= i < |walk| && walk[i].relPath == k && nodes[walk[i].absPath].Symlink?
    {
      WalkedFromVisits(prior, nodes, walk, hash);
      LinksKeyWalked(prior, nodes, walk, w, results, links, k);
    }
  }

  /** A walked link gets the record ExpectedLink gives it. */
  lemma LinkVisitRecorded(prior: Sums, nodes: map<Path, Node>, walk: seq<Visit>, hash: Hasher, w: Walked,
                           results: seq<LinkAnalysis>, links: map<Path, LinkInfo>, i: int)
    requires Found(nodes, walk) && Distinct(walk)
    requires w == Classification(prior, nodes, walk, hash)
    requires LinksUpTo(nodes, w.linksToAnalyze, |w.linksToAnalyze|)
    requires LinkResults(nodes, w.linksToAnalyze, results)
    requires LinksFolded(w.blob.symlinks, results, links)
    requires 0 <= i < |walk| && nodes[walk[i].absPath].Symlink?
    ensures walk[i].relPath in links
    ensures links[walk[i].relPath] == ExpectedLink(prior.symlinks, walk[i].relPath, nodes[walk[i].absPath].target, nodes[walk[i].absPath].mtime)
  {
    WalkedFromVisits(prior, nodes, walk, hash);
    QueuedDisjoint(prior, nodes, walk, hash);
    VisitPlaced(prior, nodes, walk, hash, i);
    var v := walk[i];
    var n := nodes[v.absPath];
    if v.relPath in prior.symlinks && prior.symlinks[v.relPath].mtime != UnixSeconds(n.mtime) {
      var q :| 0 <= q < |w.linksToAnalyze| && w.linksToAnalyze[q] == LinkAnalysis(prior.symlinks[v.relPath], v.absPath, v.relPath);
      assert LastLinkWrite(results, q);
    } else {
      forall q | 0 <= q < |results|
        ensures results[q].relPath != v.relPath
      {
        var j :| 0 <= j < |walk| && QueuedLink(prior, nodes, walk[j], w.linksToAnalyze[q]);
      }
    }
  }

  /** Every key of the folded map belongs to a walked link. */
  lemma LinksKeyWalked(prior: Sums, nodes: map<Path, Node>, walk: seq<Visit>, w: Walked,
                       results: seq<LinkAnalysis>, links: map<Path, LinkInfo>, k: Path)
    requires Found(nodes, walk)
    requires FromVisits(prior, nodes, walk, w)
    requires |results| == |w.linksToAnalyze| && forall q :: 0 <= q < |results| ==> results[q].relPath == w.linksToAnalyze[q].relPath
    requires LinksFolded(w.blob.symlinks, results, links)
    requires k in links
    ensures exists i :: 0 <= i < |walk| && walk[i].relPath == k && nodes[walk[i].absPath].Symlink?
  {
    if k !in w.blob.symlinks {
      var q :| 0 <= q < |results| && results[q].relPath == k;
      var j :| 0 <= j < |walk| && QueuedLink(prior, nodes, walk[j], w.linksToAnalyze[q]);
      assert walk[j].relPath == k && nodes[walk[j].absPath].Symlink?;
    }
  }

  /** The three passes over the tree, composed, give TreeReconciled. */
  lemma TreeAssembled(prior: Sums, walk: seq<Visit>, hash: Hasher, w: Walked, listing: map<Path, seq<Path>>, dirs: seq<DirInfo>,
                      nodes0: map<Path, Node>, nodes1: map<Path, Node>, nodes2: map<Path, Node>, nodes3: map<Path, Node>)
    requires Found(nodes0, walk) && Distinct(walk)
    requires w == Classification(prior, nodes0, walk, hash)
    requires FilePass(nodes0, nodes1, w.toAnalyze, hash)
    requires LinkPass(nodes1, nodes2, w.linksToAnalyze)
    requires multiset(dirs) == multiset(w.dirs)
    requires DirPass(nodes2, nodes3, listing, dirs)
    ensures TreeReconciled(nodes3, nodes0, listing, prior, walk, hash)
  {
    WalkedFromVisits(prior, nodes0, walk, hash);
    SameShapeTransitive(nodes0, nodes1, nodes2);
    SameShapeTransitive(nodes0, nodes2, nodes3);
    DirsFromVisits(prior, nodes0, walk, w, dirs);
    FileTimesAssembled(prior, walk, hash, w, listing, dirs, nodes0, nodes1, nodes2, nodes3);
    LinkTimesAssembled(prior, walk, hash, w, listing, dirs, nodes0, nodes1, nodes2, nodes3);
    DirTimesAssembled(prior, walk, hash, w, listing, dirs, nodes0, nodes2, nodes3);
    UnwalkedAssembled(prior, walk, hash, w, listing, dirs, nodes0, nodes1, nodes2, nodes3);
  }

  /** Some visit of the walk is the directory `p`. */
  ghost predicate WalkedDir(nodes: map<Path, Node>, walk: seq<Visit>, p: Path) {
    exists i :: 0 <= i < |walk| && walk[i].absPath == p && p in nodes && nodes[p].Directory?
  }

  /** Every directory the pass stamps was walked as a directory. */
  lemma DirsFromVisits(prior: Sums, nodes0: map<Path, Node>, walk: seq<Visit>, w: Walked, dirs: seq<DirInfo>)
    requires Found(nodes0, walk)
    requires FromVisits(prior, nodes0, walk, w)
    requires multiset(dirs) == multiset(w.dirs)
    ensures forall j :: 0 <= j < |dirs| ==> WalkedDir(nodes0, walk, dirs[j].absPath)
  {
    forall j | 0 <= j < |dirs|
      ensures WalkedDir(nodes0, walk, dirs[j].absPath)
    {
      assert dirs[j] in multiset(w.dirs);
      var q :| 0 <= q < |w.dirs| && w.dirs[q] == dirs[j];
      var i :| 0 <= i < |walk| && walk[i].absPath == w.dirs[q].absPath && nodes0[walk[i].absPath].Directory?;
    }
  }

  /** The file pass leaves every entry that is not a regular file alone. */
  lemma FilePassSkips(before: map<Path, Node>, after: map<Path, Node>, queue: seq<FileAnalysis>, hash: Hasher, p: Path)
    requires FilePass(before, after, queue, hash)
    requires p in before && !before[p].File?
    ensures after[p] == before[p]
  {
    assert FileUntouched(queue, p, |queue|);
  }

  /** The link pass leaves every entry that is not a symbolic link alone. */
  lemma LinkPassSkips(before: map<Path, Node>, after: map<Path, Node>, queue: seq<LinkAnalysis>, p: Path)
    requires LinkPass(before, after, queue)
    requires p in before && !before[p].Symlink?
    ensures after[p] == before[p]
  {
    assert LinkUntouched(queue, p, |queue|);
  }

  /** The directory pass leaves every entry that is not a directory alone. */
  lemma DirPassSkips(before: map<Path, Node>, after: map<Path, Node>, listing: map<Path, seq<Path>>, dirs: seq<DirInfo>, p: Path)
    requires DirPass(before, after, listing, dirs)
    requires p in before && !before[p].Directory?
    ensures after[p] == before[p]
  {
    forall j | 0 <= j < |dirs|
      ensures dirs[j].absPath != p
    {
      assert Shape(before[dirs[j].absPath]) == Shape(after[dirs[j].absPath]);
    }
    assert DirUntouched(dirs, p, |dirs|);
  }

  /** A walked file's time after the file pass. */
  lemma FileTimeAt(prior: Sums, nodes0: map<Path, Node>, walk: seq<Visit>, hash: Hasher, w: Walked, nodes1: map<Path, Node>, i: int)
    requires Found(nodes0, walk) && Distinct(walk)
    requires w == Classification(prior, nodes0, walk, hash)
    requires FromVisits(prior, nodes0, walk, w)
    requires FilePass(nodes0, nodes1, w.toAnalyze, hash)
    requires 0 <= i < |walk| && nodes0[walk[i].absPath].File?
    ensures nodes1[walk[i].absPath].mtime ==
      FileTimeAfter(prior.files, walk[i].relPath, nodes0[walk[i].absPath].content, nodes0[walk[i].absPath].mtime, hash)
  {
    var v := walk[i];
    if q :| 0 <= q < |w.toAnalyze| && w.toAnalyze[q].absPath == v.absPath {
      var j :| 0 <= j < |walk| && QueuedFile(prior, nodes0, walk[j], w.toAnalyze[q]);
      assert j == i;
    } else {
      assert FileUntouched(w.toAnalyze, v.absPath, |w.toAnalyze|);
      VisitPlaced(prior, nodes0, walk, hash, i);
    }
  }

  /** A walked link's time after the link pass. */
  lemma LinkTimeAt(prior: Sums, nodes0: map<Path, Node>, walk: seq<Visit>, hash: Hasher, w: Walked,
                   nodes1: map<Path, Node>, nodes2: map<Path, Node>, i: int)
    requires Found(nodes0, walk) && Distinct(walk)
    requires w == Classification(prior, nodes0, walk, hash)
    requires FromVisits(prior, nodes0, walk, w)
    requires SameShape(nodes0, nodes1)
    requires 0 <= i < |walk| && nodes0[walk[i].absPath].Symlink?
    requires nodes1[walk[i].absPath] == nodes0[walk[i].absPath]
    requires LinkPass(nodes1, nodes2, w.linksToAnalyze)
    ensures nodes2[walk[i].absPath].mtime ==
      LinkTimeAfter(prior.symlinks, walk[i].relPath, nodes0[walk[i].absPath].target, nodes0[walk[i].absPath].mtime)
  {
    var v := walk[i];
    if q :| 0 <= q < |w.linksToAnalyze| && w.linksToAnalyze[q].absPath == v.absPath {
      var j :| 0 <= j < |walk| && QueuedLink(prior, nodes0, walk[j], w.linksToAnalyze[q]);
      assert j == i;
    } else {
      assert LinkUntouched(w.linksToAnalyze, v.absPath, |w.linksToAnalyze|);
      VisitPlaced(prior, nodes0, walk, hash, i);
    }
  }

  lemma FileTimesAssembled(prior: Sums, walk: seq<Visit>, hash: Hasher, w: Walked, listing: map<Path, seq<Path>>, dirs: seq<DirInfo>,
                           nodes0: map<Path, Node>, nodes1: map<Path, Node>, nodes2: map<Path, Node>, nodes3: map<Path, Node>)
    requires Found(nodes0, walk) && Distinct(walk)
    requires w == Classification(prior, nodes0, walk, hash)
    requires FromVisits(prior, nodes0, walk, w)
    requires FilePass(nodes0, nodes1, w.toAnalyze, hash)
    requires LinkPass(nodes1, nodes2, w.linksToAnalyze)
    requires DirPass(nodes2, nodes3, listing, dirs)
    requires SameShape(nodes0, nodes3)
    ensures FileTimes(nodes3, nodes0, prior, walk, hash)
  {
    forall i | 0 <= i < |walk| && nodes0[walk[i].absPath].File?
      ensures nodes3[walk[i].absPath].mtime ==
        FileTimeAfter(prior.files, walk[i].relPath, nodes0[walk[i].absPath].content, nodes0[walk[i].absPath].mtime, hash)
    {
      var a := walk[i].absPath;
      FileTimeAt(prior, nodes0, walk, hash, w, nodes1, i);
      LinkPassSkips(nodes1, nodes2, w.linksToAnalyze, a);
      DirPassSkips(nodes2, nodes3, listing, dirs, a);
    }
  }

  lemma LinkTimesAssembled(prior: Sums, walk: seq<Visit>, hash: Hasher, w: Walked, listing: map<Path, seq<Path>>, dirs: seq<DirInfo>,
                           nodes0: map<Path, Node>, nodes1: map<Path, Node>, nodes2: map<Path, Node>, nodes3: map<Path, Node>)
    requires Found(nodes0, walk) && Distinct(walk)
    requires w == Classification(prior, nodes0, walk, hash)
    requires FromVisits(prior, nodes0, walk, w)
    requires FilePass(nodes0, nodes1, w.toAnalyze, hash)
    requires LinkPass(nodes1, nodes2, w.linksToAnalyze)
    requires DirPass(nodes2, nodes3, listing, dirs)
    requires SameShape(nodes0, nodes3)
    ensures LinkTimes(nodes3, nodes0, prior, walk)
  {
    forall i | 0 <= i < |walk| && nodes0[walk[i].absPath].Symlink?
      ensures nodes3[walk[i].absPath].mtime ==
        LinkTimeAfter(prior.symlinks, walk[i].relPath, nodes0[walk[i].absPath].target, nodes0[walk[i].absPath].mtime)
    {
      var a := walk[i].absPath;
      FilePassSkips(nodes0, nodes1, w.toAnalyze, hash, a);
      LinkTimeAt(prior, nodes0, walk, hash, w, nodes1, nodes2, i);
      DirPassSkips(nodes2, nodes3, listing, dirs, a);
    }
  }

  lemma DirTimesAssembled(prior: Sums, walk: seq<Visit>, hash: Hasher, w: Walked, listing: map<Path, seq<Path>>, dirs: seq<DirInfo>,
                          nodes0: map<Path, Node>, nodes2: map<Path, Node>, nodes3: map<Path, Node>)
    requires Found(nodes0, walk) && Distinct(walk)
    requires w == Classification(prior, nodes0, walk, hash)
    requires multiset(dirs) == multiset(w.dirs)
    requires DirPass(nodes2, nodes3, listing, dirs)
    requires SameShape(nodes0, nodes3)
    ensures DirTimes(nodes3, nodes0, listing, walk)
  {
    forall i | 0 <= i < |walk| && nodes0[walk[i].absPath].Directory?
      ensures walk[i].absPath in listing && nodes3[walk[i].absPath].mtime == Latest(nodes3, listing[walk[i].absPath])
    {
      VisitPlaced(prior, nodes0, walk, hash, i);
      assert DirInfo(walk[i].absPath) in multiset(dirs);
      var j :| 0 <= j < |dirs| && dirs[j] == DirInfo(walk[i].absPath);
    }
  }

  lemma UnwalkedAssembled(prior: Sums, walk: seq<Visit>, hash: Hasher, w: Walked, listing: map<Path, seq<Path>>, dirs: seq<DirInfo>,
                          nodes0: map<Path, Node>, nodes1: map<Path, Node>, nodes2: map<Path, Node>, nodes3: map<Path, Node>)
    requires Found(nodes0, walk)
    requires FromVisits(prior, nodes0, walk, w)
    requires FilePass(nodes0, nodes1, w.toAnalyze, hash)
    requires LinkPass(nodes1, nodes2, w.linksToAnalyze)
    requires DirPass(nodes2, nodes3, listing, dirs)
    requires SameShape(nodes0, nodes3)
    requires forall j :: 0 <= j < |dirs| ==> WalkedDir(nodes0, walk, dirs[j].absPath)
    ensures Unwalked(nodes3, nodes0, walk)
  {
    forall p | p in nodes0 && (forall i :: 0 <= i < |walk| ==> walk[i].absPath != p)
      ensures nodes3[p] == nodes0[p]
    {
      UnwalkedUntouched(prior, walk, w, dirs, nodes0, p);
    }
  }

  /** No pass touches a path the walk did not visit. */
  lemma UnwalkedUntouched(prior: Sums, walk: seq<Visit>, w: Walked, dirs: seq<DirInfo>, nodes0: map<Path, Node>, p: Path)
    requires Found(nodes0, walk)
    requires QueuesFromVisits(prior, nodes0, walk, w)
    requires forall j :: 0 <= j < |dirs| ==> WalkedDir(nodes0, walk, dirs[j].absPath)
    requires forall i :: 0 <= i < |walk| ==> walk[i].absPath != p
    ensures FileUntouched(w.toAnalyze, p, |w.toAnalyze|)
    ensures LinkUntouched(w.linksToAnalyze, p, |w.linksToAnalyze|)
    ensures DirUntouched(dirs, p, |dirs|)
  {
    forall q | 0 <= q < |w.toAnalyze|
      ensures w.toAnalyze[q].absPath != p
    {
      var i := QueuedFileVisit(prior, nodes0, walk, w, q);
      assert walk[i].absPath == w.toAnalyze[q].absPath;
    }
    forall q | 0 <= q < |w.linksToAnalyze|
      ensures w.linksToAnalyze[q].absPath != p
    {
      var i := QueuedLinkVisit(prior, nodes0, walk, w, q);
      assert walk[i].absPath == w.linksToAnalyze[q].absPath;
    }
  }

  // ---------------------------------------------------------------------------
  // The run

  /**
   * One reconciliation of the tree against the prior manifest. None where
   * the walk fails (a visited path is missing). Otherwise the new manifest
   * and the tree are as ManifestMatches and TreeReconciled say.
   */
  method Reconcile(fs: FileSystem, prior: Sums, walk: seq<Visit>, hash: Hasher) returns (r: Option<Sums>)
    requires fs.Valid()
    requires Distinct(walk)
    modifies fs
    ensures fs.Valid()
    ensures r.Some? <==> Found(old(fs.nodes), walk)
    ensures r.None? ==> fs.nodes == old(fs.nodes)
    ensures r.Some? ==> ManifestMatches(r.value, prior, old(fs.nodes), walk, hash)
    ensures r.Some? ==> TreeReconciled(fs.nodes, old(fs.nodes), fs.listing, prior, walk, hash)
  {
    var classified := Classify(prior, fs.nodes, walk, hash);
    if classified.None? {
      return None;
    }
    var w := classified.value;
    ghost var nodes0 := fs.nodes;
    WalkedFromVisits(prior, nodes0, walk, hash);
    var files, symlinks, nodes1 := AnalyzeQueued(fs, prior, walk, hash, w);
    ghost var nodes2 := fs.nodes;

    var dirs := SortDirs(w.dirs);
    DirsFromVisits(prior, nodes0, walk, w, dirs);
    DirsListed(nodes0, nodes2, fs.listing, walk, dirs);
    var dirsOk := UpdateDirs(fs, dirs);
    assert dirsOk;
    TreeAssembled(prior, walk, hash, w, fs.listing, dirs, nodes0, nodes1, nodes2, fs.nodes);
    r := Some(Sums(files, symlinks));
  }

  /**
   * The analysis part of main: both queues analyzed (files first, then
   * links) and the results folded into the manifest the walk began.
   * `nodes1` is the tree between the two passes.
   */
  method AnalyzeQueued(fs: FileSystem, prior: Sums, walk: seq<Visit>, hash: Hasher, w: Walked)
    returns (files: map<Path, FileInfo>, symlinks: map<Path, LinkInfo>, ghost nodes1: map<Path, Node>)
    requires fs.Valid()
    requires Found(fs.nodes, walk) && Distinct(walk)
    requires w == Classification(prior, fs.nodes, walk, hash)
    requires FromVisits(prior, fs.nodes, walk, w)
    modifies fs
    ensures fs.Valid() && SameShape(old(fs.nodes), fs.nodes)
    ensures ManifestMatches(Sums(files, symlinks), prior, old(fs.nodes), walk, hash)
    ensures FilePass(old(fs.nodes), nodes1, w.toAnalyze, hash)
    ensures LinkPass(nodes1, fs.nodes, w.linksToAnalyze)
  {
    ghost var nodes0 := fs.nodes;
    QueuedDisjoint(prior, nodes0, walk, hash);
    QueuesAreWalked(prior, nodes0, walk, w);
    files := RecordFiles(fs, prior, walk, hash, w);
    nodes1 := fs.nodes;
    symlinks := RecordLinks(fs, prior, walk, hash, w, nodes0);
    SameShapeTransitive(nodes0, nodes1, fs.nodes);
  }

  /** The file queue analyzed and folded into the walk's file records. */
  method RecordFiles(fs: FileSystem, prior: Sums, walk: seq<Visit>, hash: Hasher, w: Walked)
    returns (files: map<Path, FileInfo>)
    requires fs.Valid()
    requires Found(fs.nodes, walk) && Distinct(walk)
    requires w == Classification(prior, fs.nodes, walk, hash)
    requires QueuesDistinct(w) && FilesUpTo(fs.nodes, w.toAnalyze, |w.toAnalyze|)
    modifies fs
    ensures fs.Valid()
    ensures FilePass(old(fs.nodes), fs.nodes, w.toAnalyze, hash)
    ensures ManifestFiles(files, prior, old(fs.nodes), walk, hash)
  {
    ghost var nodes0 := fs.nodes;
    var results, ok := AnalyzeFiles(fs, w.toAnalyze, hash);
    assert ok;
    files := FoldFiles(w.blob.files, results[..]);
    FilesRecorded(prior, nodes0, walk, hash, w, results[..], files);
  }

  /**
   * The link queue analyzed and folded into the walk's link records. The
   * file pass has run already, so the tree is `nodes0`, the one walked, up
   * to times.
   */
  method RecordLinks(fs: FileSystem, prior: Sums, walk: seq<Visit>, hash: Hasher, w: Walked, ghost nodes0: map<Path, Node>)
    returns (symlinks: map<Path, LinkInfo>)
    requires fs.Valid()
    requires Found(nodes0, walk) && Distinct(walk)
    requires w == Classification(prior, nodes0, walk, hash)
    requires QueuesDistinct(w) && LinksUpTo(nodes0, w.linksToAnalyze, |w.linksToAnalyze|)
    requires SameShape(nodes0, fs.nodes)
    modifies fs
    ensures fs.Valid()
    ensures LinkPass(old(fs.nodes), fs.nodes, w.linksToAnalyze)
    ensures ManifestLinks(symlinks, prior, nodes0, walk)
  {
    ghost var nodes1 := fs.nodes;
    LinksStillLinks(nodes0, nodes1, w.linksToAnalyze);
    var results, ok := AnalyzeLinks(fs, w.linksToAnalyze);
    assert ok;
    LinkResultsSameShape(nodes0, nodes1, w.linksToAnalyze, results[..]);
    symlinks := FoldLinks(w.blob.symlinks, results[..]);
    LinksRecorded(prior, nodes0, walk, hash, w, results[..], symlinks);
  }

  /** Link targets survive the file pass, so the results read in either tree agree. */
  lemma LinkResultsSameShape(nodes0: map<Path, Node>, nodes1: map<Path, Node>, queue: seq<LinkAnalysis>, results: seq<LinkAnalysis>)
    requires SameShape(nodes0, nodes1)
    requires LinksUpTo(nodes0, queue, |queue|) && LinksUpTo(nodes1, queue, |queue|)
    requires LinkResults(nodes1, queue, results)
    ensures LinkResults(nodes0, queue, results)
  {
    forall q | 0 <= q < |queue|
      ensures nodes0[queue[q].absPath].target == nodes1[queue[q].absPath].target
    {
      assert Shape(nodes0[queue[q].absPath]) == Shape(nodes1[queue[q].absPath]);
    }
  }

  /** Setting times turns no link into something else. */
  lemma LinksStillLinks(nodes0: map<Path, Node>, nodes1: map<Path, Node>, queue: seq<LinkAnalysis>)
    requires SameShape(nodes0, nodes1)
    requires LinksUpTo(nodes0, queue, |queue|)
    ensures LinksUpTo(nodes1, queue, |queue|)
  {
    forall q | 0 <= q < |queue|
      ensures queue[q].absPath in nodes1 && nodes1[queue[q].absPath].Symlink?
    {
      assert Shape(nodes0[queue[q].absPath]) == Shape(nodes1[queue[q].absPath]);
    }
  }

  /** Each queued analysis names a path of the kind its queue expects. */
  lemma QueuesAreWalked(prior: Sums, nodes0: map<Path, Node>, walk: seq<Visit>, w: Walked)
    requires Found(nodes0, walk)
    requires QueuesFromVisits(prior, nodes0, walk, w)
    ensures FilesUpTo(nodes0, w.toAnalyze, |w.toAnalyze|)
    ensures LinksUpTo(nodes0, w.linksToAnalyze, |w.linksToAnalyze|)
  {
    forall q | 0 <= q < |w.toAnalyze|
      ensures w.toAnalyze[q].absPath in nodes0 && nodes0[w.toAnalyze[q].absPath].File?
    {
      var i := QueuedFileVisit(prior, nodes0, walk, w, q);
      assert walk[i].absPath == w.toAnalyze[q].absPath;
    }
    forall q | 0 <= q < |w.linksToAnalyze|
      ensures w.linksToAnalyze[q].absPath in nodes0 && nodes0[w.linksToAnalyze[q].absPath].Symlink?
    {
      var i := QueuedLinkVisit(prior, nodes0, walk, w, q);
      assert walk[i].absPath == w.linksToAnalyze[q].absPath;
    }
  }

  /** The visit that queued file analysis `q`. */
  lemma QueuedFileVisit(prior: Sums, nodes0: map<Path, Node>, walk: seq<Visit>, w: Walked, q: int) returns (i: int)
    requires Found(nodes0, walk)
    requires QueuesFromVisits(prior, nodes0, walk, w)
    requires 0 <= q < |w.toAnalyze|
    ensures 0 <= i < |walk| && QueuedFile(prior, nodes0, walk[i], w.toAnalyze[q])
  {
    var a := w.toAnalyze[q];
    assert exists i :: 0 <= i < |walk| && QueuedFile(prior, nodes0, walk[i], a);
    i :| 0 <= i < |walk| && QueuedFile(prior, nodes0, walk[i], a);
  }

  /** The visit that queued link analysis `q`. */
  lemma QueuedLinkVisit(prior: Sums, nodes0: map<Path, Node>, walk: seq<Visit>, w: Walked, q: int) returns (i: int)
    requires Found(nodes0, walk)
    requires QueuesFromVisits(prior, nodes0, walk, w)
    requires 0 <= q < |w.linksToAnalyze|
    ensures 0 <= i < |walk| && QueuedLink(prior, nodes0, walk[i], w.linksToAnalyze[q])
  {
    var a := w.linksToAnalyze[q];
    assert exists i :: 0 <= i < |walk| && QueuedLink(prior, nodes0, walk[i], a);
    i :| 0 <= i < |walk| && QueuedLink(prior, nodes0, walk[i], a);
  }

  /** Walked directories are listed, so the directory pass never aborts. */
  lemma DirsListed(nodes0: map<Path, Node>, nodes: map<Path, Node>, listing: map<Path, seq<Path>>, walk: seq<Visit>, dirs: seq<DirInfo>)
    requires SameShape(nodes0, nodes) && WellFormed(nodes, listing)
    requires forall j :: 0 <= j < |dirs| ==> WalkedDir(nodes0, walk, dirs[j].absPath)
    ensures forall j :: 0 <= j < |dirs| ==> dirs[j].absPath in listing
  {
    forall j | 0 <= j < |dirs|
      ensures dirs[j].absPath in listing
    {
      var d := dirs[j].absPath;
      assert WalkedDir(nodes0, walk, d);
      assert Shape(nodes0[d]) == Shape(nodes[d]);
    }
  }

  /**
   * Key coverage: a walked path is recorded under at most one of the two maps,
   * a file under Files and a link under Symlinks, and a walked directory
   * under neither.
   */
  lemma ManifestPartition(m: Sums, prior: Sums, nodes: map<Path, Node>, walk: seq<Visit>, hash: Hasher)
    requires Found(nodes, walk) && Distinct(walk)
    requires ManifestMatches(m, prior, nodes, walk, hash)
    ensures forall k :: !(k in m.files && k in m.symlinks)
    ensures forall i :: 0 <= i < |walk| && nodes[walk[i].absPath].Directory? ==>
      walk[i].relPath !in m.files && walk[i].relPath !in m.symlinks
  {
    forall k | k in m.files
      ensures k !in m.symlinks
    {
      var i :| 0 <= i < |walk| && walk[i].relPath == k && nodes[walk[i].absPath].File?;
      assert forall j :: 0 <= j < |walk| && walk[j].relPath == k ==> j == i;
    }
    forall d | 0 <= d < |walk| && nodes[walk[d].absPath].Directory?
      ensures walk[d].relPath !in m.files && walk[d].relPath !in m.symlinks
    {
      assert forall j :: 0 <= j < |walk| && walk[j].relPath == walk[d].relPath ==> j == d;
    }
  }
}
