/**
 * mtimer's manifest records and the two analyses that decide, for an entry
 * whose recorded second no longer matches the tree, whether its content
 * really changed. The reference functions at the end give, entry by entry,
 * the record and the time a whole run leaves behind.
 */
module MtimerManifest {
  import opened Common
  import opened MtimerFs

  /** SHA-256 of a file's bytes, hex-encoded; left uninterpreted. */
  type Hasher = Bytes -> string

  /** FileInfo: the hash and the time in whole seconds. */
  datatype FileInfo = FileInfo(sha256: string, mtime: int)

  /** LinkInfo: the link target and the time in whole seconds. */
  datatype LinkInfo = LinkInfo(target: string, mtime: int)

  /** SHA256Sums, the manifest: root-relative path to record. */
  datatype Sums = Sums(files: map<Path, FileInfo>, symlinks: map<Path, LinkInfo>)

  /** A queued file: the prior record and where the file lives. */
  datatype FileAnalysis = FileAnalysis(info: FileInfo, absPath: Path, relPath: Path)

  /** A queued symlink: the prior record and where the link lives. */
  datatype LinkAnalysis = LinkAnalysis(info: LinkInfo, absPath: Path, relPath: Path)

  /** sha256SumFile: reading a path that is not a regular file fails, and the program aborts. */
  function Sha256Sum(nodes: map<Path, Node>, path: Path, hash: Hasher): (r: Option<string>)
    ensures r.Some? <==> path in nodes && nodes[path].File?
    ensures r.Some? ==> r.value == hash(nodes[path].content)
  {
    if path in nodes && nodes[path].File? then Some(hash(nodes[path].content)) else None
  }

  /** os.Readlink: reading a path that is not a symlink fails, and the program aborts. */
  function Readlink(nodes: map<Path, Node>, path: Path): (r: Option<string>)
    ensures r.Some? <==> path in nodes && nodes[path].Symlink?
    ensures r.Some? ==> r.value == nodes[path].target
  {
    if path in nodes && nodes[path].Symlink? then Some(nodes[path].target) else None
  }

  /**
   * The record analyzeFile returns once the file is re-hashed to `newSum`.
   * Whichever branch is taken, the record holds the new hash and the PRIOR
   * time; with an unchanged hash it is the input itself.
   */
  function AnalyzedFile(input: FileAnalysis, newSum: string): (r: FileAnalysis)
    ensures r.absPath == input.absPath && r.relPath == input.relPath
    ensures r.info == FileInfo(newSum, input.info.mtime)
    ensures input.info.sha256 == newSum ==> r == input
  {
    if input.info.sha256 != newSum then
      FileAnalysis(FileInfo(newSum, input.info.mtime), input.absPath, input.relPath)
    else
      input
  }

  /** The record analyzeLink returns once the link is re-read; as for files, the prior time is kept. */
  function AnalyzedLink(input: LinkAnalysis, newTarget: string): (r: LinkAnalysis)
    ensures r.absPath == input.absPath && r.relPath == input.relPath
    ensures r.info == LinkInfo(newTarget, input.info.mtime)
    ensures input.info.target == newTarget ==> r == input
  {
    if input.info.target != newTarget then
      LinkAnalysis(LinkInfo(newTarget, input.info.mtime), input.absPath, input.relPath)
    else
      input
  }

  /**
   * analyzeFile: re-hash the file; if the hash is the recorded one, set the
   * file's times back to the recorded second (an error there is ignored).
   * `r` is None where the program aborts because the file cannot be read.
   */
  method AnalyzeFile(fs: FileSystem, input: FileAnalysis, hash: Hasher) returns (r: Option<FileAnalysis>)
    requires fs.Valid()
    modifies fs
    ensures fs.Valid()
    ensures match Sha256Sum(old(fs.nodes), input.absPath, hash)
      case None => r.None? && fs.nodes == old(fs.nodes)
      case Some(sum) =>
        && r == Some(AnalyzedFile(input, sum))
        && fs.nodes == if input.info.sha256 == sum
                       then SetMtime(old(fs.nodes), input.absPath, FromUnix(input.info.mtime))
                       else old(fs.nodes)
  {
    var newSum := Sha256Sum(fs.nodes, input.absPath, hash);
    if newSum.None? {
      return None;
    }
    if input.info.sha256 != newSum.value {
      // The content really changed.
      return Some(FileAnalysis(FileInfo(newSum.value, input.info.mtime), input.absPath, input.relPath));
    }
    // Unchanged content: restore the recorded time.
    var _ := fs.Chtimes(input.absPath, FromUnix(input.info.mtime));
    return Some(input);
  }

  /** analyzeLink: the same decision on the link target. */
  method AnalyzeLink(fs: FileSystem, input: LinkAnalysis) returns (r: Option<LinkAnalysis>)
    requires fs.Valid()
    modifies fs
    ensures fs.Valid()
    ensures match Readlink(old(fs.nodes), input.absPath)
      case None => r.None? && fs.nodes == old(fs.nodes)
      case Some(target) =>
        && r == Some(AnalyzedLink(input, target))
        && fs.nodes == if input.info.target == target
                       then SetMtime(old(fs.nodes), input.absPath, FromUnix(input.info.mtime))
                       else old(fs.nodes)
  {
    var newTarget := Readlink(fs.nodes, input.absPath);
    if newTarget.None? {
      return None;
    }
    if input.info.target != newTarget.value {
      return Some(LinkAnalysis(LinkInfo(newTarget.value, input.info.mtime), input.absPath, input.relPath));
    }
    var _ := fs.Chtimes(input.absPath, FromUnix(input.info.mtime));
    return Some(input);
  }

  // ---------------------------------------------------------------------------
  // What one run does to one entry, stated without the queues.

  /**
   * The record a run stores for a regular file at `rel` whose lstat time is
   * `t`: new paths get a fresh hash and their own second, an equal second
   * carries the prior record over untouched, and otherwise the record is the
   * one AnalyzedFile gives for the current hash.
   */
  function ExpectedFile(prior: map<Path, FileInfo>, rel: Path, content: Bytes, t: int, hash: Hasher): FileInfo {
    if rel !in prior then FileInfo(hash(content), UnixSeconds(t))
    else if prior[rel].mtime == UnixSeconds(t) then prior[rel]
    else AnalyzedFile(FileAnalysis(prior[rel], rel, rel), hash(content)).info
  }

  /** The file's time after the run: put back to the recorded second only when queued with an unchanged hash. */
  function FileTimeAfter(prior: map<Path, FileInfo>, rel: Path, content: Bytes, t: int, hash: Hasher): int {
    if rel in prior && prior[rel].mtime != UnixSeconds(t) && prior[rel].sha256 == hash(content)
    then FromUnix(prior[rel].mtime)
    else t
  }

  function ExpectedLink(prior: map<Path, LinkInfo>, rel: Path, target: string, t: int): LinkInfo {
    if rel !in prior then LinkInfo(target, UnixSeconds(t))
    else if prior[rel].mtime == UnixSeconds(t) then prior[rel]
    else AnalyzedLink(LinkAnalysis(prior[rel], rel, rel), target).info
  }

  function LinkTimeAfter(prior: map<Path, LinkInfo>, rel: Path, target: string, t: int): int {
    if rel in prior && prior[rel].mtime != UnixSeconds(t) && prior[rel].target == target
    then FromUnix(prior[rel].mtime)
    else t
  }

  /**
   * The recorded second of a known path never changes, whatever happened to
   * its content; a new path records the second it was seen with.
   */
  lemma FileRecordKeepsPriorSecond(prior: map<Path, FileInfo>, rel: Path, content: Bytes, t: int, hash: Hasher)
    ensures ExpectedFile(prior, rel, content, t, hash).mtime == if rel in prior then prior[rel].mtime else UnixSeconds(t)
  {
  }

  /**
   * The recorded hash is the current one except on the carried-over path:
   * a known path whose second is unchanged keeps its recorded hash even if
   * its bytes differ (the documented trust in equal timestamps).
   */
  lemma FileRecordHash(prior: map<Path, FileInfo>, rel: Path, content: Bytes, t: int, hash: Hasher)
    ensures rel in prior && prior[rel].mtime == UnixSeconds(t) ==> ExpectedFile(prior, rel, content, t, hash) == prior[rel]
    ensures !(rel in prior && prior[rel].mtime == UnixSeconds(t)) ==> ExpectedFile(prior, rel, content, t, hash).sha256 == hash(content)
  {
  }

  /**
   * Restoration: an entry whose bytes hash to the recorded value keeps its
   * record, and ends the run within its recorded second.
   */
  lemma FileRestoration(prior: map<Path, FileInfo>, rel: Path, content: Bytes, t: int, hash: Hasher)
    requires rel in prior && prior[rel].sha256 == hash(content)
    ensures ExpectedFile(prior, rel, content, t, hash) == prior[rel]
    ensures UnixSeconds(FileTimeAfter(prior, rel, content, t, hash)) == prior[rel].mtime
  {
    UnixSecondsFromUnix(prior[rel].mtime);
  }

  /**
   * Idempotence of the manifest: a second run over the tree the first run
   * left, with the first run's record as its prior, stores the same record.
   */
  lemma {:induction false} FileRecordIdempotent(prior: map<Path, FileInfo>, rel: Path, content: Bytes, t: int, hash: Hasher)
    ensures var first := ExpectedFile(prior, rel, content, t, hash);
            var t1 := FileTimeAfter(prior, rel, content, t, hash);
            ExpectedFile(prior[rel := first], rel, content, t1, hash) == first
  {
    if rel in prior && prior[rel].mtime != UnixSeconds(t) && prior[rel].sha256 == hash(content) {
      UnixSecondsFromUnix(prior[rel].mtime);
    }
  }

  /**
   * Because a changed file keeps its prior second, the next run over the
   * same bytes sees a different second again, finds the hash equal, and sets
   * the file's time back to the second recorded before the change.
   */
  lemma ChangedFileTimePulledBack(prior: map<Path, FileInfo>, rel: Path, content: Bytes, t: int, hash: Hasher)
    requires rel in prior && prior[rel].mtime != UnixSeconds(t) && prior[rel].sha256 != hash(content)
    ensures FileTimeAfter(prior, rel, content, t, hash) == t
    ensures var first := ExpectedFile(prior, rel, content, t, hash);
            FileTimeAfter(prior[rel := first], rel, content, t, hash) == FromUnix(prior[rel].mtime)
  {
  }

  lemma LinkRestoration(prior: map<Path, LinkInfo>, rel: Path, target: string, t: int)
    requires rel in prior && prior[rel].target == target
    ensures ExpectedLink(prior, rel, target, t) == prior[rel]
    ensures UnixSeconds(LinkTimeAfter(prior, rel, target, t)) == prior[rel].mtime
  {
    UnixSecondsFromUnix(prior[rel].mtime);
  }

  /** A changed target is recorded, under the prior second. */
  lemma LinkTargetChange(prior: map<Path, LinkInfo>, rel: Path, target: string, t: int)
    requires rel in prior && prior[rel].target != target
    ensures prior[rel].mtime != UnixSeconds(t) ==> ExpectedLink(prior, rel, target, t) == LinkInfo(target, prior[rel].mtime)
    ensures prior[rel].mtime == UnixSeconds(t) ==> ExpectedLink(prior, rel, target, t) == prior[rel]
    ensures LinkTimeAfter(prior, rel, target, t) == t
  {
  }

  lemma {:induction false} LinkRecordIdempotent(prior: map<Path, LinkInfo>, rel: Path, target: string, t: int)
    ensures var first := ExpectedLink(prior, rel, target, t);
            var t1 := LinkTimeAfter(prior, rel, target, t);
            ExpectedLink(prior[rel := first], rel, target, t1) == first
  {
    if rel in prior && prior[rel].mtime != UnixSeconds(t) && prior[rel].target == target {
      UnixSecondsFromUnix(prior[rel].mtime);
    }
  }
}
