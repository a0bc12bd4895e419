/**
 * The filepath.Walk callback of mtimer's main: every visited path is either
 * a directory (kept for the later pass), a new entry (recorded at once), an
 * entry whose recorded second still matches (carried over), or an entry
 * queued for analysis.
 */
module MtimerClassify {
  import opened Common
  import opened MtimerFs
  import opened MtimerManifest

  /** One callback of the walk: the visited path and the same path relative to the root. */
  datatype Visit = Visit(absPath: Path, relPath: Path)

  /** DirInfo: a directory kept for the directory pass. */
  datatype DirInfo = DirInfo(absPath: Path)

  /** What main holds once the walk is over. */
  datatype Walked = Walked(blob: Sums, dirs: seq<DirInfo>, toAnalyze: seq<FileAnalysis>, linksToAnalyze: seq<LinkAnalysis>)

  /** Every visited path can be lstat'ed; otherwise the walk stops with an error. */
  ghost predicate Found(nodes: map<Path, Node>, walk: seq<Visit>) {
    forall i :: 0 <= i < |walk| ==> walk[i].absPath in nodes
  }

  /** filepath.Walk visits each path once, and distinct paths have distinct relative paths. */
  ghost predicate Distinct(walk: seq<Visit>) {
    forall i, j :: 0 <= i < |walk| && 0 <= j < |walk| && i != j ==>
      walk[i].absPath != walk[j].absPath && walk[i].relPath != walk[j].relPath
  }

  /** The callback for one visited path whose lstat result is `n`. */
  function Step(prior: Sums, hash: Hasher, w: Walked, v: Visit, n: Node): Walked {
    match n
    case Directory(_) =>
      w.(dirs := w.dirs + [DirInfo(v.absPath)])
    case Symlink(target, t) =>
      if v.relPath !in prior.symlinks then
        w.(blob := w.blob.(symlinks := w.blob.symlinks[v.relPath := LinkInfo(target, UnixSeconds(t))]))
      else if prior.symlinks[v.relPath].mtime != UnixSeconds(t) then
        w.(linksToAnalyze := w.linksToAnalyze + [LinkAnalysis(prior.symlinks[v.relPath], v.absPath, v.relPath)])
      else
        w.(blob := w.blob.(symlinks := w.blob.symlinks[v.relPath := prior.symlinks[v.relPath]]))
    case File(content, t) =>
      if v.relPath !in prior.files then
        w.(blob := w.blob.(files := w.blob.files[v.relPath := FileInfo(hash(content), UnixSeconds(t))]))
      else if prior.files[v.relPath].mtime != UnixSeconds(t) then
        w.(toAnalyze := w.toAnalyze + [FileAnalysis(prior.files[v.relPath], v.absPath, v.relPath)])
      else
        w.(blob := w.blob.(files := w.blob.files[v.relPath := prior.files[v.relPath]]))
  }

  /** The walk's outcome: the callback applied to every visit in order, from an empty manifest. */
  function Classification(prior: Sums, nodes: map<Path, Node>, walk: seq<Visit>, hash: Hasher): Walked
    requires Found(nodes, walk)
  {
    if walk == [] then Walked(Sums(map[], map[]), [], [], [])
    else
      var last := walk[|walk| - 1];
      Step(prior, hash, Classification(prior, nodes, walk[..|walk| - 1], hash), last, nodes[last.absPath])
  }

  /**
   * The walk and its callback. `r` is None where the walk reports an error
   * (a visited path that cannot be lstat'ed), on which the program aborts.
   */
  method Classify(prior: Sums, nodes: map<Path, Node>, walk: seq<Visit>, hash: Hasher) returns (r: Option<Walked>)
    ensures r.None? <==> !Found(nodes, walk)
    ensures r.Some? ==> Found(nodes, walk) && r.value == Classification(prior, nodes, walk, hash)
  {
    var files: map<Path, FileInfo> := map[];
    var symlinks: map<Path, LinkInfo> := map[];
    var dirs: seq<DirInfo> := [];
    var toAnalyze: seq<FileAnalysis> := [];
    var linksToAnalyze: seq<LinkAnalysis> := [];
    var i := 0;
    while i < |walk|
      invariant 0 <= i <= |walk|
      invariant Found(nodes, walk[..i])
      invariant Walked(Sums(files, symlinks), dirs, toAnalyze, linksToAnalyze) == Classification(prior, nodes, walk[..i], hash)
    {
      var v := walk[i];
      if v.absPath !in nodes {
        return None;
      }
      assert walk[..i + 1][..i] == walk[..i];
      match nodes[v.absPath] {
        case Directory(_) =>
          dirs := dirs + [DirInfo(v.absPath)];
        case Symlink(target, t) =>
          if v.relPath !in prior.symlinks {
            // recordNewSymlink
            symlinks := symlinks[v.relPath := LinkInfo(target, UnixSeconds(t))];
          } else if prior.symlinks[v.relPath].mtime != UnixSeconds(t) {
            linksToAnalyze := linksToAnalyze + [LinkAnalysis(prior.symlinks[v.relPath], v.absPath, v.relPath)];
          } else {
            symlinks := symlinks[v.relPath := prior.symlinks[v.relPath]];
          }
        case File(content, t) =>
          if v.relPath !in prior.files {
            // recordNewFile
            files := files[v.relPath := FileInfo(hash(content), UnixSeconds(t))];
          } else if prior.files[v.relPath].mtime != UnixSeconds(t) {
            toAnalyze := toAnalyze + [FileAnalysis(prior.files[v.relPath], v.absPath, v.relPath)];
          } else {
            files := files[v.relPath := prior.files[v.relPath]];
          }
      }
      i := i + 1;
    }
    assert walk[..i] == walk;
    return Some(Walked(Sums(files, symlinks), dirs, toAnalyze, linksToAnalyze));
  }

  // ---------------------------------------------------------------------------
  // What the walk leaves behind.

  /** `a` is the queue entry the callback makes for the visit `v`. */
  ghost predicate QueuedFile(prior: Sums, nodes: map<Path, Node>, v: Visit, a: FileAnalysis) {
    && v.absPath in nodes && nodes[v.absPath].File?
    && v.relPath in prior.files
    && prior.files[v.relPath].mtime != UnixSeconds(nodes[v.absPath].mtime)
    && a == FileAnalysis(prior.files[v.relPath], v.absPath, v.relPath)
  }

  ghost predicate QueuedLink(prior: Sums, nodes: map<Path, Node>, v: Visit, a: LinkAnalysis) {
    && v.absPath in nodes && nodes[v.absPath].Symlink?
    && v.relPath in prior.symlinks
    && prior.symlinks[v.relPath].mtime != UnixSeconds(nodes[v.absPath].mtime)
    && a == LinkAnalysis(prior.symlinks[v.relPath], v.absPath, v.relPath)
  }

  /** Every key of `w`'s manifest comes from a visit of the right kind. */
  ghost predicate KeysFromVisits(nodes: map<Path, Node>, walk: seq<Visit>, w: Walked)
    requires Found(nodes, walk)
  {
    && (forall k :: k in w.blob.files ==> exists i :: 0 <= i < |walk| && walk[i].relPath == k && nodes[walk[i].absPath].File?)
    && (forall k :: k in w.blob.symlinks ==> exists i :: 0 <= i < |walk| && walk[i].relPath == k && nodes[walk[i].absPath].Symlink?)
  }

  /** Every queued entry and every kept directory comes from a visit of the right kind. */
  ghost predicate QueuesFromVisits(prior: Sums, nodes: map<Path, Node>, walk: seq<Visit>, w: Walked)
    requires Found(nodes, walk)
  {
    && (forall q :: 0 <= q < |w.toAnalyze| ==> exists i :: 0 <= i < |walk| && QueuedFile(prior, nodes, walk[i], w.toAnalyze[q]))
    && (forall q :: 0 <= q < |w.linksToAnalyze| ==> exists i :: 0 <= i < |walk| && QueuedLink(prior, nodes, walk[i], w.linksToAnalyze[q]))
    && (forall q :: 0 <= q < |w.dirs| ==> exists i :: 0 <= i < |walk| && walk[i].absPath == w.dirs[q].absPath && nodes[walk[i].absPath].Directory?)
  }

  ghost predicate FromVisits(prior: Sums, nodes: map<Path, Node>, walk: seq<Visit>, w: Walked)
    requires Found(nodes, walk)
  {
    KeysFromVisits(nodes, walk, w) && QueuesFromVisits(prior, nodes, walk, w)
  }

  /** The walk up to a visit, without it. */
  lemma FoundFront(nodes: map<Path, Node>, walk: seq<Visit>)
    requires Found(nodes, walk) && walk != []
    ensures Found(nodes, walk[..|walk| - 1])
  {
    var pre := walk[..|walk| - 1];
    assert forall i :: 0 <= i < |pre| ==> pre[i] == walk[i];
  }

  lemma DistinctFront(walk: seq<Visit>)
    requires Distinct(walk) && walk != []
    ensures Distinct(walk[..|walk| - 1])
  {
    var pre := walk[..|walk| - 1];
    forall a, b | 0 <= a < |pre| && 0 <= b < |pre| && a != b
      ensures pre[a].absPath != pre[b].absPath && pre[a].relPath != pre[b].relPath
    {
      assert pre[a] == walk[a] && pre[b] == walk[b];
    }
  }

  lemma {:induction false} WalkedFromVisits(prior: Sums, nodes: map<Path, Node>, walk: seq<Visit>, hash: Hasher)
    requires Found(nodes, walk)
    ensures FromVisits(prior, nodes, walk, Classification(prior, nodes, walk, hash))
  {
    if walk != [] {
      var n := |walk| - 1;
      FoundFront(nodes, walk);
      WalkedFromVisits(prior, nodes, walk[..n], hash);
      var before := Classification(prior, nodes, walk[..n], hash);
      assert Classification(prior, nodes, walk, hash) == Step(prior, hash, before, walk[n], nodes[walk[n].absPath]);
      KeysFromVisitsStep(prior, nodes, walk, hash, before);
      QueuesFromVisitsStep(prior, nodes, walk, hash, before);
    }
  }

  /** The last visit's record, if any, comes from that visit; earlier keys keep theirs. */
  lemma KeysFromVisitsStep(prior: Sums, nodes: map<Path, Node>, walk: seq<Visit>, hash: Hasher, before: Walked)
    requires Found(nodes, walk) && walk != [] && Found(nodes, walk[..|walk| - 1])
    requires KeysFromVisits(nodes, walk[..|walk| - 1], before)
    ensures KeysFromVisits(nodes, walk, Step(prior, hash, before, walk[|walk| - 1], nodes[walk[|walk| - 1].absPath]))
  {
    var n := |walk| - 1;
    var pre := walk[..n];
    var last := walk[n];
    var w := Step(prior, hash, before, last, nodes[last.absPath]);
    forall k | k in w.blob.files
      ensures exists i :: 0 <= i < |walk| && walk[i].relPath == k && nodes[walk[i].absPath].File?
    {
      if k in before.blob.files && (k != last.relPath || !nodes[last.absPath].File?) {
        var i :| 0 <= i < |pre| && pre[i].relPath == k && nodes[pre[i].absPath].File?;
        assert walk[i] == pre[i];
      } else {
        assert walk[n].relPath == k && nodes[walk[n].absPath].File?;
      }
    }
    forall k | k in w.blob.symlinks
      ensures exists i :: 0 <= i < |walk| && walk[i].relPath == k && nodes[walk[i].absPath].Symlink?
    {
      if k in before.blob.symlinks && (k != last.relPath || !nodes[last.absPath].Symlink?) {
        var i :| 0 <= i < |pre| && pre[i].relPath == k && nodes[pre[i].absPath].Symlink?;
        assert walk[i] == pre[i];
      } else {
        assert walk[n].relPath == k && nodes[walk[n].absPath].Symlink?;
      }
    }
  }

  /** The last visit's queue entry, if any, comes from that visit; earlier entries keep theirs. */
  lemma QueuesFromVisitsStep(prior: Sums, nodes: map<Path, Node>, walk: seq<Visit>, hash: Hasher, before: Walked)
    requires Found(nodes, walk) && walk != [] && Found(nodes, walk[..|walk| - 1])
    requires QueuesFromVisits(prior, nodes, walk[..|walk| - 1], before)
    ensures QueuesFromVisits(prior, nodes, walk, Step(prior, hash, before, walk[|walk| - 1], nodes[walk[|walk| - 1].absPath]))
  {
    var n := |walk| - 1;
    var pre := walk[..n];
    var last := walk[n];
    var w := Step(prior, hash, before, last, nodes[last.absPath]);
    forall q | 0 <= q < |w.toAnalyze|
      ensures exists i :: 0 <= i < |walk| && QueuedFile(prior, nodes, walk[i], w.toAnalyze[q])
    {
      if q < |before.toAnalyze| {
        assert w.toAnalyze[q] == before.toAnalyze[q];
        var i :| 0 <= i < |pre| && QueuedFile(prior, nodes, pre[i], before.toAnalyze[q]);
        assert walk[i] == pre[i];
      } else {
        assert QueuedFile(prior, nodes, walk[n], w.toAnalyze[q]);
      }
    }
    forall q | 0 <= q < |w.linksToAnalyze|
      ensures exists i :: 0 <= i < |walk| && QueuedLink(prior, nodes, walk[i], w.linksToAnalyze[q])
    {
      if q < |before.linksToAnalyze| {
        assert w.linksToAnalyze[q] == before.linksToAnalyze[q];
        var i :| 0 <= i < |pre| && QueuedLink(prior, nodes, pre[i], before.linksToAnalyze[q]);
        assert walk[i] == pre[i];
      } else {
        assert QueuedLink(prior, nodes, walk[n], w.linksToAnalyze[q]);
      }
    }
    forall q | 0 <= q < |w.dirs|
      ensures exists i :: 0 <= i < |walk| && walk[i].absPath == w.dirs[q].absPath && nodes[walk[i].absPath].Directory?
    {
      if q < |before.dirs| {
        assert w.dirs[q] == before.dirs[q];
        var i :| 0 <= i < |pre| && pre[i].absPath == before.dirs[q].absPath && nodes[pre[i].absPath].Directory?;
        assert walk[i] == pre[i];
      } else {
        assert walk[n].absPath == w.dirs[q].absPath && nodes[walk[n].absPath].Directory?;
      }
    }
  }

  /**
   * Where the walk leaves one visited path: a directory is kept for the
   * directory pass; a file or link already holds its final record
   * (ExpectedFile, ExpectedLink) unless its second changed, in which case it
   * is absent from the manifest and queued with its prior record.
   */
  ghost predicate Placed(prior: Sums, hash: Hasher, w: Walked, v: Visit, n: Node) {
    match n
    case Directory(_) =>
      DirInfo(v.absPath) in w.dirs
    case File(content, t) =>
      if v.relPath in prior.files && prior.files[v.relPath].mtime != UnixSeconds(t) then
        v.relPath !in w.blob.files && FileAnalysis(prior.files[v.relPath], v.absPath, v.relPath) in w.toAnalyze
      else
        v.relPath in w.blob.files && w.blob.files[v.relPath] == ExpectedFile(prior.files, v.relPath, content, t, hash)
    case Symlink(target, t) =>
      if v.relPath in prior.symlinks && prior.symlinks[v.relPath].mtime != UnixSeconds(t) then
        v.relPath !in w.blob.symlinks && LinkAnalysis(prior.symlinks[v.relPath], v.absPath, v.relPath) in w.linksToAnalyze
      else
        v.relPath in w.blob.symlinks && w.blob.symlinks[v.relPath] == ExpectedLink(prior.symlinks, v.relPath, target, t)
  }

  /**
   * One callback: only a directory is kept for the pass, the queues grow by
   * at most one entry at their ends, no other path's record changes, and a
   * path seen for the first time is placed.
   */
  lemma StepEffect(prior: Sums, hash: Hasher, w: Walked, v: Visit, n: Node)
    ensures Step(prior, hash, w, v, n).dirs == w.dirs + (if n.Directory? then [DirInfo(v.absPath)] else [])
    ensures w.toAnalyze <= Step(prior, hash, w, v, n).toAnalyze
    ensures w.linksToAnalyze <= Step(prior, hash, w, v, n).linksToAnalyze
    ensures |Step(prior, hash, w, v, n).toAnalyze| + |Step(prior, hash, w, v, n).linksToAnalyze|
            <= |w.toAnalyze| + |w.linksToAnalyze| + 1
    ensures Step(prior, hash, w, v, n).blob.files - {v.relPath} == w.blob.files - {v.relPath}
    ensures Step(prior, hash, w, v, n).blob.symlinks - {v.relPath} == w.blob.symlinks - {v.relPath}
    ensures v.relPath !in w.blob.files && v.relPath !in w.blob.symlinks ==> Placed(prior, hash, Step(prior, hash, w, v, n), v, n)
  {
  }

  /** A later visit of another path does not disturb where an earlier one was placed. */
  lemma StepKeepsPlaced(prior: Sums, hash: Hasher, w: Walked, v: Visit, n: Node, next: Visit, m: Node)
    requires next.relPath != v.relPath
    requires Placed(prior, hash, w, v, n)
    ensures Placed(prior, hash, Step(prior, hash, w, next, m), v, n)
  {
  }

  /** New entries, carried-over entries, queued entries and directories: the walk places every visit. */
  lemma {:induction false} VisitPlaced(prior: Sums, nodes: map<Path, Node>, walk: seq<Visit>, hash: Hasher, i: int)
    requires Found(nodes, walk) && Distinct(walk)
    requires 0 <= i < |walk|
    ensures Placed(prior, hash, Classification(prior, nodes, walk, hash), walk[i], nodes[walk[i].absPath])
  {
    var n := |walk| - 1;
    var pre := walk[..n];
    var last := walk[n];
    assert Found(nodes, pre);
    var before := Classification(prior, nodes, pre, hash);
    assert Classification(prior, nodes, walk, hash) == Step(prior, hash, before, last, nodes[last.absPath]);
    if i < n {
      DistinctFront(walk);
      VisitPlaced(prior, nodes, pre, hash, i);
      assert pre[i] == walk[i];
      StepKeepsPlaced(prior, hash, before, walk[i], nodes[walk[i].absPath], last, nodes[last.absPath]);
    } else {
      WalkedFromVisits(prior, nodes, pre, hash);
    }
  }

  /** No two queued entries (and no two kept directories) share a path. */
  ghost predicate QueuesDistinct(w: Walked) {
    && (forall a, b :: 0 <= a < |w.toAnalyze| && 0 <= b < |w.toAnalyze| && a != b ==>
          w.toAnalyze[a].absPath != w.toAnalyze[b].absPath && w.toAnalyze[a].relPath != w.toAnalyze[b].relPath)
    && (forall a, b :: 0 <= a < |w.linksToAnalyze| && 0 <= b < |w.linksToAnalyze| && a != b ==>
          w.linksToAnalyze[a].absPath != w.linksToAnalyze[b].absPath && w.linksToAnalyze[a].relPath != w.linksToAnalyze[b].relPath)
  }

  /**
   * The analysis tasks touch disjoint paths: every queued entry comes from
   * its own visit, and visits are distinct.
   */
  lemma {:induction false} QueuedDisjoint(prior: Sums, nodes: map<Path, Node>, walk: seq<Visit>, hash: Hasher)
    requires Found(nodes, walk) && Distinct(walk)
    ensures QueuesDistinct(Classification(prior, nodes, walk, hash))
  {
    if walk != [] {
      var n := |walk| - 1;
      FoundFront(nodes, walk);
      DistinctFront(walk);
      QueuedDisjoint(prior, nodes, walk[..n], hash);
      WalkedFromVisits(prior, nodes, walk[..n], hash);
      var before := Classification(prior, nodes, walk[..n], hash);
      assert Classification(prior, nodes, walk, hash) == Step(prior, hash, before, walk[n], nodes[walk[n].absPath]);
      QueuesDistinctStep(prior, nodes, walk, hash, before);
    }
  }

  /** The last visit queues at most one entry, for a path no earlier entry names. */
  lemma QueuesDistinctStep(prior: Sums, nodes: map<Path, Node>, walk: seq<Visit>, hash: Hasher, before: Walked)
    requires Found(nodes, walk) && Distinct(walk) && walk != [] && Found(nodes, walk[..|walk| - 1])
    requires QueuesFromVisits(prior, nodes, walk[..|walk| - 1], before) && QueuesDistinct(before)
    ensures QueuesDistinct(Step(prior, hash, before, walk[|walk| - 1], nodes[walk[|walk| - 1].absPath]))
  {
    var n := |walk| - 1;
    var pre := walk[..n];
    var last := walk[n];
    // Entries queued before the last visit come from other visits.
    forall q | 0 <= q < |before.toAnalyze|
      ensures before.toAnalyze[q].absPath != last.absPath && before.toAnalyze[q].relPath != last.relPath
    {
      var j :| 0 <= j < |pre| && QueuedFile(prior, nodes, pre[j], before.toAnalyze[q]);
      assert walk[j] == pre[j];
    }
    forall q | 0 <= q < |before.linksToAnalyze|
      ensures before.linksToAnalyze[q].absPath != last.absPath && before.linksToAnalyze[q].relPath != last.relPath
    {
      var j :| 0 <= j < |pre| && QueuedLink(prior, nodes, pre[j], before.linksToAnalyze[q]);
      assert walk[j] == pre[j];
    }
  }
}
