/**
 * The filesystem that mtimer reconciles: entries as lstat reports them, the
 * directory listings that ReadDir returns, the one effect the program has on
 * the tree (Chtimes), and updateDir, which derives a directory's time from
 * its immediate children.
 */
module MtimerFs {
  import opened Common
  import opened Text

  type Path = string
  type Bytes = seq<bv8>

  /** A tree entry; `mtime` is in nanoseconds since the Unix epoch, as Go's time.Time holds it. */
  datatype Node =
    | File(content: Bytes, mtime: int)
    | Symlink(target: string, mtime: int)
    | Directory(mtime: int)

  const NanosPerSecond: int := 1_000_000_000

  /**
   * Go's Time.Unix(): whole seconds since the epoch, rounded down (Dafny's
   * division by a positive divisor rounds down as well).
   */
  function UnixSeconds(t: int): int {
    t / NanosPerSecond
  }

  /** The time `time.Unix(s, 0)` stands for, in nanoseconds. */
  function FromUnix(s: int): int {
    s * NanosPerSecond
  }

  lemma UnixSecondsFromUnix(s: int)
    ensures UnixSeconds(FromUnix(s)) == s
  {
  }

  /** A time lies in the second Unix() gives it, at or after that second's start. */
  lemma UnixSecondsRoundsDown(t: int)
    ensures FromUnix(UnixSeconds(t)) <= t < FromUnix(UnixSeconds(t)) + NanosPerSecond
  {
  }

  /** The entry with everything but its time: what Chtimes can never change. */
  function Shape(n: Node): Node {
    n.(mtime := 0)
  }

  /** Two trees hold the same paths with the same kinds, contents and targets. */
  ghost predicate SameShape(a: map<Path, Node>, b: map<Path, Node>) {
    a.Keys == b.Keys && forall p :: p in a ==> Shape(a[p]) == Shape(b[p])
  }

  /** The tree after a successful Chtimes of `p` to `t`; a missing path is left alone. */
  function SetMtime(nodes: map<Path, Node>, p: Path, t: int): (r: map<Path, Node>)
    ensures SameShape(nodes, r)
    ensures p in nodes ==> r[p].mtime == t
    ensures forall q :: q in nodes && q != p ==> r[q] == nodes[q]
  {
    if p in nodes then nodes[p := nodes[p].(mtime := t)] else nodes
  }

  /** The number of separators in a path: the depth that orders the directory pass. */
  function Depth(p: Path): nat {
    Count(p, '/')
  }

  /**
   * A root that ends in a separator, such as `/`, has the same depth as the
   * entries directly under it, which the walk names `root + name`.
   */
  lemma TrailingSlashTiesDepth(root: Path, name: string)
    requires |root| > 0 && root[|root| - 1] == '/'
    requires '/' !in name
    ensures Depth(root + name) == Depth(root)
  {
    CountConcat(root, name, '/');
  }

  /** `c` is `d`, a separator, and one more non-empty name without separators. */
  predicate ChildOf(c: Path, d: Path) {
    |d| + 1 < |c| && c[..|d|] == d && c[|d|] == '/' && '/' !in c[|d| + 1..]
  }

  lemma ChildIsOneDeeper(c: Path, d: Path)
    requires ChildOf(c, d)
    ensures Depth(c) == Depth(d) + 1
  {
    var name := c[|d| + 1..];
    assert c == d + "/" + name;
    CountConcat(d + "/", name, '/');
    CountConcat(d, "/", '/');
  }

  /**
   * Every directory, and only a directory, has a listing; every listed child
   * exists and sits one name below its directory.
   */
  ghost predicate WellFormed(nodes: map<Path, Node>, listing: map<Path, seq<Path>>) {
    && (forall d :: d in listing <==> d in nodes && nodes[d].Directory?)
    && (forall d, k :: d in listing && 0 <= k < |listing[d]| ==> listing[d][k] in nodes && ChildOf(listing[d][k], d))
  }

  lemma SameShapeWellFormed(a: map<Path, Node>, b: map<Path, Node>, listing: map<Path, seq<Path>>)
    requires SameShape(a, b) && WellFormed(a, listing)
    ensures WellFormed(b, listing)
  {
    forall d | d in b
      ensures b[d].Directory? == a[d].Directory?
    {
      assert Shape(a[d]) == Shape(b[d]);
    }
  }

  lemma SameShapeTransitive(a: map<Path, Node>, b: map<Path, Node>, c: map<Path, Node>)
    requires SameShape(a, b) && SameShape(b, c)
    ensures SameShape(a, c)
  {
  }

  /**
   * updateDir's `latest`: the newest time among the children that are not
   * symlinks, starting from the epoch.
   */
  function Latest(nodes: map<Path, Node>, children: seq<Path>): (t: int)
    requires forall k :: 0 <= k < |children| ==> children[k] in nodes
    ensures t >= 0
    ensures forall k :: 0 <= k < |children| && !nodes[children[k]].Symlink? ==> nodes[children[k]].mtime <= t
    ensures t == 0 || exists k :: 0 <= k < |children| && !nodes[children[k]].Symlink? && nodes[children[k]].mtime == t
  {
    if children == [] then 0
    else
      var rest := Latest(nodes, children[..|children| - 1]);
      var n := nodes[children[|children| - 1]];
      if !n.Symlink? && n.mtime > rest then n.mtime else rest
  }

  /** With no child other than symlinks the directory gets the epoch. */
  lemma LatestOfSymlinksOnly(nodes: map<Path, Node>, children: seq<Path>)
    requires forall k :: 0 <= k < |children| ==> children[k] in nodes && nodes[children[k]].Symlink?
    ensures Latest(nodes, children) == 0
  {
  }

  /** Latest only looks at the children themselves. */
  lemma {:induction false} LatestFrame(a: map<Path, Node>, b: map<Path, Node>, children: seq<Path>)
    requires forall k :: 0 <= k < |children| ==> children[k] in a && children[k] in b && a[children[k]] == b[children[k]]
    ensures Latest(a, children) == Latest(b, children)
  {
    if children != [] {
      LatestFrame(a, b, children[..|children| - 1]);
    }
  }

  class FileSystem {
    var nodes: map<Path, Node>
    /** What ReadDir returns for each directory: its children's paths, in order. */
    const listing: map<Path, seq<Path>>

    ghost predicate Valid()
      reads this
    {
      WellFormed(nodes, listing)
    }

    constructor (nodes: map<Path, Node>, listing: map<Path, seq<Path>>)
      requires WellFormed(nodes, listing)
      ensures Valid()
      ensures this.nodes == nodes && this.listing == listing
    {
      this.nodes := nodes;
      this.listing := listing;
    }

    /** os.Chtimes with equal access and modification times; it fails when the path is missing. */
    method Chtimes(path: Path, t: int) returns (ok: bool)
      requires Valid()
      modifies this
      ensures Valid()
      ensures ok == (path in old(nodes))
      ensures nodes == SetMtime(old(nodes), path, t)
    {
      ok := path in nodes;
      nodes := SetMtime(nodes, path, t);
      SameShapeWellFormed(old(nodes), nodes, listing);
    }

    /**
     * The scan in updateDir: read the directory, skip symlinks and keep the
     * newest child time, from the epoch up. Reading fails for a path that is
     * not a directory.
     */
    method LatestChildTime(dir: Path) returns (latest: Option<int>)
      requires Valid()
      ensures latest.None? <==> dir !in listing
      ensures latest.Some? ==> latest.value == Latest(nodes, listing[dir])
    {
      if dir !in listing {
        return None;
      }
      var entries := listing[dir];
      var t := 0;
      var i := 0;
      while i < |entries|
        invariant 0 <= i <= |entries|
        invariant t == Latest(nodes, entries[..i])
      {
        var info := nodes[entries[i]];
        assert entries[..i + 1][..i] == entries[..i];
        if !info.Symlink? && info.mtime > t {
          t := info.mtime;
        }
        i := i + 1;
      }
      assert entries[..i] == entries;
      return Some(t);
    }

    /** updateDir: set the directory's time to Latest of its children; `ok` is false where the program aborts. */
    method UpdateDir(dir: Path) returns (ok: bool)
      requires Valid()
      modifies this
      ensures Valid()
      ensures ok == (dir in listing)
      ensures ok ==> nodes == SetMtime(old(nodes), dir, Latest(old(nodes), listing[dir]))
      ensures !ok ==> nodes == old(nodes)
    {
      var latest := LatestChildTime(dir);
      if latest.None? {
        return false;
      }
      ok := Chtimes(dir, latest.value);
    }
  }
}
