/**
 * upload-vacuum: which published releases to keep on the download server.
 * The SFTP walk is given as the sequence of steps it yields, the server's
 * files as a set, and the HTTPS checksum fetch (with its retries) as a
 * function from URL to body, empty on failure.
 */
module UploadVacuum {
  import opened Common
  import opened Text
  import opened Sorting

  const LegacyPrefix := "kdeos_"
  const ReleasePrefix := "kde-linux_"
  /** How many of the newest releases survive. */
  const KeepCount := 4
  const MinInt64 := -0x8000_0000_0000_0000
  const MaxInt64 := 0x7FFF_FFFF_FFFF_FFFF
  /** Where readSHA256 fetches checksums from, in place of the upload root. */
  const PublicBase := "https://files.kde.org/kde-linux/"

  /** One step of the walk: an entry with its full path and base name, or a walk error. */
  datatype WalkStep = Entry(path: string, name: string) | WalkError(message: string)

  // ---------------------------------------------------------------------------
  // Release names

  /** The name with the legacy prefix, then the current one, trimmed. */
  function Stripped(name: string): string {
    TrimPrefix(TrimPrefix(name, LegacyPrefix), ReleasePrefix)
  }

  /**
   * The release an artifact belongs to: None when the name has neither
   * prefix; otherwise the stripped name up to its first '.' or '_'.
   */
  function ReleaseKey(name: string): (r: Option<string>)
    ensures r.None? <==> !StartsWith(name, LegacyPrefix) && !StartsWith(name, ReleasePrefix)
    ensures r.Some? ==> StartsWith(Stripped(name), r.value)
    ensures r.Some? ==> '.' !in r.value && '_' !in r.value
    ensures r.Some? && |r.value| < |Stripped(name)| ==>
      Stripped(name)[|r.value|] == '.' || Stripped(name)[|r.value|] == '_'
  {
    if !StartsWith(name, LegacyPrefix) && !StartsWith(name, ReleasePrefix) then None
    else
      var s := Stripped(name);
      var upToDot := BeforeFirst(s, '.');
      var key := BeforeFirst(upToDot, '_');
      assert s[..|key|] == upToDot[..|key|];
      Some(key)
  }

  /** Go's strconv.Atoi with 64-bit int: an optional sign, at least one decimal digit, a value in int64 range. */
  function Atoi(s: string): (r: Option<int>)
    ensures r.Some? ==> MinInt64 <= r.value <= MaxInt64
    ensures s == [] ==> r.None?
    ensures |s| > 0 && s[0] != '+' && s[0] != '-' ==>
      (r.Some? <==> AllDigits(s) && DigitsValue(s) <= MaxInt64) && (r.Some? ==> r.value == DigitsValue(s))
    ensures |s| > 0 && s[0] == '+' ==>
      (r.Some? <==> |s| > 1 && AllDigits(s[1..]) && DigitsValue(s[1..]) <= MaxInt64) &&
      (r.Some? ==> r.value == DigitsValue(s[1..]))
    ensures |s| > 0 && s[0] == '-' ==>
      (r.Some? <==> |s| > 1 && AllDigits(s[1..]) && DigitsValue(s[1..]) <= -MinInt64) &&
      (r.Some? ==> r.value == -(DigitsValue(s[1..]) as int))
  {
    var signed := |s| > 0 && (s[0] == '+' || s[0] == '-');
    var digits := if signed then s[1..] else s;
    if digits == [] || !AllDigits(digits) then None
    else
      var v: int := if signed && s[0] == '-' then -(DigitsValue(digits) as int) else DigitsValue(digits);
      if MinInt64 <= v <= MaxInt64 then Some(v) else None
  }

  /** Atoi reads back every non-negative int64 written in decimal. */
  lemma AtoiDecimal(n: nat)
    requires n <= MaxInt64
    ensures Atoi(Decimal(n)) == Some(n)
  {
    DecimalValue(n);
    assert IsDigit(Decimal(n)[0]);
  }

  /** A plus sign, a minus sign and leading zeros are all accepted. */
  lemma AtoiSignsAndZeros()
    ensures Atoi("+7") == Some(7)
    ensures Atoi("-3") == Some(-3)
    ensures Atoi("007") == Some(7)
  {
    assert "+7"[1..] == "7";
    assert "-3"[1..] == "3";
    assert "007"[..2] == "00" && "00"[..1] == "0";
  }

  /** What Atoi accepts: an optional sign followed by digits only. */
  lemma AtoiSyntax(s: string)
    requires Atoi(s).Some?
    ensures |s| > 0
    ensures forall k :: 0 < k < |s| ==> IsDigit(s[k])
    ensures IsDigit(s[0]) || s[0] == '+' || s[0] == '-'
    ensures s[0] == '+' || s[0] == '-' ==> |s| > 1
  {
    if s[0] == '+' || s[0] == '-' {
      assert forall k :: 0 < k < |s| ==> s[k] == s[1..][k - 1];
    }
  }

  // ---------------------------------------------------------------------------
  // loadReleases

  /** A step at which loadReleases gives up: a walk error, or a release key Atoi rejects. */
  predicate Problem(step: WalkStep) {
    step.WalkError? || (ReleaseKey(step.name).Some? && Atoi(ReleaseKey(step.name).value).None?)
  }

  const WalkFailed := "Failed to walk path: "
  const ParseFailed := "Failed to parse release number: "

  /** loadReleases' error: it tells the two failures apart and names the failing text. */
  function ProblemMessage(step: WalkStep): (r: string)
    requires Problem(step)
    ensures step.WalkError? <==> StartsWith(r, WalkFailed)
    ensures step.WalkError? ==> Contains(r, step.message)
    ensures !step.WalkError? ==> Contains(r, ReleaseKey(step.name).value)
  {
    if step.WalkError? then
      WalkFailedPrefix(step.message);
      ContainsSelf(step.message);
      ContainsPrefix(WalkFailed, step.message, step.message);
      WalkFailed + step.message
    else
      var key := ReleaseKey(step.name).value;
      ParseFailedNotWalk(key);
      ContainsSelf(key);
      ContainsPrefix(ParseFailed, key, key);
      ParseFailed + key
  }

  lemma WalkFailedPrefix(m: string)
    ensures StartsWith(WalkFailed + m, WalkFailed)
  {
    assert (WalkFailed + m)[..|WalkFailed|] == WalkFailed;
  }

  lemma ParseFailedNotWalk(key: string)
    ensures !StartsWith(ParseFailed + key, WalkFailed)
  {
    assert (ParseFailed + key)[10] == 'p' != WalkFailed[10];
  }

  /** The paths of release `key` in walk order. */
  function ArtifactsOf(steps: seq<WalkStep>, key: string): seq<string> {
    if steps == [] then []
    else
      var last := steps[|steps| - 1];
      ArtifactsOf(steps[..|steps| - 1], key) + (if last.Entry? && ReleaseKey(last.name) == Some(key) then [last.path] else [])
  }

  /** An entry of release `key` puts its path among that release's artifacts. */
  lemma {:induction false} ArtifactsOfEntry(steps: seq<WalkStep>, key: string, i: int)
    requires 0 <= i < |steps| && steps[i].Entry? && ReleaseKey(steps[i].name) == Some(key)
    ensures steps[i].path in ArtifactsOf(steps, key)
  {
    if i < |steps| - 1 {
      ArtifactsOfEntry(steps[..|steps| - 1], key, i);
    }
  }

  /** Every artifact of release `key` is the path of an entry of that release. */
  lemma {:induction false} ArtifactsOfFromEntry(steps: seq<WalkStep>, key: string, a: string)
    requires a in ArtifactsOf(steps, key)
    ensures exists i :: 0 <= i < |steps| && steps[i].Entry? && steps[i].path == a && ReleaseKey(steps[i].name) == Some(key)
  {
    var last := steps[|steps| - 1];
    if !(last.Entry? && last.path == a && ReleaseKey(last.name) == Some(key)) {
      ArtifactsOfFromEntry(steps[..|steps| - 1], key, a);
      var i :| 0 <= i < |steps| - 1 && steps[..|steps| - 1][i].Entry? && steps[..|steps| - 1][i].path == a
        && ReleaseKey(steps[..|steps| - 1][i].name) == Some(key);
      assert steps[i] == steps[..|steps| - 1][i];
    }
  }

  /** Step `i` is the first one that stops the walk. */
  ghost predicate FirstProblem(steps: seq<WalkStep>, i: int) {
    0 <= i < |steps| && Problem(steps[i]) && forall j :: 0 <= j < i ==> !Problem(steps[j])
  }

  /**
   * Groups the walked paths by release key. The error is the one of the
   * first problem step; walking goes no further.
   */
  method LoadReleases(steps: seq<WalkStep>) returns (r: Result<map<string, seq<string>>>)
    ensures r.Err? <==> exists i :: 0 <= i < |steps| && Problem(steps[i])
    ensures r.Err? ==> exists i :: FirstProblem(steps, i) && r.error == ProblemMessage(steps[i])
    ensures r.Ok? ==> Grouped(r.value, steps)
  {
    var releases: map<string, seq<string>> := map[];
    var i := 0;
    while i < |steps|
      invariant 0 <= i <= |steps|
      invariant forall j :: 0 <= j < i ==> !Problem(steps[j])
      invariant Grouped(releases, steps[..i])
    {
      var next := AddStep(releases, steps, i);
      if next.Err? {
        assert FirstProblem(steps, i) && next.error == ProblemMessage(steps[i]);
        return next;
      }
      releases := next.value;
      i := i + 1;
    }
    assert steps[..|steps|] == steps;
    assert Grouped(releases, steps);
    return Ok(releases);
  }

  /** One turn of the walk loop: stop at a problem step, otherwise file the entry under its key. */
  method AddStep(releases: map<string, seq<string>>, steps: seq<WalkStep>, i: int) returns (r: Result<map<string, seq<string>>>)
    requires 0 <= i < |steps|
    requires Grouped(releases, steps[..i])
    ensures r.Err? <==> Problem(steps[i])
    ensures r.Err? ==> r.error == ProblemMessage(steps[i])
    ensures r.Ok? ==> Grouped(r.value, steps[..i + 1])
  {
    var step := steps[i];
    if step.WalkError? {
      return Err(WalkFailed + step.message);
    }
    var next := releases;
    var key := ReleaseKey(step.name);
    if key.Some? {
      if key.value !in next {
        next := next[key.value := []];
      }
      if Atoi(key.value).None? {
        return Err(ParseFailed + key.value);
      }
      next := next[key.value := next[key.value] + [step.path]];
    }
    GroupStep(steps, i, releases, next);
    return Ok(next);
  }

  /** `releases` maps exactly the keys with artifacts in `steps` to those artifacts. */
  ghost predicate Grouped(releases: map<string, seq<string>>, steps: seq<WalkStep>) {
    && (forall key :: key in releases <==> ArtifactsOf(steps, key) != [])
    && (forall key :: key in releases ==> releases[key] == ArtifactsOf(steps, key))
  }

  /** One walk step adds its path to its own release and leaves the others alone. */
  lemma GroupStep(steps: seq<WalkStep>, i: int, before: map<string, seq<string>>, after: map<string, seq<string>>)
    requires 0 <= i < |steps| && steps[i].Entry?
    requires Grouped(before, steps[..i])
    requires ReleaseKey(steps[i].name).None? ==> after == before
    requires ReleaseKey(steps[i].name).Some? ==>
      var k := ReleaseKey(steps[i].name).value;
      after == before[k := (if k in before then before[k] else []) + [steps[i].path]]
    ensures Grouped(after, steps[..i + 1])
  {
    var pre, now := steps[..i], steps[..i + 1];
    assert now[..i] == pre && now[i] == steps[i];
    var added := ReleaseKey(steps[i].name);
    forall key
      ensures key in after <==> ArtifactsOf(now, key) != []
      ensures key in after ==> after[key] == ArtifactsOf(now, key)
    {
      var extra := if added == Some(key) then [steps[i].path] else [];
      assert ArtifactsOf(now, key) == ArtifactsOf(pre, key) + extra;
      if added == Some(key) {
        assert key in after && after[key] == ArtifactsOf(pre, key) + extra;
      }
    }
  }

  // ---------------------------------------------------------------------------
  // Retention

  /** The loop deleting every tombstone and then every gold release from the map. */
  method RemoveProtected(releases: map<string, seq<string>>, tombstones: seq<string>, golds: seq<string>)
    returns (r: map<string, seq<string>>)
    ensures forall k :: k in r <==> k in releases && k !in tombstones && k !in golds
    ensures forall k :: k in r ==> r[k] == releases[k]
  {
    r := releases;
    var i := 0;
    while i < |tombstones|
      invariant 0 <= i <= |tombstones|
      invariant forall k :: k in r <==> k in releases && k !in tombstones[..i]
      invariant forall k :: k in r ==> r[k] == releases[k]
    {
      r := r - {tombstones[i]};
      assert tombstones[..i + 1] == tombstones[..i] + [tombstones[i]];
      i := i + 1;
    }
    assert tombstones[..|tombstones|] == tombstones;
    i := 0;
    while i < |golds|
      invariant 0 <= i <= |golds|
      invariant forall k :: k in r <==> k in releases && k !in tombstones && k !in golds[..i]
      invariant forall k :: k in r ==> r[k] == releases[k]
    {
      r := r - {golds[i]};
      assert golds[..i + 1] == golds[..i] + [golds[i]];
      i := i + 1;
    }
    assert golds[..|golds|] == golds;
  }

  predicate NoDuplicates(s: seq<string>) {
    forall i, j :: 0 <= i < j < |s| ==> s[i] != s[j]
  }

  /** The keys of the map, in whatever order the iteration yields them. */
  method KeysOf(m: map<string, seq<string>>) returns (keys: seq<string>)
    ensures forall k :: k in keys <==> k in m
    ensures NoDuplicates(keys)
  {
    keys := [];
    var rest := m.Keys;
    while rest != {}
      invariant forall k :: k in keys <==> k in m && k !in rest
      invariant rest <= m.Keys
      invariant NoDuplicates(keys)
      decreases |rest|
    {
      var k :| k in rest;
      keys := keys + [k];
      rest := rest - {k};
    }
  }

  /** Descending string order, the order of sort.Reverse(sort.StringSlice(...)). */
  predicate GoGe(a: string, b: string) {
    LexLe(b, a)
  }

  lemma LexLeIsTotalPreorder()
    ensures TotalPreorder(LexLe)
  {
    forall a: string, b: string
      ensures LexLe(a, b) || LexLe(b, a)
    {
      LexLeTotal(a, b);
    }
    forall a: string, b: string, c: string | LexLe(a, b) && LexLe(b, c)
      ensures LexLe(a, c)
    {
      LexLeTransitive(a, b, c);
    }
  }

  lemma GoGeIsTotalPreorder()
    ensures TotalPreorder(GoGe)
  {
    LexLeIsTotalPreorder();
  }

  /** The release keys, newest (greatest string) first. */
  function NewestFirst(keys: seq<string>): (r: seq<string>)
    ensures multiset(r) == multiset(keys)
    ensures forall i, j :: 0 <= i < j < |r| ==> LexLe(r[j], r[i])
  {
    GoGeIsTotalPreorder();
    var r := Sort(GoGe, keys);
    assert forall i, j :: 0 <= i < j < |r| ==> GoGe(r[i], r[j]);
    r
  }

  function Min(a: int, b: int): int {
    if a <= b then a else b
  }

  /** What the pop loop leaves: the first KeepCount keys kept, the others deleted from the back. */
  ghost predicate SplitForRetention(keys: seq<string>, toKeep: seq<string>, toDelete: seq<string>) {
    && toKeep == keys[..Min(KeepCount, |keys|)]
    && |toDelete| == |keys| - |toKeep|
    && (forall j :: 0 <= j < |toDelete| ==> toDelete[j] == keys[|keys| - 1 - j])
  }

  /** `for len(toKeep) > 4`: move the last key into toDelete. */
  method SelectForDeletion(keys: seq<string>) returns (toKeep: seq<string>, toDelete: seq<string>)
    ensures SplitForRetention(keys, toKeep, toDelete)
  {
    toKeep := keys;
    toDelete := [];
    while |toKeep| > KeepCount
      invariant Min(KeepCount, |keys|) <= |toKeep| <= |keys|
      invariant toKeep == keys[..|toKeep|]
      invariant |toDelete| == |keys| - |toKeep|
      invariant forall j :: 0 <= j < |toDelete| ==> toDelete[j] == keys[|keys| - 1 - j]
      decreases |toKeep|
    {
      toDelete := toDelete + [toKeep[|toKeep| - 1]];
      toKeep := toKeep[..|toKeep| - 1];
    }
  }

  /**
   * On distinct keys sorted newest first, the split keeps min(4, n) keys,
   * loses none, keeps every key at least as great as every deleted one, and
   * deletes in ascending order.
   */
  lemma RetentionRule(keys: seq<string>, toKeep: seq<string>, toDelete: seq<string>)
    requires forall i, j :: 0 <= i < j < |keys| ==> LexLe(keys[j], keys[i])
    requires NoDuplicates(keys)
    requires SplitForRetention(keys, toKeep, toDelete)
    ensures |toKeep| == Min(KeepCount, |keys|)
    ensures forall k :: k in keys <==> k in toKeep || k in toDelete
    ensures forall k :: !(k in toKeep && k in toDelete)
    ensures forall a, b :: a in toKeep && b in toDelete ==> LexLe(b, a)
    ensures forall i, j :: 0 <= i < j < |toKeep| ==> LexLe(toKeep[j], toKeep[i])
    ensures forall i, j :: 0 <= i < j < |toDelete| ==> LexLe(toDelete[i], toDelete[j])
  {
    var m := |toKeep|;
    forall k | k in keys
      ensures k in toKeep || k in toDelete
    {
      var i :| 0 <= i < |keys| && keys[i] == k;
      if i >= m {
        assert toDelete[|keys| - 1 - i] == k;
      }
    }
    forall k | k in toDelete
      ensures k in keys && k !in toKeep
    {
      var j :| 0 <= j < |toDelete| && toDelete[j] == k;
      assert keys[|keys| - 1 - j] == k;
    }
    forall a, b | a in toKeep && b in toDelete
      ensures LexLe(b, a)
    {
      var i :| 0 <= i < m && toKeep[i] == a;
      var j :| 0 <= j < |toDelete| && toDelete[j] == b;
      assert keys[i] == a && keys[|keys| - 1 - j] == b;
    }
  }

  // ---------------------------------------------------------------------------
  // Deleting

  /** The download server's files, as far as deletion is concerned. */
  class Server {
    var files: set<string>

    constructor (files: set<string>)
      ensures this.files == files
    {
      this.files := files;
    }

    /** sftp Remove: fails, changing nothing, when the file is not there. */
    method Remove(path: string) returns (ok: bool)
      modifies this
      ensures ok == (path in old(files))
      ensures files == old(files) - {path}
    {
      ok := path in files;
      files := files - {path};
    }
  }

  /** The zero value Go's map lookup gives for a missing key. */
  function ArtifactsIn(releases: map<string, seq<string>>, key: string): seq<string> {
    if key in releases then releases[key] else []
  }

  /** The artifacts of the doomed releases, release by release. */
  function Doomed(toDelete: seq<string>, releases: map<string, seq<string>>): seq<string> {
    if toDelete == [] then []
    else Doomed(toDelete[..|toDelete| - 1], releases) + ArtifactsIn(releases, toDelete[|toDelete| - 1])
  }

  /**
   * Goes through the artifacts of the doomed releases, removing each from
   * the server only when deletion is really enabled; failed removals are
   * logged and skipped. Returns the artifacts gone through.
   */
  method DeleteReleases(server: Server, toDelete: seq<string>, releases: map<string, seq<string>>, reallyDelete: bool)
    returns (attempted: seq<string>)
    modifies server
    ensures attempted == Doomed(toDelete, releases)
    ensures reallyDelete ==> server.files == old(server.files) - set a | a in attempted
    ensures !reallyDelete ==> server.files == old(server.files)
  {
    attempted := [];
    var i := 0;
    while i < |toDelete|
      invariant 0 <= i <= |toDelete|
      invariant attempted == Doomed(toDelete[..i], releases)
      invariant reallyDelete ==> server.files == old(server.files) - set a | a in attempted
      invariant !reallyDelete ==> server.files == old(server.files)
    {
      var artifacts := ArtifactsIn(releases, toDelete[i]);
      ghost var before := attempted;
      var j := 0;
      while j < |artifacts|
        invariant 0 <= j <= |artifacts|
        invariant attempted == before + artifacts[..j]
        invariant reallyDelete ==> server.files == old(server.files) - set a | a in attempted
        invariant !reallyDelete ==> server.files == old(server.files)
      {
        if reallyDelete {
          var removed := server.Remove(artifacts[j]);
        }
        attempted := attempted + [artifacts[j]];
        assert artifacts[..j + 1] == artifacts[..j] + [artifacts[j]];
        j := j + 1;
      }
      assert artifacts[..|artifacts|] == artifacts;
      assert toDelete[..i + 1][..i] == toDelete[..i];
      i := i + 1;
    }
    assert toDelete[..|toDelete|] == toDelete;
  }

  // ---------------------------------------------------------------------------
  // SHA256SUMS

  /** readSHA256's rewrite of an artifact's checksum path, under the upload root, to its public URL. */
  function ChecksumUrl(artifact: string, root: string): (r: string)
    ensures !Contains(artifact + ".sha256", root) ==> r == artifact + ".sha256"
  {
    var s := artifact + ".sha256";
    var r := ReplaceFirst(s, root, PublicBase);
    assert !Contains(s, root) ==> r == s by {
      if !Contains(s, root) {
        ReplaceFirstAbsent(s, root, PublicBase);
      }
    }
    r
  }

  lemma ChecksumUrlUnderRoot(artifact: string, root: string)
    requires StartsWith(artifact, root)
    ensures ChecksumUrl(artifact, root) == PublicBase + artifact[|root|..] + ".sha256"
  {
    var s := artifact + ".sha256";
    assert s[..|root|] == artifact[..|root|];
    ReplaceFirstPrefix(s, root, PublicBase);
    assert s[|root|..] == artifact[|root|..] + ".sha256";
  }

  /** A release's artifacts in ascending order, as sort.Strings leaves them. */
  function SortedArtifacts(releases: map<string, seq<string>>, key: string): (r: seq<string>)
    ensures multiset(r) == multiset(ArtifactsIn(releases, key))
    ensures SortedBy(LexLe, r)
  {
    LexLeIsTotalPreorder();
    Sort(LexLe, ArtifactsIn(releases, key))
  }

  /** The checksum URLs of one release, artifacts in ascending order. */
  function KeyUrls(releases: map<string, seq<string>>, key: string, root: string): (r: seq<string>)
    ensures |r| == |ArtifactsIn(releases, key)|
    ensures forall k :: 0 <= k < |r| ==> r[k] == ChecksumUrl(SortedArtifacts(releases, key)[k], root)
  {
    var artifacts := SortedArtifacts(releases, key);
    seq(|artifacts|, k requires 0 <= k < |artifacts| => ChecksumUrl(artifacts[k], root))
  }

  /** The checksum URLs, release by release in toKeep order. */
  function ChecksumUrls(toKeep: seq<string>, releases: map<string, seq<string>>, root: string): seq<string> {
    if toKeep == [] then []
    else ChecksumUrls(toKeep[..|toKeep| - 1], releases, root) + KeyUrls(releases, toKeep[|toKeep| - 1], root)
  }

  /** The URLs of the first `n` kept releases come first. */
  lemma {:induction false} ChecksumUrlsPrefix(toKeep: seq<string>, n: int, releases: map<string, seq<string>>, root: string)
    requires 0 <= n <= |toKeep|
    ensures |ChecksumUrls(toKeep[..n], releases, root)| <= |ChecksumUrls(toKeep, releases, root)|
    ensures ChecksumUrls(toKeep[..n], releases, root) ==
      ChecksumUrls(toKeep, releases, root)[..|ChecksumUrls(toKeep[..n], releases, root)|]
  {
    if n < |toKeep| {
      var shorter := toKeep[..|toKeep| - 1];
      assert shorter[..n] == toKeep[..n];
      ChecksumUrlsPrefix(shorter, n, releases, root);
    } else {
      assert toKeep[..n] == toKeep;
    }
  }

  /** Some URL of `urls` serves an empty body (the program aborts there). */
  ghost predicate AnyMissing(urls: seq<string>, fetch: string -> string) {
    exists k :: 0 <= k < |urls| && fetch(urls[k]) == ""
  }

  /** `sums` holds, in order, the bodies served at `urls`. */
  ghost predicate Fetched(urls: seq<string>, sums: seq<string>, fetch: string -> string) {
    |sums| == |urls| && forall k :: 0 <= k < |urls| ==> sums[k] == fetch(urls[k])
  }

  lemma FetchedConcat(a: seq<string>, sa: seq<string>, b: seq<string>, sb: seq<string>, fetch: string -> string)
    requires Fetched(a, sa, fetch) && Fetched(b, sb, fetch)
    ensures Fetched(a + b, sa + sb, fetch)
  {
    forall k | 0 <= k < |a + b| ensures (sa + sb)[k] == fetch((a + b)[k]) {
      if k >= |a| {
        assert (a + b)[k] == b[k - |a|];
      }
    }
  }

  lemma MissingConcat(a: seq<string>, b: seq<string>, fetch: string -> string)
    ensures AnyMissing(a + b, fetch) <==> AnyMissing(a, fetch) || AnyMissing(b, fetch)
  {
    if AnyMissing(b, fetch) {
      var k :| 0 <= k < |b| && fetch(b[k]) == "";
      assert (a + b)[|a| + k] == b[k];
    }
    if AnyMissing(a, fetch) {
      var k :| 0 <= k < |a| && fetch(a[k]) == "";
      assert (a + b)[k] == a[k];
    }
    if AnyMissing(a + b, fetch) {
      var k :| 0 <= k < |a + b| && fetch((a + b)[k]) == "";
      if k < |a| {
        assert a[k] == (a + b)[k];
      } else {
        assert b[k - |a|] == (a + b)[k];
      }
    }
  }

  /** The inner loop of readSHA256s: the checksums of one release's artifacts, in ascending order. */
  method ReadKeySha256s(releases: map<string, seq<string>>, key: string, root: string, fetch: string -> string)
    returns (r: Option<seq<string>>)
    ensures r.None? <==> AnyMissing(KeyUrls(releases, key, root), fetch)
    ensures r.Some? ==> Fetched(KeyUrls(releases, key, root), r.value, fetch)
  {
    var artifacts := SortedArtifacts(releases, key);
    ghost var urls := KeyUrls(releases, key, root);
    var sums: seq<string> := [];
    var j := 0;
    while j < |artifacts|
      invariant 0 <= j <= |artifacts| == |urls|
      invariant Fetched(urls[..j], sums, fetch)
      invariant !AnyMissing(urls[..j], fetch)
    {
      var sum := fetch(ChecksumUrl(artifacts[j], root));
      assert urls[j] == ChecksumUrl(artifacts[j], root);
      if sum == "" {
        assert fetch(urls[j]) == "";
        return None;
      }
      assert urls[..j + 1] == urls[..j] + [urls[j]];
      MissingConcat(urls[..j], [urls[j]], fetch);
      FetchedConcat(urls[..j], sums, [urls[j]], [sum], fetch);
      sums := sums + [sum];
      j := j + 1;
    }
    assert urls[..j] == urls;
    return Some(sums);
  }

  /**
   * readSHA256s: the checksum of every artifact of every kept release,
   * release by release in toKeep order. None where some checksum cannot be
   * read (the program aborts).
   */
  method ReadSha256s(toKeep: seq<string>, releases: map<string, seq<string>>, root: string, fetch: string -> string)
    returns (r: Option<seq<string>>)
    ensures r.None? <==> AnyMissing(ChecksumUrls(toKeep, releases, root), fetch)
    ensures r.Some? ==> Fetched(ChecksumUrls(toKeep, releases, root), r.value, fetch)
  {
    var sums: seq<string> := [];
    var i := 0;
    while i < |toKeep|
      invariant 0 <= i <= |toKeep|
      invariant Fetched(ChecksumUrls(toKeep[..i], releases, root), sums, fetch)
      invariant !AnyMissing(ChecksumUrls(toKeep[..i], releases, root), fetch)
    {
      ChecksumUrlsStep(toKeep, i, releases, root);
      MissingConcat(ChecksumUrls(toKeep[..i], releases, root), KeyUrls(releases, toKeep[i], root), fetch);
      var part := ReadKeySha256s(releases, toKeep[i], root, fetch);
      if part.None? {
        MissingPrefix(toKeep, i + 1, releases, root, fetch);
        return None;
      }
      FetchedConcat(ChecksumUrls(toKeep[..i], releases, root), sums, KeyUrls(releases, toKeep[i], root), part.value, fetch);
      sums := sums + part.value;
      i := i + 1;
    }
    assert toKeep[..|toKeep|] == toKeep;
    return Some(sums);
  }

  lemma ChecksumUrlsStep(toKeep: seq<string>, i: int, releases: map<string, seq<string>>, root: string)
    requires 0 <= i < |toKeep|
    ensures ChecksumUrls(toKeep[..i + 1], releases, root) ==
      ChecksumUrls(toKeep[..i], releases, root) + KeyUrls(releases, toKeep[i], root)
  {
    assert toKeep[..i + 1][..i] == toKeep[..i];
  }

  /** A missing checksum among the first `n` releases is missing from the whole list. */
  lemma MissingPrefix(toKeep: seq<string>, n: int, releases: map<string, seq<string>>, root: string, fetch: string -> string)
    requires 0 <= n <= |toKeep|
    requires AnyMissing(ChecksumUrls(toKeep[..n], releases, root), fetch)
    ensures AnyMissing(ChecksumUrls(toKeep, releases, root), fetch)
  {
    ChecksumUrlsPrefix(toKeep, n, releases, root);
    MissingInPrefix(ChecksumUrls(toKeep[..n], releases, root), ChecksumUrls(toKeep, releases, root), fetch);
  }

  lemma MissingInPrefix(front: seq<string>, all: seq<string>, fetch: string -> string)
    requires |front| <= |all| && front == all[..|front|]
    requires AnyMissing(front, fetch)
    ensures AnyMissing(all, fetch)
  {
    var k :| 0 <= k < |front| && fetch(front[k]) == "";
    assert all[k] == front[k];
  }

  /** The file contents writeSHA256s produces: every checksum followed by a newline. */
  function Lines(items: seq<string>): (r: string)
    ensures items == [] <==> r == ""
    ensures r != "" ==> r[|r| - 1] == '\n'
  {
    if items == [] then "" else items[0] + "\n" + Lines(items[1..])
  }

  lemma {:induction false} LinesAppend(items: seq<string>, x: string)
    ensures Lines(items + [x]) == Lines(items) + x + "\n"
  {
    if items == [] {
      assert items + [x] == [x];
      assert [x][1..] == [];
    } else {
      assert (items + [x])[1..] == items[1..] + [x];
      LinesAppend(items[1..], x);
    }
  }

  method WriteSha256s(sums: seq<string>) returns (content: string)
    ensures content == Lines(sums)
  {
    content := "";
    var i := 0;
    while i < |sums|
      invariant 0 <= i <= |sums|
      invariant content == Lines(sums[..i])
    {
      LinesAppend(sums[..i], sums[i]);
      assert sums[..i + 1] == sums[..i] + [sums[i]];
      content := content + sums[i] + "\n";
      i := i + 1;
    }
    assert sums[..|sums|] == sums;
  }

  /** Splitting a file at its newlines. */
  function SplitLines(s: string): seq<string>
    decreases |s|
  {
    if s == [] then []
    else match AfterFirst(s, '\n')
      case None => [s]
      case Some(rest) => [BeforeFirst(s, '\n')] + SplitLines(rest)
  }

  /** Reading SHA256SUMS back line by line gives the checksums, when none holds a newline. */
  lemma {:induction false} LinesRoundTrip(items: seq<string>)
    requires forall j :: 0 <= j < |items| ==> '\n' !in items[j]
    ensures SplitLines(Lines(items)) == items
  {
    if items != [] {
      var x := items[0];
      var rest := Lines(items[1..]);
      var s := x + "\n" + rest;
      assert s[|x|] == '\n';
      assert forall k :: 0 <= k < |x| ==> s[k] == x[k];
      assert IndexOf(s, '\n') == |x|;
      assert s[..|x|] == x;
      assert AfterFirst(s, '\n') == Some(rest) by {
        assert s[|x| + 1..] == rest;
      }
      LinesRoundTrip(items[1..]);
      assert items == [x] + items[1..];
    }
  }

  // ---------------------------------------------------------------------------
  // The run

  datatype Config = Config(tombstones: seq<string>, golds: seq<string>)

  datatype Outcome =
    | LoadFailed(message: string)
    | NoReleases
    | Vacuumed(releases: map<string, seq<string>>, toKeep: seq<string>, toDelete: seq<string>, sums: Option<string>)

  /**
   * The retention plan for `releases`: toKeep and toDelete split the
   * unprotected keys between them, at most four are kept, nothing is
   * deleted while fewer than four are kept, no deleted key sorts after a
   * kept one, the kept keys are newest first and the deleted ones oldest
   * first.
   */
  ghost predicate RetentionPlan(releases: map<string, seq<string>>, config: Config, toKeep: seq<string>, toDelete: seq<string>) {
    && (forall k :: k in toKeep || k in toDelete <==> k in releases && k !in config.tombstones && k !in config.golds)
    && (forall k :: !(k in toKeep && k in toDelete))
    && |toKeep| <= KeepCount
    && (toDelete != [] ==> |toKeep| == KeepCount)
    && (forall a, b :: a in toKeep && b in toDelete ==> LexLe(b, a))
    && (forall i, j :: 0 <= i < j < |toKeep| ==> LexLe(toKeep[j], toKeep[i]))
    && (forall i, j :: 0 <= i < j < |toDelete| ==> LexLe(toDelete[i], toDelete[j]))
  }

  /** Drop the tombstoned and gold releases, sort the rest newest first and split at four. */
  method PlanRetention(releases: map<string, seq<string>>, config: Config) returns (toKeep: seq<string>, toDelete: seq<string>)
    ensures RetentionPlan(releases, config, toKeep, toDelete)
    ensures NoDuplicates(toKeep) && NoDuplicates(toDelete)
  {
    var candidates := RemoveProtected(releases, config.tombstones, config.golds);
    var keys := KeysOf(candidates);
    var sorted := NewestFirst(keys);
    SortedKeys(keys, sorted);
    toKeep, toDelete := SelectForDeletion(sorted);
    RetentionRule(sorted, toKeep, toDelete);
    SplitKeepsDistinct(sorted, toKeep, toDelete);
  }

  /** Sorting the distinct keys keeps them distinct and loses none. */
  lemma SortedKeys(keys: seq<string>, sorted: seq<string>)
    requires multiset(sorted) == multiset(keys) && NoDuplicates(keys)
    ensures NoDuplicates(sorted)
    ensures forall k :: k in sorted <==> k in keys
  {
    forall i, j | 0 <= i < j < |sorted|
      ensures sorted[i] != sorted[j]
    {
      if sorted[i] == sorted[j] {
        DuplicateCount(sorted, i, j);
        NoDuplicatesCount(keys, sorted[i]);
      }
    }
    forall k
      ensures k in sorted <==> k in keys
    {
      assert k in sorted <==> k in multiset(sorted);
      assert k in keys <==> k in multiset(keys);
    }
  }

  /** Both halves of a split of distinct keys are distinct. */
  lemma SplitKeepsDistinct(keys: seq<string>, toKeep: seq<string>, toDelete: seq<string>)
    requires NoDuplicates(keys)
    requires SplitForRetention(keys, toKeep, toDelete)
    ensures NoDuplicates(toKeep) && NoDuplicates(toDelete)
  {
    forall i, j | 0 <= i < j < |toDelete|
      ensures toDelete[i] != toDelete[j]
    {
      assert toDelete[i] == keys[|keys| - 1 - i] && toDelete[j] == keys[|keys| - 1 - j];
    }
  }

  /** The bodies served at `urls`, in order. */
  function Bodies(urls: seq<string>, fetch: string -> string): (r: seq<string>)
    ensures Fetched(urls, r, fetch)
  {
    seq(|urls|, k requires 0 <= k < |urls| => fetch(urls[k]))
  }

  /**
   * main after the configuration is read: load, drop protected releases,
   * keep the four newest, delete the rest's artifacts, and write the
   * checksums of what is kept. `sums` is None where a checksum fetch fails
   * (status 1, after the deletions).
   */
  method Vacuum(server: Server, steps: seq<WalkStep>, config: Config, root: string, reallyDeleteSetting: string,
                fetch: string -> string) returns (o: Outcome)
    modifies server
    ensures o.LoadFailed? <==> exists i :: 0 <= i < |steps| && Problem(steps[i])
    ensures o.LoadFailed? ==> exists i :: FirstProblem(steps, i) && o.message == ProblemMessage(steps[i])
    ensures o.NoReleases? <==> !o.LoadFailed? && forall key :: ArtifactsOf(steps, key) == []
    ensures !o.Vacuumed? || reallyDeleteSetting != "1" ==> server.files == old(server.files)
    ensures o.Vacuumed? ==> Grouped(o.releases, steps) && RetentionPlan(o.releases, config, o.toKeep, o.toDelete)
    ensures o.Vacuumed? && reallyDeleteSetting == "1" ==>
      server.files == old(server.files) - set a | a in Doomed(o.toDelete, o.releases)
    ensures o.Vacuumed? ==> (o.sums.None? <==> AnyMissing(ChecksumUrls(o.toKeep, o.releases, root), fetch))
    ensures o.Vacuumed? && o.sums.Some? ==>
      o.sums.value == Lines(Bodies(ChecksumUrls(o.toKeep, o.releases, root), fetch))
  {
    var loaded := LoadReleases(steps);
    if loaded.Err? {
      return LoadFailed(loaded.error);
    }
    var releases := loaded.value;
    if releases == map[] {
      return NoReleases;
    }
    assert exists key :: ArtifactsOf(steps, key) != [] by {
      var key :| key in releases;
    }
    var toKeep, toDelete := PlanRetention(releases, config);
    var attempted := DeleteReleases(server, toDelete, releases, reallyDeleteSetting == "1");
    var sums := ReadSha256s(toKeep, releases, root, fetch);
    if sums.None? {
      return Vacuumed(releases, toKeep, toDelete, None);
    }
    var content := WriteSha256s(sums.value);
    ghost var urls := ChecksumUrls(toKeep, releases, root);
    assert sums.value == Bodies(urls, fetch);
    return Vacuumed(releases, toKeep, toDelete, Some(content));
  }

  lemma DuplicateCount(s: seq<string>, i: int, j: int)
    requires 0 <= i < j < |s| && s[i] == s[j]
    ensures multiset(s)[s[i]] >= 2
  {
    assert s == s[..i] + [s[i]] + s[i + 1..j] + [s[j]] + s[j + 1..];
  }

  lemma {:induction false} NoDuplicatesCount(s: seq<string>, x: string)
    requires NoDuplicates(s)
    ensures multiset(s)[x] <= 1
  {
    if s != [] {
      assert s == [s[0]] + s[1..];
      NoDuplicatesCount(s[1..], x);
      if s[0] == x {
        assert x !in s[1..];
      }
    }
  }
}
