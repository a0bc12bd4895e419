/**
 * The decisions btrfs-migrator takes before it touches anything: whether the
 * system is migrated already, whether the fstab is too complicated to
 * migrate automatically, and which legacy (v1) root subvolume to migrate
 * from. The directory listing, the fstab and the user's answer are inputs.
 */
module BtrfsMigrator {
  import opened Common
  import opened Text

  /** Names of legacy root subvolumes start with this. */
  const RootfsPrefix: string := "@kde-linux_"

  const MaxU64: nat := 0xFFFF_FFFF_FFFF_FFFF

  /**
   * One item of read_dir over the btrfs root: an entry with its full path,
   * its file name and whether `<path>/etc` exists, or an entry that could
   * not be read.
   */
  datatype DirEntry = Entry(path: string, name: string, hasEtc: bool) | EntryError

  /** One fstab line; only the file-system type matters here. */
  datatype FstabEntry = FstabEntry(spec: string, file: string, vfsType: string)

  /**
   * Rust's `str::parse::<u64>`: an optional '+', then one or more ASCII
   * digits, with a value that fits in 64 bits. A '-' is never accepted.
   */
  function ParseU64(s: string): (r: Option<nat>)
    ensures r.Some? ==> r.value <= MaxU64
    ensures r.Some? <==> var d := if |s| > 0 && s[0] == '+' then s[1..] else s;
                         d != [] && AllDigits(d) && DigitsValue(d) <= MaxU64
  {
    var digits := if |s| > 0 && s[0] == '+' then s[1..] else s;
    if digits != [] && AllDigits(digits) && DigitsValue(digits) <= MaxU64 then Some(DigitsValue(digits)) else None
  }

  /** Every number in range reads back from its decimal form. */
  lemma ParseU64Decimal(n: nat)
    requires n <= MaxU64
    ensures ParseU64(Decimal(n)) == Some(n)
    ensures ParseU64("+" + Decimal(n)) == Some(n)
  {
    DecimalValue(n);
    assert IsDigit(Decimal(n)[0]);
    assert ("+" + Decimal(n))[1..] == Decimal(n);
  }

  /** A minus sign, an empty string and a lone '+' are all rejected. */
  lemma ParseU64Rejects(s: string)
    ensures ParseU64("") == None && ParseU64("+") == None
    ensures ParseU64("-" + s) == None
  {
    assert !IsDigit(('-' as char));
    assert ("-" + s)[0] == '-';
  }

  /**
   * The version an entry offers as a legacy root, if any: its name must
   * start with "@kde-linux_", it must have an etc directory, and the text
   * after the first '_' must parse as a u64.
   */
  function Version(e: DirEntry): (r: Option<nat>)
    ensures !(e.Entry? && e.hasEtc && StartsWith(e.name, RootfsPrefix)) ==> r.None?
    ensures e.Entry? && e.hasEtc && StartsWith(e.name, RootfsPrefix) ==> r == ParseU64(e.name[|RootfsPrefix|..])
  {
    if e.Entry? && StartsWith(e.name, RootfsPrefix) && e.hasEtc then
      VersionAfterPrefix(e.name);
      ParseU64(AfterFirst(e.name, '_').value)
    else None
  }

  /** The first '_' of a name with the legacy prefix is the prefix's own. */
  lemma VersionAfterPrefix(name: string)
    requires StartsWith(name, RootfsPrefix)
    ensures AfterFirst(name, '_').Some?
    ensures AfterFirst(name, '_').value == name[|RootfsPrefix|..]
  {
    assert name[..|RootfsPrefix|] == RootfsPrefix;
    assert name[10] == '_';
    assert forall k :: 0 <= k < 10 ==> name[k] == RootfsPrefix[k] && RootfsPrefix[k] != '_';
    assert IndexOf(name, '_') == 10;
  }

  predicate HasError(entries: seq<DirEntry>) {
    exists i :: 0 <= i < |entries| && entries[i].EntryError?
  }

  /** Some entry offers a version. */
  ghost predicate AnyCandidate(entries: seq<DirEntry>) {
    exists i :: 0 <= i < |entries| && Version(entries[i]).Some?
  }

  /**
   * Among the first `n` entries, entry `i` is the one chosen: it has the
   * highest version, and every earlier entry has a strictly lower one (so of
   * equal versions the first wins).
   */
  ghost predicate BestAmong(vs: seq<Option<nat>>, n: int, i: int) {
    && 0 <= i < n <= |vs|
    && vs[i].Some?
    && (forall j :: 0 <= j < n && vs[j].Some? ==> vs[j].value <= vs[i].value)
    && (forall j :: 0 <= j < i && vs[j].Some? ==> vs[j].value < vs[i].value)
  }

  /** The versions the entries offer, in listing order. */
  function Versions(entries: seq<DirEntry>): (vs: seq<Option<nat>>)
    ensures |vs| == |entries|
  {
    seq(|entries|, k requires 0 <= k < |entries| => Version(entries[k]))
  }

  /** Entry `i` is the one chosen from the whole listing. */
  ghost predicate Chosen(entries: seq<DirEntry>, i: int) {
    BestAmong(Versions(entries), |entries|, i)
  }

  /** At most one entry is chosen, so the result is determined by the listing. */
  lemma ChosenUnique(entries: seq<DirEntry>, i: int, j: int)
    requires Chosen(entries, i) && Chosen(entries, j)
    ensures i == j
  {
  }

  /** None of the first `n` entries offers a version. */
  ghost predicate NoneAmong(vs: seq<Option<nat>>, n: int) {
    forall j :: 0 <= j < n && j < |vs| ==> vs[j].None?
  }

  lemma NoneExtends(vs: seq<Option<nat>>, n: int)
    requires NoneAmong(vs, n) && 0 <= n < |vs| && vs[n].None?
    ensures NoneAmong(vs, n + 1)
  {
  }

  /** An entry that beats the best so far, or is the first with a version, becomes the best. */
  lemma BestTakesOver(vs: seq<Option<nat>>, n: int, at: int, first: bool)
    requires 0 <= n < |vs| && vs[n].Some?
    requires first ==> NoneAmong(vs, n)
    requires !first ==> BestAmong(vs, n, at) && vs[at].value < vs[n].value
    ensures BestAmong(vs, n + 1, n)
  {
  }

  /** An entry that does not beat the best so far leaves it the best. */
  lemma BestStays(vs: seq<Option<nat>>, n: int, at: int)
    requires BestAmong(vs, n, at) && n < |vs|
    requires vs[n].Some? ==> vs[n].value <= vs[at].value
    ensures BestAmong(vs, n + 1, at)
  {
  }

  /** One entry's turn: a version above the best so far, or the first one, takes over. */
  method Offer(entries: seq<DirEntry>, ghost vs: seq<Option<nat>>, i: int, parsed: Option<nat>,
               found: bool, path: string, version: nat, ghost at: int)
    returns (found': bool, path': string, version': nat, ghost at': int)
    requires |vs| == |entries| && 0 <= i < |entries| && parsed == vs[i]
    requires forall j :: 0 <= j <= i ==> entries[j].Entry?
    requires !found ==> NoneAmong(vs, i)
    requires found ==> BestAmong(vs, i, at) && path == entries[at].path && version == vs[at].value
    ensures !found' ==> NoneAmong(vs, i + 1)
    ensures found' ==> BestAmong(vs, i + 1, at') && path' == entries[at'].path && version' == vs[at'].value
  {
    found', path', version', at' := found, path, version, at;
    if parsed.Some? && (!found || version < parsed.value) {
      BestTakesOver(vs, i, at, !found);
      found', path', version', at' := true, entries[i].path, parsed.value, i;
    } else if found {
      BestStays(vs, i, at);
    } else {
      NoneExtends(vs, i);
    }
  }

  /**
   * find_rootfs_v1. `listing` is None where the root cannot be listed; an
   * unreadable entry ends the search with None whatever was found before.
   */
  method FindRootfsV1(listing: Option<seq<DirEntry>>) returns (r: Option<string>)
    ensures r.Some? <==> listing.Some? && !HasError(listing.value) && AnyCandidate(listing.value)
    ensures r.Some? ==> exists i :: Chosen(listing.value, i) && r.value == listing.value[i].path
  {
    if listing.None? {
      return None;
    }
    var entries := listing.value;
    ghost var vs := Versions(entries);
    var found := false;
    var path := "";
    var version := 0;
    ghost var at := 0;
    var i := 0;
    while i < |entries|
      invariant 0 <= i <= |entries|
      invariant forall j :: 0 <= j < i ==> entries[j].Entry?
      invariant !found ==> NoneAmong(vs, i)
      invariant found ==> BestAmong(vs, i, at) && path == entries[at].path && version == vs[at].value
    {
      var entry := entries[i];
      if entry.EntryError? {
        assert HasError(entries);
        return None;
      }
      var parsed := Version(entry);
      assert parsed == vs[i];
      found, path, version, at := Offer(entries, vs, i, parsed, found, path, version, at);
      i := i + 1;
    }
    if !found {
      assert !AnyCandidate(entries) by {
        forall j | 0 <= j < |entries| ensures Version(entries[j]).None? {
          assert vs[j] == Version(entries[j]) && vs[j].None?;
        }
      }
      return None;
    }
    assert !HasError(entries);
    assert Version(entries[at]).Some? by { assert vs[at] == Version(entries[at]); }
    return Some(path);
  }

  /** Whether the fstab entry is one migration cannot carry over: anything but swap. */
  predicate Concerning(e: FstabEntry) {
    e.vfsType != "swap"
  }

  /** The number of concerning entries. */
  function ConcerningCount(entries: seq<FstabEntry>): nat {
    if entries == [] then 0
    else ConcerningCount(entries[..|entries| - 1]) + (if Concerning(entries[|entries| - 1]) then 1 else 0)
  }

  /** No concerning entry is counted exactly when every entry is swap. */
  lemma {:induction false} ConcerningCountZero(entries: seq<FstabEntry>)
    ensures ConcerningCount(entries) <= |entries|
    ensures ConcerningCount(entries) == 0 <==> forall k :: 0 <= k < |entries| ==> !Concerning(entries[k])
  {
    if entries != [] {
      var front := entries[..|entries| - 1];
      ConcerningCountZero(front);
      assert forall k :: 0 <= k < |front| ==> front[k] == entries[k];
    }
  }

  /**
   * The count in run: a missing or unreadable fstab counts as having no
   * entries at all.
   */
  method CountConcerning(fstab: Option<seq<FstabEntry>>) returns (n: nat)
    ensures fstab.None? ==> n == 0
    ensures fstab.Some? ==> n == ConcerningCount(fstab.value)
  {
    var entries := if fstab.Some? then fstab.value else [];
    n := 0;
    var i := 0;
    while i < |entries|
      invariant 0 <= i <= |entries|
      invariant n == ConcerningCount(entries[..i])
    {
      assert entries[..i + 1][..i] == entries[..i];
      if entries[i].vfsType != "swap" {
        n := n + 1;
      }
      i := i + 1;
    }
    assert entries[..i] == entries;
  }

  /** How run ends up before any subvolume work: already done, refused, or ready to copy from `rootfs`. */
  datatype Decision = AlreadyMigrated | Failed(message: string) | Proceed(rootfs: string)

  /**
   * The checks of run in their order: an existing @system ends it with
   * success; concerning fstab entries lead to a prompt, and a "no" ends it
   * with an error (after asking for a reboot); a missing legacy root is an
   * error. `continueAnyway` is the user's answer to the prompt and is only
   * consulted when there is something concerning.
   */
  method Decide(systemExists: bool, fstab: Option<seq<FstabEntry>>, continueAnyway: bool, listing: Option<seq<DirEntry>>)
    returns (d: Decision)
    ensures systemExists ==> d == AlreadyMigrated
    ensures !systemExists ==> d != AlreadyMigrated
    ensures !systemExists && fstab.Some? && ConcerningCount(fstab.value) > 0 && !continueAnyway ==>
      d == Failed("Concerning fstab entries found")
    ensures !systemExists && (fstab.None? || ConcerningCount(fstab.value) == 0 || continueAnyway) ==>
      && (d.Failed? <==> !(listing.Some? && !HasError(listing.value) && AnyCandidate(listing.value)))
      && (d.Failed? ==> d.message == "No legacy rootfs v1 found. Migration impossible.")
      && (d.Proceed? ==> exists i :: Chosen(listing.value, i) && d.rootfs == listing.value[i].path)
  {
    if systemExists {
      return AlreadyMigrated;
    }
    var concerning := CountConcerning(fstab);
    if concerning > 0 && !continueAnyway {
      return Failed("Concerning fstab entries found");
    }
    var rootfs := FindRootfsV1(listing);
    if rootfs.None? {
      return Failed("No legacy rootfs v1 found. Migration impossible.");
    }
    return Proceed(rootfs.value);
  }
}
