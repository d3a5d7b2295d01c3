/** The archives in the backup directory (backup.py): listing, deletion and retention. */
module BackupDirectory {
  import opened Models
  import opened Sorting
  import opened Text

  datatype Kind = Regular | Symlink

  datatype File = File(name: string, kind: Kind, mtime: Time, size: nat)

  const STEM := "basis-hawk-"
  const DAILY := "-daily.bhbk"
  const WEEKLY := "-weekly.bhbk"
  const SHA256 := ".sha256"

  // ---------- names ----------

  /** `ARCHIVE_NAME_PATTERN`. */
  predicate IsArchiveName(n: string) {
    && |n| > 27 && n[..11] == STEM
    && AllDigits(n[11..19]) && n[19] == 'T' && AllDigits(n[20..26]) && n[26] == 'Z'
    && n[27..] in {DAILY, WEEKLY}
  }

  function ChecksumName(n: string): string { n + SHA256 }

  /** The glob `basis-hawk-*<suffix>`. */
  predicate Globs(suffix: string, n: string) {
    |n| >= |STEM| + |suffix| && n[..|STEM|] == STEM && n[|n| - |suffix|..] == suffix
  }

  /** A UTC timestamp as the number YYYYMMDDHHMMSS. */
  type Stamp = s: nat | s < 100000000000000

  function StampText(s: Stamp): (t: string)
    ensures |t| == 16
  {
    Padded(s / 1000000, 8) + "T" + Padded(s % 1000000, 6) + "Z"
  }

  function ArchiveName(s: Stamp, suffix: string): string { STEM + StampText(s) + suffix }

  /** Two fixed-width fields around a fixed separator compare field by field. */
  lemma FieldsOrder(a: string, x: string, b: string, y: string, tail: string)
    requires |a| == |b| && |x| == |y|
    ensures StringLeq(a + ("T" + (x + tail)), b + ("T" + (y + tail)))
        <==> if a == b then StringLeq(x, y) else StringLeq(a, b)
  {
    var u, v := "T" + (x + tail), "T" + (y + tail);
    if a == b {
      CommonPrefix(a, u, v);
      CommonPrefix("T", x + tail, y + tail);
      if x == y {
        StringLeqTotal(x, y);
        StringLeqTotal(x + tail, y + tail);
      } else {
        DifferentHeads(x, y, tail, tail);
      }
    } else {
      DifferentHeads(a, b, u, v);
    }
  }

  lemma ArchiveNameParts(s: Stamp, suffix: string)
    ensures var n := ArchiveName(s, suffix);
      && n == STEM + (Padded(s / 1000000, 8) + ("T" + (Padded(s % 1000000, 6) + ("Z" + suffix))))
      && n[11..19] == Padded(s / 1000000, 8) && n[20..26] == Padded(s % 1000000, 6)
      && n[..11] == STEM && n[19] == 'T' && n[26] == 'Z' && n[27..] == suffix
  {
    FieldsOf(Padded(s / 1000000, 8), Padded(s % 1000000, 6), suffix);
  }

  /** The fields of a name and where they stand. */
  lemma FieldsOf(date: string, time: string, suffix: string)
    requires |date| == 8 && |time| == 6
    ensures var n := STEM + (date + "T" + time + "Z") + suffix;
      && n == STEM + (date + ("T" + (time + ("Z" + suffix))))
      && n[11..19] == date && n[20..26] == time
      && n[..11] == STEM && n[19] == 'T' && n[26] == 'Z' && n[27..] == suffix
  {
  }

  /** Names of one kind compare as their timestamps. */
  lemma StampOrder(s: Stamp, t: Stamp, suffix: string)
    ensures StringLeq(ArchiveName(s, suffix), ArchiveName(t, suffix)) <==> s <= t
    ensures ArchiveName(s, suffix) == ArchiveName(t, suffix) <==> s == t
  {
    PowersOfTen();
    PaddedOrder(s / 1000000, t / 1000000, 8);
    PaddedOrder(s % 1000000, t % 1000000, 6);
    ArchiveNameParts(s, suffix);
    ArchiveNameParts(t, suffix);
    var a, b := Padded(s / 1000000, 8), Padded(t / 1000000, 8);
    var x, y := Padded(s % 1000000, 6), Padded(t % 1000000, 6);
    FieldsOrder(a, x, b, y, "Z" + suffix);
    CommonPrefix(STEM, a + ("T" + (x + ("Z" + suffix))), b + ("T" + (y + ("Z" + suffix))));
  }

  lemma PowersOfTen()
    ensures Power10(8) == 100000000 && Power10(6) == 1000000
  {
    assert Power10(3) == 1000;
    assert Power10(6) == 1000 * Power10(3);
    assert Power10(8) == 100 * Power10(6);
  }

  lemma GlobEnds(suffix: string, n: string)
    requires Globs(suffix, n) && suffix in {DAILY, WEEKLY}
    ensures n[|n| - 1] == 'k'
    ensures suffix == DAILY ==> n[|n| - 11] == '-'
    ensures suffix == WEEKLY ==> n[|n| - 12] == '-' && n[|n| - 11] == 'w'
  {
    var end := n[|n| - |suffix|..];
    assert end[|suffix| - 1] == 'k' && end[0] == '-';
    assert suffix == WEEKLY ==> end[1] == 'w';
  }

  lemma ArchiveEnds(n: string)
    requires IsArchiveName(n)
    ensures n[|n| - 1] == 'k'
  {
    var end := n[27..];
    assert end[|end| - 1] == 'k';
  }

  lemma ArchiveNameGlobs(s: Stamp)
    ensures Globs(DAILY, ArchiveName(s, DAILY)) && !Globs(WEEKLY, ArchiveName(s, DAILY))
    ensures Globs(WEEKLY, ArchiveName(s, WEEKLY)) && !Globs(DAILY, ArchiveName(s, WEEKLY))
    ensures IsArchiveName(ArchiveName(s, DAILY)) && IsArchiveName(ArchiveName(s, WEEKLY))
  {
    var d, w := ArchiveName(s, DAILY), ArchiveName(s, WEEKLY);
    ArchiveNameParts(s, DAILY);
    ArchiveNameParts(s, WEEKLY);
    assert |d| == 38 && d[26] == 'Z' && |w| == 39 && w[27..][1] == 'w';
    if Globs(WEEKLY, d) {
      GlobEnds(WEEKLY, d);
      assert false;
    }
    if Globs(DAILY, w) {
      GlobEnds(DAILY, w);
      assert false;
    }
  }

  lemma NameParts(n: string)
    requires IsArchiveName(n)
    ensures n == STEM + (n[11..19] + "T" + n[20..26] + "Z") + n[27..]
  {
  }

  lemma TwoFields(date: nat, time: nat) returns (s: Stamp)
    requires date < 100000000 && time < 1000000
    ensures s / 1000000 == date && s % 1000000 == time
  {
    s := date * 1000000 + time;
  }

  /** The names that match the pattern are exactly those that backups give. */
  lemma ArchiveNameExactly(n: string)
    ensures IsArchiveName(n) <==> exists s: Stamp, suffix :: suffix in {DAILY, WEEKLY} && n == ArchiveName(s, suffix)
  {
    if IsArchiveName(n) {
      var date, time, suffix := n[11..19], n[20..26], n[27..];
      PowersOfTen();
      PaddedNumber(date);
      PaddedNumber(time);
      var s := TwoFields(Number(date), Number(time));
      NameParts(n);
      assert n == ArchiveName(s, suffix);
    }
    if s: Stamp, suffix :| suffix in {DAILY, WEEKLY} && n == ArchiveName(s, suffix) {
      ArchiveNameGlobs(s);
    }
  }

  /** A checksum file is never itself an archive. */
  lemma ChecksumIsNoArchive(n: string)
    ensures !IsArchiveName(ChecksumName(n)) && !Globs(DAILY, ChecksumName(n)) && !Globs(WEEKLY, ChecksumName(n))
  {
    var c := ChecksumName(n);
    assert c[|c| - 1] == SHA256[6];
    if IsArchiveName(c) {
      ArchiveEnds(c);
      assert false;
    }
    if Globs(DAILY, c) {
      GlobEnds(DAILY, c);
      assert false;
    }
    if Globs(WEEKLY, c) {
      GlobEnds(WEEKLY, c);
      assert false;
    }
  }

  // ---------- listing ----------

  /** Newest first: by modification time, then by name, both descending. */
  predicate NewestFirst(a: File, b: File) {
    a.mtime > b.mtime || (a.mtime == b.mtime && StringLeq(b.name, a.name))
  }

  /** Names in descending order. */
  predicate NameDescending(a: File, b: File) { StringLeq(b.name, a.name) }

  function ListedBy(): File -> bool { (f: File) => IsArchiveName(f.name) && f.kind == Regular }

  function GlobbedBy(suffix: string): File -> bool { (f: File) => Globs(suffix, f.name) }

  function NotNamed(names: seq<string>): File -> bool {
    (f: File) => f.name !in names
  }

  function Archives(files: seq<File>): seq<File> { Sort(NewestFirst, Filter(ListedBy(), files)) }

  function Matching(files: seq<File>, suffix: string): seq<File> {
    Sort(NameDescending, Filter(GlobbedBy(suffix), files))
  }

  lemma OrdersAreTotal()
    ensures TotalPreorder(NewestFirst) && TotalPreorder(NameDescending)
  {
    forall a: File, b: File ensures StringLeq(a.name, b.name) || StringLeq(b.name, a.name) {
      StringLeqTotal(a.name, b.name);
    }
    forall a: File, b: File, c: File | StringLeq(a.name, b.name) && StringLeq(b.name, c.name)
      ensures StringLeq(a.name, c.name)
    {
      StringLeqTransitive(a.name, b.name, c.name);
    }
  }

  lemma {:induction false} FiltersCommute<T>(p: T -> bool, q: T -> bool, s: seq<T>)
    ensures Filter(p, Filter(q, s)) == Filter(q, Filter(p, s))
  {
    if s != [] {
      FiltersCommute(p, q, s[1..]);
      var r := s[1..];
      if q(s[0]) { assert ([s[0]] + Filter(q, r))[1..] == Filter(q, r); }
      if p(s[0]) { assert ([s[0]] + Filter(p, r))[1..] == Filter(p, r); }
    }
  }

  ghost predicate DistinctNames(files: seq<File>) {
    forall i, j :: 0 <= i < j < |files| ==> files[i].name != files[j].name
  }

  /** Removing files by name leaves the listing as it was without them. */
  lemma ListingWithout(files: seq<File>, names: seq<string>)
    ensures Archives(Filter(NotNamed(names), files)) == Filter(NotNamed(names), Archives(files))
    ensures forall suffix ::
      Matching(Filter(NotNamed(names), files), suffix) == Filter(NotNamed(names), Matching(files, suffix))
  {
    OrdersAreTotal();
    FiltersCommute(ListedBy(), NotNamed(names), files);
    FilterSort(NewestFirst, NotNamed(names), Filter(ListedBy(), files));
    forall suffix ensures Matching(Filter(NotNamed(names), files), suffix)
                       == Filter(NotNamed(names), Matching(files, suffix)) {
      FiltersCommute(GlobbedBy(suffix), NotNamed(names), files);
      FilterSort(NameDescending, NotNamed(names), Filter(GlobbedBy(suffix), files));
    }
  }

  // ---------- deletion ----------

  datatype Deletion = Deleted | Rejected(reason: string)

  ghost predicate Has(files: seq<File>, name: string, kind: Kind) {
    exists f :: f in files && f.name == name && f.kind == kind
  }

  /** What one requested name must satisfy. */
  ghost predicate MayDelete(files: seq<File>, name: string) {
    && IsArchiveName(name)
    && (Archives(files) != [] ==> Archives(files)[0].name != name)
    && Has(files, name, Regular) && !Has(files, name, Symlink)
    && !Has(files, ChecksumName(name), Symlink)
  }

  /** A request and the checksum files that go with it. */
  function WithChecksums(names: seq<string>): seq<string> {
    if names == [] then [] else [names[0], ChecksumName(names[0])] + WithChecksums(names[1..])
  }

  lemma {:induction false} WithChecksumsMembers(names: seq<string>, n: string)
    ensures n in WithChecksums(names) <==> n in names || exists m :: m in names && n == ChecksumName(m)
  {
    if names != [] {
      WithChecksumsMembers(names[1..], n);
      assert names == [names[0]] + names[1..];
      assert WithChecksums(names) == [names[0], ChecksumName(names[0])] + WithChecksums(names[1..]);
    }
  }

  method Exists(files: seq<File>, name: string, kind: Kind) returns (found: bool)
    ensures found <==> Has(files, name, kind)
  {
    for i := 0 to |files|
      invariant !Has(files[..i], name, kind)
    {
      if files[i].name == name && files[i].kind == kind {
        assert files[i] in files;
        return true;
      }
      assert files[..i + 1] == files[..i] + [files[i]];
    }
    assert files[..|files|] == files;
    return false;
  }

  class Directory {
    var files: seq<File>

    constructor ()
      ensures files == []
    {
      files := [];
    }

    /** `path.unlink(missing_ok=True)`. */
    method Unlink(name: string)
      modifies this
      ensures files == Filter(NotNamed([name]), old(files))
    {
      files := Filter(NotNamed([name]), files);
    }

    /** Every name is checked before anything is removed. */
    method DeleteBackups(names: seq<string>) returns (result: Deletion)
      modifies this
      ensures result.Deleted? <==>
        && names != [] && (forall i, j :: 0 <= i < j < |names| ==> names[i] != names[j])
        && forall n :: n in names ==> MayDelete(old(files), n)
      ensures result.Rejected? ==> files == old(files)
      ensures result.Deleted? ==> files == Filter(NotNamed(WithChecksums(names)), old(files))
    {
      if names == [] {
        return Rejected("at least one backup archive is required");
      }
      if exists i, j :: 0 <= i < j < |names| && names[i] == names[j] {
        return Rejected("duplicate backup archive name");
      }
      var archives := Archives(files);
      for k := 0 to |names|
        invariant files == old(files)
        invariant forall i :: 0 <= i < k ==> MayDelete(files, names[i])
      {
        var name := names[k];
        assert name in names;
        if !IsArchiveName(name) {
          return Rejected("invalid backup archive name");
        }
        if archives != [] && archives[0].name == name {
          return Rejected("the latest backup cannot be deleted");
        }
        var link := Exists(files, name, Symlink);
        var regular := Exists(files, name, Regular);
        if link || !regular {
          return Rejected("backup archive does not exist");
        }
        var checksumLink := Exists(files, ChecksumName(name), Symlink);
        if checksumLink {
          return Rejected("backup checksum path is invalid");
        }
      }
      FilterAll(NotNamed([]), files);
      for k := 0 to |names|
        invariant files == Filter(NotNamed(WithChecksums(names[..k])), old(files))
      {
        UnlinkPair(old(files), names, k);
        Unlink(names[k]);
        Unlink(ChecksumName(names[k]));
      }
      assert names[..|names|] == names;
      return Deleted;
    }

    /** `_prune`: all but the first `keep` by descending name go, with their checksums. */
    method Prune(suffix: string, keep: nat)
      modifies this
      ensures files == Filter(NotNamed(WithChecksums(Doomed(old(files), suffix, keep))), old(files))
    {
      var backups := Matching(files, suffix);
      var doomed := Doomed(files, suffix, keep);
      FilterAll(NotNamed([]), files);
      for k := 0 to |doomed|
        invariant files == Filter(NotNamed(WithChecksums(doomed[..k])), old(files))
      {
        UnlinkPair(old(files), doomed, k);
        Unlink(doomed[k]);
        Unlink(ChecksumName(doomed[k]));
      }
      assert doomed[..|doomed|] == doomed;
    }

    /** Writing a file, replacing one of the same name. */
    method Store(f: File)
      modifies this
      ensures files == Stored(old(files), f)
    {
      files := Filter(NotNamed([f.name]), files) + [f];
    }

    /** What `create_backup` does to the directory once the dump has succeeded. A
        directory that holds the newest daily and weekly archives still does afterwards. */
    method CreateBackup(
      stamp: Stamp, sunday: bool, mtime: Time, size: nat, dailyRetention: nat, weeklyRetention: nat,
      ghost created: seq<Stamp>, ghost sundays: seq<Stamp>)
      requires DistinctNames(files)
      requires Before(created, stamp) && Before(sundays, stamp)
      requires Retains(files, DAILY, created, dailyRetention) && Retains(files, WEEKLY, sundays, weeklyRetention)
      modifies this
      ensures DistinctNames(files)
      ensures Retains(files, DAILY, created + [stamp], dailyRetention)
      ensures Retains(files, WEEKLY, if sunday then sundays + [stamp] else sundays, weeklyRetention)
      ensures files == AfterBackup(old(files), Job(stamp, sunday, mtime, size), dailyRetention, weeklyRetention)
      ensures AddsBackup(old(files), files, Job(stamp, sunday, mtime, size), dailyRetention, weeklyRetention)
    {
      BackupAdds(files, Job(stamp, sunday, mtime, size), dailyRetention, weeklyRetention);
      ghost var d, w := Least(|created|, dailyRetention), Least(|sundays|, weeklyRetention);
      ghost var weeks := if sunday then sundays + [stamp] else sundays;
      StoreArchive(DAILY, stamp, mtime, size, created, d, WEEKLY, sundays, w);
      if sunday {
        var weekly := ArchiveName(stamp, WEEKLY);
        var regular := Exists(files, weekly, Regular);
        var link := Exists(files, weekly, Symlink);
        NotYetPresent(files, WEEKLY, sundays, w, stamp);
        if !regular && !link {
          StoreArchive(WEEKLY, stamp, mtime, size, sundays, w, DAILY, created + [stamp], d + 1);
          w := w + 1;
        }
      }
      PruneNewest(files, DAILY, created + [stamp], d + 1, WEEKLY, weeks, w, dailyRetention);
      Prune(DAILY, dailyRetention);
      PruneNewest(files, WEEKLY, weeks, w, DAILY, created + [stamp], Least(d + 1, dailyRetention), weeklyRetention);
      Prune(WEEKLY, weeklyRetention);
    }

    /** The archive (or the hard link to it) and its checksum file. */
    method StoreArchive(
      suffix: string, stamp: Stamp, mtime: Time, size: nat,
      ghost stamps: seq<Stamp>, ghost m: nat, ghost other: string, ghost otherStamps: seq<Stamp>, ghost k: nat)
      requires DistinctNames(files) && (suffix, other) in {(DAILY, WEEKLY), (WEEKLY, DAILY)}
      requires Before(stamps, stamp)
      requires HoldsNewest(files, suffix, stamps, m) && HoldsNewest(files, other, otherStamps, k)
      modifies this
      ensures DistinctNames(files)
      ensures HoldsNewest(files, suffix, stamps + [stamp], m + 1) && HoldsNewest(files, other, otherStamps, k)
      ensures files == WithBackup(old(files), suffix, stamp, mtime, size)
    {
      var name := ArchiveName(stamp, suffix);
      ArchiveNameGlobs(stamp);
      ChecksumIsNoArchive(name);
      var archive, checksum := ArchiveFile(suffix, stamp, mtime, size), ChecksumFile(suffix, stamp, mtime);
      StoreNewest(files, suffix, stamps, m, stamp, archive);
      StoreOther(files, other, otherStamps, k, archive);
      Store(archive);
      StoreOther(files, suffix, stamps + [stamp], m + 1, checksum);
      StoreOther(files, other, otherStamps, k, checksum);
      Store(checksum);
    }
  }

  // ---------- retention ----------

  function ArchiveFile(suffix: string, stamp: Stamp, mtime: Time, size: nat): File {
    File(ArchiveName(stamp, suffix), Regular, mtime, size)
  }

  /** A digest of 64 digits, two spaces, the name and a line end. */
  function ChecksumFile(suffix: string, stamp: Stamp, mtime: Time): File {
    var name := ArchiveName(stamp, suffix);
    File(ChecksumName(name), Regular, mtime, 64 + 2 + |name| + 1)
  }

  function WithBackup(files: seq<File>, suffix: string, stamp: Stamp, mtime: Time, size: nat): seq<File> {
    Stored(Stored(files, ArchiveFile(suffix, stamp, mtime, size)), ChecksumFile(suffix, stamp, mtime))
  }

  function AfterBackup(files: seq<File>, job: Job, dailyRetention: nat, weeklyRetention: nat): seq<File> {
    var daily := WithBackup(files, DAILY, job.stamp, job.mtime, job.size);
    var both := if job.sunday then WithBackup(daily, WEEKLY, job.stamp, job.mtime, job.size) else daily;
    Pruned(Pruned(both, DAILY, dailyRetention), WEEKLY, weeklyRetention)
  }

  function Least(a: nat, b: nat): nat { if a < b then a else b }

  function NamesOf(files: seq<File>): (names: seq<string>)
    ensures |names| == |files| && forall i :: 0 <= i < |files| ==> names[i] == files[i].name
  {
    if files == [] then [] else [files[0].name] + NamesOf(files[1..])
  }

  /** The names `_prune` removes. */
  function Doomed(files: seq<File>, suffix: string, keep: nat): seq<string> {
    var backups := Matching(files, suffix);
    NamesOf(backups[Least(keep, |backups|)..])
  }

  function Pruned(files: seq<File>, suffix: string, keep: nat): seq<File> {
    Filter(NotNamed(WithChecksums(Doomed(files, suffix, keep))), files)
  }

  function Stored(files: seq<File>, f: File): seq<File> { Filter(NotNamed([f.name]), files) + [f] }

  ghost predicate Before(stamps: seq<Stamp>, stamp: Stamp) {
    forall i :: 0 <= i < |stamps| ==> stamps[i] < stamp
  }

  /** In descending order, the archives of the last of the stamps. */
  ghost predicate NewestOf(held: seq<File>, suffix: string, stamps: seq<Stamp>) {
    && |held| <= |stamps|
    && forall i :: 0 <= i < |held| ==> held[i].name == ArchiveName(stamps[|stamps| - 1 - i], suffix)
  }

  /** The archives with this suffix are exactly those of the last `m` of the stamps. */
  ghost predicate HoldsNewest(files: seq<File>, suffix: string, stamps: seq<Stamp>, m: nat) {
    |Matching(files, suffix)| == m && NewestOf(Matching(files, suffix), suffix, stamps)
  }

  ghost predicate Retains(files: seq<File>, suffix: string, stamps: seq<Stamp>, keep: nat) {
    HoldsNewest(files, suffix, stamps, Least(|stamps|, keep))
  }

  lemma {:induction false} FilterDistinctNames(keep: File -> bool, files: seq<File>)
    requires DistinctNames(files)
    ensures DistinctNames(Filter(keep, files))
  {
    if files != [] {
      var rest := Filter(keep, files[1..]);
      FilterDistinctNames(keep, files[1..]);
      FilterMembers(keep, files[1..]);
      forall j | 0 <= j < |rest| ensures rest[j].name != files[0].name {
        assert rest[j] in files[1..];
        var k :| 0 <= k < |files[1..]| && files[1..][k] == rest[j];
        assert files[k + 1] == rest[j];
      }
    }
  }

  lemma MatchingFacts(files: seq<File>, suffix: string)
    ensures forall f :: f in Matching(files, suffix) <==> f in files && Globs(suffix, f.name)
    ensures DistinctNames(files) ==> DistinctNames(Matching(files, suffix))
  {
    var kept := Filter(GlobbedBy(suffix), files);
    FilterMembers(GlobbedBy(suffix), files);
    SortPermutes(NameDescending, kept);
    SameMembers(kept, Matching(files, suffix));
    if DistinctNames(files) {
      FilterDistinctNames(GlobbedBy(suffix), files);
      var s := Matching(files, suffix);
      forall i, j | 0 <= i < j < |s| ensures s[i].name != s[j].name {
        var k, m := TwoIndices(kept, s, i, j);
        NamesDiffer(kept, k, m);
      }
    }
  }

  lemma NamesDiffer(files: seq<File>, k: int, m: int)
    requires DistinctNames(files) && 0 <= k < |files| && 0 <= m < |files| && k != m
    ensures files[k].name != files[m].name
  {
  }

  lemma StoredDistinct(files: seq<File>, f: File)
    requires DistinctNames(files)
    ensures DistinctNames(Stored(files, f))
  {
    var rest := Filter(NotNamed([f.name]), files);
    FilterDistinctNames(NotNamed([f.name]), files);
    FilterMembers(NotNamed([f.name]), files);
    forall i | 0 <= i < |rest| ensures rest[i].name != f.name {
      assert rest[i] in rest;
    }
  }

  /** No archive of a later stamp is there yet. */
  lemma NotYetPresent(files: seq<File>, suffix: string, stamps: seq<Stamp>, m: nat, stamp: Stamp)
    requires HoldsNewest(files, suffix, stamps, m) && Before(stamps, stamp) && suffix in {DAILY, WEEKLY}
    ensures forall f :: f in files ==> f.name != ArchiveName(stamp, suffix)
  {
    MatchingFacts(files, suffix);
    ArchiveNameGlobs(stamp);
    var held := Matching(files, suffix);
    forall f | f in files ensures f.name != ArchiveName(stamp, suffix) {
      if Globs(suffix, f.name) {
        assert f in held;
        var i :| 0 <= i < |held| && held[i] == f;
        StampOrder(stamps[|stamps| - 1 - i], stamp, suffix);
      }
    }
  }

  lemma {:induction false} SortAppendFirst(s: seq<File>, f: File)
    requires forall x :: x in s ==> !NameDescending(x, f)
    ensures Sort(NameDescending, s + [f]) == [f] + Sort(NameDescending, s)
  {
    if s == [] {
      assert s + [f] == [f] && [f][1..] == [];
    } else {
      SortAppendFirst(s[1..], f);
      assert (s + [f])[1..] == s[1..] + [f];
      var rest := Sort(NameDescending, s[1..]);
      assert ([f] + rest)[1..] == rest;
    }
  }

  lemma MatchingAppendFirst(files: seq<File>, suffix: string, f: File)
    requires Globs(suffix, f.name) && forall x :: x in Matching(files, suffix) ==> !NameDescending(x, f)
    ensures Matching(files + [f], suffix) == [f] + Matching(files, suffix)
  {
    FilterAppend(GlobbedBy(suffix), files, [f]);
    assert Filter(GlobbedBy(suffix), [f]) == [f];
    MatchingFacts(files, suffix);
    FilterMembers(GlobbedBy(suffix), files);
    SortAppendFirst(Filter(GlobbedBy(suffix), files), f);
  }

  lemma StoreNewest(files: seq<File>, suffix: string, stamps: seq<Stamp>, m: nat, stamp: Stamp, f: File)
    requires DistinctNames(files) && suffix in {DAILY, WEEKLY}
    requires HoldsNewest(files, suffix, stamps, m) && Before(stamps, stamp)
    requires f.name == ArchiveName(stamp, suffix)
    ensures DistinctNames(Stored(files, f))
    ensures HoldsNewest(Stored(files, f), suffix, stamps + [stamp], m + 1)
  {
    StoredDistinct(files, f);
    NotYetPresent(files, suffix, stamps, m, stamp);
    FilterAll(NotNamed([f.name]), files);
    ArchiveNameGlobs(stamp);
    HeldAreOlder(files, suffix, stamps, m, stamp, f);
    MatchingAppendFirst(files, suffix, f);
    assert Stored(files, f) == files + [f];
    NewestGrows(Matching(files, suffix), suffix, stamps, stamp, f);
  }

  lemma HeldAreOlder(files: seq<File>, suffix: string, stamps: seq<Stamp>, m: nat, stamp: Stamp, f: File)
    requires HoldsNewest(files, suffix, stamps, m) && Before(stamps, stamp) && f.name == ArchiveName(stamp, suffix)
    ensures forall x :: x in Matching(files, suffix) ==> !NameDescending(x, f)
  {
    var held := Matching(files, suffix);
    forall x | x in held ensures !NameDescending(x, f) {
      var i :| 0 <= i < |held| && held[i] == x;
      StampOrder(stamp, stamps[|stamps| - 1 - i], suffix);
    }
  }

  lemma NewestGrows(held: seq<File>, suffix: string, stamps: seq<Stamp>, stamp: Stamp, f: File)
    requires NewestOf(held, suffix, stamps) && f.name == ArchiveName(stamp, suffix)
    ensures NewestOf([f] + held, suffix, stamps + [stamp])
  {
    var all := stamps + [stamp];
    forall i | 0 <= i < |held| + 1 ensures ([f] + held)[i].name == ArchiveName(all[|all| - 1 - i], suffix) {
      if i > 0 {
        assert ([f] + held)[i] == held[i - 1];
      }
    }
  }

  lemma StoreOther(files: seq<File>, suffix: string, stamps: seq<Stamp>, m: nat, f: File)
    requires DistinctNames(files) && HoldsNewest(files, suffix, stamps, m) && !Globs(suffix, f.name)
    ensures DistinctNames(Stored(files, f)) && HoldsNewest(Stored(files, f), suffix, stamps, m)
  {
    StoredDistinct(files, f);
    ListingWithout(files, [f.name]);
    MatchingFacts(files, suffix);
    FilterAll(NotNamed([f.name]), Matching(files, suffix));
    var rest := Filter(NotNamed([f.name]), files);
    FilterAppend(GlobbedBy(suffix), rest, [f]);
    assert Filter(GlobbedBy(suffix), [f]) == [];
    assert Filter(GlobbedBy(suffix), rest + [f]) == Filter(GlobbedBy(suffix), rest);
  }

  lemma DoomedGlob(files: seq<File>, suffix: string, keep: nat, n: string)
    requires suffix in {DAILY, WEEKLY}
    ensures n in Doomed(files, suffix, keep) ==> Globs(suffix, n) && |n| >= 11 && n[|n| - 11] == (if suffix == DAILY then '-' else 'w')
  {
    var held, doomed := Matching(files, suffix), Doomed(files, suffix, keep);
    MatchingFacts(files, suffix);
    if n in doomed {
      var k :| 0 <= k < |doomed| && doomed[k] == n;
      assert held[Least(keep, |held|) + k] in held;
      GlobEnds(suffix, n);
    }
  }

  lemma PruneLeavesOther(files: seq<File>, suffix: string, other: string, keep: nat)
    requires (suffix, other) in {(DAILY, WEEKLY), (WEEKLY, DAILY)}
    ensures Matching(Pruned(files, suffix, keep), other) == Matching(files, other)
  {
    var held, doomed := Matching(files, suffix), Doomed(files, suffix, keep);
    ListingWithout(files, WithChecksums(doomed));
    MatchingFacts(files, suffix);
    MatchingFacts(files, other);
    forall f | f in Matching(files, other) ensures f.name !in WithChecksums(doomed) {
      SurvivesChecksums(doomed, f.name);
      DoomedGlob(files, suffix, keep, f.name);
      GlobEnds(other, f.name);
    }
    FilterAll(NotNamed(WithChecksums(doomed)), Matching(files, other));
  }

  lemma {:induction false} FilterNames(held: seq<File>, n: nat, gone: seq<string>)
    requires n <= |held|
    requires forall i :: 0 <= i < n ==> held[i].name !in gone
    requires forall i :: n <= i < |held| ==> held[i].name in gone
    ensures Filter(NotNamed(gone), held) == held[..n]
  {
    if held != [] {
      FilterNames(held[1..], if n == 0 then 0 else n - 1, gone);
    }
  }

  /** Pruning keeps the first `keep` by descending name, so nothing newer than what it
      keeps, and leaves archives of the other kind alone. */
  lemma PruneKeepsFirst(files: seq<File>, suffix: string, other: string, keep: nat)
    requires DistinctNames(files) && (suffix, other) in {(DAILY, WEEKLY), (WEEKLY, DAILY)}
    ensures DistinctNames(Pruned(files, suffix, keep))
    ensures Matching(Pruned(files, suffix, keep), suffix)
         == Matching(files, suffix)[..Least(keep, |Matching(files, suffix)|)]
    ensures Matching(Pruned(files, suffix, keep), other) == Matching(files, other)
  {
    PruneLeavesOther(files, suffix, other, keep);
    var held, doomed := Matching(files, suffix), Doomed(files, suffix, keep);
    var n := Least(keep, |held|);
    FilterDistinctNames(NotNamed(WithChecksums(doomed)), files);
    ListingWithout(files, WithChecksums(doomed));
    MatchingFacts(files, suffix);
    forall i | 0 <= i < |held| ensures held[i].name in WithChecksums(doomed) <==> n <= i {
      assert held[i] in held;
      SurvivesChecksums(doomed, held[i].name);
      if i < n {
        forall k | 0 <= k < |doomed| ensures doomed[k] != held[i].name {
          NamesDiffer(held, i, n + k);
        }
      } else {
        assert doomed[i - n] == held[i].name;
      }
    }
    FilterNames(held, n, WithChecksums(doomed));
  }

  lemma SurvivesChecksums(doomed: seq<string>, n: string)
    requires Globs(DAILY, n) || Globs(WEEKLY, n)
    ensures n in WithChecksums(doomed) <==> n in doomed
  {
    WithChecksumsMembers(doomed, n);
    if m :| m in doomed && n == ChecksumName(m) {
      ChecksumIsNoArchive(m);
    }
  }

  lemma PruneNewest(
    files: seq<File>, suffix: string, stamps: seq<Stamp>, m: nat,
    other: string, otherStamps: seq<Stamp>, k: nat, keep: nat)
    requires DistinctNames(files) && (suffix, other) in {(DAILY, WEEKLY), (WEEKLY, DAILY)}
    requires HoldsNewest(files, suffix, stamps, m) && HoldsNewest(files, other, otherStamps, k)
    ensures var after := Pruned(files, suffix, keep);
      && DistinctNames(after)
      && HoldsNewest(after, suffix, stamps, Least(m, keep))
      && HoldsNewest(after, other, otherStamps, k)
  {
    PruneKeepsFirst(files, suffix, other, keep);
  }

  /** One scheduled backup. */
  datatype Job = Job(stamp: Stamp, sunday: bool, mtime: Time, size: nat)

  ghost predicate Increasing(jobs: seq<Job>) {
    forall i, j :: 0 <= i < j < |jobs| ==> jobs[i].stamp < jobs[j].stamp
  }

  function StampsOf(jobs: seq<Job>): (s: seq<Stamp>)
    ensures |s| == |jobs| && forall i :: 0 <= i < |jobs| ==> s[i] == jobs[i].stamp
  {
    if jobs == [] then [] else StampsOf(jobs[..|jobs| - 1]) + [jobs[|jobs| - 1].stamp]
  }

  /** The backups made on Sundays. */
  function Sundays(jobs: seq<Job>): (s: seq<Job>)
    ensures forall x :: x in s ==> x in jobs
  {
    if jobs == [] then []
    else
      var last := jobs[|jobs| - 1];
      Sundays(jobs[..|jobs| - 1]) + if last.sunday then [last] else []
  }

  function SundaysOf(jobs: seq<Job>): (s: seq<Stamp>)
    ensures forall x :: x in s ==> exists i :: 0 <= i < |jobs| && jobs[i].stamp == x
  {
    assert forall i :: 0 <= i < |Sundays(jobs)| ==> Sundays(jobs)[i] in jobs;
    StampsOf(Sundays(jobs))
  }

  // ---------- archives and their checksums, and nothing else ----------

  /** `f` is the archive of this backup or its checksum. */
  predicate FileOf(f: File, suffix: string, job: Job) {
    f == ArchiveFile(suffix, job.stamp, job.mtime, job.size) || f == ChecksumFile(suffix, job.stamp, job.mtime)
  }

  /** `f` belongs to one of the last `m` backups. */
  ghost predicate KeptFor(f: File, suffix: string, jobs: seq<Job>, m: nat) {
    exists i :: 0 <= i < |jobs| && |jobs| - m <= i && FileOf(f, suffix, jobs[i])
  }

  /** Neither an archive nor the checksum of one. */
  ghost predicate Foreign(f: File) {
    forall stamp: Stamp, suffix | suffix in {DAILY, WEEKLY} ::
      f.name != ArchiveName(stamp, suffix) && f.name != ChecksumName(ArchiveName(stamp, suffix))
  }

  /** The directory holds `others`, the archives of the last backups of either kind, each
      with the modification time and size of its job, a checksum for each, nothing else. */
  ghost predicate Holds(
    files: seq<File>, others: seq<File>, suffix: string, jobs: seq<Job>, m: nat, other: string, otherJobs: seq<Job>, k: nat)
  {
    && (forall f :: f in others ==> Foreign(f))
    && forall f :: f in files <==> f in others || KeptFor(f, suffix, jobs, m) || KeptFor(f, other, otherJobs, k)
  }

  /** Names of different backups, and archives and checksums, never coincide. */
  lemma NamesApart(suffix: string, s: Stamp, suffix': string, t: Stamp)
    requires suffix in {DAILY, WEEKLY} && suffix' in {DAILY, WEEKLY}
    ensures ArchiveName(s, suffix) == ArchiveName(t, suffix') <==> s == t && suffix == suffix'
    ensures ChecksumName(ArchiveName(s, suffix)) == ChecksumName(ArchiveName(t, suffix')) <==> s == t && suffix == suffix'
    ensures ArchiveName(s, suffix) != ChecksumName(ArchiveName(t, suffix'))
  {
    ArchiveNameGlobs(s);
    ArchiveNameGlobs(t);
    ChecksumIsNoArchive(ArchiveName(t, suffix'));
    var a, b := ArchiveName(s, suffix), ArchiveName(t, suffix');
    assert ChecksumName(a)[..|ChecksumName(a)| - |SHA256|] == a && ChecksumName(b)[..|ChecksumName(b)| - |SHA256|] == b;
    if suffix == suffix' {
      StampOrder(s, t, suffix);
    }
  }

  lemma {:induction false} StoredFiles(files: seq<File>, f: File)
    ensures forall g :: g in Stored(files, f) <==> g == f || (g in files && g.name != f.name)
  {
    FilterMembers(NotNamed([f.name]), files);
  }

  /** Files of other backups, and foreign ones, keep clear of a backup's two names. */
  lemma OthersApart(f: File, suffix: string, job: Job, suffix': string, job': Job)
    requires suffix in {DAILY, WEEKLY} && suffix' in {DAILY, WEEKLY} && (suffix != suffix' || job.stamp != job'.stamp)
    requires FileOf(f, suffix', job')
    ensures f.name != ArchiveName(job.stamp, suffix) && f.name != ChecksumName(ArchiveName(job.stamp, suffix))
  {
    NamesApart(suffix, job.stamp, suffix', job'.stamp);
    NamesApart(suffix', job'.stamp, suffix, job.stamp);
  }

  lemma {:induction false} StoreHolds(
    files: seq<File>, others: seq<File>, suffix: string, jobs: seq<Job>, m: nat, job: Job,
    other: string, otherJobs: seq<Job>, k: nat)
    requires (suffix, other) in {(DAILY, WEEKLY), (WEEKLY, DAILY)} && Increasing(jobs + [job])
    requires Holds(files, others, suffix, jobs, m, other, otherJobs, k)
    ensures Holds(WithBackup(files, suffix, job.stamp, job.mtime, job.size), others,
                  suffix, jobs + [job], m + 1, other, otherJobs, k)
  {
    var archive, checksum := ArchiveFile(suffix, job.stamp, job.mtime, job.size), ChecksumFile(suffix, job.stamp, job.mtime);
    StoredFiles(files, archive);
    StoredFiles(Stored(files, archive), checksum);
    NamesApart(suffix, job.stamp, suffix, job.stamp);
    HeldApart(files, others, suffix, jobs, m, job, other, otherJobs, k);
    forall f ensures KeptFor(f, suffix, jobs + [job], m + 1) <==> KeptFor(f, suffix, jobs, m) || FileOf(f, suffix, job) {
      KeptOneMore(f, suffix, jobs, m, job);
    }
  }

  /** Nothing held bears one of the two names of a new backup. */
  lemma {:induction false} HeldApart(
    files: seq<File>, others: seq<File>, suffix: string, jobs: seq<Job>, m: nat, job: Job,
    other: string, otherJobs: seq<Job>, k: nat)
    requires (suffix, other) in {(DAILY, WEEKLY), (WEEKLY, DAILY)} && Increasing(jobs + [job])
    requires Holds(files, others, suffix, jobs, m, other, otherJobs, k)
    ensures forall f :: f in files ==>
      f.name != ArchiveName(job.stamp, suffix) && f.name != ChecksumName(ArchiveName(job.stamp, suffix))
  {
    Earlier(jobs, job);
    forall f | f in files
      ensures f.name != ArchiveName(job.stamp, suffix) && f.name != ChecksumName(ArchiveName(job.stamp, suffix))
    {
      if i :| 0 <= i < |jobs| && |jobs| - m <= i && FileOf(f, suffix, jobs[i]) {
        assert StampsOf(jobs)[i] < job.stamp;
        OthersApart(f, suffix, job, suffix, jobs[i]);
      } else if i :| 0 <= i < |otherJobs| && |otherJobs| - k <= i && FileOf(f, other, otherJobs[i]) {
        OthersApart(f, suffix, job, other, otherJobs[i]);
      }
    }
  }

  lemma KeptOneMore(f: File, suffix: string, jobs: seq<Job>, m: nat, job: Job)
    ensures KeptFor(f, suffix, jobs + [job], m + 1) <==> KeptFor(f, suffix, jobs, m) || FileOf(f, suffix, job)
  {
    var all := jobs + [job];
    if i :| 0 <= i < |jobs| && |jobs| - m <= i && FileOf(f, suffix, jobs[i]) {
      assert all[i] == jobs[i];
    }
    assert all[|jobs|] == job;
  }

  /** What pruning removes of what the directory holds. */
  lemma {:induction false} DoomedAre(files: seq<File>, suffix: string, stamps: seq<Stamp>, m: nat, keep: nat, n: string)
    requires HoldsNewest(files, suffix, stamps, m)
    ensures n in Doomed(files, suffix, keep) <==>
      exists i :: |stamps| - m <= i < |stamps| - Least(m, keep) && n == ArchiveName(stamps[i], suffix)
  {
    DoomedAt(files, suffix, stamps, m, keep);
    NamesFromTo(Doomed(files, suffix, keep), suffix, stamps, m, Least(m, keep), n);
  }

  /** Names in descending order of their stamps, the last of them `m` from the end. */
  lemma {:induction false} NamesFromTo(names: seq<string>, suffix: string, stamps: seq<Stamp>, m: nat, least: nat, n: string)
    requires least <= m <= |stamps| && |names| == m - least
    requires forall k :: 0 <= k < |names| ==> names[k] == ArchiveName(stamps[|stamps| - 1 - (least + k)], suffix)
    ensures n in names <==> exists i :: |stamps| - m <= i < |stamps| - least && n == ArchiveName(stamps[i], suffix)
  {
    if k :| 0 <= k < |names| && names[k] == n {
      assert n == ArchiveName(stamps[|stamps| - 1 - (least + k)], suffix);
    }
    if i :| |stamps| - m <= i < |stamps| - least && n == ArchiveName(stamps[i], suffix) {
      assert names[|stamps| - 1 - i - least] == n;
    }
  }

  lemma {:induction false} DoomedAt(files: seq<File>, suffix: string, stamps: seq<Stamp>, m: nat, keep: nat)
    requires HoldsNewest(files, suffix, stamps, m)
    ensures m <= |stamps| && |Doomed(files, suffix, keep)| == m - Least(m, keep)
    ensures forall k :: 0 <= k < m - Least(m, keep) ==>
      Doomed(files, suffix, keep)[k] == ArchiveName(stamps[|stamps| - 1 - (Least(m, keep) + k)], suffix)
  {
    var held := Matching(files, suffix);
    forall k | 0 <= k < m - Least(m, keep)
      ensures Doomed(files, suffix, keep)[k] == ArchiveName(stamps[|stamps| - 1 - (Least(m, keep) + k)], suffix)
    {
      assert held[Least(m, keep) + k].name == ArchiveName(stamps[|stamps| - 1 - (Least(m, keep) + k)], suffix);
    }
  }

  /** A file of one of the last backups goes exactly when its backup is not kept. */
  lemma {:induction false} PrunedFile(
    files: seq<File>, suffix: string, jobs: seq<Job>, m: nat, keep: nat, f: File, suffix': string, job: Job)
    requires HoldsNewest(files, suffix, StampsOf(jobs), m) && FileOf(f, suffix', job)
    requires suffix in {DAILY, WEEKLY} && suffix' in {DAILY, WEEKLY}
    ensures f.name in WithChecksums(Doomed(files, suffix, keep)) <==>
      suffix' == suffix && exists i :: |jobs| - m <= i < |jobs| - Least(m, keep) && jobs[i].stamp == job.stamp
  {
    var doomed, name := Doomed(files, suffix, keep), ArchiveName(job.stamp, suffix');
    WithChecksumsMembers(doomed, f.name);
    DoomedAre(files, suffix, StampsOf(jobs), m, keep, name);
    forall n | n in doomed ensures f.name == n || f.name == ChecksumName(n) <==> n == name {
      DoomedAre(files, suffix, StampsOf(jobs), m, keep, n);
      var i :| |jobs| - m <= i < |jobs| - Least(m, keep) && n == ArchiveName(StampsOf(jobs)[i], suffix);
      NamesApart(suffix', job.stamp, suffix, StampsOf(jobs)[i]);
      NamesApart(suffix, StampsOf(jobs)[i], suffix', job.stamp);
    }
    forall i | |jobs| - m <= i < |jobs| - Least(m, keep)
      ensures ArchiveName(StampsOf(jobs)[i], suffix) == name <==> suffix' == suffix && jobs[i].stamp == job.stamp
    {
      NamesApart(suffix, StampsOf(jobs)[i], suffix', job.stamp);
    }
  }

  lemma {:induction false} PruneHolds(
    files: seq<File>, others: seq<File>, suffix: string, jobs: seq<Job>, m: nat,
    other: string, otherJobs: seq<Job>, k: nat, keep: nat)
    requires (suffix, other) in {(DAILY, WEEKLY), (WEEKLY, DAILY)} && Increasing(jobs)
    requires HoldsNewest(files, suffix, StampsOf(jobs), m) && Holds(files, others, suffix, jobs, m, other, otherJobs, k)
    ensures Holds(Pruned(files, suffix, keep), others, suffix, jobs, Least(m, keep), other, otherJobs, k)
  {
    var gone := WithChecksums(Doomed(files, suffix, keep));
    FilterMembers(NotNamed(gone), files);
    forall f ensures f in Pruned(files, suffix, keep) <==>
      f in others || KeptFor(f, suffix, jobs, Least(m, keep)) || KeptFor(f, other, otherJobs, k)
    {
      if f in others {
        ForeignStays(files, suffix, jobs, m, keep, f);
      } else if i :| 0 <= i < |jobs| && |jobs| - m <= i && FileOf(f, suffix, jobs[i]) {
        PrunedFile(files, suffix, jobs, m, keep, f, suffix, jobs[i]);
        KeptOnce(f, suffix, jobs, i, Least(m, keep), other, otherJobs, k);
      } else if i :| 0 <= i < |otherJobs| && |otherJobs| - k <= i && FileOf(f, other, otherJobs[i]) {
        PrunedFile(files, suffix, jobs, m, keep, f, other, otherJobs[i]);
      }
    }
  }

  lemma {:induction false} ForeignStays(files: seq<File>, suffix: string, jobs: seq<Job>, m: nat, keep: nat, f: File)
    requires suffix in {DAILY, WEEKLY} && HoldsNewest(files, suffix, StampsOf(jobs), m) && Foreign(f)
    ensures f.name !in WithChecksums(Doomed(files, suffix, keep))
  {
    var doomed := Doomed(files, suffix, keep);
    WithChecksumsMembers(doomed, f.name);
    forall n | n in doomed ensures f.name != n && f.name != ChecksumName(n) {
      DoomedAre(files, suffix, StampsOf(jobs), m, keep, n);
    }
  }

  /** A file belongs to one backup only. */
  lemma KeptOnce(f: File, suffix: string, jobs: seq<Job>, i: int, m: nat, other: string, otherJobs: seq<Job>, k: nat)
    requires (suffix, other) in {(DAILY, WEEKLY), (WEEKLY, DAILY)} && Increasing(jobs)
    requires 0 <= i < |jobs| && FileOf(f, suffix, jobs[i])
    ensures KeptFor(f, suffix, jobs, m) <==> |jobs| - m <= i
    ensures !KeptFor(f, other, otherJobs, k)
  {
    forall j | 0 <= j < |jobs| && FileOf(f, suffix, jobs[j]) ensures j == i {
      if jobs[i].stamp != jobs[j].stamp {
        OthersApart(f, suffix, jobs[j], suffix, jobs[i]);
      }
    }
    forall j | 0 <= j < |otherJobs| ensures !FileOf(f, other, otherJobs[j]) {
      OthersApart(f, other, otherJobs[j], suffix, jobs[i]);
    }
  }

  /** The files are those of the backups, and the archives in order are the newest. */
  ghost predicate Orderly(
    files: seq<File>, others: seq<File>, suffix: string, jobs: seq<Job>, m: nat, other: string, otherJobs: seq<Job>, k: nat)
  {
    && DistinctNames(files) && Increasing(jobs) && Increasing(otherJobs)
    && HoldsNewest(files, suffix, StampsOf(jobs), m) && HoldsNewest(files, other, StampsOf(otherJobs), k)
    && Holds(files, others, suffix, jobs, m, other, otherJobs, k)
  }

  lemma OrderlySwap(
    files: seq<File>, others: seq<File>, suffix: string, jobs: seq<Job>, m: nat, other: string, otherJobs: seq<Job>, k: nat)
    requires Orderly(files, others, suffix, jobs, m, other, otherJobs, k)
    ensures Orderly(files, others, other, otherJobs, k, suffix, jobs, m)
  {
  }

  lemma {:induction false} StoresNewest(
    files: seq<File>, suffix: string, stamps: seq<Stamp>, m: nat, job: Job, other: string, otherStamps: seq<Stamp>, k: nat)
    requires DistinctNames(files) && (suffix, other) in {(DAILY, WEEKLY), (WEEKLY, DAILY)}
    requires Before(stamps, job.stamp)
    requires HoldsNewest(files, suffix, stamps, m) && HoldsNewest(files, other, otherStamps, k)
    ensures var after := WithBackup(files, suffix, job.stamp, job.mtime, job.size);
      && DistinctNames(after)
      && HoldsNewest(after, suffix, stamps + [job.stamp], m + 1) && HoldsNewest(after, other, otherStamps, k)
  {
    var archive, checksum := ArchiveFile(suffix, job.stamp, job.mtime, job.size), ChecksumFile(suffix, job.stamp, job.mtime);
    ArchiveNameGlobs(job.stamp);
    ChecksumIsNoArchive(archive.name);
    StoreNewest(files, suffix, stamps, m, job.stamp, archive);
    StoreOther(files, other, otherStamps, k, archive);
    StoreOther(Stored(files, archive), suffix, stamps + [job.stamp], m + 1, checksum);
    StoreOther(Stored(files, archive), other, otherStamps, k, checksum);
  }

  lemma {:induction false} StampsAppend(jobs: seq<Job>, job: Job)
    ensures StampsOf(jobs + [job]) == StampsOf(jobs) + [job.stamp]
  {
    assert (jobs + [job])[..|jobs|] == jobs;
  }

  lemma {:induction false} StoreOrderly(
    files: seq<File>, others: seq<File>, suffix: string, jobs: seq<Job>, m: nat, job: Job,
    other: string, otherJobs: seq<Job>, k: nat)
    requires (suffix, other) in {(DAILY, WEEKLY), (WEEKLY, DAILY)} && Increasing(jobs + [job])
    requires Orderly(files, others, suffix, jobs, m, other, otherJobs, k)
    ensures Orderly(WithBackup(files, suffix, job.stamp, job.mtime, job.size), others,
                    suffix, jobs + [job], m + 1, other, otherJobs, k)
  {
    Earlier(jobs, job);
    StampsAppend(jobs, job);
    StoresNewest(files, suffix, StampsOf(jobs), m, job, other, StampsOf(otherJobs), k);
    StoreHolds(files, others, suffix, jobs, m, job, other, otherJobs, k);
  }

  lemma {:induction false} PruneOrderly(
    files: seq<File>, others: seq<File>, suffix: string, jobs: seq<Job>, m: nat,
    other: string, otherJobs: seq<Job>, k: nat, keep: nat)
    requires (suffix, other) in {(DAILY, WEEKLY), (WEEKLY, DAILY)}
    requires Orderly(files, others, suffix, jobs, m, other, otherJobs, k)
    ensures Orderly(Pruned(files, suffix, keep), others, suffix, jobs, Least(m, keep), other, otherJobs, k)
  {
    PruneNewest(files, suffix, StampsOf(jobs), m, other, StampsOf(otherJobs), k, keep);
    PruneHolds(files, others, suffix, jobs, m, other, otherJobs, k, keep);
  }

  lemma {:induction false} Earlier(jobs: seq<Job>, job: Job)
    requires Increasing(jobs + [job])
    ensures Before(StampsOf(jobs), job.stamp) && Increasing(jobs)
  {
    var all := jobs + [job];
    forall i, j | 0 <= i < j < |jobs| ensures jobs[i].stamp < jobs[j].stamp {
      assert all[i].stamp < all[j].stamp;
    }
    forall i | 0 <= i < |jobs| ensures jobs[i].stamp < job.stamp {
      assert all[i].stamp < all[|jobs|].stamp;
    }
  }

  lemma {:induction false} BothPruned(
    files: seq<File>, others: seq<File>, jobs: seq<Job>, m: nat, sundays: seq<Job>, k: nat, dailyRetention: nat, weeklyRetention: nat)
    requires Orderly(files, others, DAILY, jobs, m, WEEKLY, sundays, k)
    ensures Orderly(Pruned(Pruned(files, DAILY, dailyRetention), WEEKLY, weeklyRetention), others,
                    DAILY, jobs, Least(m, dailyRetention), WEEKLY, sundays, Least(k, weeklyRetention))
  {
    var once := Pruned(files, DAILY, dailyRetention);
    var d, w := Least(m, dailyRetention), Least(k, weeklyRetention);
    PruneOrderly(files, others, DAILY, jobs, m, WEEKLY, sundays, k, dailyRetention);
    OrderlySwap(once, others, DAILY, jobs, d, WEEKLY, sundays, k);
    PruneOrderly(once, others, WEEKLY, sundays, k, DAILY, jobs, d, weeklyRetention);
    OrderlySwap(Pruned(once, WEEKLY, weeklyRetention), others, WEEKLY, sundays, w, DAILY, jobs, d);
  }

  /** What a directory of backups holds, either kind up to its retention. */
  ghost predicate HoldsBackups(
    files: seq<File>, others: seq<File>, jobs: seq<Job>, dailyRetention: nat, sundays: seq<Job>, weeklyRetention: nat)
  {
    Orderly(files, others, DAILY, jobs, Least(|jobs|, dailyRetention), WEEKLY, sundays, Least(|sundays|, weeklyRetention))
  }

  /** A backup leaves exactly the files of the backups to keep, archives and checksums, and
      whatever foreign files there were. */
  lemma {:induction false} BackupHolds(
    files: seq<File>, others: seq<File>, jobs: seq<Job>, sundays: seq<Job>, job: Job, dailyRetention: nat, weeklyRetention: nat)
    requires Increasing(jobs + [job]) && Increasing(sundays + [job])
    requires HoldsBackups(files, others, jobs, dailyRetention, sundays, weeklyRetention)
    ensures HoldsBackups(AfterBackup(files, job, dailyRetention, weeklyRetention), others, jobs + [job], dailyRetention,
                         if job.sunday then sundays + [job] else sundays, weeklyRetention)
  {
    var d, w := Least(|jobs|, dailyRetention), Least(|sundays|, weeklyRetention);
    var daily := WithBackup(files, DAILY, job.stamp, job.mtime, job.size);
    DailyStored(files, others, jobs, d, sundays, w, job);
    LeastOfMore(|jobs|, dailyRetention);
    LeastOfMore(|sundays|, weeklyRetention);
    if job.sunday {
      WeeklyStored(daily, others, jobs + [job], d + 1, sundays, w, job);
      BothPruned(WithBackup(daily, WEEKLY, job.stamp, job.mtime, job.size), others,
                 jobs + [job], d + 1, sundays + [job], w + 1, dailyRetention, weeklyRetention);
    } else {
      BothPruned(daily, others, jobs + [job], d + 1, sundays, w, dailyRetention, weeklyRetention);
    }
  }

  lemma LeastOfMore(n: nat, keep: nat)
    ensures Least(Least(n, keep) + 1, keep) == Least(n + 1, keep)
    ensures Least(Least(n, keep), keep) == Least(n, keep)
  {
  }

  lemma {:induction false} DailyStored(
    files: seq<File>, others: seq<File>, jobs: seq<Job>, m: nat, sundays: seq<Job>, k: nat, job: Job)
    requires Increasing(jobs + [job]) && Orderly(files, others, DAILY, jobs, m, WEEKLY, sundays, k)
    ensures Orderly(WithBackup(files, DAILY, job.stamp, job.mtime, job.size), others,
                    DAILY, jobs + [job], m + 1, WEEKLY, sundays, k)
  {
    StoreOrderly(files, others, DAILY, jobs, m, job, WEEKLY, sundays, k);
  }

  lemma {:induction false} WeeklyStored(
    files: seq<File>, others: seq<File>, jobs: seq<Job>, m: nat, sundays: seq<Job>, k: nat, job: Job)
    requires Increasing(sundays + [job]) && Orderly(files, others, DAILY, jobs, m, WEEKLY, sundays, k)
    ensures Orderly(WithBackup(files, WEEKLY, job.stamp, job.mtime, job.size), others,
                    DAILY, jobs, m, WEEKLY, sundays + [job], k + 1)
  {
    OrderlySwap(files, others, DAILY, jobs, m, WEEKLY, sundays, k);
    StoreOrderly(files, others, WEEKLY, sundays, k, job, DAILY, jobs, m);
    OrderlySwap(WithBackup(files, WEEKLY, job.stamp, job.mtime, job.size), others, WEEKLY, sundays + [job], k + 1, DAILY, jobs, m);
  }

  /** Whatever history of backups the files had, they have one more after `job`. */
  ghost predicate AddsBackup(before: seq<File>, after: seq<File>, job: Job, dailyRetention: nat, weeklyRetention: nat) {
    forall others, jobs, sundays ::
      HoldsBackups(before, others, jobs, dailyRetention, sundays, weeklyRetention)
      && Increasing(jobs + [job]) && Increasing(sundays + [job]) ==>
        HoldsBackups(after, others, jobs + [job], dailyRetention, if job.sunday then sundays + [job] else sundays, weeklyRetention)
  }

  lemma {:induction false} BackupAdds(files: seq<File>, job: Job, dailyRetention: nat, weeklyRetention: nat)
    ensures AddsBackup(files, AfterBackup(files, job, dailyRetention, weeklyRetention), job, dailyRetention, weeklyRetention)
  {
    forall others, jobs, sundays | HoldsBackups(files, others, jobs, dailyRetention, sundays, weeklyRetention)
      && Increasing(jobs + [job]) && Increasing(sundays + [job])
      ensures HoldsBackups(AfterBackup(files, job, dailyRetention, weeklyRetention), others, jobs + [job], dailyRetention,
                           if job.sunday then sundays + [job] else sundays, weeklyRetention)
    {
      BackupHolds(files, others, jobs, sundays, job, dailyRetention, weeklyRetention);
    }
  }

  /** Each archive has its checksum file, and each checksum file its archive. */
  lemma {:induction false} ChecksumsMatchArchives(
    files: seq<File>, others: seq<File>, jobs: seq<Job>, dailyRetention: nat, sundays: seq<Job>, weeklyRetention: nat)
    requires HoldsBackups(files, others, jobs, dailyRetention, sundays, weeklyRetention)
    ensures forall n | IsArchiveName(n) :: Has(files, n, Regular) <==> Has(files, ChecksumName(n), Regular)
  {
    forall n | IsArchiveName(n) ensures Has(files, n, Regular) <==> Has(files, ChecksumName(n), Regular) {
      ArchiveNameExactly(n);
      var s: Stamp, suffix :| suffix in {DAILY, WEEKLY} && n == ArchiveName(s, suffix);
      if f :| f in files && f.kind == Regular && (f.name == n || f.name == ChecksumName(n)) {
        assert !Foreign(f) && f !in others;
        if KeptFor(f, DAILY, jobs, Least(|jobs|, dailyRetention)) {
          BothFiles(files, f, DAILY, jobs, Least(|jobs|, dailyRetention), s, suffix);
        } else {
          BothFiles(files, f, WEEKLY, sundays, Least(|sundays|, weeklyRetention), s, suffix);
        }
      }
    }
  }

  lemma {:induction false} BothFiles(
    files: seq<File>, f: File, suffix: string, jobs: seq<Job>, m: nat, s: Stamp, suffix': string)
    requires suffix in {DAILY, WEEKLY} && suffix' in {DAILY, WEEKLY} && KeptFor(f, suffix, jobs, m)
    requires f.name == ArchiveName(s, suffix') || f.name == ChecksumName(ArchiveName(s, suffix'))
    requires forall g :: KeptFor(g, suffix, jobs, m) ==> g in files
    ensures Has(files, ArchiveName(s, suffix'), Regular) && Has(files, ChecksumName(ArchiveName(s, suffix')), Regular)
  {
    var i :| 0 <= i < |jobs| && |jobs| - m <= i && FileOf(f, suffix, jobs[i]);
    NamesApart(suffix, jobs[i].stamp, suffix', s);
    NamesApart(suffix', s, suffix, jobs[i].stamp);
    assert KeptFor(ArchiveFile(suffix, jobs[i].stamp, jobs[i].mtime, jobs[i].size), suffix, jobs, m);
    assert KeptFor(ChecksumFile(suffix, jobs[i].stamp, jobs[i].mtime), suffix, jobs, m);
  }

  /** From an empty directory, after any run of backups with increasing timestamps, the
      daily archives are exactly those of the newest backups up to the daily retention,
      and the weekly ones those of the newest Sundays up to the weekly retention; each has
      its checksum, and there is nothing else. */
  method RunBackups(directory: Directory, jobs: seq<Job>, dailyRetention: nat, weeklyRetention: nat)
    requires directory.files == [] && Increasing(jobs)
    modifies directory
    ensures Retains(directory.files, DAILY, StampsOf(jobs), dailyRetention)
    ensures Retains(directory.files, WEEKLY, SundaysOf(jobs), weeklyRetention)
    ensures HoldsBackups(directory.files, [], jobs, dailyRetention, Sundays(jobs), weeklyRetention)
  {
    for n := 0 to |jobs|
      invariant HoldsBackups(directory.files, [], jobs[..n], dailyRetention, Sundays(jobs[..n]), weeklyRetention)
    {
      NextJob(jobs, n);
      RunJob(directory, jobs[n], dailyRetention, weeklyRetention, jobs[..n], Sundays(jobs[..n]));
    }
    assert jobs[..|jobs|] == jobs;
    RetainsBoth(directory.files, [], jobs, dailyRetention, Sundays(jobs), weeklyRetention);
  }

  /** One backup after those of `done`. */
  method RunJob(
    directory: Directory, job: Job, dailyRetention: nat, weeklyRetention: nat, ghost done: seq<Job>, ghost sundays: seq<Job>)
    requires Increasing(done + [job]) && Increasing(sundays + [job])
    requires HoldsBackups(directory.files, [], done, dailyRetention, sundays, weeklyRetention)
    modifies directory
    ensures HoldsBackups(directory.files, [], done + [job], dailyRetention,
                         if job.sunday then sundays + [job] else sundays, weeklyRetention)
  {
    Earlier(done, job);
    Earlier(sundays, job);
    RetainsBoth(directory.files, [], done, dailyRetention, sundays, weeklyRetention);
    ghost var before := directory.files;
    directory.CreateBackup(job.stamp, job.sunday, job.mtime, job.size, dailyRetention, weeklyRetention,
                           StampsOf(done), StampsOf(sundays));
    BackupHolds(before, [], done, sundays, job, dailyRetention, weeklyRetention);
  }

  lemma {:induction false} RetainsBoth(
    files: seq<File>, others: seq<File>, jobs: seq<Job>, dailyRetention: nat, sundays: seq<Job>, weeklyRetention: nat)
    requires HoldsBackups(files, others, jobs, dailyRetention, sundays, weeklyRetention)
    ensures DistinctNames(files)
    ensures Retains(files, DAILY, StampsOf(jobs), dailyRetention) && Retains(files, WEEKLY, StampsOf(sundays), weeklyRetention)
  {
  }

  lemma {:induction false} NextJob(jobs: seq<Job>, n: nat)
    requires n < |jobs| && Increasing(jobs)
    ensures jobs[..n + 1] == jobs[..n] + [jobs[n]]
    ensures Increasing(jobs[..n] + [jobs[n]]) && Increasing(Sundays(jobs[..n]) + [jobs[n]])
    ensures Before(StampsOf(jobs[..n]), jobs[n].stamp) && Before(SundaysOf(jobs[..n]), jobs[n].stamp)
    ensures Sundays(jobs[..n + 1]) == if jobs[n].sunday then Sundays(jobs[..n]) + [jobs[n]] else Sundays(jobs[..n])
  {
    assert jobs[..n + 1] == jobs[..n] + [jobs[n]] && jobs[..n + 1][..n] == jobs[..n];
    SundaysIncrease(jobs[..n], jobs[n]);
    Earlier(jobs[..n], jobs[n]);
    Earlier(Sundays(jobs[..n]), jobs[n]);
  }

  lemma {:induction false} SundaysIncrease(jobs: seq<Job>, next: Job)
    requires Increasing(jobs + [next])
    ensures Increasing(Sundays(jobs) + [next])
  {
    Earlier(jobs, next);
    var s := Sundays(jobs);
    forall i | 0 <= i < |s| ensures s[i].stamp < next.stamp {
      assert s[i] in jobs;
      var k :| 0 <= k < |jobs| && jobs[k] == s[i];
      assert StampsOf(jobs)[k] < next.stamp;
    }
    if jobs != [] {
      var last := jobs[|jobs| - 1];
      assert jobs == jobs[..|jobs| - 1] + [last];
      SundaysIncrease(jobs[..|jobs| - 1], last);
      assert forall i, j :: 0 <= i < j < |s| ==> s[i].stamp < s[j].stamp by {
        Earlier(Sundays(jobs[..|jobs| - 1]), last);
        var r := Sundays(jobs[..|jobs| - 1]) + [last];
        forall i, j | 0 <= i < j < |s| ensures s[i].stamp < s[j].stamp {
          assert r[i].stamp < r[j].stamp;
        }
      }
    }
  }

  lemma {:induction false} WithChecksumsAppend(names: seq<string>, n: string)
    ensures WithChecksums(names + [n]) == WithChecksums(names) + [n, ChecksumName(n)]
  {
    if names == [] {
      assert names + [n] == [n];
    } else {
      WithChecksumsAppend(names[1..], n);
      assert (names + [n])[1..] == names[1..] + [n];
    }
  }

  lemma {:induction false} FilterNamesAppend(files: seq<File>, a: seq<string>, b: seq<string>)
    ensures Filter(NotNamed(b), Filter(NotNamed(a), files)) == Filter(NotNamed(a + b), files)
  {
    if files != [] {
      FilterNamesAppend(files[1..], a, b);
      if NotNamed(a)(files[0]) {
        assert ([files[0]] + Filter(NotNamed(a), files[1..]))[1..] == Filter(NotNamed(a), files[1..]);
      }
    }
  }

  lemma UnlinkPair(files: seq<File>, names: seq<string>, k: int)
    requires 0 <= k < |names|
    ensures Filter(NotNamed([ChecksumName(names[k])]), Filter(NotNamed([names[k]]), Filter(NotNamed(WithChecksums(names[..k])), files)))
         == Filter(NotNamed(WithChecksums(names[..k + 1])), files)
  {
    var done, n, c := WithChecksums(names[..k]), names[k], ChecksumName(names[k]);
    FilterNamesAppend(files, done, [n]);
    FilterNamesAppend(files, done + [n], [c]);
    assert names[..k + 1] == names[..k] + [n];
    WithChecksumsAppend(names[..k], n);
    assert done + [n] + [c] == done + [n, c];
  }

  lemma {:induction false} FilterKeepsAll(files: seq<File>, keep: File -> bool, keep': File -> bool)
    requires forall f :: f in files ==> keep(f) == keep'(f)
    ensures Filter(keep, files) == Filter(keep', files)
  {
    if files != [] {
      FilterKeepsAll(files[1..], keep, keep');
    }
  }

  /** After a successful deletion the listing is the old one without exactly the named
      archives, in the same order, and its latest archive is the same. */
  lemma DeletionKeepsListing(files: seq<File>, names: seq<string>)
    requires names != [] && forall n :: n in names ==> MayDelete(files, n)
    ensures var after := Filter(NotNamed(WithChecksums(names)), files);
      && Archives(after) == Filter(NotNamed(names), Archives(files))
      && Archives(files) != [] && Archives(after) != [] && Archives(after)[0] == Archives(files)[0]
  {
    ListingWithout(files, WithChecksums(names));
    var before := Archives(files);
    OrdersAreTotal();
    SortPermutes(NewestFirst, Filter(ListedBy(), files));
    FilterMembers(ListedBy(), files);
    SameMembers(before, Filter(ListedBy(), files));
    assert names[0] in names;
    var f :| f in files && f.name == names[0] && f.kind == Regular;
    assert f in before;
    forall g | g in before ensures NotNamed(WithChecksums(names))(g) == NotNamed(names)(g) {
      WithChecksumsMembers(names, g.name);
      if m :| m in names && g.name == ChecksumName(m) {
        ChecksumIsNoArchive(m);
        assert false;
      }
    }
    FilterKeepsAll(before, NotNamed(WithChecksums(names)), NotNamed(names));
    assert before[0].name !in names;
  }

  /** The listing is of every regular archive file, by modification time and then name, both
      descending; so nothing deleted is newer than the latest. */
  lemma ListedNewestFirst(files: seq<File>)
    ensures var listed := Archives(files);
      && multiset(listed) == multiset(Filter(ListedBy(), files))
      && (forall f :: f in listed <==> f in files && IsArchiveName(f.name) && f.kind == Regular)
      && (forall i, j :: 0 <= i < j < |listed| ==>
            && listed[j].mtime <= listed[i].mtime
            && (listed[j].mtime == listed[i].mtime ==> StringLeq(listed[j].name, listed[i].name)))
  {
    OrdersAreTotal();
    SortSorts(NewestFirst, Filter(ListedBy(), files));
    SortPermutes(NewestFirst, Filter(ListedBy(), files));
    FilterMembers(ListedBy(), files);
    SameMembers(Filter(ListedBy(), files), Archives(files));
  }
}
