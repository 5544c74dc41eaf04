/** The spool directory: quota cleanup and writes under the directory lock. */
module SpoolQuota {
  import opened Sorting

  const MAX_FILE_BYTES: nat := 10 * 1024 * 1024
  const MAX_DIR_BYTES: nat := 100 * 1024 * 1024
  const MAX_DIR_FILES: nat := 100
  const FILE_TTL: real := 86400.0

  datatype Kind = RegularFile | SymbolicLink | OtherKind

  /** A directory entry that matches the spool pattern; a stuck one cannot be removed. */
  datatype SpoolFile = SpoolFile(path: string, size: nat, mtime: real, kind: Kind, stuck: bool)

  function Size(files: seq<SpoolFile>): nat {
    if files == [] then 0 else files[0].size + Size(files[1..])
  }

  predicate Older(a: SpoolFile, b: SpoolFile) {
    a.mtime <= b.mtime
  }

  predicate Expired(f: SpoolFile, now: real, ttl: real) {
    now - f.mtime > ttl
  }

  /** The entries that the first phase leaves in place without counting them. */
  predicate LeftAlone(f: SpoolFile, now: real, ttl: real) {
    match f.kind
    case SymbolicLink => f.stuck
    case RegularFile => Expired(f, now, ttl) && f.stuck
    case OtherKind => true
  }

  /** The entries that count towards the quota. */
  predicate Counted(f: SpoolFile, now: real, ttl: real) {
    f.kind.RegularFile? && !Expired(f, now, ttl)
  }

  function LeftAloneAt(now: real, ttl: real): SpoolFile -> bool {
    f => LeftAlone(f, now, ttl)
  }

  function CountedAt(now: real, ttl: real): SpoolFile -> bool {
    f => Counted(f, now, ttl)
  }

  predicate IsRegular(f: SpoolFile) {
    f.kind.RegularFile?
  }

  function Select(files: seq<SpoolFile>, keep: SpoolFile -> bool): seq<SpoolFile> {
    if files == [] then [] else (if keep(files[0]) then [files[0]] else []) + Select(files[1..], keep)
  }

  /** The files of `sorted` that remain when files are removed from the front until both limits are met. */
  function Evict(sorted: seq<SpoolFile>, files: int, bytes: int, maxFiles: nat, maxBytes: nat): seq<SpoolFile> {
    if sorted == [] || (files <= maxFiles && bytes <= maxBytes) then sorted
    else if sorted[0].stuck then [sorted[0]] + Evict(sorted[1..], files, bytes, maxFiles, maxBytes)
    else Evict(sorted[1..], files - 1, bytes - sorted[0].size, maxFiles, maxBytes)
  }

  function OldestFirst(files: seq<SpoolFile>, now: real, ttl: real): seq<SpoolFile> {
    Sort(Older, Select(files, CountedAt(now, ttl)))
  }

  /** The directory after a cleanup. */
  function Clean(files: seq<SpoolFile>, now: real, maxFiles: nat, maxBytes: nat, ttl: real): seq<SpoolFile> {
    var sorted := OldestFirst(files, now, ttl);
    Select(files, LeftAloneAt(now, ttl)) + Evict(sorted, |sorted|, Size(sorted), maxFiles, maxBytes)
  }

  /* ---------- what eviction removes ---------- */

  predicate WithinLimits(files: seq<SpoolFile>, maxFiles: nat, maxBytes: nat) {
    |files| <= maxFiles && Size(files) <= maxBytes
  }

  /** When every file can be removed, exactly the shortest oldest-first prefix that meets both limits is removed. */
  lemma {:induction false} EvictsShortestPrefix(sorted: seq<SpoolFile>, maxFiles: nat, maxBytes: nat) returns (k: nat)
    requires forall i :: 0 <= i < |sorted| ==> !sorted[i].stuck
    ensures k <= |sorted| && Evict(sorted, |sorted|, Size(sorted), maxFiles, maxBytes) == sorted[k..]
    ensures WithinLimits(sorted[k..], maxFiles, maxBytes)
    ensures forall j :: 0 <= j < k ==> !WithinLimits(sorted[j..], maxFiles, maxBytes)
    decreases |sorted|
  {
    if sorted == [] || WithinLimits(sorted, maxFiles, maxBytes) {
      k := 0;
      assert sorted[0..] == sorted;
    } else {
      var m := EvictsShortestPrefix(sorted[1..], maxFiles, maxBytes);
      k := m + 1;
      assert sorted[k..] == sorted[1..][m..] && sorted[0..] == sorted;
      forall j | 0 <= j < k ensures !WithinLimits(sorted[j..], maxFiles, maxBytes) {
        if j > 0 { assert sorted[j..] == sorted[1..][j - 1..]; }
      }
    }
  }

  /** In general, as long as a limit is exceeded, only files that cannot be removed remain. */
  lemma {:induction false} EvictsAllItCan(sorted: seq<SpoolFile>, files: int, bytes: int, maxFiles: nat, maxBytes: nat)
    ensures var kept := Evict(sorted, files, bytes, maxFiles, maxBytes);
            var removed := |sorted| - |kept|;
            && 0 <= removed && Size(kept) <= Size(sorted)
            && ((files - removed <= maxFiles && bytes - (Size(sorted) - Size(kept)) <= maxBytes)
                || (forall f :: f in kept ==> f.stuck))
    decreases |sorted|
  {
    if sorted != [] && !(files <= maxFiles && bytes <= maxBytes) {
      if sorted[0].stuck {
        EvictsAllItCan(sorted[1..], files, bytes, maxFiles, maxBytes);
        var rest := Evict(sorted[1..], files, bytes, maxFiles, maxBytes);
        assert ([sorted[0]] + rest)[1..] == rest;
      } else {
        EvictsAllItCan(sorted[1..], files - 1, bytes - sorted[0].size, maxFiles, maxBytes);
      }
    }
  }

  /* ---------- bounds of the directory ---------- */

  function Regulars(files: seq<SpoolFile>): seq<SpoolFile> {
    Select(files, IsRegular)
  }

  lemma Regroup(h: seq<SpoolFile>, a: seq<SpoolFile>, b: seq<SpoolFile>)
    ensures h + (a + b) == h + a + b
  {
  }

  lemma {:induction false} SelectAppend(a: seq<SpoolFile>, b: seq<SpoolFile>, keep: SpoolFile -> bool)
    ensures Select(a + b, keep) == Select(a, keep) + Select(b, keep)
  {
    if a == [] {
      assert a + b == b;
    } else {
      assert (a + b)[0] == a[0] && (a + b)[1..] == a[1..] + b;
      SelectAppend(a[1..], b, keep);
      Regroup(if keep(a[0]) then [a[0]] else [], Select(a[1..], keep), Select(b, keep));
    }
  }

  lemma {:induction false} SelectMembers(a: seq<SpoolFile>, keep: SpoolFile -> bool)
    ensures forall f :: f in Select(a, keep) <==> f in a && keep(f)
  {
    if a != [] {
      SelectMembers(a[1..], keep);
      assert forall f :: f in a <==> f == a[0] || f in a[1..];
    }
  }

  lemma {:induction false} SelectNone(a: seq<SpoolFile>, keep: SpoolFile -> bool)
    requires forall f :: f in a ==> !keep(f)
    ensures Select(a, keep) == []
  {
    if a != [] { SelectNone(a[1..], keep); }
  }

  lemma {:induction false} SelectAll(a: seq<SpoolFile>, keep: SpoolFile -> bool)
    requires forall f :: f in a ==> keep(f)
    ensures Select(a, keep) == a
  {
    if a != [] {
      SelectAll(a[1..], keep);
      assert a == [a[0]] + a[1..];
    }
  }

  lemma OlderIsPreorder()
    ensures Preorder(Older)
  {
  }

  lemma SortedMembers(files: seq<SpoolFile>, now: real, ttl: real)
    ensures forall f :: f in OldestFirst(files, now, ttl) <==> f in files && Counted(f, now, ttl)
    ensures Sorted(Older, OldestFirst(files, now, ttl))
  {
    var chosen := Select(files, CountedAt(now, ttl));
    OlderIsPreorder();
    SortSorts(Older, chosen);
    SelectMembers(files, CountedAt(now, ttl));
    forall f ensures f in Sort(Older, chosen) <==> f in chosen {
      assert f in Sort(Older, chosen) <==> f in multiset(Sort(Older, chosen));
      assert f in chosen <==> f in multiset(chosen);
    }
  }

  /** A cleanup in which every removal succeeds leaves no link, no expired file, and regular files within
      both limits. */
  lemma CleanMeetsQuota(files: seq<SpoolFile>, now: real, maxFiles: nat, maxBytes: nat, ttl: real)
    requires forall f :: f in files ==> !f.stuck
    ensures var cleaned := Clean(files, now, maxFiles, maxBytes, ttl);
            && WithinLimits(Regulars(cleaned), maxFiles, maxBytes)
            && forall f :: f in cleaned ==>
                 f in files && f.kind != SymbolicLink && (f.kind.RegularFile? ==> !Expired(f, now, ttl))
  {
    var sorted := OldestFirst(files, now, ttl);
    SortedMembers(files, now, ttl);
    var k := EvictsShortestPrefix(sorted, maxFiles, maxBytes);
    SelectMembers(files, LeftAloneAt(now, ttl));
    forall f | f in sorted[k..] ensures f in sorted { }
    RegularsOf(Select(files, LeftAloneAt(now, ttl)), sorted[k..]);
  }

  lemma RegularsOf(left: seq<SpoolFile>, kept: seq<SpoolFile>)
    requires (forall f :: f in left ==> !f.kind.RegularFile?) && (forall f :: f in kept ==> f.kind.RegularFile?)
    ensures Regulars(left + kept) == kept
  {
    SelectAppend(left, kept, IsRegular);
    SelectNone(left, IsRegular);
    SelectAll(kept, IsRegular);
    assert [] + kept == kept;
  }

  /* ---------- the oldest files go first ---------- */

  ghost predicate OldestToNewest(files: seq<SpoolFile>) {
    forall i, j :: 0 <= i < j < |files| ==> files[i].mtime <= files[j].mtime
  }

  lemma {:induction false} EvictedAreOldest(
    sorted: seq<SpoolFile>, files: int, bytes: int, maxFiles: nat, maxBytes: nat, f: SpoolFile, g: SpoolFile)
    requires OldestToNewest(sorted) && f in sorted && !f.stuck && !g.stuck
    requires f !in Evict(sorted, files, bytes, maxFiles, maxBytes)
             && g in Evict(sorted, files, bytes, maxFiles, maxBytes)
    ensures g in sorted && f.mtime <= g.mtime
    decreases |sorted|
  {
    var rest := sorted[1..];
    if sorted[0].stuck {
      EvictedAreOldest(rest, files, bytes, maxFiles, maxBytes, f, g);
    } else if f == sorted[0] {
      EvictedWereThere(rest, files - 1, bytes - f.size, maxFiles, maxBytes);
    } else {
      EvictedAreOldest(rest, files - 1, bytes - sorted[0].size, maxFiles, maxBytes, f, g);
    }
  }

  lemma {:induction false} EvictedWereThere(
    sorted: seq<SpoolFile>, files: int, bytes: int, maxFiles: nat, maxBytes: nat)
    ensures forall g :: g in Evict(sorted, files, bytes, maxFiles, maxBytes) ==> g in sorted
    decreases |sorted|
  {
    if sorted != [] && !(files <= maxFiles && bytes <= maxBytes) {
      EvictedWereThere(sorted[1..], if sorted[0].stuck then files else files - 1,
                       if sorted[0].stuck then bytes else bytes - sorted[0].size, maxFiles, maxBytes);
    }
  }

  /** Whichever regular files of the directory cannot be removed: among those that can, a cleanup keeps no file that is
      older than one that it removes for the quota. */
  lemma OldestGoFirst(
    files: seq<SpoolFile>, now: real, maxFiles: nat, maxBytes: nat, ttl: real, f: SpoolFile, g: SpoolFile)
    requires f in files && f.kind == RegularFile && now - f.mtime <= ttl && !f.stuck
    requires g in files && g.kind == RegularFile && !g.stuck
    requires f !in Clean(files, now, maxFiles, maxBytes, ttl) && g in Clean(files, now, maxFiles, maxBytes, ttl)
    ensures f.mtime <= g.mtime
  {
    var sorted := OldestFirst(files, now, ttl);
    SortedMembers(files, now, ttl);
    SelectMembers(files, LeftAloneAt(now, ttl));
    assert forall i, j :: 0 <= i < j < |sorted| ==> Older(sorted[i], sorted[j]);
    EvictedAreOldest(sorted, |sorted|, Size(sorted), maxFiles, maxBytes, f, g);
  }

  /** Neither a file nor a link, or an expired file or a link that cannot be removed. */
  ghost predicate Stays(f: SpoolFile, now: real, ttl: real) {
    f.kind == OtherKind || (f.stuck && (f.kind == SymbolicLink || now - f.mtime > ttl))
  }

  lemma LeftStays(files: seq<SpoolFile>, now: real, ttl: real)
    ensures forall f :: f in Select(files, LeftAloneAt(now, ttl)) <==> f in files && Stays(f, now, ttl)
  {
    SelectMembers(files, LeftAloneAt(now, ttl));
  }

  /** The files that a cleanup removes for the quota, when they can be removed, are the oldest ones, and as few as meet
      both limits. */
  lemma FewestOldestGo(files: seq<SpoolFile>, now: real, maxFiles: nat, maxBytes: nat, ttl: real)
    returns (left: seq<SpoolFile>, counted: seq<SpoolFile>, k: nat)
    requires forall f :: f in files && f.kind == RegularFile && now - f.mtime <= ttl ==> !f.stuck
    ensures forall f :: f in counted <==> f in files && f.kind == RegularFile && now - f.mtime <= ttl
    ensures forall f :: f in left <==> f in files && Stays(f, now, ttl)
    ensures multiset(counted) <= multiset(files) && OldestToNewest(counted)
    ensures k <= |counted| && Clean(files, now, maxFiles, maxBytes, ttl) == left + counted[k..]
    ensures forall j :: 0 <= j <= k ==> (WithinLimits(counted[j..], maxFiles, maxBytes) <==> j == k)
  {
    left, counted := Select(files, LeftAloneAt(now, ttl)), OldestFirst(files, now, ttl);
    SortedMembers(files, now, ttl);
    LeftStays(files, now, ttl);
    CountedIsPart(files, now, ttl);
    forall i | 0 <= i < |counted| ensures !counted[i].stuck { assert counted[i] in counted; }
    assert forall i, j :: 0 <= i < j < |counted| ==> Older(counted[i], counted[j]);
    k := EvictsShortestPrefix(counted, maxFiles, maxBytes);
  }

  lemma CountedIsPart(files: seq<SpoolFile>, now: real, ttl: real)
    ensures multiset(OldestFirst(files, now, ttl)) <= multiset(files)
  {
    SelectIsPart(files, CountedAt(now, ttl));
    OlderIsPreorder();
    SortSorts(Older, Select(files, CountedAt(now, ttl)));
  }

  lemma {:induction false} SelectIsPart(a: seq<SpoolFile>, keep: SpoolFile -> bool)
    ensures multiset(Select(a, keep)) <= multiset(a)
  {
    if a != [] {
      SelectIsPart(a[1..], keep);
      assert a == [a[0]] + a[1..];
    }
  }

  /* ---------- writes ---------- */

  /** The bytes that are stored for a text: a longer one is cut so that it and the marker fill the limit. */
  function Payload(encoded: seq<int>, marker: seq<int>): (r: seq<int>)
    requires |marker| <= MAX_FILE_BYTES
    ensures |r| <= 10485760
    ensures |encoded| > 10485760 ==>
              |r| == 10485760 && exists k :: 0 <= k <= |encoded| && r == encoded[..k] + marker
    ensures |encoded| <= 10485760 ==> r == encoded
  {
    if |encoded| > MAX_FILE_BYTES then encoded[..MAX_FILE_BYTES - |marker|] + marker else encoded
  }

  /** A write under the lock: cleanup first, then a new file unless the path exists. */
  datatype Write = Write(path: string, size: nat, now: real)

  predicate Present(files: seq<SpoolFile>, path: string) {
    exists f :: f in files && f.path == path
  }

  function Written(files: seq<SpoolFile>, w: Write): seq<SpoolFile> {
    var cleaned := Clean(files, w.now, MAX_DIR_FILES, MAX_DIR_BYTES, FILE_TTL);
    if Present(cleaned, w.path) then cleaned
    else cleaned + [SpoolFile(w.path, w.size, w.now, RegularFile, false)]
  }

  function WriteAll(files: seq<SpoolFile>, ws: seq<Write>): seq<SpoolFile>
    decreases |ws|
  {
    if ws == [] then files else WriteAll(Written(files, ws[0]), ws[1..])
  }

  lemma {:induction false} SizeAppend(a: seq<SpoolFile>, b: seq<SpoolFile>)
    ensures Size(a + b) == Size(a) + Size(b)
  {
    if a == [] {
      assert a + b == b;
    } else {
      assert (a + b)[1..] == a[1..] + b;
      SizeAppend(a[1..], b);
    }
  }

  /** At most 101 regular files and 110 MB, with the path that was written and no file of more than a day. */
  ghost predicate HoldsRecent(files: seq<SpoolFile>, w: Write) {
    && WithinLimits(Regulars(files), 101, 110 * 1024 * 1024)
    && (exists f :: f in files && f.path == w.path)
    && forall f :: f in files && f.kind == RegularFile ==> w.now - f.mtime <= 86400.0
  }

  ghost predicate Removable(files: seq<SpoolFile>) {
    forall f :: f in files ==> !f.stuck
  }

  lemma WrittenIsBounded(files: seq<SpoolFile>, w: Write)
    requires Removable(files) && w.size <= MAX_FILE_BYTES
    ensures Removable(Written(files, w)) && HoldsRecent(Written(files, w), w)
  {
    CleanMeetsQuota(files, w.now, MAX_DIR_FILES, MAX_DIR_BYTES, FILE_TTL);
    var cleaned := Clean(files, w.now, MAX_DIR_FILES, MAX_DIR_BYTES, FILE_TTL);
    if !Present(cleaned, w.path) {
      var n := SpoolFile(w.path, w.size, w.now, RegularFile, false);
      SelectAppend(cleaned, [n], IsRegular);
      SelectAll([n], IsRegular);
      SizeAppend(Regulars(cleaned), [n]);
      assert Size([n]) == n.size + Size([]);
      assert n in Written(files, w);
    }
  }

  lemma {:induction false} InsertSize(x: SpoolFile, s: seq<SpoolFile>)
    ensures Size(Insert(Older, x, s)) == x.size + Size(s) && |Insert(Older, x, s)| == 1 + |s|
  {
    if s != [] && !Older(x, s[0]) {
      InsertSize(x, s[1..]);
      assert Insert(Older, x, s)[1..] == Insert(Older, x, s[1..]);
    } else {
      assert ([x] + s)[1..] == s;
    }
  }

  lemma {:induction false} SortSize(s: seq<SpoolFile>)
    ensures Size(Sort(Older, s)) == Size(s) && |Sort(Older, s)| == |s|
  {
    if s != [] {
      SortSize(s[1..]);
      InsertSize(s[0], Sort(Older, s[1..]));
    }
  }

  lemma {:induction false} SelectAlike(files: seq<SpoolFile>, p: SpoolFile -> bool, q: SpoolFile -> bool)
    requires forall f :: f in files ==> p(f) == q(f)
    ensures Select(files, p) == Select(files, q)
  {
    if files != [] { SelectAlike(files[1..], p, q); }
  }

  /** A write removes no regular file of at most a day from a directory of at most 100 files and 100 MB. */
  lemma WriteSpares(files: seq<SpoolFile>, w: Write, f: SpoolFile)
    requires WithinLimits(Regulars(files), 100, 100 * 1024 * 1024)
    requires forall g :: g in files && g.kind == RegularFile ==> w.now - g.mtime <= 86400.0
    requires f in files && f.kind == RegularFile
    ensures f in Written(files, w)
  {
    SelectAlike(files, CountedAt(w.now, FILE_TTL), IsRegular);
    SortSize(Regulars(files));
    SortedMembers(files, w.now, FILE_TTL);
    assert f in OldestFirst(files, w.now, FILE_TTL);
  }

  /** Whatever the directory held at first, after every write of every run of writes it holds the path that was written,
      at most 101 regular spool files and 110 MB, and no regular file of more than a day. */
  lemma {:induction false} DirectoryStaysBounded(files: seq<SpoolFile>, ws: seq<Write>)
    requires ws != [] && Removable(files) && forall w :: w in ws ==> w.size <= MAX_FILE_BYTES
    ensures HoldsRecent(WriteAll(files, ws), ws[|ws| - 1])
    decreases |ws|
  {
    var next, rest := Written(files, ws[0]), ws[1..];
    WrittenIsBounded(files, ws[0]);
    if rest == [] {
      assert WriteAll(next, rest) == next;
    } else {
      DirectoryStaysBounded(next, rest);
      assert rest[|rest| - 1] == ws[|ws| - 1];
    }
  }

  class SpoolDirectory {
    var files: seq<SpoolFile>

    constructor (files: seq<SpoolFile>)
      ensures this.files == files
    {
      this.files := files;
    }

    /** Sorts the entries into those left alone and those that count. */
    method Scan(now: real, ttl: real) returns (left: seq<SpoolFile>, entries: seq<SpoolFile>)
      ensures left == Select(files, LeftAloneAt(now, ttl)) && entries == Select(files, CountedAt(now, ttl))
    {
      left, entries := [], [];
      for i := 0 to |files|
        invariant left == Select(files[..i], LeftAloneAt(now, ttl))
        invariant entries == Select(files[..i], CountedAt(now, ttl))
      {
        var f := files[i];
        assert files[..i + 1] == files[..i] + [f];
        SelectAppend(files[..i], [f], LeftAloneAt(now, ttl));
        SelectAppend(files[..i], [f], CountedAt(now, ttl));
        assert [f][1..] == [];
        if f.kind.SymbolicLink? {
          if f.stuck { left := left + [f]; }
        } else if f.kind.RegularFile? {
          if now - f.mtime > ttl {
            if f.stuck { left := left + [f]; }
          } else {
            entries := entries + [f];
          }
        } else {
          left := left + [f];
        }
      }
      assert files[..|files|] == files;
    }

    /** Removes entries from the front until both limits are met. */
    method RemoveOldest(entries: seq<SpoolFile>, maxFiles: nat, maxBytes: nat) returns (kept: seq<SpoolFile>)
      ensures kept == Evict(entries, |entries|, Size(entries), maxFiles, maxBytes)
    {
      var totalBytes, totalFiles: int := Size(entries), |entries|;
      kept := [];
      var i := 0;
      while i < |entries| && !(totalFiles <= maxFiles && totalBytes <= maxBytes)
        invariant 0 <= i <= |entries|
        invariant kept + Evict(entries[i..], totalFiles, totalBytes, maxFiles, maxBytes)
                  == Evict(entries, |entries|, Size(entries), maxFiles, maxBytes)
      {
        var f := entries[i];
        assert entries[i..][0] == f && entries[i..][1..] == entries[i + 1..];
        if f.stuck {
          assert kept + ([f] + Evict(entries[i + 1..], totalFiles, totalBytes, maxFiles, maxBytes))
              == kept + [f] + Evict(entries[i + 1..], totalFiles, totalBytes, maxFiles, maxBytes);
          kept := kept + [f];
        } else {
          totalFiles := totalFiles - 1;
          totalBytes := totalBytes - f.size;
        }
        i := i + 1;
      }
      kept := kept + entries[i..];
    }

    method CleanQuota(now: real, maxFiles: nat, maxBytes: nat, ttl: real)
      modifies this
      ensures files == Clean(old(files), now, maxFiles, maxBytes, ttl)
    {
      var left, entries := Scan(now, ttl);
      entries := Sort(Older, entries);
      var kept := RemoveOldest(entries, maxFiles, maxBytes);
      files := left + kept;
    }
  }
}
