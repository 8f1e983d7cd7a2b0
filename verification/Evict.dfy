/** cache::evict and evict_subdir: in each of at most 256 subdirectories the least recently used
    objects are removed until the subdirectory is small enough. */
module Evict {
  import opened Sums

  /** A file as the scan of the subdirectory saw it. */
  datatype Item = Item(name: string, size: nat, mtime: int)

  /** The subdirectory's listing by modification time. */
  ghost predicate ListingOk(scan: seq<Item>) {
    && (forall i, j :: 0 <= i < j < |scan| ==> scan[i].name != scan[j].name)
    && (forall i, j :: 0 <= i < j < |scan| ==> scan[i].mtime <= scan[j].mtime)
  }

  ghost predicate Listed(scan: seq<Item>, name: string) { exists i :: 0 <= i < |scan| && scan[i].name == name }

  /** The size of the listed files with these names. */
  function SizeOf(scan: seq<Item>, names: set<string>): nat {
    if scan == [] then 0 else (if scan[0].name in names then scan[0].size else 0) + SizeOf(scan[1..], names)
  }

  function AllNames(scan: seq<Item>): set<string> { set i | 0 <= i < |scan| :: scan[i].name }

  lemma {:induction false} SizeUpTo(scan: seq<Item>, a: set<string>, b: set<string>)
    requires forall i :: 0 <= i < |scan| && scan[i].name in a ==> scan[i].name in b
    ensures SizeOf(scan, a) <= SizeOf(scan, b)
  {
    if scan != [] { SizeUpTo(scan[1..], a, b); }
  }

  lemma {:induction false} SizeSame(scan: seq<Item>, a: set<string>, b: set<string>)
    requires forall i :: 0 <= i < |scan| ==> (scan[i].name in a <==> scan[i].name in b)
    ensures SizeOf(scan, a) == SizeOf(scan, b)
  {
    if scan != [] { SizeSame(scan[1..], a, b); }
  }

  /** Taking a file away takes its size away. */
  lemma {:induction false} SizeWithout(scan: seq<Item>, names: set<string>, k: nat)
    requires (forall i, j :: 0 <= i < j < |scan| ==> scan[i].name != scan[j].name) && k < |scan|
    requires scan[k].name in names
    ensures SizeOf(scan, names) == SizeOf(scan, names - {scan[k].name}) + scan[k].size
  {
    if k == 0 {
      SizeSame(scan[1..], names, names - {scan[0].name});
    } else {
      SizeWithout(scan[1..], names, k - 1);
    }
  }

  /** Used within the retention period. */
  predicate Recent(mtime: int, retention: int, now: int) { mtime + retention > now }

  /** File k of the listing was removed, and none after it. */
  ghost predicate LastRemoved(scan: seq<Item>, was: map<string, int>, files: map<string, int>, k: int) {
    && 0 <= k < |scan| && scan[k].name in was && scan[k].name !in files
    && forall j :: k < j < |scan| && scan[j].name in was ==> scan[j].name in files
  }

  /** The size that the program counts: that of the listed files without the ones it removed.  Files that
      have vanished otherwise are still counted. */
  function Counted(scan: seq<Item>, was: map<string, int>, files: map<string, int>): nat {
    SizeOf(scan, AllNames(scan) - (was.Keys - files.Keys))
  }

  /** What eviction may make of the files of a subdirectory. */
  ghost predicate Evicted(scan: seq<Item>, was: map<string, int>, files: map<string, int>, slice: nat, retention: int,
                          now: int) {
    // nothing else changes, and nothing goes that was used within the retention period
    && (forall n :: n in files ==> n in was && files[n] == was[n])
    && (forall n :: n in was && n !in files ==> was[n] + retention <= now)
    // small enough, or only recent files are left
    && (Counted(scan, was, files) < slice || forall n :: n in files ==> files[n] + retention > now)
    // the oldest go first
    && (forall i, j :: 0 <= i < j < |scan| && scan[j].name in was && scan[j].name !in files && scan[i].name in files ==>
          files[scan[i].name] + retention > now)
    // the last removal was needed
    && (was != files ==>
          exists k :: LastRemoved(scan, was, files, k) && Counted(scan, was, files) + scan[k].size >= slice)
  }

  /** Where all listed files together are small enough nothing goes. */
  lemma SmallStays(scan: seq<Item>, was: map<string, int>, files: map<string, int>, slice: nat, retention: int,
                   now: int)
    requires ListingOk(scan) && Evicted(scan, was, files, slice, retention, now)
    requires SizeOf(scan, AllNames(scan)) < slice
    ensures files == was
  {
    hide SizeOf;
    if was != files {
      var k :| LastRemoved(scan, was, files, k) && Counted(scan, was, files) + scan[k].size >= slice;
      var names := AllNames(scan) - (was.Keys - files.Keys);
      SizeWithout(scan, names + {scan[k].name}, k);
      assert names + {scan[k].name} - {scan[k].name} == names;
      SizeUpTo(scan, names + {scan[k].name}, AllNames(scan));
    }
  }

  /** One of the subdirectories of the object directory: what files it has now, and when they were
      used last. */
  class Subdir {
    var files: map<string, int>

    constructor (files: map<string, int>)
      ensures this.files == files
    {
      this.files := files;
    }

    /** evict_subdir.  Files may have been used or removed since the scan. */
    method Evict(scan: seq<Item>, slice: nat, retention: int, now: int)
      requires ListingOk(scan) && forall n :: n in files ==> Listed(scan, n)
      modifies this
      ensures Evicted(scan, old(files), files, slice, retention, now)
    {
      hide SizeOf, AllNames, Recent, LastRemoved, Progress, ListingOk, Listed;
      ghost var was := files;
      var size := 0;
      SizeStart(scan);
      for i := 0 to |scan|
        invariant files == was && size == SizeOf(scan[..i], AllNames(scan))
      {
        SizeMore(scan, i);
        size := size + scan[i].size;
      }
      assert scan[..|scan|] == scan && AllNames(scan) - (was.Keys - files.Keys) == AllNames(scan);
      ghost var last := -1;
      var i := 0;
      NothingRemoved(scan, files, retention, now);
      while i < |scan|
        invariant 0 <= i <= |scan| && size == Counted(scan, was, files)
        invariant Progress(scan, was, files, i, last, retention, now)
        invariant -1 <= last < |scan| && (last >= 0 ==> size + scan[last].size >= slice)
      {
        if size < slice { break; }
        var name := scan[i].name;
        if name in files && !Recent(files[name], retention, now) {
          RemoveNext(scan, was, files, i, last, retention, now);
          StillKnown(scan, was, files, i, last, retention, now);
          Removed(scan, was, files, i);
          files := files - {name};
          size := size - scan[i].size;
          last := i;
        } else {
          KeepNext(scan, was, files, i, last, retention, now);
        }
        i := i + 1;
      }
      Outcome(scan, was, files, i, last, slice, retention, now);
    }
  }

  /** The first i files of the listing have been looked at; the last one removed is number `last`. */
  ghost predicate Progress(scan: seq<Item>, was: map<string, int>, files: map<string, int>, i: int, last: int,
                           retention: int, now: int) {
    && -1 <= last < i <= |scan|
    && (forall n :: n in files ==> n in was && files[n] == was[n])
    && (forall n :: n in was && n !in files ==> !Recent(was[n], retention, now))
    && (forall j :: 0 <= j < i && scan[j].name in files ==> Recent(files[scan[j].name], retention, now))
    && (forall j :: i <= j < |scan| && scan[j].name in was ==> scan[j].name in files)
    && if last == -1 then files == was else LastRemoved(scan, was, files, last)
  }

  lemma StillKnown(scan: seq<Item>, was: map<string, int>, files: map<string, int>, i: int, last: int, retention: int,
                   now: int)
    requires Progress(scan, was, files, i, last, retention, now)
    ensures forall n :: n in files ==> n in was
  {}

  lemma NothingRemoved(scan: seq<Item>, files: map<string, int>, retention: int, now: int)
    ensures Progress(scan, files, files, 0, -1, retention, now)
  {}

  lemma KeepNext(scan: seq<Item>, was: map<string, int>, files: map<string, int>, i: nat, last: int, retention: int,
                 now: int)
    requires i < |scan| && Progress(scan, was, files, i, last, retention, now)
    requires scan[i].name in files ==> Recent(files[scan[i].name], retention, now)
    ensures Progress(scan, was, files, i + 1, last, retention, now)
  {
    hide Recent, LastRemoved;
  }

  lemma RemoveNext(scan: seq<Item>, was: map<string, int>, files: map<string, int>, i: nat, last: int, retention: int,
                   now: int)
    requires ListingOk(scan) && i < |scan| && Progress(scan, was, files, i, last, retention, now)
    requires scan[i].name in files && !Recent(files[scan[i].name], retention, now)
    ensures Progress(scan, was, files - {scan[i].name}, i + 1, i, retention, now)
  {
    hide Recent, LastRemoved, ListingOk;
    var rest := files - {scan[i].name};
    OtherNames(scan, i);
    assert forall n :: n in rest ==> n in files && n != scan[i].name && rest[n] == files[n];
    assert forall n :: n in files && n != scan[i].name ==> n in rest;
    NowLast(scan, was, rest, i);
  }

  lemma OtherNames(scan: seq<Item>, i: nat)
    requires ListingOk(scan) && i < |scan|
    ensures forall j :: 0 <= j < |scan| && j != i ==> scan[j].name != scan[i].name
  {}

  /** What the loop has done when it ends. */
  lemma Outcome(scan: seq<Item>, was: map<string, int>, files: map<string, int>, i: nat, last: int, slice: nat,
                retention: int, now: int)
    requires (forall n :: n in was ==> Listed(scan, n)) && Progress(scan, was, files, i, last, retention, now)
    requires i == |scan| || Counted(scan, was, files) < slice
    requires last >= 0 ==> last < |scan| && Counted(scan, was, files) + scan[last].size >= slice
    ensures Evicted(scan, was, files, slice, retention, now)
  {
    hide Counted;
    WhatIsLeft(scan, was, files, i, last, retention, now);
    hide LastRemoved, Progress, Listed;
    assert forall m :: Recent(m, retention, now) <==> m + retention > now;
  }

  lemma WhatIsLeft(scan: seq<Item>, was: map<string, int>, files: map<string, int>, i: nat, last: int, retention: int,
                   now: int)
    requires (forall n :: n in was ==> Listed(scan, n)) && Progress(scan, was, files, i, last, retention, now)
    ensures forall n :: n in files ==> n in was && files[n] == was[n]
    ensures forall n :: n in was && n !in files ==> !Recent(was[n], retention, now)
    ensures i == |scan| ==> forall n :: n in files ==> Recent(files[n], retention, now)
    ensures forall k, j :: 0 <= k < j < |scan| && scan[j].name in was && scan[j].name !in files && scan[k].name in files
              ==> Recent(files[scan[k].name], retention, now)
    ensures was != files ==> last >= 0 && LastRemoved(scan, was, files, last)
  {
    hide Recent, LastRemoved;
    if i == |scan| {
      forall n | n in files ensures Recent(files[n], retention, now) {
        assert Listed(scan, n);
        var j :| 0 <= j < |scan| && scan[j].name == n;
      }
    }
  }

  lemma NowLast(scan: seq<Item>, was: map<string, int>, files: map<string, int>, i: nat)
    requires ListingOk(scan) && i < |scan| && scan[i].name in was && scan[i].name !in files
    requires forall j :: i < j < |scan| && scan[j].name in was ==> scan[j].name in files
    ensures LastRemoved(scan, was, files, i)
  {}

  lemma SizeStart(scan: seq<Item>)
    ensures scan[..0] == [] && SizeOf([], AllNames(scan)) == 0
  {}

  lemma SizeMore(scan: seq<Item>, i: nat)
    requires i < |scan|
    ensures SizeOf(scan[..i + 1], AllNames(scan)) == SizeOf(scan[..i], AllNames(scan)) + scan[i].size
  {
    SizeNext(scan, AllNames(scan), i);
  }

  lemma {:induction false} SizeNext(scan: seq<Item>, names: set<string>, i: nat)
    requires i < |scan| && scan[i].name in names
    ensures SizeOf(scan[..i + 1], names) == SizeOf(scan[..i], names) + scan[i].size
    decreases i
  {
    if i > 0 {
      SizeNext(scan[1..], names, i - 1);
      assert scan[..i + 1][1..] == scan[1..][..i] && scan[..i][1..] == scan[1..][..i - 1];
    } else {
      assert scan[..1] == [scan[0]] && scan[..1][1..] == [] && scan[..0] == [];
    }
  }

  /** Removing a file takes its size off the count. */
  lemma Removed(scan: seq<Item>, was: map<string, int>, files: map<string, int>, i: nat)
    requires ListingOk(scan) && i < |scan| && scan[i].name in files && (forall n :: n in files ==> n in was)
    ensures SizeOf(scan, AllNames(scan) - (was.Keys - files.Keys))
         == SizeOf(scan, AllNames(scan) - (was.Keys - (files - {scan[i].name}).Keys)) + scan[i].size
  {
    var names := AllNames(scan) - (was.Keys - files.Keys);
    var rest := AllNames(scan) - (was.Keys - (files - {scan[i].name}).Keys);
    SizeWithout(scan, names, i);
    assert rest == names - {scan[i].name};
  }

  // ---------------------------------------------------------------- the whole cache

  /** Any number of subdirectories that are each small or hold recent files only. */
  lemma {:induction false} TotalBound(left: seq<nat>, recent: seq<nat>, slice: nat)
    requires |left| == |recent| && forall i :: 0 <= i < |left| ==> left[i] < slice || left[i] <= recent[i]
    ensures Sum(left) <= |left| * slice + Sum(recent)
  {
    if left != [] {
      TotalBound(left[1..], recent[1..], slice);
      assert |left| * slice == slice + |left[1..]| * slice;
    }
  }

  function RecentNames(files: map<string, int>, retention: int, now: int): set<string> {
    set n | n in files && files[n] + retention > now
  }

  /** The sizes of what the subdirectories hold. */
  function Sizes(dirs: seq<Subdir>, scans: seq<seq<Item>>): (s: seq<nat>)
    requires |dirs| == |scans|
    reads set d | d in dirs
    ensures |s| == |dirs| && forall i :: 0 <= i < |dirs| ==> s[i] == SizeOf(scans[i], dirs[i].files.Keys)
  {
    if dirs == [] then [] else [SizeOf(scans[0], dirs[0].files.Keys)] + Sizes(dirs[1..], scans[1..])
  }

  function RecentSizes(dirs: seq<Subdir>, scans: seq<seq<Item>>, retention: int, now: int): (s: seq<nat>)
    requires |dirs| == |scans|
    reads set d | d in dirs
    ensures |s| == |dirs|
    ensures forall i :: 0 <= i < |dirs| ==> s[i] == SizeOf(scans[i], RecentNames(dirs[i].files, retention, now))
  {
    if dirs == [] then []
    else
      var first := SizeOf(scans[0], RecentNames(dirs[0].files, retention, now));
      [first] + RecentSizes(dirs[1..], scans[1..], retention, now)
  }

  lemma AfterEvict(d: Subdir, scan: seq<Item>, was: map<string, int>, slice: nat, retention: int, now: int)
    requires forall n :: n in was ==> Listed(scan, n)
    requires Evicted(scan, was, d.files, slice, retention, now)
    ensures var left := SizeOf(scan, d.files.Keys);
            left < slice || left <= SizeOf(scan, RecentNames(d.files, retention, now))
  {
    SizeUpTo(scan, d.files.Keys, AllNames(scan) - (was.Keys - d.files.Keys));
    if forall n :: n in d.files ==> Recent(d.files[n], retention, now) {
      SizeUpTo(scan, d.files.Keys, RecentNames(d.files, retention, now));
    }
  }

  /** evict: the subdirectories are named by the first two hexadecimal digits, so there are at most 256
      of them, and each gets the 256th part of the limit.  Afterwards the whole cache is within the
      limit, but for what has been used recently. */
  method Evict(dirs: seq<Subdir>, scans: seq<seq<Item>>, maxSize: nat, retention: int, now: int)
    requires |dirs| == |scans| <= 256 && forall i, j :: 0 <= i < j < |dirs| ==> dirs[i] != dirs[j]
    requires forall i :: 0 <= i < |dirs| ==> ListingOk(scans[i]) && forall n :: n in dirs[i].files ==>
               Listed(scans[i], n)
    modifies set d | d in dirs
    ensures Sum(Sizes(dirs, scans)) <= maxSize + Sum(RecentSizes(dirs, scans, retention, now))
    ensures forall i :: 0 <= i < |dirs| ==>
              Evicted(scans[i], old(dirs[i].files), dirs[i].files, maxSize / 256, retention, now)
    ensures forall i :: 0 <= i < |dirs| && 256 * (SizeOf(scans[i], AllNames(scans[i])) + 1) <= maxSize ==>
              dirs[i].files == old(dirs[i].files)
  {
    hide *;
    var slice := maxSize / 256;
    for i := 0 to |dirs|
      invariant forall j :: i <= j < |dirs| ==> dirs[j].files == old(dirs[j].files)
      invariant forall j :: 0 <= j < i ==>
                  Evicted(scans[j], old(dirs[j].files), dirs[j].files, maxSize / 256, retention, now)
      invariant forall j :: 0 <= j < i ==> var left := SizeOf(scans[j], dirs[j].files.Keys);
                  left < slice || left <= SizeOf(scans[j], RecentNames(dirs[j].files, retention, now))
    {
      ghost var was := dirs[i].files;
      dirs[i].Evict(scans[i], slice, retention, now);
      AfterEvict(dirs[i], scans[i], was, slice, retention, now);
    }
    TotalBound(Sizes(dirs, scans), RecentSizes(dirs, scans, retention, now), slice);
    Shares(|dirs|, maxSize);
    forall i | 0 <= i < |dirs| && 256 * (SizeOf(scans[i], AllNames(scans[i])) + 1) <= maxSize
      ensures dirs[i].files == old(dirs[i].files)
    {
      SmallStays(scans[i], old(dirs[i].files), dirs[i].files, slice, retention, now);
    }
  }

  lemma Shares(n: nat, maxSize: nat)
    requires n <= 256
    ensures n * (maxSize / 256) <= maxSize
  {
    Multiples(n, 256, maxSize / 256);
  }

  lemma {:induction false} Multiples(n: nat, m: nat, slice: nat)
    requires n <= m
    ensures n * slice <= m * slice
    decreases m
  {
    if n < m {
      Multiples(n, m - 1, slice);
      assert m * slice == (m - 1) * slice + slice;
    }
  }
}
