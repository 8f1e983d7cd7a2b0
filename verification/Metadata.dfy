/** index::copy_metadata: a merge join that carries modification times over to unchanged entries. */
module Metadata {
  import opened Paths
  import opened Entries

  /** The same path with the same digest. */
  predicate Same(a: Entry, b: Entry) { a.path == b.path && a.hash == b.hash }

  /** What becomes of an entry: the time of its counterpart in the other index, if it has one. */
  ghost predicate Copied(was: Entry, other: seq<Entry>, now: Entry) {
    && (forall j :: 0 <= j < |other| && Same(was, other[j]) ==> now == was.(mtime := other[j].mtime))
    && ((forall j :: 0 <= j < |other| ==> !Same(was, other[j])) ==> now == was)
  }

  lemma OnlyOne(other: seq<Entry>, j: nat, was: Entry)
    requires SortedByPath(other) && j < |other| && other[j].path == was.path
    ensures Copied(was, other, if Same(was, other[j]) then was.(mtime := other[j].mtime) else was)
  {
    forall k | 0 <= k < |other| && Same(was, other[k]) ensures k == j { SortedDistinct(other, j, k); }
  }

  lemma NoneLeft(other: seq<Entry>, j: nat, was: Entry)
    requires j <= |other| && forall k :: 0 <= k < j ==> other[k].path != was.path
    requires forall k :: j <= k < |other| ==> other[k].path != was.path
    ensures Copied(was, other, was)
  {}

  /** An entry gets a new modification time exactly when the other index has the same path and digest,
      and then it is that one's; nothing else changes. */
  method CopyMetadata(inodes: array<Entry>, other: seq<Entry>)
    requires SortedByPath(inodes[..]) && SortedByPath(other)
    modifies inodes
    ensures forall i :: 0 <= i < inodes.Length ==> Copied(old(inodes[i]), other, inodes[i])
  {
    hide Less, Copied;
    ghost var was := inodes[..];
    var i, j := 0, 0;
    while i < inodes.Length && j < |other|
      invariant 0 <= i <= inodes.Length && 0 <= j <= |other|
      invariant forall k :: 0 <= k < i ==> Copied(was[k], other, inodes[k])
      invariant forall k :: i <= k < inodes.Length ==> inodes[k] == was[k]
      invariant forall k, l :: i <= k < inodes.Length && 0 <= l < j ==> Less(other[l].path, was[k].path)
      decreases inodes.Length - i + |other| - j
    {
      LessIrreflexive(inodes[i].path);
      if Less(inodes[i].path, other[j].path) {
        forall l | 0 <= l < |other| ensures other[l].path != was[i].path {
          if l > j { LessTransitive(inodes[i].path, other[j].path, other[l].path); }
        }
        NoneLeft(other, j, was[i]);
        i := i + 1;
      } else if Less(other[j].path, inodes[i].path) {
        forall k | i < k < inodes.Length ensures Less(other[j].path, was[k].path) {
          LessTransitive(other[j].path, was[i].path, was[k].path);
        }
        j := j + 1;
      } else {
        LessTotal(inodes[i].path, other[j].path);
        OnlyOne(other, j, was[i]);
        if inodes[i].hash == other[j].hash {
          inodes[i] := inodes[i].(mtime := other[j].mtime);
        }
        i, j := i + 1, j + 1;
      }
    }
    forall k | i <= k < inodes.Length ensures Copied(was[k], other, inodes[k]) {
      LessIrreflexive(was[k].path);
      NoneLeft(other, j, was[k]);
    }
  }
}
