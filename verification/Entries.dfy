/** The values an index is made of. */
module Entries {
  import opened Paths

  datatype Algorithm = NoAlgorithm | Sha1 | Blake3

  /** A digest: algorithm and hexadecimal text.  The default digest is empty. */
  datatype Digest = Digest(alg: Algorithm, hex: string)

  const EMPTY: Digest := Digest(NoAlgorithm, "")

  /** std::filesystem::file_type as the program uses it; Unknown stands for `none`. */
  datatype Kind = File | Directory | Symlink | Unknown

  /** One line of an index: what an inode carries apart from its links to other inodes. */
  datatype Entry = Entry(path: string, kind: Kind, perms: nat, mtime: int, target: string, hash: Digest)

  ghost predicate SortedByPath(s: seq<Entry>) {
    forall i, j :: 0 <= i < j < |s| ==> Less(s[i].path, s[j].path)
  }

  ghost predicate HasPath(s: seq<Entry>, p: string) { exists k :: 0 <= k < |s| && s[k].path == p }

  ghost predicate HasDirectory(s: seq<Entry>, p: string) {
    exists k :: 0 <= k < |s| && s[k].path == p && s[k].kind == Directory
  }

  /** The length of the longest path. */
  function Longest(s: seq<Entry>): (n: nat)
    ensures forall i :: 0 <= i < |s| ==> |s[i].path| <= n
  {
    if s == [] then 0 else var m := Longest(s[1..]); if |s[0].path| > m then |s[0].path| else m
  }

  lemma SortedDistinct(s: seq<Entry>, i: nat, j: nat)
    requires SortedByPath(s) && i < |s| && j < |s| && s[i].path == s[j].path
    ensures i == j
  {
    if i < j { LessIrreflexive(s[i].path); }
    if j < i { LessIrreflexive(s[i].path); }
  }
}
