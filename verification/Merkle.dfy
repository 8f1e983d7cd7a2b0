/** The Merkle property of tree digests: a digest determines the tree, unless the hash function
    collides, and then a collision can be computed from the two trees. */
module Merkle {
  import opened Entries
  import opened Codec

  /** A finite tree as tree objects describe it. */
  datatype Node =
    | FileNode(perms: nat, content: string)
    | LinkNode(perms: nat, target: string)
    | DirNode(perms: nat, kids: seq<Kid>)

  datatype Kid = Kid(name: string, node: Node)

  /** The hash function: its digests are well formed and not empty. */
  ghost predicate HashOk(H: string -> Digest) {
    forall b :: DigestOk(H(b)) && H(b).alg != NoAlgorithm
  }

  predicate NodeOk(n: Node) {
    n.perms <= 0x1FF &&
    match n
    case FileNode(_, _) => true
    case LinkNode(_, target) => |target| < Pow256(8)
    case DirNode(_, kids) => forall i :: 0 <= i < |kids| ==> |kids[i].name| < Pow256(8) && NodeOk(kids[i].node)
  }

  /** The digest an inode carries: of the content, of the tree object, none for a link. */
  function NodeHash(H: string -> Digest, n: Node): Digest {
    match n
    case FileNode(_, content) => H(content)
    case LinkNode(_, _) => EMPTY
    case DirNode(_, kids) => H(EncodeTree(KidRecords(H, kids)))
  }

  function KidRecords(H: string -> Digest, kids: seq<Kid>): (rs: seq<Record>)
    ensures |rs| == |kids| && forall i :: 0 <= i < |rs| ==> rs[i] == KidRecord(H, kids[i])
  {
    if kids == [] then [] else [KidRecord(H, kids[0])] + KidRecords(H, kids[1..])
  }

  function KidRecord(H: string -> Digest, k: Kid): Record {
    match k.node
    case FileNode(perms, _) => Record(k.name, NodeHash(H, k.node), File, perms, "")
    case LinkNode(perms, target) => Record(k.name, NodeHash(H, k.node), Symlink, perms, target)
    case DirNode(perms, _) => Record(k.name, NodeHash(H, k.node), Directory, perms, "")
  }

  lemma KidRecordOk(H: string -> Digest, k: Kid)
    requires HashOk(H) && |k.name| < Pow256(8) && NodeOk(k.node)
    ensures RecordOk(KidRecord(H, k))
  {}

  /** From two different lists of children with the same digest, two byte strings that collide:
      the tree objects themselves, or something deeper. */
  lemma {:induction false} Collision(H: string -> Digest, a: seq<Kid>, b: seq<Kid>) returns (x: string, y: string)
    requires HashOk(H) && NodeOk(DirNode(0, a)) && NodeOk(DirNode(0, b))
    requires a != b && NodeHash(H, DirNode(0, a)) == NodeHash(H, DirNode(0, b))
    ensures x != y && H(x) == H(y)
    decreases a
  {
    var ra, rb := KidRecords(H, a), KidRecords(H, b);
    x, y := EncodeTree(ra), EncodeTree(rb);
    if x == y {
      forall i | 0 <= i < |a| ensures RecordOk(ra[i]) { KidRecordOk(H, a[i]); }
      forall i | 0 <= i < |b| ensures RecordOk(rb[i]) { KidRecordOk(H, b[i]); }
      EncodeTreeInjective(ra, rb);
      var i :| 0 <= i < |a| && a[i] != b[i];
      x, y := KidCollision(H, a[i], b[i]);
    }
  }

  lemma {:induction false} KidCollision(H: string -> Digest, a: Kid, b: Kid) returns (x: string, y: string)
    requires HashOk(H) && NodeOk(a.node) && NodeOk(b.node)
    requires a != b && KidRecord(H, a) == KidRecord(H, b)
    ensures x != y && H(x) == H(y)
    decreases a
  {
    match a.node
    case FileNode(_, content) => x, y := content, b.node.content;
    case LinkNode(_, _) => assert false;
    case DirNode(_, kids) => x, y := Collision(H, kids, b.node.kids);
  }

  /** Equal root digests: equal names, types, permissions, targets and contents all the way down,
      or a collision of the hash function. */
  lemma DigestDeterminesTree(H: string -> Digest, a: seq<Kid>, b: seq<Kid>)
    requires HashOk(H) && NodeOk(DirNode(0, a)) && NodeOk(DirNode(0, b))
    ensures a == b ==> NodeHash(H, DirNode(0, a)) == NodeHash(H, DirNode(0, b))
    ensures NodeHash(H, DirNode(0, a)) == NodeHash(H, DirNode(0, b)) ==> a == b || exists x, y :: Collides(H, x, y)
  {
    if a != b && NodeHash(H, DirNode(0, a)) == NodeHash(H, DirNode(0, b)) {
      var x, y := Collision(H, a, b);
      assert Collides(H, x, y);
    }
  }

  ghost predicate Collides(H: string -> Digest, x: string, y: string) { x != y && H(x) == H(y) }
}
