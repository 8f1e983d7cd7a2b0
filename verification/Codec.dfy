/** The two binary formats: tree objects (inode's operator<< and operator>>) and the index file
    (index::save and index::load), with the status bits and digest text they share. */
module Codec {
  import opened Paths
  import opened Entries

  datatype Option<+T> = None | Some(value: T)

  // ---------------------------------------------------------------- fixed-width integers

  function Pow256(k: nat): (r: nat)
    ensures r > 0
  {
    if k == 0 then 1 else 256 * Pow256(k - 1)
  }

  /** The k bytes of n as the host lays them out, least significant first. */
  function Bytes(n: nat, k: nat): (s: string)
    ensures |s| == k
  {
    if k == 0 then [] else [(n % 256) as char] + Bytes(n / 256, k - 1)
  }

  function Number(s: string): nat {
    if s == [] then 0 else s[0] as int + 256 * Number(s[1..])
  }

  lemma {:induction false} NumberOfBytes(n: nat, k: nat)
    requires n < Pow256(k)
    ensures Number(Bytes(n, k)) == n
  {
    if k > 0 {
      NumberOfBytes(n / 256, k - 1);
      assert Bytes(n, k)[1..] == Bytes(n / 256, k - 1);
    }
  }

  // ---------------------------------------------------------------- status bits

  const TYPE_UNIT: nat := 0x100_0000

  function TypeCode(kind: Kind): nat {
    match kind
    case File => 1
    case Directory => 2
    case Symlink => 4
    case Unknown => 0
  }

  /** file_status's conversion to uint32_t: the permission mask keeps twelve bits. */
  function Pack(kind: Kind, perms: nat): nat {
    perms % 0x1000 + TypeCode(kind) * TYPE_UNIT
  }

  function PackedKind(m: nat): Kind {
    match m / TYPE_UNIT % 8
    case 1 => File
    case 2 => Directory
    case 4 => Symlink
    case _ => Unknown
  }

  /** file_status(uint32_t): nine permission bits survive. */
  function PackedPerms(m: nat): nat { m % 0x200 }

  /** What packing keeps: the type always, and the permissions exactly when they are plain. */
  lemma StatusRoundTrip(kind: Kind, perms: nat)
    ensures Pack(kind, perms) < Pow256(4)
    ensures PackedKind(Pack(kind, perms)) == kind
    ensures PackedPerms(Pack(kind, perms)) == perms <==> perms <= 0x1FF
  {
    assert Pow256(4) == 0x1_0000_0000 by { assert Pow256(2) == 0x1_0000; }
    assert Pack(kind, perms) / TYPE_UNIT == TypeCode(kind);
    assert Pack(kind, perms) % 0x200 == perms % 0x1000 % 0x200;
  }

  // ---------------------------------------------------------------- digest text

  const SHA1: string := "sha1:"
  const BLAKE3: string := "blake3:"

  function DigestText(d: Digest): string {
    match d.alg
    case NoAlgorithm => ""
    case Sha1 => SHA1 + d.hex
    case Blake3 => BLAKE3 + d.hex
  }

  /** The position of the first colon, or the length. */
  function Colon(s: string): (n: nat)
    ensures n <= |s|
    ensures n < |s| ==> s[n] == ':'
    ensures forall i :: 0 <= i < n ==> s[i] != ':'
  {
    if s == [] || s[0] == ':' then 0 else 1 + Colon(s[1..])
  }

  /** digest::parse; None stands for the exception. */
  function ParseDigest(s: string): Option<Digest> {
    if s == "" then Some(EMPTY)
    else
      var n := Colon(s);
      if n == |s| then
        if |s| == 40 then Some(Digest(Sha1, s)) else if |s| == 64 then Some(Digest(Blake3, s)) else None
      else if s[..n] == "sha1" then
        if |s[n + 1..]| == 40 then Some(Digest(Sha1, s[n + 1..])) else None
      else if s[..n] == "blake3" then
        if |s[n + 1..]| == 64 then Some(Digest(Blake3, s[n + 1..])) else None
      else None
  }

  predicate DigestOk(d: Digest) {
    match d.alg
    case NoAlgorithm => d.hex == ""
    case Sha1 => |d.hex| == 40
    case Blake3 => |d.hex| == 64
  }

  /** Text keeps exactly the digests whose length fits their algorithm. */
  lemma DigestRoundTrip(d: Digest)
    ensures ParseDigest(DigestText(d)) == Some(d) <==> DigestOk(d)
  {
    var s := DigestText(d);
    match d.alg
    case NoAlgorithm =>
    case Sha1 =>
      assert s[4] == ':' && s[0] == 's' && s[1] == 'h' && s[2] == 'a' && s[3] == '1';
      assert Colon(s) == 4;
      assert s[..4] == "sha1" && s[5..] == d.hex;
    case Blake3 =>
      assert s[6] == ':' && s[0] == 'b' && s[1] == 'l' && s[2] == 'a' && s[3] == 'k' && s[4] == 'e' && s[5] == '3';
      assert Colon(s) == 6;
      assert s[..6] == "blake3" && s[7..] == d.hex;
  }

  // ---------------------------------------------------------------- reading from a stream

  /** istream::read of n bytes: the bytes and what is left, or failure at the end of the stream. */
  function Take(s: string, n: nat): Option<(string, string)> {
    if n <= |s| then Some((s[..n], s[n..])) else None
  }

  function Block(b: string): string { Bytes(|b|, 8) + b }

  /** A length in eight bytes and that many bytes. */
  function TakeBlock(s: string): Option<(string, string)> {
    match Take(s, 8)
    case None => None
    case Some((n, rest)) => Take(rest, Number(n))
  }

  lemma TakeOwn(b: string, rest: string)
    ensures Take(b + rest, |b|) == Some((b, rest))
  {
    assert (b + rest)[..|b|] == b && (b + rest)[|b|..] == rest;
  }

  lemma TakeOwnBlock(b: string, rest: string)
    requires |b| < Pow256(8)
    ensures TakeBlock(Block(b) + rest) == Some((b, rest))
  {
    NumberOfBytes(|b|, 8);
    assert Block(b) + rest == Bytes(|b|, 8) + (b + rest);
    TakeOwn(Bytes(|b|, 8), b + rest);
    TakeOwn(b, rest);
  }

  // ---------------------------------------------------------------- tree objects

  const TREE_MAGIC: nat := 0x3eee
  const TREE_VERSION: nat := 1

  /** One child as a tree object holds it. */
  datatype Record = Record(name: string, hash: Digest, kind: Kind, perms: nat, target: string)

  predicate RecordOk(r: Record) {
    && |r.name| < Pow256(8) && |r.target| < Pow256(8)
    && DigestOk(r.hash) && r.perms <= 0x1FF && (r.kind == Symlink || r.target == "")
  }

  function EncodeRecord(r: Record): (s: string)
    ensures s != []
  {
    Block(r.name) + Block(DigestText(r.hash)) + Bytes(Pack(r.kind, r.perms), 4)
    + if r.kind == Symlink then Block(r.target) else []
  }

  function EncodeRecords(rs: seq<Record>): string {
    if rs == [] then [] else EncodeRecord(rs[0]) + EncodeRecords(rs[1..])
  }

  function TreeHeader(): string { Bytes(TREE_MAGIC, 2) + Bytes(TREE_VERSION, 2) }

  function EncodeTree(rs: seq<Record>): string { TreeHeader() + EncodeRecords(rs) }

  /** The status and, for a link, the target. */
  function TakeStatus(s: string): Option<(Kind, nat, string, string)> {
    match Take(s, 4)
    case None => None
    case Some((bits, rest)) =>
      var m := Number(bits);
      if PackedKind(m) == Symlink then
        match TakeBlock(rest)
        case None => None
        case Some((target, rest')) => Some((Symlink, PackedPerms(m), target, rest'))
      else Some((PackedKind(m), PackedPerms(m), "", rest))
  }

  function TakeRecord(s: string): (r: Option<(Record, string)>)
    ensures r.Some? ==> |r.value.1| < |s|
  {
    match TakeBlock(s)
    case None => None
    case Some((name, s1)) =>
      match TakeBlock(s1)
      case None => None
      case Some((hash, s2)) =>
        match TakeStatus(s2)
        case None => None
        case Some((kind, perms, target, s3)) =>
          match ParseDigest(hash)
          case None => None
          case Some(d) => Some((Record(name, d, kind, perms, target), s3))
  }

  function DecodeRecords(s: string): Option<seq<Record>>
    decreases |s|
  {
    if s == [] then Some([])
    else
      match TakeRecord(s)
      case None => None
      case Some((r, rest)) =>
        match DecodeRecords(rest)
        case None => None
        case Some(rs) => Some([r] + rs)
  }

  /** The header is read field by field: magic, then version. */
  function TakeHeader(s: string, magic: nat, version: nat): Option<string> {
    match Take(s, 2)
    case None => None
    case Some((m, s1)) =>
      if Number(m) != magic then None
      else
        match Take(s1, 2)
        case None => None
        case Some((v, s2)) => if Number(v) != version then None else Some(s2)
  }

  function DecodeTree(s: string): Option<seq<Record>> {
    match TakeHeader(s, TREE_MAGIC, TREE_VERSION)
    case None => None
    case Some(body) => DecodeRecords(body)
  }

  lemma TakeOwnHeader(magic: nat, version: nat, rest: string)
    requires magic < 0x1_0000 && version < 0x1_0000
    ensures TakeHeader(Bytes(magic, 2) + Bytes(version, 2) + rest, magic, version) == Some(rest)
  {
    assert Pow256(2) == 0x1_0000;
    NumberOfBytes(magic, 2);
    NumberOfBytes(version, 2);
    var m, v := Bytes(magic, 2), Bytes(version, 2);
    assert m + v + rest == m + (v + rest);
    TakeOwn(m, v + rest);
    TakeOwn(v, rest);
  }

  lemma TakeOwnStatus(kind: Kind, perms: nat, target: string, rest: string)
    requires perms <= 0x1FF && |target| < Pow256(8) && (kind == Symlink || target == "")
    ensures TakeStatus(Bytes(Pack(kind, perms), 4) + (if kind == Symlink then Block(target) else []) + rest)
         == Some((kind, perms, target, rest))
  {
    StatusRoundTrip(kind, perms);
    var bits := Bytes(Pack(kind, perms), 4);
    NumberOfBytes(Pack(kind, perms), 4);
    var tail := (if kind == Symlink then Block(target) else []) + rest;
    assert bits + (if kind == Symlink then Block(target) else []) + rest == bits + tail;
    TakeOwn(bits, tail);
    if kind == Symlink { TakeOwnBlock(target, rest); } else { assert tail == rest; }
  }

  lemma HashTextShort(d: Digest)
    requires DigestOk(d)
    ensures |DigestText(d)| < Pow256(8)
  {
    assert Pow256(2) == 0x1_0000;
    assert Pow256(4) == 0x1_0000_0000;
    assert Pow256(6) == 0x1_0000_0000_0000;
    assert Pow256(8) == 0x1_0000_0000_0000_0000;
  }

  lemma TakeOwnRecord(r: Record, rest: string)
    requires RecordOk(r)
    ensures TakeRecord(EncodeRecord(r) + rest) == Some((r, rest))
  {
    hide Block, TakeBlock, Take, Number, Bytes, Pack, PackedKind, PackedPerms, ParseDigest, DigestText, TakeStatus;
    var name, hash := Block(r.name), Block(DigestText(r.hash));
    var status := Bytes(Pack(r.kind, r.perms), 4) + if r.kind == Symlink then Block(r.target) else [];
    assert EncodeRecord(r) + rest == name + (hash + (status + rest));
    HashTextShort(r.hash);
    TakeOwnBlock(r.name, hash + (status + rest));
    TakeOwnBlock(DigestText(r.hash), status + rest);
    TakeOwnStatus(r.kind, r.perms, r.target, rest);
    DigestRoundTrip(r.hash);
  }

  lemma {:induction false} DecodeOwnRecords(rs: seq<Record>)
    requires forall i :: 0 <= i < |rs| ==> RecordOk(rs[i])
    ensures DecodeRecords(EncodeRecords(rs)) == Some(rs)
  {
    hide EncodeRecord, TakeRecord;
    if rs != [] {
      TakeOwnRecord(rs[0], EncodeRecords(rs[1..]));
      DecodeOwnRecords(rs[1..]);
      assert rs == [rs[0]] + rs[1..];
    }
  }

  /** Reading what was written gives every record back. */
  lemma TreeRoundTrip(rs: seq<Record>)
    requires forall i :: 0 <= i < |rs| ==> RecordOk(rs[i])
    ensures DecodeTree(EncodeTree(rs)) == Some(rs)
  {
    TakeOwnHeader(TREE_MAGIC, TREE_VERSION, EncodeRecords(rs));
    DecodeOwnRecords(rs);
  }

  /** Two different lists of children never have the same tree object. */
  lemma EncodeTreeInjective(a: seq<Record>, b: seq<Record>)
    requires forall i :: 0 <= i < |a| ==> RecordOk(a[i])
    requires forall i :: 0 <= i < |b| ==> RecordOk(b[i])
    requires EncodeTree(a) == EncodeTree(b)
    ensures a == b
  {
    TreeRoundTrip(a);
    TreeRoundTrip(b);
  }

  // ---------------------------------------------------------------- children of a directory

  /** A child inode: an index line and whether the scan marked it as ignored. */
  datatype Child = Child(entry: Entry, ignored: bool)

  function RecordOf(e: Entry): Record { Record(Name(e.path), e.hash, e.kind, e.perms, e.target) }

  function Visible(cs: seq<Child>): seq<Entry> {
    if cs == [] then [] else (if cs[0].ignored then [] else [cs[0].entry]) + Visible(cs[1..])
  }

  function RecordsOf(es: seq<Entry>): (rs: seq<Record>)
    ensures |rs| == |es| && forall i :: 0 <= i < |es| ==> rs[i] == RecordOf(es[i])
  {
    if es == [] then [] else [RecordOf(es[0])] + RecordsOf(es[1..])
  }

  /** std::filesystem::path::operator/=. */
  function JoinPath(p: string, n: string): string {
    if n != "" && n[0] == '/' then n
    else if p == "" || p[|p| - 1] == '/' then p + n
    else p + "/" + n
  }

  function EntryOf(parent: string, r: Record): Entry {
    Entry(JoinPath(parent, r.name), r.kind, r.perms, 0, r.target, r.hash)
  }

  function EntriesOf(parent: string, rs: seq<Record>): (es: seq<Entry>)
    ensures |es| == |rs| && forall i :: 0 <= i < |rs| ==> es[i] == EntryOf(parent, rs[i])
  {
    if rs == [] then [] else [EntryOf(parent, rs[0])] + EntriesOf(parent, rs[1..])
  }

  lemma {:induction false} NameFollows(p: string)
    ensures |Name(p)| <= |p| && Name(p) == p[|p| - |Name(p)|..]
    ensures forall i :: 0 <= i < |Name(p)| ==> Name(p)[i] != '/'
    ensures |Name(p)| < |p| ==> p[|p| - |Name(p)| - 1] == '/' && Parent(p) == p[..|p| - |Name(p)| - 1]
    ensures |Name(p)| == |p| ==> Parent(p) == ""
  {
    hide Name, Parent;
    if p == "" || p[|p| - 1] == '/' {
      NoName(p);
    } else {
      var q, c := p[..|p| - 1], p[|p| - 1];
      NameFollows(q);
      LongerName(p, q, c);
      NameExtends(p, q, Name(q), c);
    }
  }

  lemma NoName(p: string)
    requires p == "" || p[|p| - 1] == '/'
    ensures Name(p) == "" && Parent(p) == if p == "" then "" else p[..|p| - 1]
  {}

  lemma LongerName(p: string, q: string, c: char)
    requires p == q + [c] && c != '/'
    ensures Name(p) == Name(q) + [c] && Parent(p) == Parent(q)
  {
    assert p[..|p| - 1] == q;
  }

  lemma NameExtends(p: string, q: string, n: string, c: char)
    requires p == q + [c] && |n| <= |q| && n == q[|q| - |n|..]
    ensures n + [c] == p[|p| - |n| - 1..]
    ensures |n| < |q| ==> p[|q| - |n| - 1] == q[|q| - |n| - 1] && p[..|q| - |n| - 1] == q[..|q| - |n| - 1]
  {}

  lemma PlainParent(p: string, k: nat)
    requires Plain(p) && k < |p| && p[k] == '/'
    ensures k > 0 && p[k - 1] != '/' && k + 1 < |p|
  {}

  /** A path is its parent and its name. */
  lemma JoinParentName(p: string)
    requires Plain(p)
    ensures JoinPath(Parent(p), Name(p)) == p && Name(p) != ""
  {
    hide Parent, Name;
    PlainNonempty(p);
    NameFollows(p);
    if |Name(p)| < |p| {
      var k := |p| - |Name(p)| - 1;
      PlainParent(p, k);
      assert p == p[..k] + "/" + p[k + 1..];
    } else {
      assert p[0..] == p;
    }
  }

  /** One more child: its record is appended unless it is ignored. */
  lemma WriteMore(children: seq<Child>, i: nat)
    requires i < |children|
    ensures EncodeTree(RecordsOf(Visible(children[..i + 1]))) == EncodeTree(RecordsOf(Visible(children[..i]))) +
              if children[i].ignored then "" else EncodeRecord(RecordOf(children[i].entry))
  {
    hide *;
    var c, es := children[i], Visible(children[..i]);
    VisibleAppend(children[..i], c);
    assert children[..i + 1] == children[..i] + [c];
    if c.ignored {
      assert es + [] == es;
    } else {
      TreeAppend(es, c.entry);
    }
  }

  lemma TreeAppend(es: seq<Entry>, e: Entry)
    ensures EncodeTree(RecordsOf(es + [e])) == EncodeTree(RecordsOf(es)) + EncodeRecord(RecordOf(e))
  {
    hide TreeHeader, EncodeRecord, EncodeRecords, RecordOf;
    var rs, r := RecordsOf(es), RecordOf(e);
    assert RecordsOf(es + [e]) == rs + [r];
    RecordsAppend(rs, r);
    Associates(TreeHeader(), EncodeRecords(rs), EncodeRecord(r));
  }

  lemma Associates(a: string, b: string, c: string)
    ensures a + (b + c) == (a + b) + c
  {}

  /** operator<<: the children that are not ignored, in order. */
  method WriteTree(children: seq<Child>) returns (out: string)
    ensures out == EncodeTree(RecordsOf(Visible(children)))
  {
    hide EncodeRecord, EncodeTree, RecordsOf, RecordOf;
    out := TreeHeader();
    HeaderOnly();
    for i := 0 to |children|
      invariant out == EncodeTree(RecordsOf(Visible(children[..i])))
    {
      WriteMore(children, i);
      if !children[i].ignored {
        out := out + EncodeRecord(RecordOf(children[i].entry));
      }
    }
    assert children[..|children|] == children;
  }

  lemma HeaderOnly()
    ensures EncodeTree(RecordsOf([])) == TreeHeader()
  {}

  lemma {:induction false} RecordsAppend(rs: seq<Record>, r: Record)
    ensures EncodeRecords(rs + [r]) == EncodeRecords(rs) + EncodeRecord(r)
  {
    hide EncodeRecord;
    if rs == [] {
      assert rs + [r] == [r];
    } else {
      RecordsAppend(rs[1..], r);
      assert (rs + [r])[1..] == rs[1..] + [r];
    }
  }

  lemma {:induction false} VisibleAppend(cs: seq<Child>, c: Child)
    ensures Visible(cs + [c]) == Visible(cs) + if c.ignored then [] else [c.entry]
  {
    if cs == [] { assert [c][1..] == []; assert cs + [c] == [c]; }
    else { VisibleAppend(cs[1..], c); assert (cs + [c])[1..] == cs[1..] + [c]; }
  }

  /** operator>>: adds a child for every record up to the end of the stream; None stands for the
      exceptions. */
  method ReadTree(s: string, parent: string) returns (children: Option<seq<Entry>>)
    ensures children == match DecodeTree(s) case None => None case Some(rs) => Some(EntriesOf(parent, rs))
  {
    hide TakeHeader, TakeRecord, EntryOf, EntriesOf;
    var body := TakeHeader(s, TREE_MAGIC, TREE_VERSION);
    if body.None? { return None; }
    var rest, es := body.value, [];
    ghost var rs: seq<Record> := [];
    assert DecodeRecords(rest).Some? ==> rs + DecodeRecords(rest).value == DecodeRecords(rest).value;
    while rest != []
      invariant |es| == |rs| && forall i :: 0 <= i < |rs| ==> es[i] == EntryOf(parent, rs[i])
      invariant DecodeRecords(body.value) ==
                  match DecodeRecords(rest) case None => None case Some(more) => Some(rs + more)
      decreases |rest|
    {
      var r := TakeRecord(rest);
      if r.None? { return None; }
      es := es + [EntryOf(parent, r.value.0)];
      ghost var more := DecodeRecords(r.value.1);
      assert more.Some? ==> rs + ([r.value.0] + more.value) == (rs + [r.value.0]) + more.value;
      rs := rs + [r.value.0];
      rest := r.value.1;
    }
    assert rs + [] == rs;
    assert es == EntriesOf(parent, rs);
    return Some(es);
  }

  predicate ChildOk(parent: string, e: Entry) { Plain(e.path) && Parent(e.path) == parent && RecordOk(RecordOf(e)) }

  /** A tree object gives back the visible children of the directory it was written for, with
      paths rebuilt from the directory's own and without modification times. */
  lemma ChildrenRoundTrip(parent: string, children: seq<Child>)
    requires forall i :: 0 <= i < |Visible(children)| ==> ChildOk(parent, Visible(children)[i])
    ensures DecodeTree(EncodeTree(RecordsOf(Visible(children)))).Some?
    ensures var es := EntriesOf(parent, DecodeTree(EncodeTree(RecordsOf(Visible(children)))).value);
            |es| == |Visible(children)| && forall i :: 0 <= i < |es| ==> es[i] == Visible(children)[i].(mtime := 0)
  {
    var vs := Visible(children);
    TreeRoundTrip(RecordsOf(vs));
    forall i | 0 <= i < |vs|
      ensures EntryOf(parent, RecordOf(vs[i])) == vs[i].(mtime := 0)
    {
      JoinParentName(vs[i].path);
    }
  }

  // ---------------------------------------------------------------- the index file

  const INDEX_MAGIC: nat := 0x3ee3
  const INDEX_VERSION: nat := 1
  const TIME_RANGE: nat := 0x1_0000_0000_0000_0000

  /** A signed 64-bit time as its two's complement bytes. */
  function TimeBytes(t: int): (s: string)
    ensures |s| == 8
  {
    Bytes(t % TIME_RANGE, 8)
  }

  function TimeOf(s: string): int {
    var n := Number(s);
    if n < TIME_RANGE / 2 then n else n - TIME_RANGE
  }

  predicate LineOk(e: Entry) {
    && |e.path| < Pow256(8) && |e.target| < Pow256(8)
    && DigestOk(e.hash) && e.perms <= 0x1FF && (e.kind == Symlink || e.target == "")
    && 0 - TIME_RANGE / 2 <= e.mtime < TIME_RANGE / 2
  }

  function EncodeLine(e: Entry): (s: string)
    ensures s != []
  {
    Block(e.path) + Block(DigestText(e.hash)) + Bytes(Pack(e.kind, e.perms), 4) + TimeBytes(e.mtime)
    + if e.kind == Symlink then Block(e.target) else []
  }

  function EncodeLines(es: seq<Entry>): string {
    if es == [] then [] else EncodeLine(es[0]) + EncodeLines(es[1..])
  }

  function IndexHeader(): string { Bytes(INDEX_MAGIC, 2) + Bytes(INDEX_VERSION, 2) }

  function EncodeIndex(es: seq<Entry>): string { IndexHeader() + EncodeLines(es) }

  /** The target, present for links only. */
  function TakeTarget(s: string, kind: Kind): (r: Option<(string, string)>)
    ensures r.Some? ==> |r.value.1| <= |s|
  {
    if kind == Symlink then TakeBlock(s) else Some(("", s))
  }

  function TakeLine(s: string): (r: Option<(Entry, string)>)
    ensures r.Some? ==> |r.value.1| < |s|
  {
    match TakeBlock(s)
    case None => None
    case Some((path, s1)) =>
      match TakeBlock(s1)
      case None => None
      case Some((hash, s2)) =>
        match Take(s2, 4)
        case None => None
        case Some((bits, s3)) =>
          match Take(s3, 8)
          case None => None
          case Some((time, s4)) =>
            var m := Number(bits);
            match TakeTarget(s4, PackedKind(m))
            case None => None
            case Some((target, s5)) =>
              match ParseDigest(hash)
              case None => None
              case Some(d) => Some((Entry(path, PackedKind(m), PackedPerms(m), TimeOf(time), target, d), s5))
  }

  function DecodeLines(s: string): Option<seq<Entry>>
    decreases |s|
  {
    if s == [] then Some([])
    else
      match TakeLine(s)
      case None => None
      case Some((e, rest)) =>
        match DecodeLines(rest)
        case None => None
        case Some(es) => Some([e] + es)
  }

  function DecodeIndex(s: string): Option<seq<Entry>> {
    match TakeHeader(s, INDEX_MAGIC, INDEX_VERSION)
    case None => None
    case Some(body) => DecodeLines(body)
  }

  lemma TimeRoundTrip(t: int)
    requires 0 - TIME_RANGE / 2 <= t < TIME_RANGE / 2
    ensures TimeOf(TimeBytes(t)) == t
  {
    assert Pow256(2) == 0x1_0000;
    assert Pow256(4) == 0x1_0000_0000;
    assert Pow256(6) == 0x1_0000_0000_0000;
    assert Pow256(8) == TIME_RANGE;
    NumberOfBytes(t % TIME_RANGE, 8);
  }

  lemma TakeOwnLine(e: Entry, rest: string)
    requires LineOk(e)
    ensures TakeLine(EncodeLine(e) + rest) == Some((e, rest))
  {
    hide Block, TakeBlock, Take, Number, Bytes, TimeOf, TimeBytes, Pack, PackedKind, PackedPerms, ParseDigest;
    hide DigestText;
    var path, hash, bits, time := Block(e.path), Block(DigestText(e.hash)), Bytes(Pack(e.kind, e.perms), 4),
        TimeBytes(e.mtime);
    var target := (if e.kind == Symlink then Block(e.target) else []) + rest;
    assert EncodeLine(e) + rest == path + (hash + (bits + (time + target)));
    HashTextShort(e.hash);
    TakeOwnBlock(e.path, hash + (bits + (time + target)));
    TakeOwnBlock(DigestText(e.hash), bits + (time + target));
    TakeOwn(bits, time + target);
    TakeOwn(time, target);
    StatusRoundTrip(e.kind, e.perms);
    NumberOfBytes(Pack(e.kind, e.perms), 4);
    TimeRoundTrip(e.mtime);
    if e.kind == Symlink { TakeOwnBlock(e.target, rest); } else { assert target == rest; }
    DigestRoundTrip(e.hash);
  }

  lemma {:induction false} DecodeOwnLines(es: seq<Entry>)
    requires forall i :: 0 <= i < |es| ==> LineOk(es[i])
    ensures DecodeLines(EncodeLines(es)) == Some(es)
  {
    hide EncodeLine, TakeLine;
    if es != [] {
      TakeOwnLine(es[0], EncodeLines(es[1..]));
      DecodeOwnLines(es[1..]);
      assert es == [es[0]] + es[1..];
    }
  }

  /** Loading what was saved gives every entry back. */
  lemma IndexRoundTrip(es: seq<Entry>)
    requires forall i :: 0 <= i < |es| ==> LineOk(es[i])
    ensures DecodeIndex(EncodeIndex(es)) == Some(es)
  {
    TakeOwnHeader(INDEX_MAGIC, INDEX_VERSION, EncodeLines(es));
    DecodeOwnLines(es);
  }

  /** index::save. */
  method Save(es: seq<Entry>) returns (out: string)
    ensures out == EncodeIndex(es)
  {
    hide IndexHeader, EncodeLine;
    out := IndexHeader();
    for i := 0 to |es|
      invariant out == IndexHeader() + EncodeLines(es[..i])
    {
      assert es[..i + 1] == es[..i] + [es[i]];
      LinesAppend(es[..i], es[i]);
      out := out + EncodeLine(es[i]);
    }
    assert es[..|es|] == es;
  }

  lemma {:induction false} LinesAppend(es: seq<Entry>, e: Entry)
    ensures EncodeLines(es + [e]) == EncodeLines(es) + EncodeLine(e)
  {
    hide EncodeLine;
    if es == [] {
      assert es + [e] == [e];
    } else {
      LinesAppend(es[1..], e);
      assert (es + [e])[1..] == es[1..] + [e];
    }
  }

  /** index::load: the old entries are dropped once the header is right. */
  method Load(s: string) returns (es: Option<seq<Entry>>)
    ensures es == DecodeIndex(s)
  {
    hide TakeHeader, TakeLine;
    var body := TakeHeader(s, INDEX_MAGIC, INDEX_VERSION);
    if body.None? { return None; }
    var rest, inodes := body.value, [];
    assert DecodeLines(rest).Some? ==> inodes + DecodeLines(rest).value == DecodeLines(rest).value;
    while rest != []
      invariant DecodeLines(body.value) ==
                  match DecodeLines(rest) case None => None case Some(more) => Some(inodes + more)
      decreases |rest|
    {
      var r := TakeLine(rest);
      if r.None? { return None; }
      ghost var more := DecodeLines(r.value.1);
      assert more.Some? ==> inodes + ([r.value.0] + more.value) == (inodes + [r.value.0]) + more.value;
      inodes := inodes + [r.value.0];
      rest := r.value.1;
    }
    assert inodes + [] == inodes;
    return Some(inodes);
  }
}
