/** The bytes of tree objects and index files, position by position: what the writers produce, and exactly
    which streams the readers accept. */
module Layout {
  import opened Entries
  import opened Codec

  // ---------------------------------------------------------------- numbers

  predicate Octets(s: string) { forall i :: 0 <= i < |s| ==> s[i] as int < 0x100 }

  /** Least significant byte first. */
  function Value2(s: string): nat
    requires |s| == 2
  {
    s[0] as int + 0x100 * s[1] as int
  }

  function Value4(s: string): nat
    requires |s| == 4
  {
    Value2(s[..2]) + 0x1_0000 * Value2(s[2..])
  }

  function Value8(s: string): nat
    requires |s| == 8
  {
    Value4(s[..4]) + 0x1_0000_0000 * Value4(s[4..])
  }

  lemma {:induction false} NumberSplit(a: string, b: string)
    ensures Number(a + b) == Number(a) + Pow256(|a|) * Number(b)
  {
    if a == "" {
      assert a + b == b;
    } else {
      NumberSplit(a[1..], b);
      assert (a + b)[1..] == a[1..] + b;
      Product(Pow256(|a| - 1), Number(b));
    }
  }

  lemma Product(p: nat, n: nat)
    ensures 256 * (p * n) == (256 * p) * n
  {}

  lemma Powers()
    ensures Pow256(2) == 0x1_0000 && Pow256(4) == 0x1_0000_0000 && Pow256(8) == 0x1_0000_0000_0000_0000
  {
    assert Pow256(2) == 0x1_0000;
    assert Pow256(4) == 0x1_0000_0000;
    assert Pow256(6) == 0x1_0000_0000_0000;
  }

  lemma Number2(s: string)
    requires |s| == 2
    ensures Number(s) == Value2(s)
  {
    assert Number(s[1..]) == s[1] as int + 256 * Number(s[1..][1..]) && s[1..][1..] == "";
  }

  lemma Number4(s: string)
    requires |s| == 4
    ensures Number(s) == Value4(s)
  {
    assert s == s[..2] + s[2..];
    NumberSplit(s[..2], s[2..]);
    Number2(s[..2]);
    Number2(s[2..]);
    Powers();
  }

  lemma Number8(s: string)
    requires |s| == 8
    ensures Number(s) == Value8(s)
  {
    assert s == s[..4] + s[4..];
    NumberSplit(s[..4], s[4..]);
    Number4(s[..4]);
    Number4(s[4..]);
    Powers();
  }

  lemma {:induction false} BytesOctets(n: nat, k: nat)
    ensures Octets(Bytes(n, k))
  {
    if k > 0 { BytesOctets(n / 256, k - 1); }
  }

  lemma WrittenValue(n: nat, k: nat)
    requires k in {2, 4, 8} && n < Pow256(k)
    ensures Octets(Bytes(n, k))
    ensures n == if k == 2 then Value2(Bytes(n, k)) else if k == 4 then Value4(Bytes(n, k)) else Value8(Bytes(n, k))
  {
    hide Number, Bytes, Value2, Value4, Value8;
    BytesOctets(n, k);
    NumberOfBytes(n, k);
    if k == 2 { Number2(Bytes(n, k)); } else if k == 4 { Number4(Bytes(n, k)); } else { Number8(Bytes(n, k)); }
  }

  // ---------------------------------------------------------------- digest text

  /** Which text stands for a digest: its own, or the digits alone if there is no colon among them. */
  lemma ParseExactly(s: string, d: Digest)
    ensures ParseDigest(s) == Some(d) <==>
              DigestOk(d) && (s == DigestText(d) || (s == d.hex && ':' !in s && d.alg != NoAlgorithm))
  {
    if DigestOk(d) { DigestRoundTrip(d); }
    if s != "" {
      var n := Colon(s);
      assert n < |s| ==> s == s[..n] + ":" + s[n + 1..];
      assert SHA1 == "sha1" + ":" && BLAKE3 == "blake3" + ":";
      if ':' !in s { assert n == |s|; }
      if n == |s| { assert ':' !in s; DigestColon(d); }
    }
  }

  lemma DigestColon(d: Digest)
    ensures d.alg != NoAlgorithm ==> ':' in DigestText(d)
  {
    assert SHA1[4] == ':' && BLAKE3[6] == ':';
    match d.alg
    case NoAlgorithm =>
    case Sha1 => assert DigestText(d)[4] == ':';
    case Blake3 => assert DigestText(d)[6] == ':';
  }

  // ---------------------------------------------------------------- lengths and status bits

  /** A length in eight bytes, and that many bytes. */
  predicate IsBlock(s: string, b: string) {
    |s| == 8 + |b| && Octets(s[..8]) && Value8(s[..8]) == |b| && s[8..] == b
  }

  lemma PartOctets(s: string, a: nat, b: nat)
    requires Octets(s) && a <= b <= |s|
    ensures Octets(s[a..b]) && Octets(s[..b]) && Octets(s[a..])
  {}

  function KindOf(bits: nat): Kind {
    match bits / 0x100_0000 % 8
    case 1 => File
    case 2 => Directory
    case 4 => Symlink
    case _ => Unknown
  }

  lemma TakeBlockIs(s: string, b: string, rest: string)
    requires Octets(s)
    ensures TakeBlock(s) == Some((b, rest)) <==>
              |s| >= 8 + |b| && IsBlock(s[..8 + |b|], b) && rest == s[8 + |b|..]
  {
    if |s| >= 8 {
      Number8(s[..8]);
      PartOctets(s, 0, 8);
      hide Value8, Number, Octets;
      if |s| >= 8 + |b| {
        assert s[..8 + |b|][..8] == s[..8] && s[..8 + |b|][8..] == s[8..][..|b|] && s[8 + |b|..] == s[8..][|b|..];
      }
    }
  }

  lemma WrittenBlock(b: string)
    requires |b| < Pow256(8)
    ensures IsBlock(Block(b), b)
  {
    WrittenValue(|b|, 8);
    hide Value8, Bytes;
    assert Block(b)[..8] == Bytes(|b|, 8) && Block(b)[8..] == b;
  }

  /** Four bytes of status and, for a link, a block with the target. */
  predicate IsStatus(s: string, bits: nat, target: string) {
    && |s| >= 4 && Octets(s[..4]) && Value4(s[..4]) == bits
    && if KindOf(bits) == Symlink then IsBlock(s[4..], target) else s[4..] == "" && target == ""
  }

  // ---------------------------------------------------------------- tree objects

  /** One record of a tree object as it stands there. */
  datatype Raw = Raw(name: string, hash: string, bits: nat, target: string)

  /** Name, digest and status follow each other without gaps. */
  predicate RecordBytes(s: string, x: Raw) {
    var n, h := 8 + |x.name|, 8 + |x.hash|;
    |s| >= n + h && IsBlock(s[..n], x.name) && IsBlock(s[n..n + h], x.hash) && IsStatus(s[n + h..], x.bits, x.target)
  }

  predicate Means(x: Raw, r: Record) {
    && r.name == x.name && ParseDigest(x.hash) == Some(r.hash) && r.kind == KindOf(x.bits)
    && r.perms == x.bits % 0x200 && r.target == x.target
  }

  lemma StatusTaken(s: string, k: nat, bits: nat, target: string)
    requires Octets(s) && k <= |s| && IsStatus(s[..k], bits, target)
    ensures TakeStatus(s) == Some((KindOf(bits), bits % 0x200, target, s[k..]))
  {
    PartOctets(s, 4, |s|);
    hide Value8, Number, Octets;
    assert s[..k][..4] == s[..4] && s[4..] == s[..k][4..] + s[k..];
    Number4(s[..4]);
    if KindOf(bits) == Symlink {
      var b := s[..k][4..];
      assert s[4..][..8 + |target|] == b && s[4..][8 + |target|..] == s[k..];
      TakeBlockIs(s[4..], target, s[k..]);
    } else {
      assert s[4..] == s[k..];
    }
  }

  lemma TakenStatus(s: string, kind: Kind, perms: nat, target: string, rest: string) returns (k: nat, bits: nat)
    requires Octets(s) && TakeStatus(s) == Some((kind, perms, target, rest))
    ensures k <= |s| && rest == s[k..] && IsStatus(s[..k], bits, target)
    ensures kind == KindOf(bits) && perms == bits % 0x200
  {
    hide Value8, Number, Value4, Octets;
    PartOctets(s, 0, 4);
    PartOctets(s, 4, |s|);
    Number4(s[..4]);
    bits := Value4(s[..4]);
    if kind == Symlink {
      TakeBlockIs(s[4..], target, rest);
      k := 12 + |target|;
      assert s[..k][4..] == s[4..][..8 + |target|] && s[..k][..4] == s[..4] && s[k..] == s[4..][8 + |target|..];
    } else {
      k := 4;
      assert s[..k][..4] == s[..4] && s[..k][4..] == "";
    }
  }

  /** Where a block ends what follows begins. */
  lemma Cut(s: string, k: nat, n: nat)
    requires n <= k <= |s|
    ensures s[..k][..n] == s[..n] && s[..k][n..] == s[n..][..k - n] && s[n..][k - n..] == s[k..]
  {}

  lemma RecordTaken(s: string, k: nat, x: Raw, r: Record)
    requires Octets(s) && k <= |s| && RecordBytes(s[..k], x) && Means(x, r)
    ensures TakeRecord(s) == Some((r, s[k..]))
  {
    hide IsBlock, IsStatus, TakeBlock, TakeStatus, ParseDigest, KindOf, Octets;
    var n, h := 8 + |x.name|, 8 + |x.hash|;
    var s1 := s[n..];
    PartOctets(s, n, |s|);
    PartOctets(s1, h, |s1|);
    Cut(s, k, n);
    TakeBlockIs(s, x.name, s1);
    Cut(s1, k - n, h);
    assert s[..k][n..n + h] == s[..k][n..][..h];
    TakeBlockIs(s1, x.hash, s1[h..]);
    assert s[..k][n + h..] == s[..k][n..][h..];
    StatusTaken(s1[h..], k - n - h, x.bits, x.target);
    assert s1[h..][k - n - h..] == s[k..];
  }

  lemma TakenRecord(s: string, r: Record, rest: string) returns (k: nat, x: Raw)
    requires Octets(s) && TakeRecord(s) == Some((r, rest))
    ensures 0 < k <= |s| && rest == s[k..] && RecordBytes(s[..k], x) && Means(x, r)
  {
    hide IsBlock, IsStatus, TakeBlock, TakeStatus, ParseDigest, KindOf, Octets;
    var name, s1 := TakeBlock(s).value.0, TakeBlock(s).value.1;
    var hash, s2 := TakeBlock(s1).value.0, TakeBlock(s1).value.1;
    TakeBlockIs(s, name, s1);
    PartOctets(s, 8 + |name|, |s|);
    TakeBlockIs(s1, hash, s2);
    PartOctets(s1, 8 + |hash|, |s1|);
    var k', bits := TakenStatus(s2, r.kind, r.perms, r.target, rest);
    x := Raw(name, hash, bits, r.target);
    var n, h := 8 + |name|, 8 + |hash|;
    k := n + h + k';
    Cut(s, k, n);
    Cut(s1, k - n, h);
    assert s[..k][n..n + h] == s[..k][n..][..h] && s[..k][n + h..] == s[..k][n..][h..];
  }

  /** Records one after the other up to the end. */
  ghost predicate RecordsBytes(s: string, rs: seq<Record>)
    decreases |rs|
  {
    if rs == [] then s == ""
    else exists k, x :: 0 < k <= |s| && RecordBytes(s[..k], x) && Means(x, rs[0]) && RecordsBytes(s[k..], rs[1..])
  }

  lemma {:induction false} RecordsExactly(s: string, rs: seq<Record>)
    requires Octets(s)
    ensures DecodeRecords(s) == Some(rs) <==> RecordsBytes(s, rs)
    decreases |s|
  {
    hide RecordBytes, Means, TakeRecord, Octets;
    if DecodeRecords(s) == Some(rs) && s != "" {
      var rest := TakeRecord(s).value.1;
      var k, x := TakenRecord(s, rs[0], rest);
      assert DecodeRecords(rest) == Some(rs[1..]);
      PartOctets(s, k, |s|);
      RecordsExactly(s[k..], rs[1..]);
    }
    if RecordsBytes(s, rs) && rs != [] {
      var k, x :| 0 < k <= |s| && RecordBytes(s[..k], x) && Means(x, rs[0]) && RecordsBytes(s[k..], rs[1..]);
      RecordTaken(s, k, x, rs[0]);
      PartOctets(s, k, |s|);
      RecordsExactly(s[k..], rs[1..]);
      assert rs == [rs[0]] + rs[1..];
    }
  }

  /** The magic number and the version, two bytes each. */
  predicate IsHeader(s: string, magic: nat) {
    |s| >= 4 && Octets(s[..4]) && Value2(s[..2]) == magic && Value2(s[2..4]) == 1
  }

  lemma HeaderIs(s: string, magic: nat, body: string)
    requires Octets(s)
    ensures TakeHeader(s, magic, 1) == Some(body) <==> IsHeader(s, magic) && body == s[4..]
  {
    if |s| >= 2 {
      Number2(s[..2]);
      if |s| >= 4 {
        assert s[2..][..2] == s[2..4] && s[2..][2..] == s[4..];
        Number2(s[2..4]);
      }
    }
  }

  /** A stream is read as these records exactly when it is the header and then the records, to the last
      byte. */
  lemma TreeExactly(s: string, rs: seq<Record>)
    requires Octets(s)
    ensures DecodeTree(s) == Some(rs) <==> IsHeader(s, 0x3eee) && RecordsBytes(s[4..], rs)
  {
    hide TakeHeader, IsHeader, DecodeRecords, RecordsBytes, Octets;
    var body := TakeHeader(s, 0x3eee, 1);
    HeaderIs(s, 0x3eee, if body.Some? then body.value else if |s| >= 4 then s[4..] else "");
    if body.Some? {
      HeaderLong(s, 0x3eee);
      PartOctets(s, 4, |s|);
      RecordsExactly(body.value, rs);
    } else if IsHeader(s, 0x3eee) {
      HeaderLong(s, 0x3eee);
    }
  }

  lemma HeaderLong(s: string, magic: nat)
    requires IsHeader(s, magic)
    ensures |s| >= 4
  {}

  /** How a record is written: with the digest's own text, twelve bits of permissions in the low bits, and the
      type in the high ones. */
  function RawOf(r: Record): Raw {
    var code := match r.kind case File => 0x100_0000 case Directory => 0x200_0000 case Symlink => 0x400_0000
                             case Unknown => 0;
    Raw(r.name, DigestText(r.hash), r.perms % 0x1000 + code, r.target)
  }

  lemma BitsWritten(r: Record)
    ensures Pack(r.kind, r.perms) == RawOf(r).bits && KindOf(RawOf(r).bits) == r.kind
    ensures Pack(r.kind, r.perms) < Pow256(4)
  {
    StatusRoundTrip(r.kind, r.perms);
  }

  lemma RecordWritten(r: Record)
    requires RecordOk(r.(perms := 0))
    ensures RecordBytes(EncodeRecord(r), RawOf(r))
  {
    hide DigestText, Block, Bytes, IsBlock, Pack, Value4, KindOf;
    var x := RawOf(r);
    BitsWritten(r);
    HashTextShort(r.hash);
    WrittenBlock(r.name);
    WrittenBlock(x.hash);
    WrittenValue(x.bits, 4);
    WrittenBlock(r.target);
    BlockLength(r.name);
    BlockLength(x.hash);
    var a, b, c, t := Block(r.name), Block(x.hash), Bytes(x.bits, 4), if r.kind == Symlink then Block(r.target) else [];
    assert a + b + c + t == a + b + (c + t);
    TwoPieces(a, b, c + t);
    assert (c + t)[..4] == c && (c + t)[4..] == t;
  }

  lemma BlockLength(b: string)
    ensures |Block(b)| == 8 + |b|
  {}

  ghost predicate RecordsWritten(s: string, rs: seq<Record>)
    decreases |rs|
  {
    if rs == [] then s == ""
    else exists k :: 0 < k <= |s| && RecordBytes(s[..k], RawOf(rs[0])) && RecordsWritten(s[k..], rs[1..])
  }

  lemma {:induction false} EachWritten(rs: seq<Record>)
    requires forall i :: 0 <= i < |rs| ==> RecordOk(rs[i].(perms := 0))
    ensures RecordsWritten(EncodeRecords(rs), rs)
  {
    hide RecordBytes, EncodeRecord, RawOf;
    if rs != [] {
      RecordWritten(rs[0]);
      EachWritten(rs[1..]);
      var a, b := EncodeRecord(rs[0]), EncodeRecords(rs[1..]);
      assert EncodeRecords(rs) == a + b && (a + b)[..|a|] == a && (a + b)[|a|..] == b;
    }
  }

  lemma HeaderWritten(magic: nat, rest: string)
    requires magic < 0x1_0000
    ensures var s := Bytes(magic, 2) + Bytes(1, 2) + rest; IsHeader(s, magic) && s[4..] == rest
  {
    Powers();
    WrittenValue(magic, 2);
    WrittenValue(1, 2);
    hide Bytes, Value2;
    var s := Bytes(magic, 2) + Bytes(1, 2) + rest;
    assert s[..2] == Bytes(magic, 2) && s[2..4] == Bytes(1, 2) && s[..4] == s[..2] + s[2..4];
  }

  /** A tree object: the header, then each record as it has to be, whatever its permissions. */
  lemma TreeWritten(rs: seq<Record>)
    requires forall i :: 0 <= i < |rs| ==> RecordOk(rs[i].(perms := 0))
    ensures IsHeader(EncodeTree(rs), 0x3eee) && RecordsWritten(EncodeTree(rs)[4..], rs)
  {
    hide IsHeader, RecordsWritten, EncodeRecords, Bytes, RecordOk;
    HeaderWritten(0x3eee, EncodeRecords(rs));
    EachWritten(rs);
    HeaderLong(EncodeTree(rs), 0x3eee);
  }

  // ---------------------------------------------------------------- the index file

  /** One line as it stands there; the time is a signed number in eight bytes. */
  datatype RawLine = RawLine(path: string, hash: string, bits: nat, time: nat, target: string)

  /** Four bytes of status, eight of time and, for a link, a block with the target. */
  predicate IsTail(s: string, bits: nat, time: nat, target: string) {
    && |s| >= 12 && Octets(s[..12]) && Value4(s[..4]) == bits && Value8(s[4..12]) == time
    && if KindOf(bits) == Symlink then IsBlock(s[12..], target) else s[12..] == "" && target == ""
  }

  predicate LineBytes(s: string, x: RawLine) {
    var n, h := 8 + |x.path|, 8 + |x.hash|;
    && |s| >= n + h && IsBlock(s[..n], x.path) && IsBlock(s[n..n + h], x.hash)
    && IsTail(s[n + h..], x.bits, x.time, x.target)
  }

  function Signed(time: nat): int {
    if time < 0x8000_0000_0000_0000 then time else time - 0x1_0000_0000_0000_0000
  }

  predicate LineMeans(x: RawLine, e: Entry) {
    && e.path == x.path && ParseDigest(x.hash) == Some(e.hash) && e.kind == KindOf(x.bits)
    && e.perms == x.bits % 0x200 && e.mtime == Signed(x.time) && e.target == x.target
  }

  /** What follows the digest, read in the order of the file. */
  function TakeTail(s: string): Option<(Kind, nat, int, string, string)> {
    match Take(s, 4)
    case None => None
    case Some((bits, s3)) =>
      match Take(s3, 8)
      case None => None
      case Some((time, s4)) =>
        match TakeTarget(s4, PackedKind(Number(bits)))
        case None => None
        case Some((target, s5)) =>
          Some((PackedKind(Number(bits)), PackedPerms(Number(bits)), TimeOf(time), target, s5))
  }

  lemma LineInParts(s: string, e: Entry, rest: string)
    ensures TakeLine(s) == Some((e, rest)) <==>
              && TakeBlock(s).Some? && TakeBlock(TakeBlock(s).value.1).Some?
              && var (path, s1) := TakeBlock(s).value;
                 var (hash, s2) := TakeBlock(s1).value;
                 && TakeTail(s2) == Some((e.kind, e.perms, e.mtime, e.target, rest)) && e.path == path
                 && ParseDigest(hash) == Some(e.hash)
  {
    hide TakeBlock, ParseDigest, TimeOf, PackedKind, PackedPerms, Number, TakeTarget;
  }

  lemma TailTaken(s: string, k: nat, bits: nat, time: nat, target: string)
    requires Octets(s) && k <= |s| && IsTail(s[..k], bits, time, target)
    ensures TakeTail(s) == Some((KindOf(bits), bits % 0x200, Signed(time), target, s[k..]))
  {
    PartOctets(s, 12, |s|);
    hide Value8, Value4, Number, Octets;
    assert s[..k][..4] == s[..4] && s[..k][4..12] == s[4..][..8] && s[4..][8..] == s[12..];
    Number4(s[..4]);
    Number8(s[4..][..8]);
    if KindOf(bits) == Symlink {
      assert s[..k][12..] == s[12..][..8 + |target|] && s[12..][8 + |target|..] == s[k..];
      TakeBlockIs(s[12..], target, s[k..]);
    } else {
      assert s[12..] == s[..k][12..] + s[k..];
    }
  }

  lemma TakenTail(s: string, kind: Kind, perms: nat, mtime: int, target: string, rest: string)
    returns (k: nat, bits: nat, time: nat)
    requires Octets(s) && TakeTail(s) == Some((kind, perms, mtime, target, rest))
    ensures k <= |s| && rest == s[k..] && IsTail(s[..k], bits, time, target)
    ensures kind == KindOf(bits) && perms == bits % 0x200 && mtime == Signed(time)
  {
    hide Value8, Value4, Number, Octets;
    assert s[4..][..8] == s[4..12] && s[4..][8..] == s[12..];
    PartOctets(s, 0, 12);
    PartOctets(s, 12, |s|);
    Number4(s[..4]);
    Number8(s[4..12]);
    bits, time := Value4(s[..4]), Value8(s[4..12]);
    k := 12;
    if kind == Symlink {
      TakeBlockIs(s[12..], target, rest);
      k := 20 + |target|;
    }
    assert s[..k][..12] == s[..12] && s[..k][..4] == s[..4] && s[..k][4..12] == s[4..12];
    assert s[..k][12..] == s[12..][..k - 12] && s[k..] == s[12..][k - 12..];
  }

  lemma LineTaken(s: string, k: nat, x: RawLine, e: Entry)
    requires Octets(s) && k <= |s| && LineBytes(s[..k], x) && LineMeans(x, e)
    ensures TakeLine(s) == Some((e, s[k..]))
  {
    hide IsBlock, IsTail, TakeBlock, TakeTail, TakeLine, ParseDigest, KindOf, Octets;
    var n, h := 8 + |x.path|, 8 + |x.hash|;
    var s1 := s[n..];
    PartOctets(s, n, |s|);
    PartOctets(s1, h, |s1|);
    Cut(s, k, n);
    TakeBlockIs(s, x.path, s1);
    Cut(s1, k - n, h);
    assert s[..k][n..n + h] == s[..k][n..][..h];
    TakeBlockIs(s1, x.hash, s1[h..]);
    assert s[..k][n + h..] == s[..k][n..][h..];
    TailTaken(s1[h..], k - n - h, x.bits, x.time, x.target);
    assert s1[h..][k - n - h..] == s[k..];
    LineInParts(s, e, s[k..]);
  }

  lemma TakenLine(s: string, e: Entry, rest: string) returns (k: nat, x: RawLine)
    requires Octets(s) && TakeLine(s) == Some((e, rest))
    ensures 0 < k <= |s| && rest == s[k..] && LineBytes(s[..k], x) && LineMeans(x, e)
  {
    hide IsBlock, IsTail, TakeBlock, TakeTail, TakeLine, ParseDigest, KindOf, Octets;
    LineInParts(s, e, rest);
    var path, s1 := TakeBlock(s).value.0, TakeBlock(s).value.1;
    var hash, s2 := TakeBlock(s1).value.0, TakeBlock(s1).value.1;
    TakeBlockIs(s, path, s1);
    PartOctets(s, 8 + |path|, |s|);
    TakeBlockIs(s1, hash, s2);
    PartOctets(s1, 8 + |hash|, |s1|);
    var k', bits, time := TakenTail(s2, e.kind, e.perms, e.mtime, e.target, rest);
    x := RawLine(path, hash, bits, time, e.target);
    var n, h := 8 + |path|, 8 + |hash|;
    k := n + h + k';
    Cut(s, k, n);
    Cut(s1, k - n, h);
    assert s[..k][n..n + h] == s[..k][n..][..h] && s[..k][n + h..] == s[..k][n..][h..];
  }

  ghost predicate LinesBytes(s: string, es: seq<Entry>)
    decreases |es|
  {
    if es == [] then s == ""
    else exists k, x :: 0 < k <= |s| && LineBytes(s[..k], x) && LineMeans(x, es[0]) && LinesBytes(s[k..], es[1..])
  }

  lemma {:induction false} LinesExactly(s: string, es: seq<Entry>)
    requires Octets(s)
    ensures DecodeLines(s) == Some(es) <==> LinesBytes(s, es)
    decreases |s|
  {
    hide LineBytes, LineMeans, TakeLine, Octets;
    if DecodeLines(s) == Some(es) && s != "" {
      var rest := TakeLine(s).value.1;
      var k, x := TakenLine(s, es[0], rest);
      assert DecodeLines(rest) == Some(es[1..]);
      PartOctets(s, k, |s|);
      LinesExactly(s[k..], es[1..]);
    }
    if LinesBytes(s, es) && es != [] {
      var k, x :| 0 < k <= |s| && LineBytes(s[..k], x) && LineMeans(x, es[0]) && LinesBytes(s[k..], es[1..]);
      LineTaken(s, k, x, es[0]);
      PartOctets(s, k, |s|);
      LinesExactly(s[k..], es[1..]);
      assert es == [es[0]] + es[1..];
    }
  }

  /** An index file is read as these lines exactly when it is the header and then the lines, to the last
      byte. */
  lemma IndexExactly(s: string, es: seq<Entry>)
    requires Octets(s)
    ensures DecodeIndex(s) == Some(es) <==> IsHeader(s, 0x3ee3) && LinesBytes(s[4..], es)
  {
    hide TakeHeader, IsHeader, DecodeLines, LinesBytes, Octets;
    var body := TakeHeader(s, 0x3ee3, 1);
    HeaderIs(s, 0x3ee3, if body.Some? then body.value else if |s| >= 4 then s[4..] else "");
    if body.Some? {
      HeaderLong(s, 0x3ee3);
      PartOctets(s, 4, |s|);
      LinesExactly(body.value, es);
    } else if IsHeader(s, 0x3ee3) {
      HeaderLong(s, 0x3ee3);
    }
  }

  /** How a line is written. */
  function RawLineOf(e: Entry): RawLine {
    var x := RawOf(Record(e.path, e.hash, e.kind, e.perms, e.target));
    RawLine(e.path, x.hash, x.bits, if e.mtime >= 0 then e.mtime else e.mtime % 0x1_0000_0000_0000_0000, e.target)
  }

  lemma LineWritten(e: Entry)
    requires LineOk(e.(perms := 0))
    ensures LineBytes(EncodeLine(e), RawLineOf(e)) && Signed(RawLineOf(e).time) == e.mtime
  {
    var x := RawLineOf(e);
    HashTextShort(e.hash);
    hide DigestText, Block, Bytes, IsBlock, IsTail, Pack, KindOf, TimeBytes, Signed;
    WrittenBlock(e.path);
    WrittenBlock(x.hash);
    BlockLength(e.path);
    BlockLength(x.hash);
    TailWritten(e);
    var c, d := Bytes(Pack(e.kind, e.perms), 4), TimeBytes(e.mtime);
    var t := if e.kind == Symlink then Block(e.target) else [];
    Five(Block(e.path), Block(x.hash), c, d, t);
    TwoPieces(Block(e.path), Block(x.hash), c + d + t);
  }

  lemma TailWritten(e: Entry)
    requires LineOk(e.(perms := 0))
    ensures var x, t := RawLineOf(e), if e.kind == Symlink then Block(e.target) else [];
            && IsTail(Bytes(Pack(e.kind, e.perms), 4) + TimeBytes(e.mtime) + t, x.bits, x.time, x.target)
            && Signed(x.time) == e.mtime
  {
    var x := RawLineOf(e);
    TimeWritten(e.mtime, x.time);
    BitsWritten(Record(e.path, e.hash, e.kind, e.perms, e.target));
    hide DigestText, Block, Bytes, IsBlock, Pack, Value4, Value8, KindOf, Octets, TimeBytes;
    WrittenValue(x.bits, 4);
    WrittenBlock(e.target);
    var c, d, t := Bytes(x.bits, 4), TimeBytes(e.mtime), if e.kind == Symlink then Block(e.target) else [];
    TwoPieces(c, d, t);
    TwoOctets(c, d);
  }

  lemma Five(a: string, b: string, c: string, d: string, t: string)
    ensures a + b + c + d + t == a + b + (c + d + t)
  {}

  lemma TwoPieces(a: string, b: string, t: string)
    ensures var s := a + b + t;
            && s[..|a|] == a && s[|a|..|a| + |b|] == b && s[|a| + |b|..] == t && s[..|a| + |b|] == a + b
  {}

  lemma TwoOctets(a: string, b: string)
    requires Octets(a) && Octets(b)
    ensures Octets(a + b)
  {}

  lemma TimeWritten(t: int, n: nat)
    requires 0 - TIME_RANGE / 2 <= t < TIME_RANGE / 2
    requires n == if t >= 0 then t else t % 0x1_0000_0000_0000_0000
    ensures Octets(TimeBytes(t)) && Value8(TimeBytes(t)) == n && Signed(n) == t
  {
    hide Value8, Bytes, Octets;
    Powers();
    if t >= 0 {
      SmallRemainder(t, TIME_RANGE);
    } else {
      SmallRemainder(t + TIME_RANGE, TIME_RANGE);
      Turned(t, TIME_RANGE);
    }
    assert t % TIME_RANGE == n;
    WrittenValue(n, 8);
  }

  lemma SmallRemainder(t: int, m: nat)
    requires 0 <= t < m
    ensures t % m == t
  {}

  lemma Turned(t: int, m: nat)
    requires 0 - m < t < 0
    ensures t % m == t + m
  {}

  ghost predicate LinesWritten(s: string, es: seq<Entry>)
    decreases |es|
  {
    if es == [] then s == ""
    else exists k :: 0 < k <= |s| && LineBytes(s[..k], RawLineOf(es[0])) && LinesWritten(s[k..], es[1..])
  }

  lemma {:induction false} EachLineWritten(es: seq<Entry>)
    requires forall i :: 0 <= i < |es| ==> LineOk(es[i].(perms := 0))
    ensures LinesWritten(EncodeLines(es), es)
  {
    hide LineBytes, EncodeLine, RawLineOf;
    if es != [] {
      LineWritten(es[0]);
      EachLineWritten(es[1..]);
      var a, b := EncodeLine(es[0]), EncodeLines(es[1..]);
      assert EncodeLines(es) == a + b && (a + b)[..|a|] == a && (a + b)[|a|..] == b;
    }
  }

  /** An index file: the header, then each line as it has to be, whatever its permissions. */
  lemma IndexWritten(es: seq<Entry>)
    requires forall i :: 0 <= i < |es| ==> LineOk(es[i].(perms := 0))
    ensures IsHeader(EncodeIndex(es), 0x3ee3) && LinesWritten(EncodeIndex(es)[4..], es)
  {
    hide IsHeader, LinesWritten, EncodeLines, Bytes, LineOk;
    HeaderWritten(0x3ee3, EncodeLines(es));
    EachLineWritten(es);
    HeaderLong(EncodeIndex(es), 0x3ee3);
  }
}
