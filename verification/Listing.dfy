/** A directory listing as its reader takes it apart: stat records one after the other, each as long as its
    size field says. */
module Listing {
  import opened Bytes
  import opened Options
  import opened Session
  import opened Wire
  import opened WalkBalance
  import opened Ramfs

  /** A stat record as read back: the four strings are name, uid, gid and muid. */
  datatype Stat = Stat(kind: nat, dev: nat, qid: Qid, mode: nat, atime: nat, mtime: nat, length: nat,
                       texts: seq<seq<byte>>)

  /** The record at the front of b, by its size field. */
  predicate HasFront(b: seq<byte>) { |b| >= 2 && 41 <= 2 + U16(b, 0) <= |b| }

  function Front(b: seq<byte>): (r: seq<byte>)
    requires HasFront(b)
    ensures 41 <= |r| <= |b|
  {
    b[..2 + U16(b, 0)]
  }

  function ParseStat(r: seq<byte>): Stat
    requires |r| >= 41
  {
    Stat(U16(r, 2), U32(r, 4), ParseQid(r, 8), U32(r, 21), U32(r, 25), U32(r, 29), U64(r, 33), Strings(r, 41, 4))
  }

  function ParseListing(b: seq<byte>): Option<seq<Stat>> {
    if b == [] then Some([])
    else if !HasFront(b) then None
    else
      match ParseListing(b[|Front(b)|..])
      case None => None
      case Some(rest) => Some([ParseStat(Front(b))] + rest)
  }

  /** What a listing says of a child: its name, qid and length, its mode with the directory bit set exactly
      if it is a directory or has the bit already, and nothing else. */
  predicate Describes(t: Stat, c: Child) {
    && t.texts == [c.name, [], [], []] && t.qid == c.qid && t.length == c.length
    && t.mode % DMDIR == c.mode % DMDIR && (t.mode >= DMDIR <==> c.isDir || c.mode >= DMDIR)
    && t.kind == 0 && t.dev == 0 && t.atime == 0 && t.mtime == 0
  }

  predicate DescribesAll(ts: seq<Stat>, cs: seq<Child>) {
    |ts| == |cs| && forall i :: 0 <= i < |cs| ==> Describes(ts[i], cs[i])
  }

  /** The fields of a child fit those of a record, and the record its size field. */
  predicate InRange(c: Child) {
    && |c.name| + 47 < MOD16 && c.qid.version < MOD32 && c.qid.path < MOD64 && c.mode < MOD32 && c.length < MOD64
  }

  // ---------------------------------------------------------------- the strings of a record

  lemma TextFront(r: seq<byte>, o: nat, t: seq<byte>, rest: seq<byte>, n: nat)
    requires o <= |r| && |t| < MOD16 && r[o..] == Str(t) + rest && n > 0
    ensures o + 2 + |t| <= |r| && r[o + 2 + |t|..] == rest
    ensures Strings(r, o, n) == [t] + Strings(r, o + 2 + |t|, n - 1)
  {
    NameReadBack(r, o, t, rest);
  }

  lemma NoText(r: seq<byte>, o: nat, rest: seq<byte>, n: nat)
    requires o <= |r| && r[o..] == LE16(0) + rest && n > 0
    ensures o + 2 <= |r| && r[o + 2..] == rest
    ensures Strings(r, o, n) == [[]] + Strings(r, o + 2, n - 1)
  {
    var none: seq<byte> := [];
    assert Str(none) == LE16(0);
    TextFront(r, o, none, rest, n);
  }

  lemma TextsReadBack(r: seq<byte>, name: seq<byte>, z: seq<byte>)
    requires |r| >= 41 && |name| < MOD16 && z == LE16(0) && r[41..] == Str(name) + (z + (z + z))
    ensures Strings(r, 41, 4) == [name, [], [], []]
  {
    var o, none := 43 + |name|, z[2..];
    TextFront(r, 41, name, z + (z + z), 4);
    NoText(r, o, z + z, 3);
    NoText(r, o + 2, z, 2);
    assert z == z + none;
    NoText(r, o + 4, none, 1);
  }

  // ---------------------------------------------------------------- its fixed part

  lemma EightFields(w: seq<byte>, a: seq<byte>, b: seq<byte>, c: seq<byte>, d: seq<byte>, e: seq<byte>, f: seq<byte>,
                    g: seq<byte>, h: seq<byte>)
    requires |a| == 2 && |b| == 2 && |c| == 4 && |d| == 13 && |e| == 4 && |f| == 4 && |g| == 4 && |h| == 8
    requires |w| >= 41 && w[..41] == a + b + c + d + e + f + g + h
    ensures w[0..2] == a && w[2..4] == b && w[4..8] == c && w[8..21] == d
    ensures w[21..25] == e && w[25..29] == f && w[29..33] == g && w[33..41] == h
  {
    var v := w[..41];
    assert v[0..2] == a && v[2..4] == b && v[4..8] == c && v[8..21] == d;
    assert v[21..25] == e && v[25..29] == f && v[29..33] == g && v[33..41] == h;
    assert v[0..2] == w[0..2] && v[2..4] == w[2..4] && v[4..8] == w[4..8] && v[8..21] == w[8..21];
    assert v[21..25] == w[21..25] && v[25..29] == w[25..29] && v[29..33] == w[29..33] && v[33..41] == w[33..41];
  }

  lemma FixedFields(r: seq<byte>, c: Child)
    requires |r| >= 41 && r[..41] == FixedPart(c)
    ensures r[0..2] == LE16(47 + |c.name|) && r[2..4] == LE16(0) && r[4..8] == LE32(0) && r[8..21] == QidBytes(c.qid)
    ensures r[21..25] == LE32(ModeBits(c)) && r[25..29] == LE32(0) && r[29..33] == LE32(0)
    ensures r[33..41] == LE64(c.length)
  {
    EightFields(r, LE16(47 + |c.name|), LE16(0), LE32(0), QidBytes(c.qid), LE32(ModeBits(c)), LE32(0), LE32(0),
                LE64(c.length));
  }

  lemma FixedReadBack(r: seq<byte>, c: Child)
    requires InRange(c) && |r| >= 41 && r[..41] == FixedPart(c)
    ensures U16(r, 0) == 47 + |c.name| && U16(r, 2) == 0 && U32(r, 4) == 0 && ParseQid(r, 8) == c.qid
    ensures U32(r, 21) == ModeBits(c) && U32(r, 25) == 0 && U32(r, 29) == 0 && U64(r, 33) == c.length
  {
    FixedFields(r, c);
    Field16(r, 0, 47 + |c.name|);
    Field16(r, 2, 0);
    Field32(r, 4, 0);
    QidReadBack(r, 8, c.qid);
    Field32(r, 21, ModeBits(c));
    Field32(r, 25, 0);
    Field32(r, 29, 0);
    Field64(r, 33, c.length);
  }

  lemma RecordShape(c: Child, z: seq<byte>)
    requires z == LE16(0)
    ensures Record(c)[..41] == FixedPart(c) && Record(c)[41..] == Str(c.name) + (z + (z + z))
  {
    var f, t := FixedPart(c), Str(c.name);
    assert f + t + z + z + z == f + (t + (z + (z + z)));
  }

  lemma StatDescribes(t: Stat, c: Child)
    requires t.kind == 0 && t.dev == 0 && t.qid == c.qid && t.mode == ModeBits(c) && c.mode < MOD32
    requires t.atime == 0 && t.mtime == 0 && t.length == c.length && t.texts == [c.name, [], [], []]
    ensures Describes(t, c)
  {
  }

  lemma ReadBackFrom(r: seq<byte>, c: Child)
    requires InRange(c) && |r| >= 41 && r[..41] == FixedPart(c)
    requires r[41..] == Str(c.name) + (LE16(0) + (LE16(0) + LE16(0)))
    ensures U16(r, 0) == 47 + |c.name| && Describes(ParseStat(r), c)
  {
    FixedReadBack(r, c);
    TextsReadBack(r, c.name, LE16(0));
    StatDescribes(ParseStat(r), c);
  }

  lemma RecordReadBack(c: Child)
    requires InRange(c)
    ensures U16(Record(c), 0) == 47 + |c.name| && Describes(ParseStat(Record(c)), c)
  {
    RecordShape(c, LE16(0));
    ReadBackFrom(Record(c), c);
  }

  // ---------------------------------------------------------------- a whole listing

  lemma FrontParsed(r: seq<byte>, rest: seq<byte>, ts: seq<Stat>)
    requires |r| >= 41 && 2 + U16(r, 0) == |r| && ParseListing(rest) == Some(ts)
    ensures ParseListing(r + rest) == Some([ParseStat(r)] + ts)
  {
    var b := r + rest;
    assert U16(b, 0) == U16(r, 0);
    assert Front(b) == r && b[|r|..] == rest;
  }

  lemma RenderedReadBack(rs: seq<seq<byte>>, cs: seq<Child>, k: nat)
    requires Rendered(rs, cs) && k < |cs| && InRange(cs[k])
    ensures |rs[k]| >= 41 && 2 + U16(rs[k], 0) == |rs[k]| && Describes(ParseStat(rs[k]), cs[k])
  {
    assert Listed(cs, k);
    RecordReadBack(cs[k]);
  }

  /** The records from k up to m, read back. */
  lemma {:induction false} RecordsParse(rs: seq<seq<byte>>, cs: seq<Child>, k: nat, m: nat) returns (ts: seq<Stat>)
    requires Rendered(rs, cs) && k <= m <= |cs| && forall i :: 0 <= i < |cs| ==> InRange(cs[i])
    ensures ParseListing(Concat(rs[k..m])) == Some(ts) && DescribesAll(ts, cs[k..m])
    decreases m - k
  {
    if k == m {
      ts := [];
    } else {
      var rest := RecordsParse(rs, cs, k + 1, m);
      RenderedReadBack(rs, cs, k);
      FrontParsed(rs[k], Concat(rs[k + 1..m]), rest);
      ts := [ParseStat(rs[k])] + rest;
      assert rs[k..m][1..] == rs[k + 1..m];
      DescribesOneMore(ts[0], rest, cs, k, m);
    }
  }

  lemma DescribesOneMore(t: Stat, ts: seq<Stat>, cs: seq<Child>, k: nat, m: nat)
    requires k < m <= |cs| && Describes(t, cs[k]) && DescribesAll(ts, cs[k + 1..m])
    ensures DescribesAll([t] + ts, cs[k..m])
  {
    forall i | 0 <= i < m - k ensures Describes(([t] + ts)[i], cs[k..m][i]) {
      assert i > 0 ==> ([t] + ts)[i] == ts[i - 1] && cs[k..m][i] == cs[k + 1..m][i - 1];
    }
  }

  predicate ParsesTo(b: seq<byte>, cs: seq<Child>) {
    ParseListing(b).Some? && DescribesAll(ParseListing(b).value, cs)
  }

  /** A directory read page by page from offset 0, with counts that hold any one record, is taken apart by
      its reader into the children, each described once and in list order: all of them, once there are as
      many reads as children, and a prefix of them before. */
  lemma ListingReadBack(cs: seq<Child>, counts: seq<nat>)
    requires Ramfs.Holds(cs, counts) && forall i :: 0 <= i < |cs| ==> InRange(cs[i])
    ensures exists m :: 0 <= m <= |cs| && ParsesTo(Pages(Records(cs), 0, counts), cs[..m])
    ensures |counts| >= |cs| ==> ParsesTo(Pages(Records(cs), 0, counts), cs)
  {
    var rs := Records(cs);
    RecordsRendered(cs);
    PagedListing(cs, counts);
    var m :| 0 <= m <= |cs| && Pages(rs, 0, counts) == Concat(rs[..m]);
    var some := RecordsParse(rs, cs, 0, m);
    assert rs[0..m] == rs[..m] && cs[0..m] == cs[..m];
    assert ParsesTo(Pages(rs, 0, counts), cs[..m]);
    var all := RecordsParse(rs, cs, 0, |cs|);
    assert rs[0..|cs|] == rs && cs[0..|cs|] == cs;
  }
}
