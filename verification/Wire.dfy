/**
 * The message builders, writing through an advancing offset into a buffer, against the byte strings
 * the protocol prescribes; and those byte strings against the fields the other side reads back.
 */
module Wire {
  import opened Bytes
  import opened Session

  // ---------------------------------------------------------------- byte strings

  function Header(size: nat, kind: byte, tag: nat): (b: seq<byte>)
    ensures |b| == 7
  {
    LE32(size) + [kind] + LE16(tag)
  }

  function Message(kind: byte, tag: nat, body: seq<byte>): (b: seq<byte>)
    ensures |b| == 7 + |body|
  {
    Header(7 + |body|, kind, tag) + body
  }

  function Str(s: seq<byte>): (b: seq<byte>)
    ensures |b| == 2 + |s|
  {
    LE16(|s|) + s
  }

  function Strs(names: seq<seq<byte>>): seq<byte> {
    if |names| == 0 then [] else Str(names[0]) + Strs(names[1..])
  }

  function QidBytes(q: Qid): (b: seq<byte>)
    ensures |b| == 13
  {
    [q.kind] + LE32(q.version) + LE64(q.path)
  }

  function QidsBytes(qs: seq<Qid>): (b: seq<byte>)
    ensures |b| == 13 * |qs|
  {
    if |qs| == 0 then [] else QidBytes(qs[0]) + QidsBytes(qs[1..])
  }

  function Tattach(tag: nat, fid: nat, afid: nat, uname: seq<byte>, aname: seq<byte>): seq<byte> {
    Message(TATTACH, tag, LE32(fid) + LE32(afid) + Str(uname) + Str(aname))
  }

  function Tauth(tag: nat, afid: nat, uname: seq<byte>, aname: seq<byte>): seq<byte> {
    Message(TAUTH, tag, LE32(afid) + (Str(uname) + Str(aname)))
  }

  function Twalk(tag: nat, fid: nat, newfid: nat, names: seq<seq<byte>>): seq<byte> {
    Message(TWALK, tag, LE32(fid) + LE32(newfid) + LE16(|names|) + Strs(names))
  }

  function RwalkFrame(tag: nat, qs: seq<Qid>): seq<byte> {
    Message(111, tag, LE16(|qs|) + QidsBytes(qs))
  }

  function Twrite(tag: nat, fid: nat, offset: nat, data: seq<byte>): seq<byte> {
    Message(TWRITE, tag, LE32(fid) + LE64(offset) + LE32(|data|) + data)
  }

  function Tread(tag: nat, fid: nat, offset: nat, count: nat): seq<byte> {
    Message(TREAD, tag, LE32(fid) + LE64(offset) + LE32(count))
  }

  /** Tversion or Rversion. */
  function VersionFrame(kind: byte, tag: nat, msize: nat, version: seq<byte>): seq<byte> {
    Message(kind, tag, LE32(msize) + Str(version))
  }

  function RreadFrame(tag: nat, data: seq<byte>): seq<byte> {
    Message(117, tag, LE32(|data|) + data)
  }

  // ---------------------------------------------------------------- writing into a buffer

  /** s with b written over it at off. */
  function Patch(s: seq<byte>, off: nat, b: seq<byte>): (r: seq<byte>)
    requires off + |b| <= |s|
    ensures |r| == |s|
    ensures forall k :: 0 <= k < |s| ==> r[k] == if off <= k < off + |b| then b[k - off] else s[k]
  {
    s[..off] + b + s[off + |b|..]
  }

  lemma PatchTwice(s: seq<byte>, off: nat, a: seq<byte>, b: seq<byte>)
    requires off + |a| + |b| <= |s|
    ensures Patch(Patch(s, off, a), off + |a|, b) == Patch(s, off, a + b)
  {
  }

  /** Bytes already in place need not be written. */
  lemma PatchInPlace(s: seq<byte>, a: seq<byte>, n: nat)
    requires |a| + n <= |s|
    ensures Patch(s, 0, a) == Patch(s, 0, a + s[|a|..|a| + n])
  {
  }

  method PutBytes(buf: array<byte>, off: nat, b: seq<byte>) returns (next: nat)
    requires off + |b| <= buf.Length
    modifies buf
    ensures next == off + |b| && buf[..] == Patch(old(buf[..]), off, b)
  {
    for i := 0 to |b|
      invariant forall k :: 0 <= k < buf.Length ==> buf[k] == if off <= k < off + i then b[k - off] else old(buf[k])
    {
      buf[off + i] := b[i];
    }
    next := off + |b|;
  }

  method PutU16(buf: array<byte>, off: nat, v: nat) returns (next: nat)
    requires off + 2 <= buf.Length
    modifies buf
    ensures next == off + 2 && buf[..] == Patch(old(buf[..]), off, LE16(v))
  {
    buf[off] := v % 0x100;
    buf[off + 1] := v / 0x100 % 0x100;
    next := off + 2;
  }

  method PutU32(buf: array<byte>, off: nat, v: nat) returns (next: nat)
    requires off + 4 <= buf.Length
    modifies buf
    ensures next == off + 4 && buf[..] == Patch(old(buf[..]), off, LE32(v))
  {
    next := PutU16(buf, off, v % MOD16);
    next := PutU16(buf, next, v / MOD16 % MOD16);
    PatchTwice(old(buf[..]), off, LE16(v % MOD16), LE16(v / MOD16 % MOD16));
  }

  method PutU64(buf: array<byte>, off: nat, v: nat) returns (next: nat)
    requires off + 8 <= buf.Length
    modifies buf
    ensures next == off + 8 && buf[..] == Patch(old(buf[..]), off, LE64(v))
  {
    next := PutU32(buf, off, v % MOD32);
    next := PutU32(buf, next, v / MOD32 % MOD32);
    PatchTwice(old(buf[..]), off, LE32(v % MOD32), LE32(v / MOD32 % MOD32));
  }

  /** ninep_write_header; 0 for a buffer that is too small. */
  method PutHeader(buf: array<byte>, size: nat, kind: byte, tag: nat) returns (next: nat)
    modifies buf
    ensures if buf.Length < 7 then next == 0 && buf[..] == old(buf[..])
            else next == 7 && buf[..] == Patch(old(buf[..]), 0, Header(size, kind, tag))
  {
    if buf.Length < 7 {
      return 0;
    }
    next := PutU32(buf, 0, size);
    buf[4] := kind;
    next := PutU16(buf, 5, tag);
  }

  /** ninep_write_string; 0 when the string does not fit. */
  method PutString(buf: array<byte>, off: nat, s: seq<byte>) returns (next: nat)
    modifies buf
    ensures if off + 2 + |s| > buf.Length then next == 0 && buf[..] == old(buf[..])
            else next == off + 2 + |s| && buf[..] == Patch(old(buf[..]), off, Str(s))
  {
    if off + 2 + |s| > buf.Length {
      return 0;
    }
    next := PutU16(buf, off, |s|);
    next := PutBytes(buf, next, s);
    PatchTwice(old(buf[..]), off, LE16(|s|), s);
  }

  /** ninep_write_qid; 0 when the qid does not fit. */
  method PutQid(buf: array<byte>, off: nat, q: Qid) returns (next: nat)
    modifies buf
    ensures if off + 13 > buf.Length then next == 0 && buf[..] == old(buf[..])
            else next == off + 13 && buf[..] == Patch(old(buf[..]), off, QidBytes(q))
  {
    if off + 13 > buf.Length {
      return 0;
    }
    buf[off] := q.kind;
    ghost var s1 := buf[..];
    assert s1 == Patch(old(buf[..]), off, [q.kind]);
    next := PutU32(buf, off + 1, q.version);
    PatchTwice(old(buf[..]), off, [q.kind], LE32(q.version));
    next := PutU64(buf, next, q.path);
    PatchTwice(old(buf[..]), off, [q.kind] + LE32(q.version), LE64(q.path));
  }

  datatype Built = Built(n: nat) | Invalid | TooSmall

  // ---------------------------------------------------------------- ninep_build_twalk

  lemma {:induction false} StrsSnoc(names: seq<seq<byte>>, i: nat)
    requires i < |names|
    ensures Strs(names[..i + 1]) == Strs(names[..i]) + Str(names[i])
    ensures |Strs(names[..i + 1])| <= |Strs(names)|
    decreases i
  {
    if i > 0 {
      assert names[..i + 1][1..] == names[1..][..i] && names[..i][1..] == names[1..][..i - 1];
      StrsSnoc(names[1..], i - 1);
    }
  }

  function WalkHead(size: nat, tag: nat, fid: nat, newfid: nat, n: nat): (b: seq<byte>)
    ensures |b| == 17
  {
    Header(size, TWALK, tag) + LE32(fid) + LE32(newfid) + LE16(n)
  }

  method WalkSize(names: seq<seq<byte>>) returns (size: nat)
    ensures size == 17 + |Strs(names)|
  {
    size := 17;
    for i := 0 to |names|
      invariant size == 17 + |Strs(names[..i])|
    {
      StrsSnoc(names, i);
      size := size + 2 + |names[i]|;
    }
    assert names[..|names|] == names;
  }

  method PutWalkHead(buf: array<byte>, size: nat, tag: nat, fid: nat, newfid: nat, n: nat) returns (off: nat)
    requires buf.Length >= 17
    modifies buf
    ensures off == 17 && buf[..] == Patch(old(buf[..]), 0, WalkHead(size, tag, fid, newfid, n))
  {
    ghost var s, h := old(buf[..]), Header(size, TWALK, tag);
    off := PutHeader(buf, size, TWALK, tag);
    off := PutU32(buf, off, fid);
    PatchTwice(s, 0, h, LE32(fid));
    off := PutU32(buf, off, newfid);
    PatchTwice(s, 0, h + LE32(fid), LE32(newfid));
    off := PutU16(buf, off, n);
    PatchTwice(s, 0, h + LE32(fid) + LE32(newfid), LE16(n));
  }

  method PutStrings(buf: array<byte>, start: nat, names: seq<seq<byte>>) returns (off: nat)
    requires start + |Strs(names)| <= buf.Length
    modifies buf
    ensures off == start + |Strs(names)| && buf[..] == Patch(old(buf[..]), start, Strs(names))
  {
    off := start;
    ghost var s := old(buf[..]);
    for i := 0 to |names|
      invariant off == start + |Strs(names[..i])| <= buf.Length
      invariant buf[..] == Patch(s, start, Strs(names[..i]))
    {
      StrsSnoc(names, i);
      off := PutString(buf, off, names[i]);
      PatchTwice(s, start, Strs(names[..i]), Str(names[i]));
    }
    assert names[..|names|] == names;
  }

  /** Walk names are laid out one after the other behind a size computed in a first pass. */
  method BuildTwalk(buf: array<byte>, tag: nat, fid: nat, newfid: nat, names: seq<seq<byte>>) returns (r: Built)
    modifies buf
    ensures r == if buf.Length < 7 || |names| > MAX_WELEM then Invalid
                 else if buf.Length < |Twalk(tag, fid, newfid, names)| then TooSmall
                 else Built(|Twalk(tag, fid, newfid, names)|)
    ensures buf[..] == if r.Built? then Patch(old(buf[..]), 0, Twalk(tag, fid, newfid, names)) else old(buf[..])
  {
    if buf.Length < 7 || |names| > MAX_WELEM {
      return Invalid;
    }
    var size := WalkSize(names);
    if buf.Length < size {
      return TooSmall;
    }
    ghost var head := WalkHead(size, tag, fid, newfid, |names|);
    assert head + Strs(names) == Twalk(tag, fid, newfid, names);
    var off := PutWalkHead(buf, size, tag, fid, newfid, |names|);
    off := PutStrings(buf, off, names);
    PatchTwice(old(buf[..]), 0, head, Strs(names));
    r := Built(off);
  }

  // ---------------------------------------------------------------- ninep_build_rwalk

  lemma {:induction false} QidsSnoc(qs: seq<Qid>, i: nat)
    requires i < |qs|
    ensures QidsBytes(qs[..i + 1]) == QidsBytes(qs[..i]) + QidBytes(qs[i])
    decreases i
  {
    if i > 0 {
      assert qs[..i + 1][1..] == qs[1..][..i] && qs[..i][1..] == qs[1..][..i - 1];
      QidsSnoc(qs[1..], i - 1);
    }
  }

  function RwalkHead(size: nat, tag: nat, n: nat): (b: seq<byte>)
    ensures |b| == 9
  {
    Header(size, 111, tag) + LE16(n)
  }

  method PutRwalkHead(buf: array<byte>, size: nat, tag: nat, n: nat) returns (off: nat)
    requires buf.Length >= 9
    modifies buf
    ensures off == 9 && buf[..] == Patch(old(buf[..]), 0, RwalkHead(size, tag, n))
  {
    off := PutHeader(buf, size, 111, tag);
    off := PutU16(buf, off, n);
    PatchTwice(old(buf[..]), 0, Header(size, 111, tag), LE16(n));
  }

  method PutQids(buf: array<byte>, start: nat, qs: seq<Qid>) returns (off: nat)
    requires start + 13 * |qs| <= buf.Length
    modifies buf
    ensures off == start + 13 * |qs| && buf[..] == Patch(old(buf[..]), start, QidsBytes(qs))
  {
    off := start;
    ghost var s := old(buf[..]);
    for i := 0 to |qs|
      invariant off == start + 13 * i
      invariant buf[..] == Patch(s, start, QidsBytes(qs[..i]))
    {
      QidsSnoc(qs, i);
      off := PutQid(buf, off, qs[i]);
      PatchTwice(s, start, QidsBytes(qs[..i]), QidBytes(qs[i]));
    }
    assert qs[..|qs|] == qs;
  }

  lemma Regroup(a: seq<byte>, b: seq<byte>, c: seq<byte>)
    ensures a + b + c == a + (b + c)
  {
  }

  method BuildRwalk(buf: array<byte>, tag: nat, qs: seq<Qid>) returns (r: Built)
    modifies buf
    ensures r == if buf.Length < 7 || |qs| > MAX_WELEM then Invalid
                 else if buf.Length < 9 + 13 * |qs| then TooSmall else Built(9 + 13 * |qs|)
    ensures buf[..] == if r.Built? then Patch(old(buf[..]), 0, RwalkFrame(tag, qs)) else old(buf[..])
  {
    if buf.Length < 7 || |qs| > MAX_WELEM {
      return Invalid;
    }
    var size := 9 + 13 * |qs|;
    if buf.Length < size {
      return TooSmall;
    }
    var off := PutRwalkHead(buf, size, tag, |qs|);
    off := PutQids(buf, off, qs);
    PatchTwice(old(buf[..]), 0, RwalkHead(size, tag, |qs|), QidsBytes(qs));
    Regroup(Header(size, 111, tag), LE16(|qs|), QidsBytes(qs));
    r := Built(off);
  }

  // ---------------------------------------------------------------- Tattach, Twrite and Rread

  function AttachHead(size: nat, tag: nat, fid: nat, afid: nat): (b: seq<byte>)
    ensures |b| == 15
  {
    Header(size, TATTACH, tag) + (LE32(fid) + LE32(afid))
  }

  method PutAttachHead(buf: array<byte>, size: nat, tag: nat, fid: nat, afid: nat) returns (off: nat)
    requires buf.Length >= 15
    modifies buf
    ensures off == 15 && buf[..] == Patch(old(buf[..]), 0, AttachHead(size, tag, fid, afid))
  {
    ghost var s, h := old(buf[..]), Header(size, TATTACH, tag);
    off := PutHeader(buf, size, TATTACH, tag);
    off := PutU32(buf, off, fid);
    PatchTwice(s, 0, h, LE32(fid));
    off := PutU32(buf, off, afid);
    PatchTwice(s, 0, h + LE32(fid), LE32(afid));
    Regroup(h, LE32(fid), LE32(afid));
  }

  method PutNames(buf: array<byte>, start: nat, uname: seq<byte>, aname: seq<byte>) returns (off: nat)
    requires start + 4 + |uname| + |aname| <= buf.Length
    modifies buf
    ensures off == start + 4 + |uname| + |aname| && buf[..] == Patch(old(buf[..]), start, Str(uname) + Str(aname))
  {
    off := PutString(buf, start, uname);
    off := PutString(buf, off, aname);
    PatchTwice(old(buf[..]), start, Str(uname), Str(aname));
  }

  lemma AttachParts(h: seq<byte>, f: seq<byte>, a: seq<byte>, u: seq<byte>, n: seq<byte>)
    ensures h + (f + a) + (u + n) == h + (f + a + u + n)
  {
  }

  lemma AttachFrame(tag: nat, fid: nat, afid: nat, uname: seq<byte>, aname: seq<byte>)
    ensures AttachHead(19 + |uname| + |aname|, tag, fid, afid) + (Str(uname) + Str(aname))
            == Tattach(tag, fid, afid, uname, aname)
  {
    AttachParts(Header(19 + |uname| + |aname|, TATTACH, tag), LE32(fid), LE32(afid), Str(uname), Str(aname));
  }

  lemma AttachWritten(s: seq<byte>, t: seq<byte>, u: seq<byte>, tag: nat, fid: nat, afid: nat, uname: seq<byte>,
                      aname: seq<byte>)
    requires |s| == |t| && 19 + |uname| + |aname| <= |s|
    requires t == Patch(s, 0, AttachHead(19 + |uname| + |aname|, tag, fid, afid))
             && u == Patch(t, 15, Str(uname) + Str(aname))
    ensures u == Patch(s, 0, Tattach(tag, fid, afid, uname, aname))
  {
    var head, names := AttachHead(19 + |uname| + |aname|, tag, fid, afid), Str(uname) + Str(aname);
    PatchTwice(s, 0, head, names);
    AttachFrame(tag, fid, afid, uname, aname);
  }

  method BuildTattach(buf: array<byte>, tag: nat, fid: nat, afid: nat, uname: seq<byte>, aname: seq<byte>)
    returns (r: Built)
    modifies buf
    ensures r == if buf.Length < 7 then Invalid
                 else if buf.Length < 19 + |uname| + |aname| then TooSmall else Built(19 + |uname| + |aname|)
    ensures buf[..] == if r.Built? then Patch(old(buf[..]), 0, Tattach(tag, fid, afid, uname, aname)) else old(buf[..])
  {
    if buf.Length < 7 {
      return Invalid;
    }
    var size := 19 + |uname| + |aname|;
    if buf.Length < size {
      return TooSmall;
    }
    ghost var s := buf[..];
    var off := PutAttachHead(buf, size, tag, fid, afid);
    ghost var t := buf[..];
    off := PutNames(buf, off, uname, aname);
    AttachWritten(s, t, buf[..], tag, fid, afid, uname, aname);
    r := Built(off);
  }

  method BuildTwrite(buf: array<byte>, tag: nat, fid: nat, offset: nat, data: seq<byte>) returns (r: Built)
    modifies buf
    ensures r == if buf.Length < 7 then Invalid else if buf.Length < 23 + |data| then TooSmall else Built(23 + |data|)
    ensures buf[..] == if r.Built? then Patch(old(buf[..]), 0, Twrite(tag, fid, offset, data)) else old(buf[..])
  {
    if buf.Length < 7 {
      return Invalid;
    }
    var size := 23 + |data|;
    if buf.Length < size {
      return TooSmall;
    }
    ghost var s, h := old(buf[..]), Header(size, TWRITE, tag);
    var pos := PutHeader(buf, size, TWRITE, tag);
    pos := PutU32(buf, pos, fid);
    PatchTwice(s, 0, h, LE32(fid));
    pos := PutU64(buf, pos, offset);
    PatchTwice(s, 0, h + LE32(fid), LE64(offset));
    pos := PutU32(buf, pos, |data|);
    PatchTwice(s, 0, h + LE32(fid) + LE64(offset), LE32(|data|));
    pos := PutBytes(buf, pos, data);
    PatchTwice(s, 0, h + LE32(fid) + LE64(offset) + LE32(|data|), data);
    assert h + LE32(fid) + LE64(offset) + LE32(|data|) + data == Twrite(tag, fid, offset, data);
    r := Built(pos);
  }

  method BuildTread(buf: array<byte>, tag: nat, fid: nat, offset: nat, count: nat) returns (r: Built)
    modifies buf
    ensures r == if buf.Length < 7 then Invalid else if buf.Length < 23 then TooSmall else Built(23)
    ensures buf[..] == if r.Built? then Patch(old(buf[..]), 0, Tread(tag, fid, offset, count)) else old(buf[..])
  {
    if buf.Length < 7 {
      return Invalid;
    }
    if buf.Length < 23 {
      return TooSmall;
    }
    ghost var s, h := old(buf[..]), Header(23, TREAD, tag);
    var pos := PutHeader(buf, 23, TREAD, tag);
    pos := PutU32(buf, pos, fid);
    PatchTwice(s, 0, h, LE32(fid));
    pos := PutU64(buf, pos, offset);
    PatchTwice(s, 0, h + LE32(fid), LE64(offset));
    pos := PutU32(buf, pos, count);
    PatchTwice(s, 0, h + LE32(fid) + LE64(offset), LE32(count));
    assert h + LE32(fid) + LE64(offset) + LE32(count) == Tread(tag, fid, offset, count);
    r := Built(pos);
  }

  /** ninep_build_tversion and ninep_build_rversion, which differ in the type alone. */
  method BuildVersion(buf: array<byte>, kind: byte, tag: nat, msize: nat, version: seq<byte>) returns (r: Built)
    modifies buf
    ensures r == if buf.Length < 7 then Invalid
                 else if buf.Length < 13 + |version| then TooSmall else Built(13 + |version|)
    ensures buf[..] == if r.Built? then Patch(old(buf[..]), 0, VersionFrame(kind, tag, msize, version))
            else old(buf[..])
  {
    if buf.Length < 7 {
      return Invalid;
    }
    var size := 13 + |version|;
    if buf.Length < size {
      return TooSmall;
    }
    ghost var s, h := old(buf[..]), Header(size, kind, tag);
    var pos := PutHeader(buf, size, kind, tag);
    pos := PutU32(buf, pos, msize);
    PatchTwice(s, 0, h, LE32(msize));
    pos := PutString(buf, pos, version);
    PatchTwice(s, 0, h + LE32(msize), Str(version));
    Regroup(h, LE32(msize), Str(version));
    r := Built(pos);
  }

  function RreadHead(size: nat, tag: nat, count: nat): (b: seq<byte>)
    ensures |b| == 11
  {
    Header(size, 117, tag) + LE32(count)
  }

  method PutRreadHead(buf: array<byte>, size: nat, tag: nat, count: nat)
    requires buf.Length >= 11
    modifies buf
    ensures buf[..] == Patch(old(buf[..]), 0, RreadHead(size, tag, count))
  {
    var off := PutHeader(buf, size, 117, tag);
    off := PutU32(buf, off, count);
    PatchTwice(old(buf[..]), 0, Header(size, 117, tag), LE32(count));
  }

  lemma RreadParts(tag: nat, data: seq<byte>)
    ensures RreadHead(11 + |data|, tag, |data|) + data == RreadFrame(tag, data)
  {
    Regroup(Header(11 + |data|, 117, tag), LE32(|data|), data);
  }

  /** A head written in front of bytes that are already in place. */
  lemma HeadWritten(s: seq<byte>, head: seq<byte>, data: seq<byte>, frame: seq<byte>)
    requires |head| + |data| <= |s| && data == s[|head|..|head| + |data|] && frame == head + data
    ensures Patch(s, 0, head) == Patch(s, 0, frame)
  {
    PatchInPlace(s, head, |data|);
  }

  /** The payload is already in place behind the eleven bytes written here. */
  method BuildRread(buf: array<byte>, tag: nat, count: nat) returns (r: Built)
    modifies buf
    ensures r == if buf.Length < 11 + count then Invalid else Built(11 + count)
    ensures r.Invalid? ==> buf[..] == old(buf[..])
    ensures r.Built? ==> buf[..] == Patch(old(buf[..]), 0, RreadFrame(tag, old(buf[..])[11..11 + count]))
  {
    if buf.Length < 11 + count {
      return Invalid;
    }
    ghost var s, data := buf[..], buf[..][11..11 + count];
    PutRreadHead(buf, 11 + count, tag, count);
    RreadParts(tag, data);
    HeadWritten(s, RreadHead(11 + count, tag, count), data, RreadFrame(tag, data));
    r := Built(11 + count);
  }

  // ---------------------------------------------------------------- reading back

  lemma U16Slice(b: seq<byte>, i: nat)
    requires i + 2 <= |b|
    ensures U16(b, i) == U16(b[i..i + 2], 0)
  {
  }

  lemma U32Slice(b: seq<byte>, i: nat)
    requires i + 4 <= |b|
    ensures U32(b, i) == U32(b[i..i + 4], 0)
  {
  }

  /** Whatever stands in a byte string at i can be read back from there. */
  lemma Field16(b: seq<byte>, i: nat, v: nat)
    requires i + 2 <= |b| && b[i..i + 2] == LE16(v) && v < MOD16
    ensures U16(b, i) == v
  {
    U16Slice(b, i);
  }

  lemma Field32(b: seq<byte>, i: nat, v: nat)
    requires i + 4 <= |b| && b[i..i + 4] == LE32(v) && v < MOD32
    ensures U32(b, i) == v
  {
    U32Slice(b, i);
  }

  lemma Field64(b: seq<byte>, i: nat, v: nat)
    requires i + 8 <= |b| && b[i..i + 8] == LE64(v) && v < MOD64
    ensures U64(b, i) == v
  {
    assert b[i..i + 8][0..4] == b[i..i + 4] && b[i..i + 8][4..8] == b[i + 4..i + 8];
    U32Slice(b, i);
    U32Slice(b, i + 4);
    U32Slice(b[i..i + 8], 0);
    U32Slice(b[i..i + 8], 4);
  }

  lemma HeaderReadBack(kind: byte, tag: nat, body: seq<byte>)
    requires tag < MOD16 && 7 + |body| < MOD32
    ensures var m := Message(kind, tag, body);
            U32(m, 0) == |m| && m[4] == kind && U16(m, 5) == tag && m[7..] == body
  {
    var m := Message(kind, tag, body);
    Field32(m, 0, |m|);
    assert m[5..7] == LE16(tag);
    Field16(m, 5, tag);
  }

  /** A Twrite round trip: what the server's parser extracts is what the client put in. */
  lemma TwriteReadBack(tag: nat, fid: nat, offset: nat, data: seq<byte>)
    requires tag < MOD16 && fid < MOD32 && offset < MOD64 && 23 + |data| < MOD32
    ensures var m := Twrite(tag, fid, offset, data);
            |m| == 23 + |data| && U32(m, 0) == |m| && m[4] == TWRITE && U16(m, 5) == tag && U32(m, 7) == fid
            && U64(m, 11) == offset
            && U32(m, 19) == |data| && m[23..] == data
  {
    var m := Twrite(tag, fid, offset, data);
    HeaderReadBack(TWRITE, tag, LE32(fid) + LE64(offset) + LE32(|data|) + data);
    assert m[7..11] == LE32(fid) && m[11..19] == LE64(offset) && m[19..23] == LE32(|data|);
    Field32(m, 7, fid);
    Field64(m, 11, offset);
    Field32(m, 19, |data|);
  }

  lemma TreadReadBack(tag: nat, fid: nat, offset: nat, count: nat)
    requires tag < MOD16 && fid < MOD32 && offset < MOD64 && count < MOD32
    ensures var m := Tread(tag, fid, offset, count);
            |m| == 23 && U32(m, 0) == 23 && m[4] == TREAD && U16(m, 5) == tag && U32(m, 7) == fid
            && U64(m, 11) == offset
            && U32(m, 19) == count
  {
    var m := Tread(tag, fid, offset, count);
    HeaderReadBack(TREAD, tag, LE32(fid) + LE64(offset) + LE32(count));
    assert m[7..11] == LE32(fid) && m[11..19] == LE64(offset) && m[19..23] == LE32(count);
    Field32(m, 7, fid);
    Field64(m, 11, offset);
    Field32(m, 19, count);
  }

  lemma VersionReadBack(kind: byte, tag: nat, msize: nat, version: seq<byte>)
    requires tag < MOD16 && msize < MOD32 && |version| < MOD16
    ensures var m := VersionFrame(kind, tag, msize, version);
            |m| == 13 + |version| && U32(m, 0) == |m| && m[4] == kind && U16(m, 5) == tag && U32(m, 7) == msize
            && U16(m, 11) == |version| && m[13..] == version
  {
    var m := VersionFrame(kind, tag, msize, version);
    HeaderReadBack(kind, tag, LE32(msize) + Str(version));
    Peel(m, 7, LE32(msize), Str(version));
    Field32(m, 7, msize);
    assert Str(version) == Str(version) + [];
    NameReadBack(m, 11, version, []);
  }

  /** Two parts of what follows position k. */
  lemma Peel(m: seq<byte>, k: nat, a: seq<byte>, b: seq<byte>)
    requires k <= |m| && m[k..] == a + b
    ensures k + |a| <= |m| && m[k..k + |a|] == a && m[k + |a|..] == b
  {
    assert m[k..][..|a|] == a && m[k..][|a|..] == b;
  }

  lemma TattachFields(tag: nat, fid: nat, afid: nat, uname: seq<byte>, aname: seq<byte>)
    requires tag < MOD16 && fid < MOD32 && afid < MOD32 && |uname| < MOD16 && |aname| < MOD16
    ensures var m := Tattach(tag, fid, afid, uname, aname);
            && |m| == 19 + |uname| + |aname| && U32(m, 0) == |m| && m[4] == TATTACH && U16(m, 5) == tag
            && U32(m, 7) == fid && U32(m, 11) == afid && m[15..] == Str(uname) + Str(aname)
  {
    var m := Tattach(tag, fid, afid, uname, aname);
    HeaderReadBack(TATTACH, tag, LE32(fid) + LE32(afid) + Str(uname) + Str(aname));
    AttachParts([], LE32(fid), LE32(afid), Str(uname), Str(aname));
    Peel(m, 7, LE32(fid) + LE32(afid), Str(uname) + Str(aname));
    AttachNumbers(m, fid, afid);
  }

  /** A Tattach round trip, as far as the frame decides it. Where the server looks for the aname depends
      on the session too: see AttachPaths. */
  lemma TattachReadBack(tag: nat, fid: nat, afid: nat, uname: seq<byte>, aname: seq<byte>, env: Env)
    requires tag < MOD16 && fid < MOD32 && afid < MOD32 && |uname| < MOD16 && |aname| < MOD16
    ensures var m := Tattach(tag, fid, afid, uname, aname);
            && |m| == 19 + |uname| + |aname| && U32(m, 0) == |m| && m[4] == TATTACH && U16(m, 5) == tag
            && U32(m, 7) == fid && U32(m, 11) == afid && U16(m, 15) == |uname|
            && AttachUname(m, env) == uname && AttachAname(m, |uname|) == aname
  {
    TattachFields(tag, fid, afid, uname, aname);
    AttachNames(Tattach(tag, fid, afid, uname, aname), uname, aname, env);
  }

  lemma AttachNumbers(m: seq<byte>, fid: nat, afid: nat)
    requires |m| >= 15 && m[7..15] == LE32(fid) + LE32(afid) && fid < MOD32 && afid < MOD32
    ensures U32(m, 7) == fid && U32(m, 11) == afid
  {
    assert m[7..15][..4] == m[7..11] && m[7..15][4..] == m[11..15];
    Field32(m, 7, fid);
    Field32(m, 11, afid);
  }

  lemma NameReadBack(m: seq<byte>, off: nat, name: seq<byte>, rest: seq<byte>)
    requires off <= |m| && m[off..] == Str(name) + rest && |name| < MOD16
    ensures off + 2 + |name| <= |m| && U16(m, off) == |name| && m[off + 2..off + 2 + |name|] == name
    ensures m[off + 2 + |name|..] == rest
  {
    Peel(m, off, Str(name), rest);
    TailSlice(m, off, Str(name) + rest, 0, 2);
    TailSlice(m, off, Str(name) + rest, 2, |name|);
    assert (Str(name) + rest)[0..2] == LE16(|name|) && (Str(name) + rest)[2..2 + |name|] == name;
    Field16(m, off, |name|);
  }

  lemma AttachNames(m: seq<byte>, uname: seq<byte>, aname: seq<byte>, env: Env)
    requires |m| >= 15 && m[15..] == Str(uname) + Str(aname) && |uname| < MOD16 && |aname| < MOD16
    ensures |m| == 19 + |uname| + |aname| && U16(m, 15) == |uname|
    ensures AttachUname(m, env) == uname && AttachAname(m, |uname|) == aname
  {
    NameReadBack(m, 15, uname, Str(aname));
    assert Str(aname) == Str(aname) + [];
    NameReadBack(m, 17 + |uname|, aname, []);
  }

  lemma TauthReadBack(tag: nat, afid: nat, uname: seq<byte>, aname: seq<byte>, env: Env)
    requires tag < MOD16 && afid < MOD32 && 0 < |uname| < MOD16 && |aname| < MOD16
    ensures var m := Tauth(tag, afid, uname, aname);
            && |m| == 15 + |uname| + |aname| && U32(m, 0) == |m| && m[4] == TAUTH && U16(m, 5) == tag
            && U32(m, 7) == afid && AuthUname(m, env) == uname
  {
    var m := Tauth(tag, afid, uname, aname);
    HeaderReadBack(TAUTH, tag, LE32(afid) + (Str(uname) + Str(aname)));
    Peel(m, 7, LE32(afid), Str(uname) + Str(aname));
    Field32(m, 7, afid);
    NameReadBack(m, 11, uname, Str(aname));
  }

  lemma RreadReadBack(tag: nat, data: seq<byte>)
    requires tag < MOD16 && 11 + |data| < MOD32
    ensures var m := RreadFrame(tag, data);
            |m| == 11 + |data| && U32(m, 0) == |m| && m[4] == 117 && U16(m, 5) == tag && U32(m, 7) == |data|
            && m[11..] == data
  {
    var m := RreadFrame(tag, data);
    HeaderReadBack(117, tag, LE32(|data|) + data);
    assert m[7..11] == LE32(|data|);
    Field32(m, 7, |data|);
  }

  lemma SliceOfSlice(b: seq<byte>, o: nat, n: nat, i: nat, m: nat)
    requires o + n <= |b| && i + m <= n
    ensures b[o..o + n][i..i + m] == b[o + i..o + i + m]
  {
    var c := b[o..o + n];
    var l, r := c[i..i + m], b[o + i..o + i + m];
    forall k | 0 <= k < m ensures l[k] == r[k] {
      assert c[i + k] == b[o + i + k];
    }
  }

  function ParseQid(b: seq<byte>, off: nat): Qid
    requires off + 13 <= |b|
  {
    Qid(b[off], U32(b, off + 1), U64(b, off + 5))
  }

  predicate QidFits(q: Qid) { q.version < MOD32 && q.path < MOD64 }

  lemma QidReadBack(b: seq<byte>, off: nat, q: Qid)
    requires off + 13 <= |b| && b[off..off + 13] == QidBytes(q) && QidFits(q)
    ensures ParseQid(b, off) == q
  {
    SliceOfSlice(b, off, 13, 1, 4);
    SliceOfSlice(b, off, 13, 5, 8);
    assert QidBytes(q)[1..5] == LE32(q.version) && QidBytes(q)[5..13] == LE64(q.path);
    assert b[off..off + 13][0] == b[off];
    Field32(b, off + 1, q.version);
    Field64(b, off + 5, q.path);
  }

  lemma BehindFirst(a: seq<byte>, r: seq<byte>, k: nat, n: nat)
    requires k + n <= |r|
    ensures (a + r)[|a| + k..|a| + k + n] == r[k..k + n]
  {
  }

  lemma {:induction false} QidsAt(qs: seq<Qid>, i: nat)
    requires i < |qs|
    ensures QidsBytes(qs)[13 * i..13 * i + 13] == QidBytes(qs[i])
    decreases i
  {
    if i > 0 {
      QidsAt(qs[1..], i - 1);
      BehindFirst(QidBytes(qs[0]), QidsBytes(qs[1..]), 13 * (i - 1), 13);
    }
  }

  lemma TailSlice(m: seq<byte>, k: nat, t: seq<byte>, i: nat, n: nat)
    requires k <= |m| && m[k..] == t && i + n <= |t|
    ensures m[k + i..k + i + n] == t[i..i + n]
  {
    assert m[k..][i..i + n] == m[k + i..k + i + n];
  }

  lemma RwalkQid(m: seq<byte>, qs: seq<Qid>, i: nat)
    requires |m| == 9 + 13 * |qs| && m[9..] == QidsBytes(qs) && i < |qs| && QidFits(qs[i])
    ensures ParseQid(m, 9 + 13 * i) == qs[i]
  {
    var off, q := 9 + 13 * i, QidBytes(qs[i]);
    assert m[off..off + 13] == q by {
      QidsAt(qs, i);
      TailSlice(m, 9, QidsBytes(qs), 13 * i, 13);
    }
    QidReadBack(m, off, qs[i]);
  }

  /** An Rwalk round trip: its count and every qid, the last of which the client keeps for newfid. */
  lemma RwalkReadBack(tag: nat, qs: seq<Qid>, i: nat)
    requires tag < MOD16 && i < |qs| <= MAX_WELEM && QidFits(qs[i])
    ensures var m := RwalkFrame(tag, qs);
            |m| == 9 + 13 * |qs| && U32(m, 0) == |m| && m[4] == 111 && U16(m, 5) == tag && U16(m, 7) == |qs|
            && ParseQid(m, 9 + 13 * i) == qs[i]
  {
    var m := RwalkFrame(tag, qs);
    HeaderReadBack(111, tag, LE16(|qs|) + QidsBytes(qs));
    Peel(m, 7, LE16(|qs|), QidsBytes(qs));
    Field16(m, 7, |qs|);
    RwalkQid(m, qs, i);
  }
}
