/** The frames the builders write are the frames the connection speaks about. */
module ConnectionFrames {
  import opened Bytes
  import opened Session
  import D = Dispatch
  import C = Client
  import opened Wire
  import opened WalkPath
  import R = ClientRuns
  import opened Connection
  import S = ConnectionSizes

  lemma TattachFits(tag: nat, fid: nat, afid: nat, uname: seq<byte>, aname: seq<byte>)
    requires tag < MOD16 && fid < MOD32 && afid < MOD32 && |Tattach(tag, fid, afid, uname, aname)| <= 65536
    requires |uname| < MOD16 && |aname| < MOD16
    ensures FrameFor(R.Attach, fid, tag, Tattach(tag, fid, afid, uname, aname))
  {
    TattachFields(tag, fid, afid, uname, aname);
  }

  /** For a path of the client, through its splitter: the request a walk call is on record with. */
  lemma TwalkFits(tag: nat, fid: nat, newfid: nat, names: seq<seq<byte>>)
    requires tag < MOD16 && fid < MOD32 && newfid < MOD32 && |names| <= MAX_WELEM
    requires |Twalk(tag, fid, newfid, names)| <= 65536
    ensures FrameFor(R.Walk(|names|), newfid, tag, Twalk(tag, fid, newfid, names))
  {
    TwalkReadBack(tag, fid, newfid, names);
  }

  /** A write of any length, cut to the client's cap, is within the sizes of the connection. */
  lemma TwriteFits(c: C.Client, tag: nat, fid: nat, offset: nat, data: seq<byte>)
    requires tag < MOD16 && fid < MOD32 && offset < MOD64 && 23 <= c.bufSize <= 65536
    ensures var n := C.Min(|data|, C.PayloadCap(c, 23)); var m := Twrite(tag, fid, offset, data[..n]);
            FrameFor(R.Other, 0, tag, m) && S.Within(c, m) && U32(m, 19) == n && m[23..] == data[..n]
  {
    var n := C.Min(|data|, C.PayloadCap(c, 23));
    TwriteReadBack(tag, fid, offset, data[..n]);
    HeaderReadBack(TWRITE, tag, LE32(fid) + LE64(offset) + LE32(n) + data[..n]);
  }

  /** A read of any length, cut to the client's cap, asks for no more than the connection allows. */
  lemma TreadFits(c: C.Client, tag: nat, fid: nat, offset: nat, count: nat)
    requires tag < MOD16 && fid < MOD32 && offset < MOD64 && c.bufSize <= 65536
    ensures var n := C.Min(count, C.PayloadCap(c, 11)); var m := Tread(tag, fid, offset, n);
            FrameFor(R.Other, 0, tag, m) && S.Within(c, m) && U32(m, 19) == n
  {
    TreadReadBack(tag, fid, offset, C.Min(count, C.PayloadCap(c, 11)));
  }

  /** The Tversion the client builds offers its configured size. */
  lemma TversionFits(c: C.Client, version: seq<byte>)
    requires c.maxMessage < MOD32 && |version| <= 60000
    ensures var m := VersionFrame(TVERSION, C.NOTAG, c.maxMessage, version);
            FrameFor(R.Version, 0, C.NOTAG, m) && S.Offers(c, m)
  {
    VersionReadBack(TVERSION, C.NOTAG, c.maxMessage, version);
  }

  const UNKNOWN: seq<byte> := [117, 110, 107, 110, 111, 119, 110]

  /** The version reply the server builds, with its text, is accepted by the client exactly when the
      server accepted, and tells it the server's size. */
  lemma RversionEncodes(rid: nat, tag: nat, msize: nat, accepted: bool)
    requires tag < MOD16 && msize < MOD32
    ensures var m := VersionFrame(101, tag, msize, if accepted then VERSION_9P2000 else UNKNOWN);
            Encodes(m, D.Reply(rid, tag, Rversion(msize, accepted))) && (C.VersionOk(m) <==> accepted)
            && U32(m, 7) == msize
  {
    var version := if accepted then VERSION_9P2000 else UNKNOWN;
    VersionReadBack(101, tag, msize, version);
    TextBegins(version, accepted);
  }

  lemma TextBegins(version: seq<byte>, accepted: bool)
    requires version == if accepted then VERSION_9P2000 else UNKNOWN
    ensures C.Begins(version, "9P2000") <==> accepted
  {
    if accepted {
      assert C.Begins(version[6..], "9P2000"[6..]);
      assert C.Begins(version[5..], "9P2000"[5..]);
      assert C.Begins(version[4..], "9P2000"[4..]);
      assert C.Begins(version[3..], "9P2000"[3..]);
      assert C.Begins(version[2..], "9P2000"[2..]);
      assert C.Begins(version[1..], "9P2000"[1..]);
    }
  }

  /** The walk reply the server builds says to the client what the server meant. */
  lemma RwalkEncodes(rid: nat, tag: nat, qs: seq<Qid>)
    requires tag < MOD16 && |qs| <= MAX_WELEM
    ensures Encodes(RwalkFrame(tag, qs), D.Reply(rid, tag, Rwalk(qs)))
  {
    var m := RwalkFrame(tag, qs);
    HeaderReadBack(111, tag, LE16(|qs|) + QidsBytes(qs));
    assert m[7..9] == LE16(|qs|);
    Field16(m, 7, |qs|);
  }

  lemma RreadEncodes(rid: nat, tag: nat, data: seq<byte>)
    requires tag < MOD16 && 11 + |data| <= 65536
    ensures Encodes(RreadFrame(tag, data), D.Reply(rid, tag, Rread(data)))
  {
    RreadReadBack(tag, data);
    HeaderReadBack(117, tag, LE32(|data|) + data);
  }
}
