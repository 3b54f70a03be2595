/**
 * The two framers on any stream of bytes, damaged or not: every byte received ends up in a frame that is
 * delivered, in a piece that is dropped for a stated reason, or in the buffer.
 */
module FramingPieces {
  import opened Bytes
  import opened Framing

  datatype Piece =
    | Frame(bytes: seq<byte>)
    | BadHeader(bytes: seq<byte>)
    | Overrun(bytes: seq<byte>)
    | BadSize(bytes: seq<byte>)

  function Texts(ps: seq<Piece>): seq<seq<byte>> {
    if |ps| == 0 then [] else Texts(ps[..|ps| - 1]) + [ps[|ps| - 1].bytes]
  }

  /** The frames among the pieces, in order. */
  function Frames(ps: seq<Piece>): seq<seq<byte>> {
    if |ps| == 0 then []
    else Frames(ps[..|ps| - 1]) + if ps[|ps| - 1].Frame? then [ps[|ps| - 1].bytes] else []
  }

  lemma OnePieceMore(ps: seq<Piece>, p: Piece)
    ensures Concat(Texts(ps + [p])) == Concat(Texts(ps)) + p.bytes
    ensures Frames(ps + [p]) == Frames(ps) + if p.Frame? then [p.bytes] else []
  {
    assert (ps + [p])[..|ps|] == ps;
    ConcatSplit(Texts(ps) + [p.bytes], |Texts(ps)|);
    assert (Texts(ps) + [p.bytes])[..|Texts(ps)|] == Texts(ps);
    assert (Texts(ps) + [p.bytes])[|Texts(ps)|..] == [p.bytes];
    assert [p.bytes][1..] == [] && Concat([p.bytes]) == p.bytes;
  }

  // ---------------------------------------------------------------- UART

  /** A frame is delivered whole; seven bytes are dropped for a header that cannot be used, and one byte more
      than the buffer holds for a frame that does not fit it. */
  predicate UartPiece(cap: nat, p: Piece) {
    match p
    case Frame(b) => FrameOk(cap, b)
    case BadHeader(b) => |b| == 7 && !HeaderOk(b)
    case Overrun(b) => |b| == cap + 1 && (cap >= 7 ==> HeaderOk(b) && U32(b, 0) > cap)
    case BadSize(_) => false
  }

  predicate UartShape(cap: nat, u: Uart) {
    && |u.rx| <= cap
    && if u.header then |u.rx| >= 7 && HeaderOk(u.rx) && u.expected == U32(u.rx, 0) > |u.rx| else |u.rx| < 7
  }

  /** So far the framer has seen these bytes, as these pieces and the buffer's contents. */
  predicate UartSaw(cap: nat, u: Uart, ps: seq<Piece>, seen: seq<byte>) {
    && UartShape(cap, u) && seen == Concat(Texts(ps)) + u.rx && u.out == Frames(ps)
    && forall i :: 0 <= i < |ps| ==> UartPiece(cap, ps[i])
  }

  lemma HeaderKept(rx: seq<byte>, b: byte)
    requires |rx| >= 7
    ensures HeaderOk(rx + [b]) <==> HeaderOk(rx)
    ensures U32(rx + [b], 0) == U32(rx, 0)
  {
  }

  lemma UartSees(cap: nat, u: Uart, ps: seq<Piece>, seen: seq<byte>, b: byte) returns (qs: seq<Piece>)
    requires UartSaw(cap, u, ps, seen)
    ensures UartSaw(cap, UartByte(cap, u, b), qs, seen + [b])
  {
    var rx, u' := u.rx + [b], UartByte(cap, u, b);
    assert seen + [b] == Concat(Texts(ps)) + rx;
    if |u.rx| >= 7 {
      HeaderKept(u.rx, b);
    }
    qs := ps;
    if |u.rx| >= cap {
      qs := UartEnds(cap, ps, Overrun(rx), seen + [b], u');
    } else if !u.header && |rx| == 7 && !HeaderOk(rx) {
      qs := UartEnds(cap, ps, BadHeader(rx), seen + [b], u');
    } else if |rx| >= 7 && U32(rx, 0) == |rx| {
      assert rx[..|rx|] == rx && u'.out == u.out + [rx];
      qs := UartEnds(cap, ps, Frame(rx), seen + [b], u');
    }
  }

  /** A piece is complete and the buffer empty again. */
  lemma UartEnds(cap: nat, ps: seq<Piece>, p: Piece, seen: seq<byte>, u: Uart) returns (qs: seq<Piece>)
    requires UartPiece(cap, p) && seen == Concat(Texts(ps)) + p.bytes && u.rx == [] && !u.header
    requires u.out == Frames(ps) + if p.Frame? then [p.bytes] else []
    requires forall i :: 0 <= i < |ps| ==> UartPiece(cap, ps[i])
    ensures UartSaw(cap, u, qs, seen)
  {
    OnePieceMore(ps, p);
    qs := ps + [p];
    assert seen + [] == seen;
  }

  /** Whatever the line carries: the bytes received are, in order, the frames delivered, each one whole, of
      the size its header says and within the buffer, the pieces dropped, and what is in the buffer. */
  lemma {:induction false} UartAccounts(cap: nat, bs: seq<byte>) returns (ps: seq<Piece>)
    ensures UartSaw(cap, UartBytes(cap, Uart([], 0, false, []), bs), ps, bs)
    decreases |bs|
  {
    if |bs| == 0 {
      ps := [];
    } else {
      var n := |bs| - 1;
      ps := UartAccounts(cap, bs[..n]);
      BytesOneMore(cap, Uart([], 0, false, []), bs[..n], bs[n]);
      assert bs[..n] + [bs[n]] == bs;
      ps := UartSees(cap, UartBytes(cap, Uart([], 0, false, []), bs[..n]), ps, bs[..n], bs[n]);
    }
  }

  lemma {:induction false} BytesOneMore(cap: nat, u: Uart, bs: seq<byte>, b: byte)
    ensures UartBytes(cap, u, bs + [b]) == UartByte(cap, UartBytes(cap, u, bs), b)
    decreases |bs|
  {
    if |bs| == 0 {
      assert (bs + [b])[1..] == [];
    } else {
      BytesOneMore(cap, UartByte(cap, u, bs[0]), bs[1..], b);
      assert (bs + [b])[1..] == bs[1..] + [b];
    }
  }

  // ---------------------------------------------------------------- L2CAP

  /** A size field below seven or beyond the buffer takes the rest of its chunk with it. */
  predicate L2capPiece(cap: nat, p: Piece) {
    match p
    case Frame(b) => 7 <= |b| <= cap && U32(b, 0) == |b|
    case BadSize(b) => |b| >= 4 && !(7 <= U32(b, 0) <= cap)
    case _ => false
  }

  predicate L2capShape(cap: nat, l: L2cap) {
    if l.inBody then 4 <= |l.rx| < l.expected == U32(l.rx, 0) && 7 <= l.expected <= cap else |l.rx| < 4
  }

  predicate L2capSaw(cap: nat, l: L2cap, ps: seq<Piece>, seen: seq<byte>) {
    && L2capShape(cap, l) && seen == Concat(Texts(ps)) + l.rx && l.out == Frames(ps)
    && forall i :: 0 <= i < |ps| ==> L2capPiece(cap, ps[i])
  }

  lemma SizeKept(rx: seq<byte>, more: seq<byte>)
    requires |rx| >= 4
    ensures U32(rx + more, 0) == U32(rx, 0)
  {
  }

  /** One copy that is not rejected. */
  lemma L2capSees(cap: nat, l: L2cap, ps: seq<Piece>, seen: seq<byte>, part: seq<byte>) returns (qs: seq<Piece>)
    requires L2capSaw(cap, l, ps, seen) && !Rejects(cap, l, l.rx + part)
    requires |l.rx + part| <= if l.inBody then l.expected else 4
    ensures L2capSaw(cap, L2capCopy(l, l.rx + part), qs, seen + part)
  {
    var rx := l.rx + part;
    assert seen + part == Concat(Texts(ps)) + rx;
    qs := ps;
    if l.inBody {
      SizeKept(l.rx, part);
      if |rx| == l.expected {
        OnePieceMore(ps, Frame(rx));
        qs := ps + [Frame(rx)];
      }
    }
  }

  lemma L2capDrops(cap: nat, l: L2cap, ps: seq<Piece>, seen: seq<byte>, part: seq<byte>, rest: seq<byte>)
    returns (qs: seq<Piece>)
    requires L2capSaw(cap, l, ps, seen) && Rejects(cap, l, l.rx + part)
    ensures L2capSaw(cap, L2cap([], U32(l.rx + part, 0), false, l.out), qs, seen + (part + rest))
  {
    var rx := l.rx + part;
    var p := BadSize(rx + rest);
    SizeKept(rx, rest);
    OnePieceMore(ps, p);
    qs := ps + [p];
    assert seen + (part + rest) == Concat(Texts(ps)) + (rx + rest);
  }

  lemma TakeFits(cap: nat, l: L2cap, chunk: seq<byte>)
    requires L2capShape(cap, l) && |chunk| > 0
    ensures L2capFits(l) && 0 < Take(l, |chunk|) <= |chunk|
    ensures |l.rx| + Take(l, |chunk|) <= if l.inBody then l.expected else 4
  {
  }

  lemma {:induction false} L2capSeesChunk(cap: nat, l: L2cap, ps: seq<Piece>, seen: seq<byte>, chunk: seq<byte>)
    returns (qs: seq<Piece>)
    requires L2capSaw(cap, l, ps, seen)
    ensures L2capFits(l) && L2capSaw(cap, L2capChunk(cap, l, chunk), qs, seen + chunk)
    decreases |chunk|
  {
    qs := ps;
    if |chunk| == 0 {
      assert seen + chunk == seen;
    } else {
      TakeFits(cap, l, chunk);
      var n := Take(l, |chunk|);
      var part, rest, l' := chunk[..n], chunk[n..], L2capCopy(l, l.rx + chunk[..n]);
      assert chunk == part + rest;
      if Rejects(cap, l, l.rx + part) {
        qs := L2capDrops(cap, l, ps, seen, part, rest);
      } else {
        qs := L2capSees(cap, l, ps, seen, part);
        qs := L2capSeesChunk(cap, l', qs, seen + part, rest);
        assert seen + part + rest == seen + (part + rest);
        assert L2capChunk(cap, l, chunk) == L2capChunk(cap, l', rest);
      }
    }
  }

  lemma {:induction false} L2capSeesAll(cap: nat, l: L2cap, ps: seq<Piece>, seen: seq<byte>, chunks: seq<seq<byte>>)
    returns (qs: seq<Piece>)
    requires L2capSaw(cap, l, ps, seen)
    ensures L2capSaw(cap, L2capAll(cap, l, chunks), qs, seen + Concat(chunks))
    decreases |chunks|
  {
    if |chunks| == 0 {
      qs := ps;
      assert seen + Concat(chunks) == seen;
    } else {
      var chunk, rest := chunks[0], Concat(chunks[1..]);
      qs := L2capSeesChunk(cap, l, ps, seen, chunk);
      var l' := L2capChunk(cap, l, chunk);
      qs := L2capSeesAll(cap, l', qs, seen + chunk, chunks[1..]);
      assert seen + chunk + rest == seen + (chunk + rest);
      assert L2capAll(cap, l, chunks) == L2capAll(cap, l', chunks[1..]);
    }
  }

  /** The same for packets of any sizes and any contents. */
  lemma L2capAccounts(cap: nat, chunks: seq<seq<byte>>) returns (ps: seq<Piece>)
    ensures L2capSaw(cap, L2capAll(cap, L2cap([], 0, false, []), chunks), ps, Concat(chunks))
  {
    var none: seq<byte> := [];
    ps := L2capSeesAll(cap, L2cap([], 0, false, []), [], none, chunks);
    assert none + Concat(chunks) == Concat(chunks);
  }
}
