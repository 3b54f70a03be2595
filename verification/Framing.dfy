/**
 * Two reassemblers of the same byte stream: the UART driver's, one byte at a time, and the L2CAP
 * client's, one chunk at a time. On a stream of well-formed frames both deliver the frames, however
 * the stream is cut up.
 */
module Framing {
  import opened Bytes

  // ---------------------------------------------------------------- UART, byte by byte

  /** Bytes held, the size announced by a parsed header, and the messages delivered. */
  datatype Uart = Uart(rx: seq<byte>, expected: nat, header: bool, out: seq<seq<byte>>)

  function UartByte(cap: nat, u: Uart, b: byte): Uart {
    if |u.rx| >= cap then u.(rx := [], header := false)
    else
      var rx := u.rx + [b];
      if !u.header && |rx| >= 7 && !HeaderOk(rx) then u.(rx := [])
      else
        var u1 := if !u.header && |rx| >= 7 then u.(rx := rx, expected := U32(rx, 0), header := true) else u.(rx := rx);
        if u1.header && |rx| >= u1.expected then Uart([], 0, false, u.out + [rx[..u1.expected]]) else u1
  }

  function UartBytes(cap: nat, u: Uart, bs: seq<byte>): Uart
    decreases |bs|
  {
    if |bs| == 0 then u else UartBytes(cap, UartByte(cap, u, bs[0]), bs[1..])
  }

  class UartFramer {
    const rxBuf: array<byte>
    var rxOffset: nat
    var expectedSize: nat
    var headerReceived: bool
    var delivered: seq<seq<byte>>

    ghost predicate Valid() reads this { rxOffset <= rxBuf.Length }

    ghost function View(): Uart
      requires Valid()
      reads this, rxBuf
    {
      Uart(rxBuf[..rxOffset], expectedSize, headerReceived, delivered)
    }

    constructor (size: nat)
      ensures Valid() && fresh(rxBuf) && rxBuf.Length == size && View() == Uart([], 0, false, [])
    {
      rxBuf := new byte[size](_ => 0);
      rxOffset, expectedSize, headerReceived, delivered := 0, 0, false, [];
    }

    method OnByte(b: byte)
      requires Valid()
      modifies this, rxBuf
      ensures Valid() && View() == UartByte(rxBuf.Length, old(View()), b)
    {
      if rxOffset >= rxBuf.Length {
        rxOffset, headerReceived := 0, false;
        return;
      }
      rxBuf[rxOffset] := b;
      rxOffset := rxOffset + 1;
      assert rxBuf[..rxOffset] == old(rxBuf[..rxOffset]) + [b];
      if !headerReceived && rxOffset >= 7 {
        if HeaderOk(rxBuf[..rxOffset]) {
          expectedSize, headerReceived := U32(rxBuf[..rxOffset], 0), true;
        } else {
          rxOffset := 0;
          return;
        }
      }
      if headerReceived && rxOffset >= expectedSize {
        delivered := delivered + [rxBuf[..expectedSize]];
        assert rxBuf[..rxOffset][..expectedSize] == rxBuf[..expectedSize];
        rxOffset, headerReceived, expectedSize := 0, false, 0;
      }
    }

    /** The interrupt handler: every byte the FIFO holds. */
    method OnReady(bs: seq<byte>)
      requires Valid()
      modifies this, rxBuf
      ensures Valid() && View() == UartBytes(rxBuf.Length, old(View()), bs)
    {
      var i := 0;
      assert bs[0..] == bs;
      while i < |bs|
        invariant i <= |bs| && Valid()
        invariant UartBytes(rxBuf.Length, View(), bs[i..]) == UartBytes(rxBuf.Length, old(View()), bs)
      {
        assert bs[i..][1..] == bs[i + 1..];
        OnByte(bs[i]);
        i := i + 1;
      }
    }
  }

  // ---------------------------------------------------------------- L2CAP, chunk by chunk

  datatype L2cap = L2cap(rx: seq<byte>, expected: nat, inBody: bool, out: seq<seq<byte>>)

  /** How many bytes of a chunk of length n the next copy takes. */
  function Take(l: L2cap, n: nat): nat {
    var need := if l.inBody then l.expected - |l.rx| else 4 - |l.rx|;
    if 0 <= need < n then need else n
  }

  predicate Rejects(cap: nat, l: L2cap, rx: seq<byte>) {
    !l.inBody && |rx| == 4 && (U32(rx, 0) < 7 || U32(rx, 0) > cap)
  }

  /** One copy of received bytes and what follows from it. */
  function L2capCopy(l: L2cap, rx: seq<byte>): L2cap {
    if !l.inBody then
      if |rx| == 4 then L2cap(rx, U32(rx, 0), true, l.out) else l.(rx := rx)
    else if |rx| == l.expected then L2cap([], 0, false, l.out + [rx])
    else l.(rx := rx)
  }

  predicate L2capFits(l: L2cap) {
    if l.inBody then |l.rx| < l.expected else |l.rx| < 4
  }

  /** l2cap_recv; a bad size drops what is left of the chunk. */
  function L2capChunk(cap: nat, l: L2cap, chunk: seq<byte>): (r: L2cap)
    requires L2capFits(l)
    ensures L2capFits(r)
    decreases |chunk|
  {
    if |chunk| == 0 then l
    else
      var n := Take(l, |chunk|);
      var rx := l.rx + chunk[..n];
      if Rejects(cap, l, rx) then L2cap([], U32(rx, 0), false, l.out)
      else L2capChunk(cap, L2capCopy(l, rx), chunk[n..])
  }

  lemma ChunkStep(cap: nat, l: L2cap, chunk: seq<byte>, i: nat, n: nat)
    requires 4 <= cap && L2capFits(l) && i < |chunk| && n == Take(l, |chunk| - i) && i + n <= |chunk|
    ensures var rx := l.rx + chunk[i..i + n];
            L2capChunk(cap, l, chunk[i..]) ==
              if Rejects(cap, l, rx) then L2cap([], U32(rx, 0), false, l.out)
              else L2capChunk(cap, L2capCopy(l, rx), chunk[i + n..])
  {
    assert chunk[i..][..n] == chunk[i..i + n] && chunk[i..][n..] == chunk[i + n..];
  }

  class L2capFramer {
    const rxBuf: array<byte>
    var rxLen: nat
    var rxExpected: nat
    var inBody: bool
    var delivered: seq<seq<byte>>

    ghost predicate Valid() reads this {
      4 <= rxBuf.Length && (if inBody then rxLen < rxExpected <= rxBuf.Length else rxLen < 4)
    }

    ghost function View(): (l: L2cap)
      requires Valid()
      reads this, rxBuf
      ensures L2capFits(l)
    {
      L2cap(rxBuf[..rxLen], rxExpected, inBody, delivered)
    }

    constructor (size: nat)
      requires size >= 4
      ensures Valid() && fresh(rxBuf) && rxBuf.Length == size && View() == L2cap([], 0, false, [])
    {
      rxBuf := new byte[size](_ => 0);
      rxLen, rxExpected, inBody, delivered := 0, 0, false, [];
    }

    method Copy(bytes: seq<byte>)
      requires rxLen + |bytes| <= rxBuf.Length
      modifies this`rxLen, rxBuf
      ensures rxLen == old(rxLen) + |bytes| && rxBuf[..rxLen] == old(rxBuf[..rxLen]) + bytes
    {
      forall k | 0 <= k < |bytes| {
        rxBuf[rxLen + k] := bytes[k];
      }
      rxLen := rxLen + |bytes|;
    }

    /** Bytes up to the end of what is being read: the size field or the body. */
    method Absorb(bytes: seq<byte>) returns (ok: bool)
      requires Valid() && rxLen + |bytes| <= if inBody then rxExpected else 4
      modifies this, rxBuf
      ensures var l := old(View()); var rx := l.rx + bytes;
              && ok == !Rejects(rxBuf.Length, l, rx)
              && Valid() && View() == if ok then L2capCopy(l, rx) else L2cap([], U32(rx, 0), false, l.out)
    {
      Copy(bytes);
      if !inBody {
        if rxLen == 4 {
          rxExpected := U32(rxBuf[..rxLen], 0);
          if rxExpected < 7 || rxExpected > rxBuf.Length {
            rxLen := 0;
            return false;
          }
          inBody := true;
        }
      } else if rxLen == rxExpected {
        delivered := delivered + [rxBuf[..rxLen]];
        rxLen, rxExpected, inBody := 0, 0, false;
      }
      ok := true;
    }

    method Recv(chunk: seq<byte>)
      requires Valid()
      modifies this, rxBuf
      ensures Valid() && View() == L2capChunk(rxBuf.Length, old(View()), chunk)
    {
      var i := 0;
      ghost var cap, l := rxBuf.Length, View();
      ghost var goal := L2capChunk(cap, l, chunk);
      assert chunk[0..] == chunk;
      while i < |chunk|
        invariant i <= |chunk| && Valid() && l == View()
        invariant L2capChunk(cap, l, chunk[i..]) == goal
      {
        var need := if inBody then rxExpected - rxLen else 4 - rxLen;
        var n := if need < |chunk| - i then need else |chunk| - i;
        ghost var rest := chunk[i + n..];
        ChunkStep(cap, l, chunk, i, n);
        var ok := Absorb(chunk[i..i + n]);
        l := View();
        if !ok {
          return;
        }
        assert goal == L2capChunk(cap, l, rest);
        i := i + n;
        assert chunk[i..] == rest;
      }
    }
  }

  // ---------------------------------------------------------------- a stream of frames

  /** A frame both sides accept: its size field is its length. */
  predicate FrameOk(cap: nat, f: seq<byte>) { HeaderOk(f) && U32(f, 0) == |f| <= cap }

  predicate FramesOk(cap: nat, fs: seq<seq<byte>>) { forall f :: f in fs ==> FrameOk(cap, f) }

  /** The state of either machine k bytes into the stream, past the messages `out`. */
  function UartAt(fs: seq<seq<byte>>, k: nat, out: seq<seq<byte>>): Uart
    decreases |fs|
  {
    if |fs| == 0 then Uart([], 0, false, out)
    else if k < |fs[0]| then Uart(fs[0][..k], if k >= 7 then |fs[0]| else 0, k >= 7, out)
    else UartAt(fs[1..], k - |fs[0]|, out + [fs[0]])
  }

  function L2capAt(fs: seq<seq<byte>>, k: nat, out: seq<seq<byte>>): (l: L2cap)
    ensures L2capFits(l)
    decreases |fs|
  {
    if |fs| == 0 then L2cap([], 0, false, out)
    else if k < |fs[0]| then L2cap(fs[0][..k], if k >= 4 then |fs[0]| else 0, k >= 4, out)
    else L2capAt(fs[1..], k - |fs[0]|, out + [fs[0]])
  }

  lemma PrefixHeader(f: seq<byte>, k: nat)
    requires 4 <= k <= |f|
    ensures U32(f[..k], 0) == U32(f, 0)
  {
  }

  /** One byte of a frame, from inside it. */
  lemma UartInFrame(cap: nat, f: seq<byte>, k: nat, out: seq<seq<byte>>)
    requires FrameOk(cap, f) && k < |f|
    ensures var u := UartByte(cap, Uart(f[..k], if k >= 7 then |f| else 0, k >= 7, out), f[k]);
            u == if k + 1 == |f| then Uart([], 0, false, out + [f])
                 else Uart(f[..k + 1], if k + 1 >= 7 then |f| else 0, k + 1 >= 7, out)
  {
    assert f[..k] + [f[k]] == f[..k + 1];
    if k + 1 >= 7 {
      PrefixHeader(f, k + 1);
      assert k + 1 == |f| ==> f[..k + 1][..|f|] == f;
    }
  }

  lemma {:induction false} UartTracks(cap: nat, fs: seq<seq<byte>>, k: nat, out: seq<seq<byte>>)
    requires FramesOk(cap, fs) && k < |Concat(fs)|
    ensures UartByte(cap, UartAt(fs, k, out), Concat(fs)[k]) == UartAt(fs, k + 1, out)
    decreases |fs|
  {
    var f := fs[0];
    if k < |f| {
      UartInFrame(cap, f, k, out);
      if k + 1 == |f| && |fs| > 1 {
        assert fs[1] in fs && fs[1..][0] == fs[1];
        assert fs[1][..0] == [];
      }
    } else {
      UartTracks(cap, fs[1..], k - |f|, out + [f]);
    }
  }

  lemma {:induction false} UartRun(cap: nat, fs: seq<seq<byte>>, k: nat, bs: seq<byte>)
    requires FramesOk(cap, fs) && k + |bs| <= |Concat(fs)| && Concat(fs)[k..k + |bs|] == bs
    ensures UartBytes(cap, UartAt(fs, k, []), bs) == UartAt(fs, k + |bs|, [])
    decreases |bs|
  {
    if |bs| > 0 {
      UartTracks(cap, fs, k, []);
      var s := Concat(fs);
      assert s[k..k + |bs|][0] == s[k] && s[k..k + |bs|][1..] == s[k + 1..k + |bs|];
      UartRun(cap, fs, k + 1, bs[1..]);
    }
  }

  /** One copy of the chunk reader, from inside a frame. */
  lemma L2capInFrame(cap: nat, f: seq<byte>, k: nat, n: nat, out: seq<seq<byte>>)
    requires FrameOk(cap, f) && k < |f| && 0 < n && k + n <= (if k < 4 then 4 else |f|)
    ensures var l, rx := L2cap(f[..k], if k >= 4 then |f| else 0, k >= 4, out), f[..k + n];
            && !Rejects(cap, l, rx)
            && L2capCopy(l, rx) == if k + n == |f| then L2cap([], 0, false, out + [f])
                                   else L2cap(rx, if k + n >= 4 then |f| else 0, k + n >= 4, out)
  {
    if k + n >= 4 {
      PrefixHeader(f, k + n);
    }
    assert k + n == |f| ==> f[..k + n] == f;
  }

  lemma L2capStep(fs: seq<seq<byte>>, k: nat, n: nat, out: seq<seq<byte>>)
    requires |fs| > 0 && k + n <= |fs[0]| && (|fs| > 1 ==> |fs[1]| > 0)
    ensures L2capAt(fs, k + n, out) == if k + n == |fs[0]| then L2cap([], 0, false, out + [fs[0]])
              else L2cap(fs[0][..k + n], if k + n >= 4 then |fs[0]| else 0, k + n >= 4, out)
  {
  }

  /** The chunk reader's next copy takes it to the next position in the stream. */
  lemma L2capAdvances(cap: nat, fs: seq<seq<byte>>, k: nat, out: seq<seq<byte>>, chunk: seq<byte>, n: nat)
    requires FramesOk(cap, fs) && |fs| > 0 && k < |fs[0]| && |chunk| > 0 && n == Take(L2capAt(fs, k, out), |chunk|)
    requires forall i :: 0 <= i < n ==> k + i < |fs[0]| && chunk[i] == fs[0][k + i]
    ensures L2capChunk(cap, L2capAt(fs, k, out), chunk) == L2capChunk(cap, L2capAt(fs, k + n, out), chunk[n..])
  {
    var f, l := fs[0], L2capAt(fs, k, out);
    assert f in fs && (|fs| > 1 ==> fs[1] in fs);
    assert l.rx + chunk[..n] == f[..k + n];
    L2capInFrame(cap, f, k, n, out);
    L2capStep(fs, k, n, out);
  }

  /** `chunk` is what the stream carries from position k on. */
  predicate Carries(fs: seq<seq<byte>>, k: nat, chunk: seq<byte>) {
    k + |chunk| <= |Concat(fs)| && Concat(fs)[k..k + |chunk|] == chunk
  }

  lemma CarriesTail(fs: seq<seq<byte>>, k: nat, chunk: seq<byte>)
    requires |fs| > 0 && k >= |fs[0]| && Carries(fs, k, chunk)
    ensures Carries(fs[1..], k - |fs[0]|, chunk)
  {
    var n := |fs[0]|;
    assert Concat(fs[1..])[k - n..k - n + |chunk|] == Concat(fs)[k..k + |chunk|];
  }

  lemma CarriesHead(fs: seq<seq<byte>>, k: nat, chunk: seq<byte>, i: nat)
    requires |fs| > 0 && i < |chunk| && k + i < |fs[0]| && Carries(fs, k, chunk)
    ensures chunk[i] == fs[0][k + i]
  {
    assert Concat(fs)[k..k + |chunk|][i] == Concat(fs)[k + i];
  }

  lemma CarriesRest(fs: seq<seq<byte>>, k: nat, chunk: seq<byte>, n: nat)
    requires Carries(fs, k, chunk) && n <= |chunk|
    ensures Carries(fs, k + n, chunk[n..])
  {
    var s := Concat(fs);
    assert s[k..k + |chunk|][n..] == s[k + n..k + |chunk|];
  }

  /** One copy inside the first frame. */
  lemma L2capMoves(cap: nat, fs: seq<seq<byte>>, k: nat, out: seq<seq<byte>>, chunk: seq<byte>, n: nat)
    requires FramesOk(cap, fs) && Carries(fs, k, chunk) && |chunk| > 0 && |fs| > 0 && k < |fs[0]|
    requires n == Take(L2capAt(fs, k, out), |chunk|)
    ensures 0 < n <= |chunk| && k + n <= |fs[0]|
    ensures L2capChunk(cap, L2capAt(fs, k, out), chunk) == L2capChunk(cap, L2capAt(fs, k + n, out), chunk[n..])
  {
    var f := fs[0];
    assert f in fs;
    forall i | 0 <= i < n ensures k + i < |f| && chunk[i] == f[k + i] {
      CarriesHead(fs, k, chunk, i);
    }
    L2capAdvances(cap, fs, k, out, chunk, n);
  }

  /** Behind the first frame it is delivered and the others are all that counts. */
  lemma L2capSkips(fs: seq<seq<byte>>, k: nat, out: seq<seq<byte>>)
    requires |fs| > 0 && k >= |fs[0]|
    ensures L2capAt(fs, k, out) == L2capAt(fs[1..], k - |fs[0]|, out + [fs[0]])
  {
  }

  lemma {:induction false} L2capTracks(cap: nat, fs: seq<seq<byte>>, k: nat, out: seq<seq<byte>>, chunk: seq<byte>)
    requires FramesOk(cap, fs) && Carries(fs, k, chunk)
    ensures L2capChunk(cap, L2capAt(fs, k, out), chunk) == L2capAt(fs, k + |chunk|, out)
    decreases |fs|, |chunk|, 1
  {
    if |chunk| > 0 {
      if k >= |fs[0]| {
        L2capSkips(fs, k, out);
        L2capSkips(fs, k + |chunk|, out);
        CarriesTail(fs, k, chunk);
        L2capTracks(cap, fs[1..], k - |fs[0]|, out + [fs[0]], chunk);
      } else {
        L2capTracksInside(cap, fs, k, out, chunk);
      }
    }
  }

  lemma {:induction false} L2capTracksInside(cap: nat, fs: seq<seq<byte>>, k: nat, out: seq<seq<byte>>,
                                             chunk: seq<byte>)
    requires FramesOk(cap, fs) && Carries(fs, k, chunk) && |chunk| > 0 && |fs| > 0 && k < |fs[0]|
    ensures L2capChunk(cap, L2capAt(fs, k, out), chunk) == L2capAt(fs, k + |chunk|, out)
    decreases |fs|, |chunk|, 0
  {
    var n := Take(L2capAt(fs, k, out), |chunk|);
    L2capMoves(cap, fs, k, out, chunk, n);
    CarriesRest(fs, k, chunk, n);
    var rest := chunk[n..];
    L2capTracks(cap, fs, k + n, out, rest);
    assert k + n + |rest| == k + |chunk|;
  }

  // ---------------------------------------------------------------- however it is cut

  function UartAll(cap: nat, u: Uart, chunks: seq<seq<byte>>): Uart
    decreases |chunks|
  {
    if |chunks| == 0 then u else UartAll(cap, UartBytes(cap, u, chunks[0]), chunks[1..])
  }

  function L2capAll(cap: nat, l: L2cap, chunks: seq<seq<byte>>): L2cap
    requires L2capFits(l)
    decreases |chunks|
  {
    if |chunks| == 0 then l else L2capAll(cap, L2capChunk(cap, l, chunks[0]), chunks[1..])
  }

  lemma {:induction false} CutsTracked(cap: nat, fs: seq<seq<byte>>, k: nat, chunks: seq<seq<byte>>)
    requires FramesOk(cap, fs) && k <= |Concat(fs)| && Concat(fs)[k..] == Concat(chunks)
    ensures UartAll(cap, UartAt(fs, k, []), chunks) == UartAt(fs, |Concat(fs)|, [])
    ensures L2capAll(cap, L2capAt(fs, k, []), chunks) == L2capAt(fs, |Concat(fs)|, [])
    decreases |chunks|
  {
    if |chunks| > 0 {
      var c, s := chunks[0], Concat(fs);
      assert s[k..][..|c|] == c && s[k..][|c|..] == Concat(chunks[1..]);
      assert s[k..k + |c|] == c && s[k + |c|..] == Concat(chunks[1..]);
      UartRun(cap, fs, k, c);
      L2capTracks(cap, fs, k, [], c);
      CutsTracked(cap, fs, k + |c|, chunks[1..]);
    }
  }

  lemma {:induction false} AllDelivered(fs: seq<seq<byte>>, out: seq<seq<byte>>)
    ensures UartAt(fs, |Concat(fs)|, out) == Uart([], 0, false, out + fs)
    ensures L2capAt(fs, |Concat(fs)|, out) == L2cap([], 0, false, out + fs)
    decreases |fs|
  {
    if |fs| > 0 {
      AllDelivered(fs[1..], out + [fs[0]]);
      assert out + [fs[0]] + fs[1..] == out + fs;
    } else {
      assert out + fs == out;
    }
  }

  /** Both reassemblers, started empty, deliver exactly the frames in order and end empty, for every
      concatenation of frames that fit and every way of cutting it into chunks. */
  lemma FramersAgree(cap: nat, fs: seq<seq<byte>>, chunks: seq<seq<byte>>)
    requires FramesOk(cap, fs) && Concat(chunks) == Concat(fs)
    ensures UartAll(cap, Uart([], 0, false, []), chunks) == Uart([], 0, false, fs)
    ensures L2capAll(cap, L2cap([], 0, false, []), chunks) == L2cap([], 0, false, fs)
  {
    assert UartAt(fs, 0, []) == Uart([], 0, false, []) && L2capAt(fs, 0, []) == L2cap([], 0, false, []) by {
      if |fs| > 0 {
        assert fs[0] in fs && fs[0][..0] == [];
      }
    }
    assert Concat(fs)[0..] == Concat(chunks);
    CutsTracked(cap, fs, 0, chunks);
    AllDelivered(fs, []);
    assert [] + fs == fs;
  }
}
