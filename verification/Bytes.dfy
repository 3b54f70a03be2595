/** Bytes, little-endian fields and C strings, as the wire format and the tables use them. */
module Bytes {

  type byte = x: int | 0 <= x < 256

  const MOD16 := 0x1_0000
  const MOD32 := 0x1_0000_0000
  const MOD64 := 0x1_0000_0000_0000_0000

  function U16(b: seq<byte>, i: nat): (v: nat)
    requires i + 2 <= |b|
    ensures v < MOD16
  {
    (b[i] as int) + (b[i + 1] as int) * 0x100
  }

  function U32(b: seq<byte>, i: nat): (v: nat)
    requires i + 4 <= |b|
    ensures v < MOD32
  {
    U16(b, i) + MOD16 * U16(b, i + 2)
  }

  function U64(b: seq<byte>, i: nat): (v: nat)
    requires i + 8 <= |b|
    ensures v < MOD64
  {
    U32(b, i) + MOD32 * U32(b, i + 4)
  }

  function LE16(v: nat): (b: seq<byte>)
    ensures |b| == 2
    ensures v < MOD16 ==> U16(b, 0) == v
  {
    [v % 0x100, v / 0x100 % 0x100]
  }

  function LE32(v: nat): (b: seq<byte>)
    ensures |b| == 4
    ensures v < MOD32 ==> U32(b, 0) == v
  {
    LE16(v % MOD16) + LE16(v / MOD16 % MOD16)
  }

  function LE64(v: nat): (b: seq<byte>)
    ensures |b| == 8
    ensures v < MOD64 ==> U64(b, 0) == v
  {
    var lo, hi := LE32(v % MOD32), LE32(v / MOD32 % MOD32);
    assert (lo + hi)[..4] == lo && (lo + hi)[4..] == hi;
    assert U32(lo + hi, 0) == U32(lo, 0) && U32(lo + hi, 4) == U32(hi, 0);
    lo + hi
  }

  /** A frame whose size, type and tag can be used. */
  predicate HeaderOk(msg: seq<byte>) {
    |msg| >= 7 && 7 <= U32(msg, 0) <= 65536
  }

  function Concat(parts: seq<seq<byte>>): seq<byte> {
    if |parts| == 0 then [] else parts[0] + Concat(parts[1..])
  }

  lemma {:induction false} ConcatSplit(parts: seq<seq<byte>>, k: nat)
    requires k <= |parts|
    ensures Concat(parts) == Concat(parts[..k]) + Concat(parts[k..])
    decreases k
  {
    if k > 0 {
      var a, b := Concat(parts[1..][..k - 1]), Concat(parts[k..]);
      ConcatSplit(parts[1..], k - 1);
      assert parts[..k][1..] == parts[1..][..k - 1] && parts[1..][k - 1..] == parts[k..];
      assert parts[0] + (a + b) == parts[0] + a + b;
    } else {
      assert parts[0..] == parts && parts[..0] == [];
    }
  }

  /** The C string held in a buffer: everything before its first NUL. */
  function CStr(b: seq<byte>): (r: seq<byte>)
    ensures r <= b && 0 !in r
    ensures |r| < |b| ==> b[|r|] == 0
  {
    if |b| == 0 || b[0] == 0 then [] else [b[0]] + CStr(b[1..])
  }

  /** strncmp(a, b, n) == 0 */
  predicate SameUpTo(a: seq<byte>, b: seq<byte>, n: nat)
    requires n <= |a| && n <= |b|
  {
    n == 0 || (a[0] == b[0] && (a[0] == 0 || SameUpTo(a[1..], b[1..], n - 1)))
  }

  /** A buffer cut at its first NUL is determined by where that NUL is. */
  lemma {:induction false} CStrAt(b: seq<byte>, k: nat)
    requires k < |b| && b[k] == 0 && 0 !in b[..k]
    ensures CStr(b) == b[..k]
  {
    if k > 0 {
      assert b[0] in b[..k];
      assert b[1..][..k - 1] == b[..k][1..];
      CStrAt(b[1..], k - 1);
    }
  }

  /** strncmp over the whole of `name` plus a NUL behind it is equality of C strings. */
  lemma {:induction false} SameUpToMeansSameCStr(buf: seq<byte>, name: seq<byte>)
    requires |name| < |buf| && buf[|name|] == 0
    ensures SameUpTo(buf, name, |name|) <==> CStr(buf) == CStr(name)
  {
    if |name| > 0 && buf[0] == name[0] && buf[0] != 0 {
      SameUpToMeansSameCStr(buf[1..], name[1..]);
      assert CStr(buf)[1..] == CStr(buf[1..]) && CStr(name)[1..] == CStr(name[1..]);
    }
  }
}
