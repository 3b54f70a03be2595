/** Slash-separated paths and their components. */
module PathNames {
  import opened Bytes

  const SLASH: byte := 47

  function SlashAt(p: seq<byte>): (i: nat)
    ensures i <= |p|
    ensures i < |p| ==> p[i] == SLASH
    ensures forall k :: 0 <= k < i ==> p[k] != SLASH
  {
    if |p| == 0 || p[0] == SLASH then 0
    else
      var r := SlashAt(p[1..]);
      assert forall k :: 1 <= k < r + 1 ==> p[k] == p[1..][k - 1];
      1 + r
  }

  /** The non-empty components of a path. */
  function Components(p: seq<byte>): seq<seq<byte>>
    decreases |p|
  {
    if |p| == 0 then []
    else if p[0] == SLASH then Components(p[1..])
    else [p[..SlashAt(p)]] + Components(p[SlashAt(p)..])
  }

  lemma {:induction false} SkipSlashes(p: seq<byte>, i: nat)
    requires i <= |p| && forall k :: 0 <= k < i ==> p[k] == SLASH
    ensures Components(p) == Components(p[i..])
    decreases i
  {
    if i > 0 {
      SkipSlashes(p[1..], i - 1);
      assert p[1..][i - 1..] == p[i..];
    } else {
      assert p[0..] == p;
    }
  }

  lemma SlashAtIs(p: seq<byte>, i: nat)
    requires i <= |p| && (i < |p| ==> p[i] == SLASH) && forall k :: 0 <= k < i ==> p[k] != SLASH
    ensures SlashAt(p) == i
  {
  }
}
