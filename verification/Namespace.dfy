/** Mounts in a thread's namespace: hash buckets, union order, and the sorted answer of a walk. */
module Namespace {
  import opened Bytes
  import opened PathNames
  import opened Normalize
  import opened Traces

  datatype Flag = Replace | Before | After

  /** `id` stands for what is mounted: the VFS mount or the in-process server. */
  datatype Entry = Entry(path: seq<byte>, id: nat, priority: nat)

  type Bucket = seq<Entry>

  /** h % size, by subtraction: which bucket it is matters to no proof about buckets. */
  function Residue(h: nat, size: nat): (r: nat)
    requires size > 0
    ensures r < size
  {
    if h < size then h else Residue(h - size, size)
  }

  lemma {:induction false} ResidueOf(h: nat, size: nat) returns (q: nat)
    requires size > 0
    ensures h == size * q + Residue(h, size)
  {
    q := 0;
    if h >= size {
      q := ResidueOf(h - size, size);
      assert size * (q + 1) == size * q + size;
      q := q + 1;
    }
  }

  lemma {:induction false} Times(b: nat, x: nat, y: nat)
    requires x < y
    ensures b * x + b <= b * y
    decreases y
  {
    assert b * y == b * (y - 1) + b;
    if x + 1 < y {
      Times(b, x, y - 1);
    }
  }

  lemma ResidueIsRemainder(h: nat, size: nat)
    requires size > 0
    ensures Residue(h, size) == h % size
  {
    var q, r := h / size, h % size;
    var p := ResidueOf(h, size);
    assert h == size * q + r;
    if p < q {
      Times(size, p, q);
    } else if q < p {
      Times(size, q, p);
    }
  }

  /** The rest of the hash of a path from h on, reduced to the size of the table. */
  function HashFrom(path: seq<byte>, h: nat, size: nat): (r: nat)
    requires size > 0
    ensures r < size
  {
    if |path| == 0 then Residue(h, size) else HashFrom(path[1..], (33 * h + path[0] as int) % MOD32, size)
  }

  function HashOf(path: seq<byte>, size: nat): (h: nat)
    requires size > 0
    ensures h < size
  {
    HashFrom(path, 5381, size)
  }

  predicate HasPrefix(path: seq<byte>, prefix: seq<byte>) {
    || prefix == [SLASH]
    || (prefix <= path && (|path| == |prefix| || path[|prefix|] == SLASH))
  }

  // ---------------------------------------------------------------- buckets

  /** The priority an appended entry gets. */
  function NextPriority(b: Bucket): nat { if |b| == 0 then 0 else b[|b| - 1].priority + 1 }

  function Insert(b: Bucket, path: seq<byte>, id: nat, flag: Flag): Bucket {
    match flag
    case Replace => [Entry(path, id, 0)]
    case Before => [Entry(path, id, 0)] + b
    case After => b + [Entry(path, id, NextPriority(b))]
  }

  function Remove(b: Bucket, path: seq<byte>): Bucket {
    if |b| == 0 then [] else if b[0].path == path then b[1..] else [b[0]] + Remove(b[1..], path)
  }

  // ---------------------------------------------------------------- what a walk collects and sorts

  function Matches(b: Bucket, path: seq<byte>): seq<Entry> {
    if |b| == 0 then [] else (if HasPrefix(path, b[0].path) then [b[0]] else []) + Matches(b[1..], path)
  }

  function AllMatches(bs: seq<Bucket>, path: seq<byte>): seq<Entry> {
    if |bs| == 0 then [] else Matches(bs[0], path) + AllMatches(bs[1..], path)
  }

  function Upto<T>(s: seq<T>, n: nat): (r: seq<T>)
    ensures |r| <= n
  {
    if |s| <= n then s else s[..n]
  }

  datatype Rank = Rank(length: nat, priority: nat)

  function RankOf(e: Entry): Rank { Rank(|e.path|, e.priority) }

  /** x may stand in front of y: its path is longer, or as long and its priority is no larger. */
  predicate InOrder(x: Rank, y: Rank) { x.length > y.length || (x.length == y.length && x.priority <= y.priority) }

  predicate Ordered(s: seq<Entry>) { forall i, j :: 0 <= i < j < |s| ==> InOrder(RankOf(s[i]), RankOf(s[j])) }

  function OfRank(s: seq<Entry>, k: Rank): seq<Entry> {
    if |s| == 0 then [] else (if RankOf(s[0]) == k then [s[0]] else []) + OfRank(s[1..], k)
  }

  /** Same entries, and entries of equal rank in the same order. */
  ghost predicate Stable(s: seq<Entry>, t: seq<Entry>) { |s| == |t| && forall k :: OfRank(s, k) == OfRank(t, k) }

  lemma {:induction false} OfRankSplit(s: seq<Entry>, t: seq<Entry>, k: Rank)
    ensures OfRank(s + t, k) == OfRank(s, k) + OfRank(t, k)
    decreases |s|
  {
    if |s| == 0 {
      assert s + t == t;
    } else {
      OfRankSplit(s[1..], t, k);
      assert (s + t)[1..] == s[1..] + t;
      var a, b, c: seq<Entry> := if RankOf(s[0]) == k then [s[0]] else [], OfRank(s[1..], k), OfRank(t, k);
      assert a + (b + c) == a + b + c;
    }
  }

  lemma OfRankPair(x: Entry, y: Entry, k: Rank)
    requires RankOf(x) != RankOf(y)
    ensures OfRank([x, y], k) == OfRank([y, x], k)
  {
    assert [x, y][1..] == [y] && [y, x][1..] == [x] && [x][1..] == [] && [y][1..] == [];
  }

  lemma SwapStable(s: seq<Entry>, j: nat)
    requires j + 1 < |s| && RankOf(s[j]) != RankOf(s[j + 1])
    ensures Stable(s, s[j := s[j + 1]][j + 1 := s[j]])
  {
    var t := s[j := s[j + 1]][j + 1 := s[j]];
    var front, back := s[..j], s[j + 2..];
    var x, y := s[j], s[j + 1];
    assert s == front + ([x, y] + back) && t == front + ([y, x] + back);
    forall k ensures OfRank(s, k) == OfRank(t, k) {
      OfRankSplit(front, [x, y] + back, k);
      OfRankSplit(front, [y, x] + back, k);
      OfRankSplit([x, y], back, k);
      OfRankSplit([y, x], back, k);
      OfRankPair(x, y, k);
    }
  }

  lemma OfRankTail(s: seq<Entry>, k: Rank)
    requires |s| > 0
    ensures OfRank(s[1..], k) == if RankOf(s[0]) == k then OfRank(s, k)[1..] else OfRank(s, k)
  {
  }

  /** An ordered sequence is determined by its entries of each rank. */
  lemma {:induction false} OrderedUnique(s: seq<Entry>, t: seq<Entry>)
    requires Ordered(s) && Ordered(t) && forall k :: OfRank(s, k) == OfRank(t, k)
    ensures s == t
    decreases |s|
  {
    if |s| == 0 {
      var k := if |t| == 0 then Rank(0, 0) else RankOf(t[0]);
      assert OfRank(t, k) == OfRank(s, k);
    } else {
      var k := RankOf(s[0]);
      assert OfRank(t, k) == OfRank(s, k) && s[0] in OfRank(s, k);
      OfRankIn(t, k, s[0]);
      var k' := RankOf(t[0]);
      assert OfRank(s, k') == OfRank(t, k') && t[0] in OfRank(t, k');
      OfRankIn(s, k', t[0]);
      assert k == k';
      assert OfRank(s, k)[0] == s[0] && OfRank(t, k)[0] == t[0];
      forall l ensures OfRank(s[1..], l) == OfRank(t[1..], l) {
        OfRankTail(s, l);
        OfRankTail(t, l);
        assert OfRank(s, l) == OfRank(t, l);
      }
      OrderedUnique(s[1..], t[1..]);
    }
  }

  lemma {:induction false} OfRankWithout(s: seq<Entry>, j: nat, k: Rank)
    requires j < |s|
    ensures var k' := RankOf(s[j]);
            if k == k' then |OfRank(s[..j] + s[j + 1..], k)| + 1 == |OfRank(s, k)|
            else OfRank(s[..j] + s[j + 1..], k) == OfRank(s, k)
  {
    assert s == s[..j] + ([s[j]] + s[j + 1..]);
    OfRankSplit(s[..j], s[j + 1..], k);
    OfRankSplit(s[..j], [s[j]] + s[j + 1..], k);
    OfRankSplit([s[j]], s[j + 1..], k);
  }

  /** Sequences with as many entries of every rank are as long as each other. */
  lemma {:induction false} SameCount(s: seq<Entry>, t: seq<Entry>)
    requires forall k :: |OfRank(s, k)| == |OfRank(t, k)|
    ensures |s| == |t|
    decreases |s|
  {
    if |s| == 0 {
      var k := if |t| == 0 then Rank(0, 0) else RankOf(t[0]);
      assert |OfRank(t, k)| == |OfRank(s, k)|;
    } else {
      var k := RankOf(s[0]);
      assert |OfRank(s, k)| == |OfRank(t, k)|;
      OfRankIn(t, k, OfRank(t, k)[0]);
      var j :| 0 <= j < |t| && t[j] == OfRank(t, k)[0];
      forall l ensures |OfRank(s[1..], l)| == |OfRank(t[..j] + t[j + 1..], l)| {
        OfRankWithout(t, j, l);
        assert |OfRank(s, l)| == |OfRank(t, l)|;
      }
      SameCount(s[1..], t[..j] + t[j + 1..]);
    }
  }

  lemma {:induction false} OfRankIn(s: seq<Entry>, k: Rank, e: Entry)
    requires e in OfRank(s, k)
    ensures RankOf(e) == k && exists i :: 0 <= i < |s| && s[i] == e
    decreases |s|
  {
    if RankOf(s[0]) == k && e == s[0] {
    } else {
      OfRankIn(s[1..], k, e);
      var i :| 0 <= i < |s[1..]| && s[1..][i] == e;
      assert s[i + 1] == e;
    }
  }

  // ---------------------------------------------------------------- the sort of ns_walk

  /** One inner loop: the last-ranked of the first n entries ends up at n - 1. */
  method Pass(a: array<Entry>, n: nat, count: nat)
    requires 0 < n <= count <= a.Length
    modifies a
    ensures Stable(old(a[..count]), a[..count]) && a[n..count] == old(a[n..count])
    ensures forall i :: 0 <= i < n ==> InOrder(RankOf(a[i]), RankOf(a[n - 1]))
    ensures forall x :: x in a[..n] ==> x in old(a[..n])
  {
    var j := 0;
    while j < n - 1
      invariant j <= n - 1 && a[n..count] == old(a[n..count])
      invariant Stable(old(a[..count]), a[..count])
      invariant forall i :: 0 <= i <= j ==> InOrder(RankOf(a[i]), RankOf(a[j]))
      invariant forall i :: 0 <= i < n ==> a[i] in old(a[..n])
    {
      var x, y := a[j], a[j + 1];
      if |y.path| > |x.path| || (|y.path| == |x.path| && y.priority < x.priority) {
        ghost var s := a[..count];
        SwapStable(s, j);
        a[j], a[j + 1] := y, x;
        assert a[..count] == s[j := s[j + 1]][j + 1 := s[j]];
      }
      j := j + 1;
    }
  }

  predicate Settled(s: seq<Entry>, n: nat)
    requires n <= |s|
  {
    forall i, j :: 0 <= i < j < |s| && j >= n ==> InOrder(RankOf(s[i]), RankOf(s[j]))
  }

  /** The bubble sort of ns_walk. */
  method Sort(a: array<Entry>, count: nat)
    requires count <= a.Length
    modifies a
    ensures Stable(old(a[..count]), a[..count]) && Ordered(a[..count])
  {
    var n: nat := count;
    while n > 1
      invariant n <= count
      invariant Stable(old(a[..count]), a[..count])
      invariant Settled(a[..count], n)
    {
      ghost var s := a[..count];
      assert s[..n] == a[..n] && s[n..] == a[n..count];
      Pass(a, n, count);
      assert a[..count][..n] == a[..n] && a[..count][n..] == a[n..count];
      PassSettles(s, a[..count], n);
      n := n - 1;
    }
  }

  lemma PassSettles(s: seq<Entry>, t: seq<Entry>, n: nat)
    requires 0 < n <= |s| == |t| && Settled(s, n) && s[n..] == t[n..]
    requires forall i :: 0 <= i < n ==> InOrder(RankOf(t[i]), RankOf(t[n - 1]))
    requires forall x :: x in t[..n] ==> x in s[..n]
    ensures Settled(t, n - 1)
  {
    forall i, j | 0 <= i < j < |t| && j >= n - 1 ensures InOrder(RankOf(t[i]), RankOf(t[j])) {
      if j >= n {
        assert t[j] == t[n..][j - n] && s[j] == s[n..][j - n];
        if i >= n {
          assert t[i] == t[n..][i - n] && s[i] == s[n..][i - n];
        } else {
          assert t[i] in t[..n];
          var m :| 0 <= m < n && s[m] == t[i];
        }
      }
    }
  }

  // ---------------------------------------------------------------- the namespace

  datatype Op = Mount(path: seq<byte>, id: nat, flag: Flag) | Unmount(path: seq<byte>)

  function Apply(bs: seq<Bucket>, op: Op): (r: seq<Bucket>)
    requires |bs| > 0
    ensures |r| == |bs|
  {
    var h := HashOf(op.path, |bs|);
    match op
    case Mount(path, id, flag) => bs[h := Insert(bs[h], path, id, flag)]
    case Unmount(path) => bs[h := Remove(bs[h], path)]
  }

  /** The buckets after the operations of a run, whose paths are already normalised. */
  function Buckets(run: Trace<Op>, size: nat): (bs: seq<Bucket>)
    requires size > 0
    ensures |bs| == size
  {
    match run
    case Start => seq(size, _ => [])
    case Then(before, op) => Apply(Buckets(before, size), op)
  }
}
